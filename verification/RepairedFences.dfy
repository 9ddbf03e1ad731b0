/** What the fence scan sees in a repaired document. */
module RepairedFences {
  import opened Wrappers
  import opened TextLines
  import opened Fences
  import opened AutoRepair

  // ----- Exactly when a repaired document is closed ---------------------------------------

  /** Read off the document before the repair: the tracker and the scan both find nothing open, or
      the tracker's marker is of the character and at least the length of the block the scan has
      open. */
  predicate ClosedAfter(lines: seq<string>) {
    var st := Final(lines, Closed);
    match TrackAll(lines, None)
    case None => st == Closed
    case Some(m) => st.Open? && m != "" && st.marker == m[0] && st.length <= |m|
  }

  lemma AppendedLine(lines: seq<string>, line: string)
    ensures Final(lines + [line], Closed) == Next(line, Final(lines, Closed))
  {
    FlagsConcat(lines, [line], Closed);
    OneLineFinal(line, Final(lines, Closed));
  }

  lemma OneLineFinal(line: string, st: State)
    ensures Final([line], st) == Next(line, st)
  {
    assert [line][1..] == [];
  }

  lemma CloseFenceFinal(lines: seq<string>)
    ensures Final(CloseFence(lines), Closed) == Closed <==> ClosedAfter(lines)
  {
    var open := TrackAll(lines, None);
    if open.Some? {
      OpenIsMarker(lines, None);
      FenceOfMarker(open.value);
      AppendedLine(lines, open.value);
    }
  }

  lemma {:induction false} TrimKeepsFinal(lines: seq<string>, st: State)
    requires AllUnbroken(lines)
    ensures Final(Trim(lines, Flags(lines, st)), st) == Final(lines, st)
  {
    if lines != [] {
      var flags := Flags(lines, st);
      assert flags[1..] == Flags(lines[1..], Next(lines[0], st));
      assert Trim(lines, flags)[1..] == Trim(lines[1..], flags[1..]);
      if Accidental(lines[0]) { TrimKeepsFence(lines[0]); }
      TrimKeepsFinal(lines[1..], Next(lines[0], st));
    }
  }

  /** The lines of the repaired text are the repaired lines, less an empty last one. */
  lemma RepairedLines(content: string)
    ensures var lines := Hygiene(CloseFence(Lines(content)));
      Lines(Repaired(content)) == lines || (lines != [] && Lines(Repaired(content)) == WithoutEmptyLast(lines))
  {
    var lines := Hygiene(CloseFence(Lines(content)));
    RepairedLinesClean(content);
    if Terminated(content) {
      assert Lines(content) != [];
      SplitTerminated(lines);
    } else if lines != [] {
      SplitUnterminated(lines);
    }
  }

  lemma EmptyLastLine(lines: seq<string>)
    requires lines != []
    ensures Final(WithoutEmptyLast(lines), Closed) == Final(lines, Closed)
  {
    var n := |lines| - 1;
    if lines[n] == "" {
      assert lines == lines[..n] + [""];
      AppendedLine(lines[..n], "");
    }
  }

  /** A repaired document ends outside any block exactly when the original meets the condition. */
  lemma RepairedClosedIff(content: string)
    ensures Final(Lines(Repaired(content)), Closed) == Closed <==> ClosedAfter(Lines(content))
  {
    var closed := CloseFence(Lines(content));
    LinesUnbroken(content);
    CloseFenceCloses(Lines(content));
    CloseFenceFinal(Lines(content));
    TrimKeepsFinal(closed, Closed);
    RepairedLines(content);
    if Hygiene(closed) != [] { EmptyLastLine(Hygiene(closed)); }
  }

  // ----- A premise about the lines ------------------------------------------------------------

  lemma {:induction false} StripRightKeeps(s: string, n: nat)
    requires n < |s| && !IsSpace(s[n])
    ensures n < |StripRight(s)| && StripRight(s) <= s && StripRight(s)[n..] == StripRight(s[n..])
    decreases |s|
  {
    var last := |s| - 1;
    assert s[n..][|s[n..]| - 1] == s[last];
    if IsSpace(s[last]) {
      StripRightKeeps(s[..last], n);
      assert s[..last][n..] == s[n..][..|s[n..]| - 1];
    }
  }

  lemma {:induction false} StripLeftSpaces(s: string, n: nat)
    requires n < |s| && !IsSpace(s[n]) && forall i :: 0 <= i < n ==> s[i] == ' '
    ensures StripLeft(s) == s[n..]
  {
    if n > 0 {
      assert s[1..][n - 1] == s[n];
      StripLeftSpaces(s[1..], n - 1);
      assert s[1..][n - 1..] == s[n..];
    }
  }

  lemma {:induction false} RunUnstripped(s: string, c: char)
    requires !IsSpace(c)
    ensures RunLength(StripRight(s), c) == RunLength(s, c)
    decreases |s|
  {
    if s != "" && IsSpace(s[|s| - 1]) {
      RunUnstripped(s[..|s| - 1], c);
      RunShorter(s, c);
    }
  }

  lemma {:induction false} RunShorter(s: string, c: char)
    requires s != "" && s[|s| - 1] != c
    ensures RunLength(s[..|s| - 1], c) == RunLength(s, c)
  {
    if |s| > 1 && s[0] == c {
      assert s[..|s| - 1][1..] == s[1..][..|s[1..]| - 1];
      RunShorter(s[1..], c);
    }
  }

  lemma StrippedLine(line: string, n: nat)
    requires n < |line| && !IsSpace(line[n]) && forall i :: 0 <= i < n ==> line[i] == ' '
    ensures Strip(line) == StripRight(line[n..])
  {
    StripRightKeeps(line, n);
    StripLeftSpaces(StripRight(line), n);
  }

  lemma FenceUnstripped(s: string)
    requires Unbroken(s) && FenceAt(s).Some?
    ensures FenceAt(StripRight(s)).Some?
    ensures FenceAt(StripRight(s)).value.marker == FenceAt(s).value.marker
    ensures FenceAt(StripRight(s)).value.run == FenceAt(s).value.run
  {
    var t := StripRight(s);
    StripRightKeeps(s, 0);
    RunUnstripped(s, s[0]);
    assert t[0] == s[0];
    UnbrokenTail(s, t, RunLength(t, s[0]));
  }

  lemma UnbrokenTail(s: string, t: string, n: nat)
    requires Unbroken(s) && t <= s && n <= |t|
    ensures OneLine(t[n..])
  {
    forall i | 0 <= i < |t| - n ensures t[n..][i] == s[n + i] {}
  }

  /** A line the scan reads as a fence, the tracker reads as the same run. */
  lemma TrackerSeesFence(line: string)
    requires Unbroken(line) && ParseFence(line).Some?
    ensures MarkerOf(line).Some? && IsMarker(MarkerOf(line).value)
    ensures MarkerOf(line).value[0] == ParseFence(line).value.marker
    ensures |MarkerOf(line).value| == ParseFence(line).value.run
  {
    var n := RunLength(line, ' ');
    StrippedLine(line, n);
    assert Unbroken(line[n..]) by { assert forall i :: 0 <= i < |line| - n ==> line[n..][i] == line[n + i]; }
    FenceUnstripped(line[n..]);
  }

  /** The line means the same to the tracker and to the scan: no fence is indented beyond what
      counts as one, and inside a block a run of the opening character is a proper closer. */
  predicate ReadAlike(line: string, st: State) {
    && (MarkerOf(line).Some? ==> ParseFence(line).Some?)
    && (ParseFence(line).Some? && st.Open? ==> ProperlyCloses(ParseFence(line).value, st))
  }

  predicate ProperlyCloses(f: Fence, st: State)
    requires st.Open?
  {
    f.marker == st.marker ==> IsClosingFence(f, st.marker, st.length)
  }

  predicate AllReadAlike(lines: seq<string>, st: State) {
    lines == [] || (ReadAlike(lines[0], st) && AllReadAlike(lines[1..], Next(lines[0], st)))
  }

  predicate Correspond(st: State, current: Option<string>) {
    match st
    case Closed => current.None?
    case Open(c, n) => current.Some? && IsMarker(current.value) && current.value[0] == c && |current.value| == n
  }

  lemma TrackedAlike(line: string, st: State, current: Option<string>)
    requires Unbroken(line) && ReadAlike(line, st) && Correspond(st, current)
    ensures Correspond(Next(line, st), Track(line, current))
  {
    if ParseFence(line).Some? {
      TrackerSeesFence(line);
      var m := MarkerOf(line).value;
      if current.Some? {
        var open := current.value;
        assert open[..3] <= m <==> open[0] == m[0] by {
          assert open[0] == m[0] ==> forall i :: 0 <= i < 3 ==> open[i] == m[i];
          assert open[..3] <= m ==> open[..3][0] == m[0];
        }
      }
    }
  }

  lemma {:induction false} AlikeCorrespond(lines: seq<string>, st: State, current: Option<string>)
    requires AllUnbroken(lines) && AllReadAlike(lines, st) && Correspond(st, current)
    ensures Correspond(Final(lines, st), TrackAll(lines, current))
  {
    if lines != [] {
      TrackedAlike(lines[0], st, current);
      AlikeCorrespond(lines[1..], Next(lines[0], st), Track(lines[0], current));
    }
  }

  /** If every line is read alike, the repaired document is closed. */
  lemma AlikeIsClosed(content: string)
    requires AllReadAlike(Lines(content), Closed)
    ensures Final(Lines(Repaired(content)), Closed) == Closed
  {
    LinesUnbroken(content);
    AlikeCorrespond(Lines(content), Closed, None);
    RepairedClosedIff(content);
  }

  // ----- Documents the repair leaves open or opens -----------------------------------------

  /** The tracker closes a block on a shorter run of the same character, the fence scan does
      not: such a document is left alone although the scan still sees an open block. */
  lemma ShorterRunFoolsTracker(long: string, short: string)
    requires IsMarker(long) && IsMarker(short) && long[0] == short[0] && |short| < |long|
    ensures CloseFence([long, short]) == [long, short] && Final([long, short], Closed).Open?
  {
    MarkerOfMarker(long);
    MarkerOfMarker(short);
    FenceOfMarker(long);
    FenceOfMarker(short);
    var lines := [long, short];
    assert lines[1..] == [short] && [short][1..] == [];
    assert long[..3] <= short by { assert forall i :: 0 <= i < 3 ==> long[i] == short[i]; }
    assert TrackAll(lines, None) == TrackAll([short], Some(long)) == Track(short, Some(long));
    assert Final(lines, Closed) == Final([short], Open(long[0], |long|)) == Next(short, Open(long[0], |long|));
  }

  lemma FenceOfMarker(m: string)
    requires IsMarker(m)
    ensures ParseFence(m) == Some(Fence(m[0], |m|, ""))
  {
    RunOfMarker(m, m[0]);
    assert RunLength(m, ' ') == 0 && m[0..] == m && m[|m|..] == "";
  }

  lemma {:induction false} SpacesRun(blanks: string, m: string)
    requires Blanks(blanks) && m != "" && m[0] != ' '
    ensures RunLength(blanks + m, ' ') == |blanks|
  {
    if blanks == "" {
      assert blanks + m == m;
    } else {
      assert (blanks + m)[1..] == blanks[1..] + m;
      SpacesRun(blanks[1..], m);
    }
  }

  predicate Blanks(s: string) { forall i :: 0 <= i < |s| ==> s[i] == ' ' }

  lemma IndentedRun(blanks: string, m: string)
    requires |blanks| >= 4 && Blanks(blanks) && IsMarker(m)
    ensures ParseFence(blanks + m) == None && MarkerOf(blanks + m) == Some(m) && Unbroken(blanks + m)
  {
    var line := blanks + m;
    SpacesRun(blanks, m);
    MarkerOfMarker(m);
    assert line[|blanks|..] == m && StripRight(m) == m && Strip(m) == m;
    StrippedLine(line, |blanks|);
    assert Unbroken(line) by { assert forall i :: 0 <= i < |m| ==> line[|blanks| + i] == m[i]; }
  }

  /** A run indented by four spaces or more is no fence, but the tracker takes it for one: the
      repair itself then opens a block where none was. */
  lemma IndentedRunOpensBlock(blanks: string, m: string)
    requires |blanks| >= 4 && Blanks(blanks) && IsMarker(m)
    ensures Lines(blanks + m) == [blanks + m] && Final([blanks + m], Closed) == Closed
    ensures CloseFence([blanks + m]) == [blanks + m, m] && Final(Lines(Repaired(blanks + m)), Closed) != Closed
  {
    var line := blanks + m;
    IndentedRun(blanks, m);
    OneLineFinal(line, Closed);
    assert [line][1..] == [] && TrackAll([line], None) == Track(line, None);
    SplitOnly(line);
    RepairedClosedIff(line);
  }
}
