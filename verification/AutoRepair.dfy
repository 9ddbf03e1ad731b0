/** The document auto-repair: closing an unclosed fence, trimming accidental trailing spaces,
    and splitting and rejoining the lines around both. */
module AutoRepair {
  import opened Wrappers
  import opened TextLines
  import opened Fences

  // ----- Joining and splitting ----------------------------------------------------------

  /** `"\n".join(lines)`. */
  function Join(lines: seq<string>): string {
    if lines == [] then ""
    else if |lines| == 1 then lines[0]
    else lines[0] + "\n" + Join(lines[1..])
  }

  predicate Unbroken(s: string) { forall i :: 0 <= i < |s| ==> !IsBreak(s[i]) }

  predicate AllUnbroken(lines: seq<string>) { forall i :: 0 <= i < |lines| ==> Unbroken(lines[i]) }

  lemma {:induction false} LinesUnbroken(s: string)
    ensures AllUnbroken(Lines(s))
    decreases |s|
  {
    if s != "" {
      LinesUnbroken(s[LineLength(s)..]);
      assert Unbroken(s[..TextLength(s)]);
    }
  }

  lemma {:induction false} TextLengthIs(line: string, rest: string)
    requires Unbroken(line) && (rest != "" ==> IsBreak(rest[0]))
    ensures TextLength(line + rest) == |line|
  {
    if line == "" {
      assert line + rest == rest;
    } else {
      assert (line + rest)[0] == line[0] && (line + rest)[1..] == line[1..] + rest;
      TextLengthIs(line[1..], rest);
    }
  }

  /** One terminated line in front of a text is its first line. */
  lemma SplitFirst(line: string, rest: string)
    requires Unbroken(line)
    ensures Lines(line + "\n" + rest) == [line] + Lines(rest)
  {
    var s := line + "\n" + rest;
    assert s == line + ("\n" + rest);
    TextLengthIs(line, "\n" + rest);
    assert s[TextLength(s)..] == "\n" + rest;
    assert LineLength(s) == |line| + 1;
    assert s[LineLength(s)..] == rest && s[..TextLength(s)] == line;
  }

  lemma SplitOnly(line: string)
    requires Unbroken(line)
    ensures Lines(line) == if line == "" then [] else [line]
  {
    if line != "" {
      assert line + "" == line;
      TextLengthIs(line, "");
      assert line[TextLength(line)..] == "";
      assert line[LineLength(line)..] == "" && line[..TextLength(line)] == line;
    }
  }

  /** Splitting undoes joining when the terminator is restored. */
  lemma {:induction false} SplitTerminated(lines: seq<string>)
    requires lines != [] && AllUnbroken(lines)
    ensures Lines(Join(lines) + "\n") == lines
  {
    var first, rest := lines[0], lines[1..];
    assert lines == [first] + rest;
    if rest == [] {
      SplitFirst(first, "");
      assert first + "\n" + "" == first + "\n";
    } else {
      SplitTerminated(rest);
      SplitFirst(first, Join(rest) + "\n");
      assert (first + "\n" + Join(rest)) + "\n" == first + "\n" + (Join(rest) + "\n");
    }
  }

  /** Without it, an empty last line is lost. */
  lemma {:induction false} SplitUnterminated(lines: seq<string>)
    requires lines != [] && AllUnbroken(lines)
    ensures Lines(Join(lines)) == WithoutEmptyLast(lines)
  {
    var first, rest := lines[0], lines[1..];
    assert lines == [first] + rest;
    if rest == [] {
      SplitOnly(first);
    } else {
      SplitUnterminated(rest);
      SplitFirst(first, Join(rest));
      SetAsideLast(first, rest);
    }
  }

  function WithoutEmptyLast(lines: seq<string>): seq<string>
    requires lines != []
  {
    if lines[|lines| - 1] == "" then lines[..|lines| - 1] else lines
  }

  lemma SetAsideLast(first: string, rest: seq<string>)
    requires rest != []
    ensures WithoutEmptyLast([first] + rest) == [first] + WithoutEmptyLast(rest)
  {
  }

  predicate Terminated(s: string) { s != "" && s[|s| - 1] == '\n' }

  lemma {:induction false} JoinTerminated(lines: seq<string>)
    requires lines != [] && AllUnbroken(lines)
    ensures Terminated(Join(lines)) <==> |lines| > 1 && lines[|lines| - 1] == ""
    ensures |lines| > 1 && lines[|lines| - 1] == "" ==> Join(lines) == Join(lines[..|lines| - 1]) + "\n"
  {
    if |lines| > 1 {
      JoinTerminated(lines[1..]);
      var n := |lines| - 1;
      assert lines[..n][0] == lines[0] && lines[..n][1..] == lines[1..][..n - 1];
    }
  }

  // ----- The repairs --------------------------------------------------------------------

  /** The run of a fence-like line; unlike the fence scan, any indentation is ignored. */
  function MarkerOf(line: string): Option<string> {
    match FenceAt(Strip(line))
    case None => None
    case Some(f) => Some(Strip(line)[..f.run])
  }

  /** Which lines the tracker takes for fences: between its outer white space the line starts with a
      marker that no further character of its kind follows. */
  lemma MarkerOfIff(line: string, m: string)
    ensures MarkerOf(line) == Some(m)
       <==> exists rest :: IsMarker(m) && Strip(line) == m + rest && (rest == "" || rest[0] != m[0]) && OneLine(rest)
  {
    var s := Strip(line);
    forall rest | IsMarker(m) && s == m + rest && (rest == "" || rest[0] != m[0]) && OneLine(rest)
      ensures MarkerOf(line) == Some(m)
    {
      assert m == Repeated(m[0], |m|) && s[0] == m[0];
      RunOfRepeated(m[0], |m|, rest);
      assert s[|m|..] == rest && s[..|m|] == m;
    }
    if MarkerOf(line) == Some(m) {
      assert s == m + s[|m|..] && m[0] == s[0];
    }
  }

  /** Any later run of the same character closes, however short and whatever follows it. */
  function Track(line: string, current: Option<string>): Option<string> {
    match MarkerOf(line)
    case None => current
    case Some(m) =>
      if current.None? then Some(m)
      else if |current.value| >= 3 && current.value[..3] <= m then None
      else current
  }

  function TrackAll(lines: seq<string>, current: Option<string>): Option<string> {
    if lines == [] then current else TrackAll(lines[1..], Track(lines[0], current))
  }

  method FixUnclosedFences(lines: seq<string>) returns (fixedLines: seq<string>, fixes: nat)
    ensures match TrackAll(lines, None)
            case None => fixedLines == lines && fixes == 0
            case Some(m) => fixedLines == lines + [m] && fixes == 1
  {
    var openFence: Option<string> := None;
    for i := 0 to |lines|
      invariant openFence == TrackAll(lines[..i], None)
    {
      TrackConcat(lines[..i], [lines[i]], None);
      assert lines[..i + 1] == lines[..i] + [lines[i]];
      assert [lines[i]][1..] == [];
      openFence := Track(lines[i], openFence);
    }
    assert lines[..|lines|] == lines;
    if openFence.Some? { return lines + [openFence.value], 1; }
    return lines, 0;
  }

  lemma {:induction false} TrackConcat(a: seq<string>, b: seq<string>, current: Option<string>)
    ensures TrackAll(a + b, current) == TrackAll(b, TrackAll(a, current))
  {
    if a == [] {
      assert a + b == b;
    } else {
      assert (a + b)[1..] == a[1..] + b;
      TrackConcat(a[1..], b, Track(a[0], current));
    }
  }

  /** A single trailing space; two of them are an intended line break. */
  predicate Accidental(line: string) {
    line != "" && line[|line| - 1] == ' ' && !(|line| >= 2 && line[|line| - 2] == ' ')
  }

  lemma AccidentalIff(line: string)
    ensures Accidental(line) <==> exists t :: line == t + " " && (t == "" || t[|t| - 1] != ' ')
  {
    if Accidental(line) { assert line == line[..|line| - 1] + " "; }
  }

  function TrimLine(line: string, fenced: bool): string {
    if !fenced && Accidental(line) then line[..|line| - 1] else line
  }

  function Trim(lines: seq<string>, flags: seq<bool>): (r: seq<string>)
    requires |flags| == |lines|
    ensures |r| == |lines|
  {
    if lines == [] then [] else [TrimLine(lines[0], flags[0])] + Trim(lines[1..], flags[1..])
  }

  function TrimCount(lines: seq<string>, flags: seq<bool>): (n: nat)
    requires |flags| == |lines|
    ensures n == 0 <==> Trim(lines, flags) == lines
  {
    if lines == [] then 0
    else
      assert lines == [lines[0]] + lines[1..];
      (if !flags[0] && Accidental(lines[0]) then 1 else 0) + TrimCount(lines[1..], flags[1..])
  }

  lemma {:induction false} TrimSnoc(lines: seq<string>, flags: seq<bool>, line: string, flag: bool)
    requires |flags| == |lines|
    ensures Trim(lines + [line], flags + [flag]) == Trim(lines, flags) + [TrimLine(line, flag)]
    ensures TrimCount(lines + [line], flags + [flag])
         == TrimCount(lines, flags) + (if !flag && Accidental(line) then 1 else 0)
  {
    if lines == [] {
      assert lines + [line] == [line] && flags + [flag] == [flag];
      assert [line][1..] == [] && [flag][1..] == [];
    } else {
      assert (lines + [line])[1..] == lines[1..] + [line] && (flags + [flag])[1..] == flags[1..] + [flag];
      TrimSnoc(lines[1..], flags[1..], line, flag);
    }
  }

  lemma TrimStep(lines: seq<string>, flags: seq<bool>, i: nat)
    requires |flags| == |lines| && i < |lines|
    ensures Trim(lines[..i + 1], flags[..i + 1]) == Trim(lines[..i], flags[..i]) + [TrimLine(lines[i], flags[i])]
    ensures TrimCount(lines[..i + 1], flags[..i + 1])
         == TrimCount(lines[..i], flags[..i]) + (if !flags[i] && Accidental(lines[i]) then 1 else 0)
  {
    TrimSnoc(lines[..i], flags[..i], lines[i], flags[i]);
    assert lines[..i + 1] == lines[..i] + [lines[i]] && flags[..i + 1] == flags[..i] + [flags[i]];
  }

  method FixLinebreakHygiene(lines: seq<string>) returns (result: seq<string>, fixes: nat)
    ensures result == Trim(lines, Flags(lines, Closed)) && fixes == TrimCount(lines, Flags(lines, Closed))
  {
    var flags := FencedLineFlags(lines);
    result, fixes := [], 0;
    for i := 0 to |lines|
      invariant result == Trim(lines[..i], flags[..i]) && fixes == TrimCount(lines[..i], flags[..i])
    {
      TrimStep(lines, flags, i);
      if !flags[i] && Accidental(lines[i]) {
        result := result + [lines[i][..|lines[i]| - 1]];
        fixes := fixes + 1;
      } else {
        result := result + [lines[i]];
      }
    }
    assert lines[..|lines|] == lines && flags[..|lines|] == flags;
  }

  function CloseFence(lines: seq<string>): seq<string> {
    var open := TrackAll(lines, None);
    if open.Some? then lines + [open.value] else lines
  }

  function Hygiene(lines: seq<string>): seq<string> { Trim(lines, Flags(lines, Closed)) }

  function Repaired(content: string): string {
    var joined := Join(Hygiene(CloseFence(Lines(content))));
    if Terminated(content) then joined + "\n" else joined
  }

  function Repairs(content: string): nat {
    var lines := Lines(content);
    var closed := CloseFence(lines);
    (if TrackAll(lines, None).Some? then 1 else 0) + TrimCount(closed, Flags(closed, Closed))
  }

  method AutoFixContent(content: string) returns (fixedContent: string, fixes: nat)
    ensures fixedContent == Repaired(content) && fixes == Repairs(content)
  {
    var lines := Lines(content);
    var fenceFixes, linebreakFixes;
    lines, fenceFixes := FixUnclosedFences(lines);
    lines, linebreakFixes := FixLinebreakHygiene(lines);
    fixedContent := Join(lines);
    if Terminated(content) { fixedContent := fixedContent + "\n"; }
    fixes := fenceFixes + linebreakFixes;
  }

  // ----- What trimming leaves alone -----------------------------------------------------

  lemma FenceOfTrimmed(s: string)
    requires s != "" && s[|s| - 1] == ' ' && Unbroken(s)
    ensures FenceAt(s[..|s| - 1]) == FenceAt(s)
  {
    if s[0] in ['`', '~'] {
      var n := RunLength(s, s[0]);
      var tail, short := s[n..], s[..|s| - 1][n..];
      assert short == tail[..|tail| - 1];
      assert forall i :: 0 <= i < |tail| ==> tail[i] == s[n + i];
      assert OneLine(tail) && OneLine(short);
    }
  }

  /** Trimming a line does not change what the fence scan sees in it. */
  lemma TrimKeepsFence(line: string)
    requires Accidental(line) && Unbroken(line)
    ensures ParseFence(line[..|line| - 1]) == ParseFence(line)
  {
    var n := RunLength(line, ' ');
    if n < |line| {
      var text := line[n..];
      assert line[..|line| - 1][n..] == text[..|text| - 1];
      assert Unbroken(text) by { assert forall i :: 0 <= i < |text| ==> text[i] == line[n + i]; }
      FenceOfTrimmed(text);
    }
  }

  lemma TrimKeepsMarker(line: string)
    requires Accidental(line)
    ensures MarkerOf(line[..|line| - 1]) == MarkerOf(line)
  {
  }

  /** Trimming never changes which lines count as fenced. */
  lemma {:induction false} TrimKeepsFlags(lines: seq<string>, st: State)
    requires AllUnbroken(lines)
    ensures Flags(Trim(lines, Flags(lines, st)), st) == Flags(lines, st)
  {
    if lines != [] {
      var flags := Flags(lines, st);
      var trimmed := Trim(lines, flags);
      assert flags[1..] == Flags(lines[1..], Next(lines[0], st));
      assert trimmed[1..] == Trim(lines[1..], flags[1..]);
      if Accidental(lines[0]) { TrimKeepsFence(lines[0]); }
      TrimKeepsFlags(lines[1..], Next(lines[0], st));
    }
  }

  lemma {:induction false} TrimKeepsTrack(lines: seq<string>, flags: seq<bool>, current: Option<string>)
    requires |flags| == |lines|
    ensures TrackAll(Trim(lines, flags), current) == TrackAll(lines, current)
  {
    if lines != [] {
      assert Trim(lines, flags)[1..] == Trim(lines[1..], flags[1..]);
      if Accidental(lines[0]) { TrimKeepsMarker(lines[0]); }
      TrimKeepsTrack(lines[1..], flags[1..], Track(lines[0], current));
    }
  }

  lemma {:induction false} TrimTwice(lines: seq<string>, flags: seq<bool>)
    requires |flags| == |lines|
    ensures Trim(Trim(lines, flags), flags) == Trim(lines, flags)
  {
    if lines != [] {
      var trimmed := Trim(lines, flags);
      assert trimmed[1..] == Trim(lines[1..], flags[1..]);
      TrimTwice(lines[1..], flags[1..]);
      assert TrimLine(trimmed[0], flags[0]) == trimmed[0];
    }
  }

  lemma {:induction false} TrimUnbroken(lines: seq<string>, flags: seq<bool>)
    requires |flags| == |lines| && AllUnbroken(lines)
    ensures AllUnbroken(Trim(lines, flags))
  {
    if lines != [] {
      assert forall i :: 0 <= i < |lines| - 1 ==> lines[1..][i] == lines[i + 1];
      TrimUnbroken(lines[1..], flags[1..]);
      assert Unbroken(TrimLine(lines[0], flags[0]));
    }
  }

  // ----- Closing the fence --------------------------------------------------------------

  /** An open marker is a run of one fence character. */
  predicate IsMarker(m: string) {
    |m| >= 3 && m[0] in ['`', '~'] && forall i :: 0 <= i < |m| ==> m[i] == m[0]
  }

  lemma {:induction false} OpenIsMarker(lines: seq<string>, current: Option<string>)
    requires current.Some? ==> IsMarker(current.value)
    ensures TrackAll(lines, current).Some? ==> IsMarker(TrackAll(lines, current).value)
  {
    if lines != [] {
      OpenIsMarker(lines[1..], Track(lines[0], current));
    }
  }

  lemma {:induction false} RunOfMarker(m: string, c: char)
    requires forall i :: 0 <= i < |m| ==> m[i] == c
    ensures RunLength(m, c) == |m|
  {
    if m != "" { RunOfMarker(m[1..], c); }
  }

  lemma MarkerOfMarker(m: string)
    requires IsMarker(m)
    ensures MarkerOf(m) == Some(m) && Track(m, Some(m)) == None && Unbroken(m)
  {
    assert Strip(m) == m;
    RunOfMarker(m, m[0]);
    assert m[..|m|] == m;
  }

  /** After closing, the tracker finds nothing open. */
  lemma CloseFenceCloses(lines: seq<string>)
    requires AllUnbroken(lines)
    ensures TrackAll(CloseFence(lines), None) == None
    ensures AllUnbroken(CloseFence(lines))
  {
    var open := TrackAll(lines, None);
    if open.Some? {
      OpenIsMarker(lines, None);
      MarkerOfMarker(open.value);
      TrackConcat(lines, [open.value], None);
      assert [open.value][1..] == [];
      assert TrackAll([open.value], open) == Track(open.value, open);
    }
  }

  // ----- Convergence --------------------------------------------------------------------

  /** Lines no repair would touch. */
  predicate Clean(lines: seq<string>) {
    && AllUnbroken(lines)
    && TrackAll(lines, None) == None
    && Trim(lines, Flags(lines, Closed)) == lines
  }

  lemma RepairedLinesClean(content: string)
    ensures Clean(Hygiene(CloseFence(Lines(content))))
  {
    LinesUnbroken(content);
    var closed := CloseFence(Lines(content));
    CloseFenceCloses(Lines(content));
    var flags := Flags(closed, Closed);
    TrimUnbroken(closed, flags);
    TrimKeepsTrack(closed, flags, None);
    TrimKeepsFlags(closed, Closed);
    TrimTwice(closed, flags);
  }

  lemma CleanIsFixpoint(lines: seq<string>)
    requires Clean(lines)
    ensures Hygiene(CloseFence(lines)) == lines
  {
  }

  lemma {:induction false} TrimPrefix(lines: seq<string>, flags: seq<bool>, n: nat)
    requires |flags| == |lines| && n <= |lines| && Trim(lines, flags) == lines
    ensures Trim(lines[..n], flags[..n]) == lines[..n]
  {
    if n > 0 {
      assert Trim(lines, flags)[1..] == Trim(lines[1..], flags[1..]);
      assert lines[..n][1..] == lines[1..][..n - 1] && flags[..n][1..] == flags[1..][..n - 1];
      TrimPrefix(lines[1..], flags[1..], n - 1);
    }
  }

  /** Dropping an empty last line keeps a document clean. */
  lemma CleanWithoutEmptyLast(lines: seq<string>)
    requires Clean(lines) && lines != [] && lines[|lines| - 1] == ""
    ensures Clean(lines[..|lines| - 1])
  {
    var n := |lines| - 1;
    var init := lines[..n];
    assert lines == init + [""];
    TrackConcat(init, [""], None);
    assert [""][1..] == [] && MarkerOf("") == None;
    FlagsConcat(init, [""], Closed);
    assert Flags(lines, Closed)[..n] == Flags(init, Closed);
    TrimPrefix(lines, Flags(lines, Closed), n);
  }

  /** The repair converges in one application: a repaired document is left as it is, and no
      further repair is counted.  Terminated or not, and whatever its line breaks were. */
  lemma RepairIdempotent(content: string)
    ensures Repaired(Repaired(content)) == Repaired(content)
    ensures Repairs(Repaired(content)) == 0
  {
    var lines := Hygiene(CloseFence(Lines(content)));
    var once := Repaired(content);
    RepairedLinesClean(content);
    if Terminated(content) {
      assert Lines(content) != [];
      SplitTerminated(lines);
      CleanIsFixpoint(lines);
    } else if lines == [] {
      assert once == "";
    } else {
      SplitUnterminated(lines);
      JoinTerminated(lines);
      if lines[|lines| - 1] == "" {
        CleanWithoutEmptyLast(lines);
        CleanIsFixpoint(lines[..|lines| - 1]);
      } else {
        CleanIsFixpoint(lines);
      }
    }
  }

  // ----- What a zero count means --------------------------------------------------------

  predicate OnlyLineFeeds(s: string) { forall i :: 0 <= i < |s| && IsBreak(s[i]) ==> s[i] == '\n' }

  lemma {:induction false} JoinOnlyLineFeeds(lines: seq<string>)
    requires AllUnbroken(lines)
    ensures OnlyLineFeeds(Join(lines))
  {
    if |lines| > 1 { JoinOnlyLineFeeds(lines[1..]); }
  }

  function Rejoined(s: string): string {
    Closing(Join(Lines(s)), Terminated(s))
  }

  lemma {:induction false} RejoinLineFeeds(s: string)
    requires OnlyLineFeeds(s)
    ensures Rejoined(s) == s
    decreases |s|
  {
    if s != "" {
      var t := TextLength(s);
      if t == |s| {
        SplitOnly(s);
      } else {
        var line, rest := s[..t], s[t + 1..];
        assert s[t] == '\n' && s == line + "\n" + rest;
        RejoinLineFeeds(rest);
        RejoinStep(line, rest);
      }
    }
  }

  function Closing(joined: string, terminated: bool): string {
    if terminated then joined + "\n" else joined
  }

  lemma ClosingAppends(head: string, joined: string, terminated: bool)
    ensures head + Closing(joined, terminated) == Closing(head + joined, terminated)
  {
    assert head + (joined + "\n") == (head + joined) + "\n";
  }

  lemma TerminatedSuffix(head: string, rest: string)
    requires rest != ""
    ensures Terminated(head + rest) <==> Terminated(rest)
  {
  }

  lemma RejoinStep(line: string, rest: string)
    requires Unbroken(line) && Rejoined(rest) == rest
    ensures Rejoined(line + "\n" + rest) == line + "\n" + rest
  {
    var head := line + "\n";
    SplitFirst(line, rest);
    NoLines(rest);
    if rest == "" {
      assert head + rest == head;
    } else {
      TerminatedSuffix(head, rest);
      ClosingAppends(head, Join(Lines(rest)), Terminated(rest));
    }
  }

  lemma NoLines(s: string)
    ensures Lines(s) == [] <==> s == ""
  {
  }

  /** A zero repair count means unchanged text exactly for documents whose only line breaks are
      line feeds; any other break is rewritten or dropped without being counted. */
  lemma ZeroRepairsUnchangedIff(content: string)
    requires Repairs(content) == 0
    ensures Repaired(content) == content <==> OnlyLineFeeds(content)
  {
    LinesUnbroken(content);
    assert Hygiene(CloseFence(Lines(content))) == Lines(content);
    assert Repaired(content) == Rejoined(content);
    JoinOnlyLineFeeds(Lines(content));
    if OnlyLineFeeds(content) { RejoinLineFeeds(content); }
  }

  /** A carriage return ends a line, is not a line feed, and is lost without being counted. */
  lemma CarriageReturnIsDropped()
    ensures Repaired("a\r") == "a" && Repairs("a\r") == 0
  {
    var content := "a\r";
    assert content[1..] == "\r" && content[1..][1..] == "" && content[..1] == "a";
    assert TextLength("\r") == 0 && TextLength(content) == 1 && LineLength(content) == 2;
    assert content[LineLength(content)..] == "";
    assert Lines(content) == ["a"];
    assert "a"[..0] == "" && "a"[1..] == "";
    assert Strip("a") == "a" && MarkerOf("a") == None && RunLength("a", ' ') == 0 && "a"[0..] == "a";
    assert ["a"][1..] == [] && TrackAll(["a"], None) == None;
    assert Trim(["a"], [false]) == ["a"];
    assert Flags(["a"], Closed) == [false];
  }
}
