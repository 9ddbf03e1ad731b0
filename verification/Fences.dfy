/** Which lines of a document lie inside a fenced code block (CommonMark Spec, section 4.5). */
module Fences {
  import opened Wrappers
  import opened TextLines

  // ----- One line -----------------------------------------------------------------------

  function StripRight(s: string): string {
    if s != "" && IsSpace(s[|s| - 1]) then StripRight(s[..|s| - 1]) else s
  }

  function StripLeft(s: string): string {
    if s != "" && IsSpace(s[0]) then StripLeft(s[1..]) else s
  }

  function Strip(s: string): string { StripLeft(StripRight(s)) }

  function RunLength(s: string, c: char): (n: nat)
    ensures n <= |s| && (n < |s| ==> s[n] != c)
    ensures forall i :: 0 <= i < n ==> s[i] == c
  {
    if s != "" && s[0] == c then 1 + RunLength(s[1..], c) else 0
  }

  /** A line that matches the fence pattern: its character, the length of its run, its info. */
  datatype Fence = Fence(marker: char, run: nat, info: string)

  /** Nothing but the last character may be a line feed. */
  predicate OneLine(s: string) {
    forall i :: 0 <= i < |s| - 1 ==> s[i] != '\n'
  }

  /** A run of three or more backticks or tildes at the start of the text, and what follows. */
  function FenceAt(s: string): Option<Fence> {
    if s == "" || !(s[0] in ['`', '~']) then None
    else
      var n := RunLength(s, s[0]);
      if n < 3 || !OneLine(s[n..]) then None else Some(Fence(s[0], n, Strip(s[n..])))
  }

  /** At most three spaces may stand in front of the run. */
  function ParseFence(line: string): Option<Fence> {
    var n := RunLength(line, ' ');
    if n > 3 then None else FenceAt(line[n..])
  }

  predicate Closes(line: string, opener: Fence) {
    var f := ParseFence(line);
    f.Some? && f.value.info == "" && f.value.marker == opener.marker && f.value.run >= opener.run
  }

  function Repeated(c: char, n: nat): string { seq(n, _ => c) }

  /** A fence as written: at most three spaces, three or more backticks or tildes, and the rest. */
  predicate FenceText(line: string, spaces: nat, marker: char, run: nat, rest: string) {
    && line == Repeated(' ', spaces) + Repeated(marker, run) + rest
    && spaces <= 3 && run >= 3 && (marker == '`' || marker == '~')
    && (rest == "" || rest[0] != marker) && OneLine(rest)
  }

  lemma {:induction false} RunOfRepeated(c: char, n: nat, rest: string)
    requires rest == "" || rest[0] != c
    ensures RunLength(Repeated(c, n) + rest, c) == n
  {
    if n > 0 {
      assert (Repeated(c, n) + rest)[1..] == Repeated(c, n - 1) + rest;
      RunOfRepeated(c, n - 1, rest);
    } else {
      assert Repeated(c, n) + rest == rest;
    }
  }

  lemma RepeatedRun(s: string, c: char)
    ensures s == Repeated(c, RunLength(s, c)) + s[RunLength(s, c)..]
  {
    var n := RunLength(s, c);
    assert s[..n] == Repeated(c, n);
  }

  lemma FenceTextParses(line: string, spaces: nat, marker: char, run: nat, rest: string)
    requires FenceText(line, spaces, marker, run, rest)
    ensures ParseFence(line) == Some(Fence(marker, run, Strip(rest)))
  {
    var text := Repeated(marker, run) + rest;
    assert line == Repeated(' ', spaces) + text && text[0] == marker;
    RunOfRepeated(' ', spaces, text);
    assert line[spaces..] == text;
    RunOfRepeated(marker, run, rest);
    assert text[run..] == rest;
  }

  /** Which lines are fences, and what is read off them. */
  lemma ParseFenceIff(line: string, f: Fence)
    ensures ParseFence(line) == Some(f)
       <==> exists spaces: nat, rest :: FenceText(line, spaces, f.marker, f.run, rest) && f.info == Strip(rest)
  {
    forall spaces: nat, rest | FenceText(line, spaces, f.marker, f.run, rest)
      ensures ParseFence(line) == Some(Fence(f.marker, f.run, Strip(rest)))
    {
      FenceTextParses(line, spaces, f.marker, f.run, rest);
    }
    if ParseFence(line) == Some(f) {
      var n := RunLength(line, ' ');
      RepeatedRun(line, ' ');
      RepeatedRun(line[n..], f.marker);
      var rest := line[n..][f.run..];
      assert line == Repeated(' ', n) + Repeated(f.marker, f.run) + rest;
      assert FenceText(line, n, f.marker, f.run, rest);
    }
  }

  predicate Blank(s: string) { forall i :: 0 <= i < |s| ==> IsSpace(s[i]) }

  lemma {:induction false} StripRightBlank(s: string)
    ensures Blank(StripRight(s)) <==> Blank(s)
    ensures Blank(s) ==> StripRight(s) == ""
  {
    if s != "" && IsSpace(s[|s| - 1]) {
      StripRightBlank(s[..|s| - 1]);
      assert s == s[..|s| - 1] + [s[|s| - 1]];
    }
  }

  lemma {:induction false} StripLeftBlank(s: string)
    ensures StripLeft(s) == "" <==> Blank(s)
  {
    if s != "" && IsSpace(s[0]) {
      StripLeftBlank(s[1..]);
      assert s == [s[0]] + s[1..];
    }
  }

  /** A block is closed by a fence of the same character that is at least as long and is followed by
      white space only. */
  lemma ClosesIff(line: string, opener: Fence)
    ensures Closes(line, opener)
       <==> exists spaces: nat, n: nat, rest ::
              FenceText(line, spaces, opener.marker, n, rest) && n >= opener.run && Blank(rest)
  {
    forall spaces: nat, n: nat, rest | FenceText(line, spaces, opener.marker, n, rest)
      ensures ParseFence(line) == Some(Fence(opener.marker, n, Strip(rest))) && (Strip(rest) == "" <==> Blank(rest))
    {
      FenceTextParses(line, spaces, opener.marker, n, rest);
      StripRightBlank(rest);
      StripLeftBlank(StripRight(rest));
    }
    if Closes(line, opener) {
      var f := ParseFence(line).value;
      ParseFenceIff(line, f);
      var spaces: nat, rest :| FenceText(line, spaces, f.marker, f.run, rest) && f.info == Strip(rest);
      assert FenceText(line, spaces, opener.marker, f.run, rest);
    }
  }

  // ----- The scan -----------------------------------------------------------------------

  datatype State = Closed | Open(marker: char, length: nat)

  predicate IsClosingFence(f: Fence, marker: char, length: nat) {
    f.info == "" && f.marker == marker && f.run >= length
  }

  function Update(f: Fence, st: State): State {
    match st
    case Closed => Open(f.marker, f.run)
    case Open(m, n) => if IsClosingFence(f, m, n) then Closed else st
  }

  function Next(line: string, st: State): State {
    match ParseFence(line)
    case None => st
    case Some(f) => Update(f, st)
  }

  predicate Flag(line: string, st: State) { ParseFence(line).Some? || st.Open? }

  function Flags(lines: seq<string>, st: State): (flags: seq<bool>)
    ensures |flags| == |lines|
  {
    if lines == [] then [] else [Flag(lines[0], st)] + Flags(lines[1..], Next(lines[0], st))
  }

  function Final(lines: seq<string>, st: State): State {
    if lines == [] then st else Final(lines[1..], Next(lines[0], st))
  }

  lemma {:induction false} FlagsConcat(a: seq<string>, b: seq<string>, st: State)
    ensures Flags(a + b, st) == Flags(a, st) + Flags(b, Final(a, st))
    ensures Final(a + b, st) == Final(b, Final(a, st))
  {
    FinalConcat(a, b, st);
    if a == [] {
      assert a + b == b;
    } else {
      assert a == [a[0]] + a[1..];
      FlagsConcat(a[1..], b, Next(a[0], st));
      FlagsPrepended(a[0], a[1..], b, st);
    }
  }

  lemma FlagsPrepended(line: string, rest: seq<string>, b: seq<string>, st: State)
    ensures Flags([line] + rest + b, st) == [Flag(line, st)] + Flags(rest + b, Next(line, st))
  {
    assert ([line] + rest + b)[1..] == rest + b;
  }

  lemma {:induction false} FinalConcat(a: seq<string>, b: seq<string>, st: State)
    ensures Final(a + b, st) == Final(b, Final(a, st))
  {
    if a == [] {
      assert a + b == b;
    } else {
      assert (a + b)[1..] == a[1..] + b;
      FinalConcat(a[1..], b, Next(a[0], st));
    }
  }

  method FencedLineFlags(lines: seq<string>) returns (flags: seq<bool>)
    ensures flags == Flags(lines, Closed)
  {
    flags := [];
    var st := Closed;
    for i := 0 to |lines|
      invariant flags == Flags(lines[..i], Closed) && st == Final(lines[..i], Closed)
    {
      var line := lines[i];
      assert lines[..i + 1] == lines[..i] + [line];
      FlagsConcat(lines[..i], [line], Closed);
      assert [line][1..] == [];
      var f := ParseFence(line);
      if f.None? {
        flags := flags + [st.Open?];
      } else {
        st := Update(f.value, st);
        flags := flags + [true];
      }
    }
    assert lines[..|lines|] == lines;
  }

  /** Wherever the first part ends closed the two parts are judged independently. */
  lemma FlagsSplit(a: seq<string>, b: seq<string>)
    requires Final(a, Closed) == Closed
    ensures Flags(a + b, Closed) == Flags(a, Closed) + Flags(b, Closed)
  {
    FlagsConcat(a, b, Closed);
  }

  // ----- The block structure of a document ----------------------------------------------

  /** A plain line, or a block: its opener, lines none of which closes it, and its closer, which
      only the last block of a document may lack. */
  datatype Segment = Plain(line: string) | Block(opener: string, content: seq<string>, closer: Option<string>)

  predicate WellFormedSegment(g: Segment) {
    match g
    case Plain(line) => ParseFence(line).None?
    case Block(opener, content, closer) =>
      && ParseFence(opener).Some?
      && (forall i :: 0 <= i < |content| ==> !Closes(content[i], ParseFence(opener).value))
      && (closer.Some? ==> Closes(closer.value, ParseFence(opener).value))
  }

  predicate WellFormed(gs: seq<Segment>) {
    gs == [] || (&& WellFormedSegment(gs[0])
                 && (gs[0].Block? && gs[0].closer.None? ==> |gs| == 1)
                 && WellFormed(gs[1..]))
  }

  function Rest(closer: Option<string>): seq<string> {
    if closer.Some? then [closer.value] else []
  }

  function Text(g: Segment): (lines: seq<string>)
    ensures lines != []
  {
    match g
    case Plain(line) => [line]
    case Block(opener, content, closer) => [opener] + content + Rest(closer)
  }

  function Flatten(gs: seq<Segment>): seq<string> {
    if gs == [] then [] else Text(gs[0]) + Flatten(gs[1..])
  }

  function Repeat(b: bool, n: nat): seq<bool> { seq(n, _ => b) }

  function SegmentFlags(gs: seq<Segment>): seq<bool> {
    if gs == [] then [] else Repeat(gs[0].Block?, |Text(gs[0])|) + SegmentFlags(gs[1..])
  }

  function OpenedBy(f: Fence): State { Open(f.marker, f.run) }

  lemma {:induction false} ContentStaysOpen(content: seq<string>, f: Fence)
    requires forall i :: 0 <= i < |content| ==> !Closes(content[i], f)
    ensures Flags(content, OpenedBy(f)) == Repeat(true, |content|)
    ensures Final(content, OpenedBy(f)) == OpenedBy(f)
  {
    if content != [] {
      assert !Closes(content[0], f);
      assert forall i :: 0 <= i < |content| - 1 ==> content[1..][i] == content[i + 1];
      ContentStaysOpen(content[1..], f);
    }
  }

  lemma BlockScan(opener: string, content: seq<string>, closer: Option<string>, f: Fence)
    requires ParseFence(opener) == Some(f) && forall i :: 0 <= i < |content| ==> !Closes(content[i], f)
    requires closer.Some? ==> Closes(closer.value, f)
    ensures var lines := [opener] + (content + Rest(closer));
      && Flags(lines, Closed) == Repeat(true, |lines|)
      && Final(lines, Closed) == (if closer.None? then OpenedBy(f) else Closed)
  {
    ContentStaysOpen(content, f);
    FlagsConcat([opener], content + Rest(closer), Closed);
    FlagsConcat(content, Rest(closer), OpenedBy(f));
  }

  lemma SegmentScan(g: Segment)
    requires WellFormedSegment(g)
    ensures Flags(Text(g), Closed) == Repeat(g.Block?, |Text(g)|)
    ensures Final(Text(g), Closed)
         == if g.Block? && g.closer.None? then OpenedBy(ParseFence(g.opener).value) else Closed
  {
    match g
    case Plain(line) =>
    case Block(opener, content, closer) =>
      assert Text(g) == [opener] + (content + Rest(closer));
      BlockScan(opener, content, closer, ParseFence(opener).value);
  }

  /** The scan flags exactly the lines of the blocks. */
  lemma {:induction false} FlagsAreBlocks(gs: seq<Segment>)
    requires WellFormed(gs)
    ensures Flags(Flatten(gs), Closed) == SegmentFlags(gs)
  {
    if gs != [] {
      SegmentScan(gs[0]);
      FlagsConcat(Text(gs[0]), Flatten(gs[1..]), Closed);
      FlagsAreBlocks(gs[1..]);
      if gs[0].Block? && gs[0].closer.None? { assert gs[1..] == []; }
    }
  }

  /** The lines before the first closer of an opener, and that closer. */
  function Content(lines: seq<string>, f: Fence): (n: nat)
    ensures n <= |lines| && (n < |lines| ==> Closes(lines[n], f))
    ensures forall i :: 0 <= i < n ==> !Closes(lines[i], f)
  {
    if lines == [] || Closes(lines[0], f) then 0 else 1 + Content(lines[1..], f)
  }

  function FirstSegment(lines: seq<string>): (g: Segment)
    requires lines != []
    ensures WellFormedSegment(g) && |Text(g)| >= 1 && Text(g) <= lines
    ensures g.Block? && g.closer.None? ==> Text(g) == lines
  {
    match ParseFence(lines[0])
    case None => Plain(lines[0])
    case Some(f) =>
      var rest := lines[1..];
      var n := Content(rest, f);
      if n < |rest| then
        assert lines[..n + 2] == [lines[0]] + rest[..n] + [rest[n]];
        Block(lines[0], rest[..n], Some(rest[n]))
      else
        assert lines == [lines[0]] + rest;
        Block(lines[0], rest, None)
  }

  /** Every document has a block structure ... */
  function Decompose(lines: seq<string>): (gs: seq<Segment>)
    ensures WellFormed(gs) && Flatten(gs) == lines
    decreases |lines|
  {
    if lines == [] then []
    else
      var g := FirstSegment(lines);
      var rest := lines[|Text(g)|..];
      assert Text(g) + rest == lines;
      [g] + Decompose(rest)
  }

  /** ... and only one. */
  lemma {:induction false} DecompositionUnique(a: seq<Segment>, b: seq<Segment>)
    requires WellFormed(a) && WellFormed(b) && Flatten(a) == Flatten(b)
    ensures a == b
  {
    if a != [] && b != [] {
      SameFirst(a, b);
      assert Flatten(a)[|Text(a[0])|..] == Flatten(a[1..]);
      assert Flatten(b)[|Text(b[0])|..] == Flatten(b[1..]);
      DecompositionUnique(a[1..], b[1..]);
      assert a == [a[0]] + a[1..] && b == [b[0]] + b[1..];
    }
  }

  lemma SameFirst(a: seq<Segment>, b: seq<Segment>)
    requires a != [] && b != [] && WellFormed(a) && WellFormed(b) && Flatten(a) == Flatten(b)
    ensures a[0] == b[0]
  {
    var lines := Flatten(a);
    assert lines[0] == Text(a[0])[0] == Text(b[0])[0];
    if a[0].Block? && b[0].Block? {
      var f := ParseFence(lines[0]).value;
      BlockExtent(a, lines, f);
      BlockExtent(b, lines, f);
    }
  }

  lemma {:induction false} ContentLength(lines: seq<string>, f: Fence, n: nat)
    requires n <= |lines| && (n < |lines| ==> Closes(lines[n], f))
    requires forall i :: 0 <= i < n ==> !Closes(lines[i], f)
    ensures Content(lines, f) == n
  {
    if n > 0 {
      assert forall i :: 0 <= i < n - 1 ==> lines[1..][i] == lines[i + 1];
      ContentLength(lines[1..], f, n - 1);
    }
  }

  /** A block's content ends at the first line that closes it. */
  lemma BlockExtent(gs: seq<Segment>, lines: seq<string>, f: Fence)
    requires gs != [] && WellFormed(gs) && lines == Flatten(gs) && gs[0].Block? && ParseFence(gs[0].opener) == Some(f)
    ensures var n := Content(lines[1..], f);
      && gs[0].content == lines[1..][..n]
      && gs[0].closer == (if n < |lines[1..]| then Some(lines[1..][n]) else None)
  {
    BlockRest(gs, lines);
    if gs[0].closer.None? { assert gs[1..] == []; }
    ExtentOf(gs[0].content, gs[0].closer, Rest(gs[0].closer) + Flatten(gs[1..]), f);
  }

  lemma BlockRest(gs: seq<Segment>, lines: seq<string>)
    requires gs != [] && gs[0].Block? && lines == Flatten(gs)
    ensures lines[1..] == gs[0].content + (Rest(gs[0].closer) + Flatten(gs[1..]))
  {
    assert lines == [gs[0].opener] + gs[0].content + Rest(gs[0].closer) + Flatten(gs[1..]);
  }

  lemma ExtentOf(content: seq<string>, closer: Option<string>, tail: seq<string>, f: Fence)
    requires forall i :: 0 <= i < |content| ==> !Closes(content[i], f)
    requires if closer.Some? then tail != [] && tail[0] == closer.value && Closes(closer.value, f) else tail == []
    ensures Content(content + tail, f) == |content|
    ensures (content + tail)[..|content|] == content
    ensures closer.Some? ==> |content| < |content + tail| && (content + tail)[|content|] == closer.value
  {
    var rest := content + tail;
    assert forall i :: 0 <= i < |content| ==> rest[i] == content[i];
    ContentLength(rest, f, |content|);
  }
}
