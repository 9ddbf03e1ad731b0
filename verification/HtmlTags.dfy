/** The pairing of structural HTML tags outside fenced code blocks. */
module HtmlTags {
  import opened Wrappers
  import opened Nesting
  import Fences

  /** A tag as the tag pattern matches it on a line. */
  datatype Tag = Tag(closing: bool, name: string)

  datatype Event = Event(closing: bool, tag: string, line: nat)

  datatype Finding = Unexpected(tag: string, line: nat) | Unclosed(tag: string, line: nat)

  function LowerChar(c: char): char {
    if 'A' <= c <= 'Z' then c - 'A' + 'a' else c
  }

  /** Tag names are letters and digits of ASCII. */
  function Lower(s: string): (r: string)
    ensures |r| == |s|
  {
    seq(|s|, i requires 0 <= i < |s| => LowerChar(s[i]))
  }

  predicate Paired(tag: string) {
    tag in ["details", "summary", "div", "span", "table", "thead", "tbody", "tr", "th", "td"]
  }

  predicate Void(tag: string) { tag in ["br", "hr", "img", "input"] }

  lemma VoidIsNotPaired(tag: string)
    ensures Void(tag) ==> !Paired(tag)
  {
    if Void(tag) { assert tag[0] == 'b' || tag[0] == 'h' || tag[0] == 'i'; }
  }

  // ----- The tags of a document -----------------------------------------------------------------

  function LineEvents(tags: seq<Tag>, line: nat): seq<Event> {
    if tags == [] then []
    else
      var t := tags[|tags| - 1];
      LineEvents(tags[..|tags| - 1], line)
      + if Paired(Lower(t.name)) then [Event(t.closing, Lower(t.name), line)] else []
  }

  /** The paired tags of the lines outside fences, in order; `tagsOf` stands for the tag pattern. */
  function Events(lines: seq<string>, fenced: seq<bool>, tagsOf: string -> seq<Tag>): seq<Event>
    requires |lines| == |fenced|
  {
    if lines == [] then []
    else
      var n := |lines| - 1;
      Events(lines[..n], fenced[..n], tagsOf) + if fenced[n] then [] else LineEvents(tagsOf(lines[n]), n + 1)
  }

  // ----- The scan -------------------------------------------------------------------------------------

  /** The open tags with their lines, and the findings so far. */
  datatype Scan = Scan(open: seq<(string, nat)>, findings: seq<Finding>)

  predicate ClosesTop(open: seq<(string, nat)>, e: Event) {
    e.closing && open != [] && open[|open| - 1].0 == e.tag
  }

  function Next(s: Scan, e: Event): Scan {
    if !e.closing then Scan(s.open + [(e.tag, e.line)], s.findings)
    else if ClosesTop(s.open, e) then Scan(s.open[..|s.open| - 1], s.findings)
    else Scan(s.open, s.findings + [Unexpected(e.tag, e.line)])
  }

  function Scanned(events: seq<Event>, s: Scan): Scan {
    if events == [] then s else Next(Scanned(events[..|events| - 1], s), events[|events| - 1])
  }

  lemma {:induction false} ScannedConcat(a: seq<Event>, b: seq<Event>, s: Scan)
    ensures Scanned(a + b, s) == Scanned(b, Scanned(a, s))
  {
    if b == [] {
      assert a + b == a;
    } else {
      ScannedConcat(a, b[..|b| - 1], s);
      assert (a + b)[..|a + b| - 1] == a + b[..|b| - 1];
    }
  }

  function UnclosedTags(open: seq<(string, nat)>): seq<Finding> {
    seq(|open|, k requires 0 <= k < |open| => Unclosed(open[k].0, open[k].1))
  }

  /** The open tags with their lines, shared by the calls for successive tags. */
  class TagStack {
    var open: seq<(string, nat)>

    constructor ()
      ensures open == []
    {
      open := [];
    }

    method ProcessHtmlTag(closing: bool, tag: string, line: nat) returns (finding: Option<Finding>)
      modifies this
      ensures open == Next(Scan(old(open), []), Event(closing, tag, line)).open
      ensures var e := Event(closing, tag, line);
        finding == if closing && !ClosesTop(old(open), e) then Some(Unexpected(tag, line)) else None
    {
      if closing {
        if open != [] && open[|open| - 1].0 == tag {
          open := open[..|open| - 1];
          return None;
        }
        return Some(Unexpected(tag, line));
      }
      open := open + [(tag, line)];
      return None;
    }

    method ExtractLineHtmlFindings(tags: seq<Tag>, line: nat) returns (findings: seq<Finding>)
      modifies this
      ensures Scan(open, findings) == Scanned(LineEvents(tags, line), Scan(old(open), []))
    {
      findings := [];
      for i := 0 to |tags|
        invariant Scan(open, findings) == Scanned(LineEvents(tags[..i], line), Scan(old(open), []))
      {
        ghost var sofar := LineEvents(tags[..i], line);
        LineEventsNext(tags, i, line);
        var tag := Lower(tags[i].name);
        VoidIsNotPaired(tag);
        if Void(tag) || !Paired(tag) {
          assert LineEvents(tags[..i + 1], line) == sofar;
          continue;
        }
        var finding := ProcessHtmlTag(tags[i].closing, tag, line);
        if finding.Some? { findings := findings + [finding.value]; }
      }
      assert tags[..|tags|] == tags;
    }
  }

  lemma LineEventsNext(tags: seq<Tag>, i: nat, line: nat)
    requires i < |tags|
    ensures LineEvents(tags[..i + 1], line)
      == LineEvents(tags[..i], line)
         + if Paired(Lower(tags[i].name)) then [Event(tags[i].closing, Lower(tags[i].name), line)] else []
  {
    assert tags[..i + 1][..i] == tags[..i];
  }

  lemma EventsNext(lines: seq<string>, fenced: seq<bool>, tagsOf: string -> seq<Tag>, i: nat)
    requires i < |lines| == |fenced|
    ensures Events(lines[..i + 1], fenced[..i + 1], tagsOf)
      == Events(lines[..i], fenced[..i], tagsOf) + if fenced[i] then [] else LineEvents(tagsOf(lines[i]), i + 1)
  {
    assert lines[..i + 1][..i] == lines[..i] && fenced[..i + 1][..i] == fenced[..i];
  }

  /** Findings made earlier do not influence the scan. */
  lemma {:induction false} FindingsApart(events: seq<Event>, open: seq<(string, nat)>, before: seq<Finding>)
    ensures var alone := Scanned(events, Scan(open, []));
      Scanned(events, Scan(open, before)) == Scan(alone.open, before + alone.findings)
  {
    if events != [] { FindingsApart(events[..|events| - 1], open, before); }
  }

  lemma LineScanned(earlier: seq<Event>, tags: seq<Event>, before: Scan, alone: Scan)
    requires before == Scanned(earlier, Scan([], []))
    requires alone == Scanned(tags, Scan(before.open, []))
    ensures Scanned(earlier + tags, Scan([], [])) == Scan(alone.open, before.findings + alone.findings)
  {
    ScannedConcat(earlier, tags, Scan([], []));
    FindingsApart(tags, before.open, before.findings);
  }

  /** The whole scan's report: what it found on the way, then what is still open. */
  function Report(events: seq<Event>): seq<Finding> {
    var s := Scanned(events, Scan([], []));
    s.findings + UnclosedTags(s.open)
  }

  /** `tagsOf` stands for the tag pattern applied to a line without its comments and code spans. */
  method CheckHtmlTags(lines: seq<string>, tagsOf: string -> seq<Tag>) returns (findings: seq<Finding>)
    ensures findings == Report(Events(lines, Fences.Flags(lines, Fences.Closed), tagsOf))
  {
    var fenced := Fences.FencedLineFlags(lines);
    findings := ScanLines(lines, fenced, tagsOf);
  }

  method ScanLines(lines: seq<string>, fenced: seq<bool>, tagsOf: string -> seq<Tag>) returns (findings: seq<Finding>)
    requires |lines| == |fenced|
    ensures findings == Report(Events(lines, fenced, tagsOf))
  {
    findings := [];
    var stack := new TagStack();
    for i := 0 to |lines|
      invariant fresh(stack)
      invariant Scan(stack.open, findings) == Scanned(Events(lines[..i], fenced[..i], tagsOf), Scan([], []))
    {
      ghost var before := Scan(stack.open, findings);
      EventsNext(lines, fenced, tagsOf, i);
      if !fenced[i] {
        var more := stack.ExtractLineHtmlFindings(tagsOf(lines[i]), i + 1);
        ghost var earlier := Events(lines[..i], fenced[..i], tagsOf);
        LineScanned(earlier, LineEvents(tagsOf(lines[i]), i + 1), before, Scan(stack.open, more));
        findings := findings + more;
      } else {
        assert Events(lines[..i + 1], fenced[..i + 1], tagsOf) == Events(lines[..i], fenced[..i], tagsOf);
      }
    }
    assert lines[..|lines|] == lines && fenced[..|lines|] == fenced;
    var unclosed := ReportUnclosed(stack.open);
    findings := findings + unclosed;
  }

  method ReportUnclosed(open: seq<(string, nat)>) returns (findings: seq<Finding>)
    ensures findings == UnclosedTags(open)
  {
    findings := [];
    for i := 0 to |open|
      invariant findings == UnclosedTags(open[..i])
    {
      findings := findings + [Unclosed(open[i].0, open[i].1)];
    }
    assert open[..|open|] == open;
  }

  // ----- What becomes of every tag ----------------------------------------------------------------------

  datatype Placed = Placed(position: nat, event: Event)

  /** The tags read so far: those open, those reported as unexpected, and, in the gaps before,
      between and after the open ones, those already paired. */
  datatype Sifted = Sifted(open: seq<Placed>, unexpected: seq<Placed>, paired: seq<seq<Placed>>)

  predicate Pairs(open: seq<Placed>, e: Event) {
    e.closing && open != [] && open[|open| - 1].event.tag == e.tag
  }

  /** A matching closing tag joins the two innermost gaps around its pair. */
  function Joined(s: Sifted, p: Placed): (r: Sifted)
    requires s.open != [] && |s.paired| == |s.open| + 1
    ensures |r.paired| == |r.open| + 1
  {
    var k := |s.open| - 1;
    Sifted(s.open[..k], s.unexpected, s.paired[..k] + [Enclosed(s.paired[k], s.open[k], s.paired[k + 1], p)])
  }

  function Enclosed(before: seq<Placed>, opening: Placed, inside: seq<Placed>, closing: Placed): seq<Placed> {
    before + [opening] + inside + [closing]
  }

  function SiftNext(s: Sifted, p: Placed): (r: Sifted)
    requires |s.paired| == |s.open| + 1
    ensures |r.paired| == |r.open| + 1
  {
    if !p.event.closing then Sifted(s.open + [p], s.unexpected, s.paired + [[]])
    else if Pairs(s.open, p.event) then Joined(s, p)
    else s.(unexpected := s.unexpected + [p])
  }

  function Sift(events: seq<Event>): (s: Sifted)
    ensures |s.paired| == |s.open| + 1
  {
    if events == [] then Sifted([], [], [[]])
    else SiftNext(Sift(events[..|events| - 1]), Placed(|events| - 1, events[|events| - 1]))
  }

  /** The open tags as the scan's stack keeps them. */
  function Kept(open: seq<Placed>): seq<(string, nat)> {
    seq(|open|, k requires 0 <= k < |open| => (open[k].event.tag, open[k].event.line))
  }

  function UnexpectedTags(tags: seq<Placed>): seq<Finding> {
    seq(|tags|, k requires 0 <= k < |tags| => Unexpected(tags[k].event.tag, tags[k].event.line))
  }

  /** The scan keeps exactly the open tags and reports exactly the unexpected ones. */
  lemma {:induction false} ScanSifts(events: seq<Event>)
    ensures Scanned(events, Scan([], [])) == Scan(Kept(Sift(events).open), UnexpectedTags(Sift(events).unexpected))
  {
    if events != [] {
      var n := |events| - 1;
      ScanSifts(events[..n]);
    }
  }

  // ----- Order and number --------------------------------------------------------------------------------

  predicate Ascending(tags: seq<Placed>) {
    forall i, j :: 0 <= i < j < |tags| ==> tags[i].position < tags[j].position
  }

  predicate Before(tags: seq<Placed>, n: nat) {
    forall i :: 0 <= i < |tags| ==> tags[i].position < n
  }

  function Concat(gaps: seq<seq<Placed>>): seq<Placed> {
    if gaps == [] then [] else Concat(gaps[..|gaps| - 1]) + gaps[|gaps| - 1]
  }

  /** Everything but the unexpected tags: the gaps with the open tags between them. */
  function Interleaved(open: seq<Placed>, paired: seq<seq<Placed>>): seq<Placed>
    requires |paired| == |open| + 1
  {
    if open == [] then paired[0]
    else
      var k := |open| - 1;
      Interleaved(open[..k], paired[..k + 1]) + [open[k]] + paired[k + 1]
  }

  /** Every tag of a document at its position. */
  function AllTags(events: seq<Event>): multiset<Placed> {
    if events == [] then multiset{}
    else AllTags(events[..|events| - 1]) + multiset{Placed(|events| - 1, events[|events| - 1])}
  }

  lemma InterleavedTwice(open: seq<Placed>, paired: seq<seq<Placed>>, p: Placed, q: seq<Placed>)
    requires |paired| == |open| + 1
    ensures Interleaved(open + [p], paired + [q]) == Interleaved(open, paired) + [p] + q
  {
    assert (open + [p])[..|open|] == open && (paired + [q])[..|open| + 1] == paired;
  }

  lemma ConcatSnoc(gaps: seq<seq<Placed>>, q: seq<Placed>)
    ensures Concat(gaps + [q]) == Concat(gaps) + q
  {
    assert (gaps + [q])[..|gaps|] == gaps;
  }

  lemma InterleavedLast(open: seq<Placed>, front: seq<seq<Placed>>, q: seq<Placed>)
    requires |front| == |open| && open != []
    ensures Interleaved(open, front + [q]) == Interleaved(open[..|open| - 1], front) + [open[|open| - 1]] + q
  {
    assert (front + [q])[..|open|] == front;
  }

  /** The last gap with more appended. */
  lemma InterleavedLonger(open: seq<Placed>, front: seq<seq<Placed>>, q: seq<Placed>, more: seq<Placed>)
    requires |front| == |open|
    ensures Interleaved(open, front + [q + more]) == Interleaved(open, front + [q]) + more
  {
    if open != [] {
      InterleavedLast(open, front, q);
      InterleavedLast(open, front, q + more);
      var before := Interleaved(open[..|open| - 1], front) + [open[|open| - 1]];
      assert before + (q + more) == before + q + more;
    } else {
      assert (front + [q + more])[0] == q + more && (front + [q])[0] == q;
    }
  }

  lemma JoinedOrder(s: Sifted, p: Placed)
    requires s.open != [] && |s.paired| == |s.open| + 1
    ensures Interleaved(Joined(s, p).open, Joined(s, p).paired) == Interleaved(s.open, s.paired) + [p]
    ensures multiset(Concat(Joined(s, p).paired)) == multiset(Concat(s.paired)) + multiset{s.open[|s.open| - 1], p}
  {
    var k := |s.open| - 1;
    var front, a, o, b := s.paired[..k], s.paired[k], s.open[k], s.paired[k + 1];
    assert s.open == s.open[..k] + [o] && s.paired == (front + [a]) + [b];
    InterleavedTwice(s.open[..k], front + [a], o, b);
    assert Enclosed(a, o, b, p) == a + ([o] + b + [p]);
    InterleavedLonger(s.open[..k], front, a, [o] + b + [p]);
    ConcatSnoc(front, a);
    ConcatSnoc(front + [a], b);
    ConcatSnoc(front, Enclosed(a, o, b, p));
  }

  /** What the positions of the sifted tags satisfy once `n` tags are read. */
  ghost predicate Placement(s: Sifted, n: nat, all: multiset<Placed>)
    requires |s.paired| == |s.open| + 1
  {
    && Ascending(Interleaved(s.open, s.paired)) && Before(Interleaved(s.open, s.paired), n)
    && Ascending(s.unexpected) && Before(s.unexpected, n)
    && multiset(Concat(s.paired)) + multiset(s.open) + multiset(s.unexpected) == all
  }

  lemma OneMore(tags: seq<Placed>, p: Placed)
    requires Ascending(tags) && Before(tags, p.position)
    ensures Ascending(tags + [p]) && Before(tags + [p], p.position + 1)
  {
  }

  lemma BeforeMore(tags: seq<Placed>, n: nat)
    requires Before(tags, n)
    ensures Before(tags, n + 1)
  {
  }

  lemma PlacementOpen(s: Sifted, p: Placed, all: multiset<Placed>)
    requires |s.paired| == |s.open| + 1 && Placement(s, p.position, all)
    ensures Placement(Sifted(s.open + [p], s.unexpected, s.paired + [[]]), p.position + 1, all + multiset{p})
  {
    OneMore(Interleaved(s.open, s.paired), p);
    BeforeMore(s.unexpected, p.position);
    InterleavedTwice(s.open, s.paired, p, []);
    assert Interleaved(s.open, s.paired) + [p] + [] == Interleaved(s.open, s.paired) + [p];
    ConcatSnoc(s.paired, []);
    assert Concat(s.paired) + [] == Concat(s.paired);
  }

  lemma PlacementClose(s: Sifted, p: Placed, all: multiset<Placed>)
    requires |s.paired| == |s.open| + 1 && s.open != [] && Placement(s, p.position, all)
    ensures Placement(Joined(s, p), p.position + 1, all + multiset{p})
  {
    OneMore(Interleaved(s.open, s.paired), p);
    BeforeMore(s.unexpected, p.position);
    JoinedOrder(s, p);
    assert s.open == s.open[..|s.open| - 1] + [s.open[|s.open| - 1]];
  }

  lemma PlacementUnexpected(s: Sifted, p: Placed, all: multiset<Placed>)
    requires |s.paired| == |s.open| + 1 && Placement(s, p.position, all)
    ensures Placement(s.(unexpected := s.unexpected + [p]), p.position + 1, all + multiset{p})
  {
    OneMore(s.unexpected, p);
    BeforeMore(Interleaved(s.open, s.paired), p.position);
  }

  lemma PlacementNext(s: Sifted, p: Placed, all: multiset<Placed>)
    requires |s.paired| == |s.open| + 1 && Placement(s, p.position, all)
    ensures Placement(SiftNext(s, p), p.position + 1, all + multiset{p})
  {
    if !p.event.closing {
      PlacementOpen(s, p, all);
    } else if Pairs(s.open, p.event) {
      PlacementClose(s, p, all);
    } else {
      PlacementUnexpected(s, p, all);
    }
  }

  lemma {:induction false} SiftPlacement(events: seq<Event>)
    ensures Placement(Sift(events), |events|, AllTags(events))
  {
    if events == [] {
      var gaps := Sift([]).paired;
      assert gaps[..0] == [] && Concat(gaps) == Concat(gaps[..0]) + gaps[0];
    } else {
      var n := |events| - 1;
      SiftPlacement(events[..n]);
      PlacementNext(Sift(events[..n]), Placed(n, events[n]), AllTags(events[..n]));
    }
  }

  lemma AscendingParts(front: seq<Placed>, o: Placed, last: seq<Placed>, n: nat)
    requires Ascending(front + [o] + last) && Before(front + [o] + last, n)
    ensures Ascending(front) && Before(front, o.position) && o.position < n
    ensures Ascending(last) && Before(last, n) && forall i :: 0 <= i < |last| ==> o.position < last[i].position
  {
    var whole := front + [o] + last;
    assert whole[|front|] == o;
    assert forall i :: 0 <= i < |front| ==> whole[i] == front[i];
    assert forall i :: 0 <= i < |last| ==> last[i] == whole[|front| + 1 + i];
  }

  /** Without the open tags the order stays. */
  lemma {:induction false} GapsInOrder(open: seq<Placed>, paired: seq<seq<Placed>>, n: nat)
    requires |paired| == |open| + 1
    requires Ascending(Interleaved(open, paired)) && Before(Interleaved(open, paired), n)
    ensures Ascending(Concat(paired)) && Ascending(open)
    ensures Before(Concat(paired), n) && Before(open, n)
    decreases |open|
  {
    if open == [] {
      assert paired[..0] == [] && Concat(paired) == Concat(paired[..0]) + paired[0];
    } else {
      var k := |open| - 1;
      AscendingParts(Interleaved(open[..k], paired[..k + 1]), open[k], paired[k + 1], n);
      GapsInOrder(open[..k], paired[..k + 1], open[k].position);
    }
  }

  // ----- Nesting ------------------------------------------------------------------------------------------

  function TokenOf(e: Event): Token<string> { if e.closing then Close(e.tag) else Open(e.tag) }

  function Tokens(events: seq<Event>): seq<Token<string>> {
    seq(|events|, i requires 0 <= i < |events| => TokenOf(events[i]))
  }

  function TokensOf(tags: seq<Placed>): seq<Token<string>> {
    seq(|tags|, i requires 0 <= i < |tags| => TokenOf(tags[i].event))
  }

  lemma TokensOfConcat(a: seq<Placed>, b: seq<Placed>)
    ensures TokensOf(a + b) == TokensOf(a) + TokensOf(b)
  {
  }

  lemma NestedConcat(a: seq<Token<string>>, b: seq<Token<string>>)
    requires WellNested(a) && WellNested(b)
    ensures WellNested(a + b)
  {
    RecognisesGrammar(a);
    RecognisesGrammar(b);
    RunConcat(a, b, []);
    RecognisesGrammar(a + b);
  }

  lemma NestedPair(kind: string, inner: seq<Token<string>>)
    requires WellNested(inner)
    ensures WellNested([Open(kind)] + inner + [Close(kind)])
  {
    var t: Tree<string> :| Yield(t) == inner;
    assert Yield(Nested(kind, t, Empty)) == [Open(kind)] + inner + [Close(kind)];
  }

  lemma EnclosedNested(a: seq<Placed>, o: Placed, b: seq<Placed>, c: Placed)
    requires WellNested(TokensOf(a)) && WellNested(TokensOf(b))
    requires !o.event.closing && c.event.closing && o.event.tag == c.event.tag
    ensures WellNested(TokensOf(Enclosed(a, o, b, c)))
  {
    NestedPair(o.event.tag, TokensOf(b));
    NestedConcat(TokensOf(a), [Open(o.event.tag)] + TokensOf(b) + [Close(o.event.tag)]);
    assert TokensOf(Enclosed(a, o, b, c)) == TokensOf(a) + ([Open(o.event.tag)] + TokensOf(b) + [Close(o.event.tag)]);
  }

  ghost predicate Sorted(s: Sifted) {
    && (forall k :: 0 <= k < |s.paired| ==> WellNested(TokensOf(s.paired[k])))
    && (forall k :: 0 <= k < |s.open| ==> !s.open[k].event.closing)
    && (forall k :: 0 <= k < |s.unexpected| ==> s.unexpected[k].event.closing)
  }

  lemma NothingNested()
    ensures WellNested(TokensOf([]))
  {
    assert Yield(Tree<string>.Empty) == TokensOf([]);
  }

  lemma SortedNext(s: Sifted, p: Placed)
    requires |s.paired| == |s.open| + 1 && Sorted(s)
    ensures Sorted(SiftNext(s, p))
  {
    NothingNested();
    if Pairs(s.open, p.event) {
      var k := |s.open| - 1;
      EnclosedNested(s.paired[k], s.open[k], s.paired[k + 1], p);
    }
  }

  lemma {:induction false} SiftSorted(events: seq<Event>)
    ensures Sorted(Sift(events))
  {
    if events == [] {
      NothingNested();
    } else {
      SiftSorted(events[..|events| - 1]);
      SortedNext(Sift(events[..|events| - 1]), Placed(|events| - 1, events[|events| - 1]));
    }
  }

  lemma {:induction false} GapsNested(gaps: seq<seq<Placed>>)
    requires forall k :: 0 <= k < |gaps| ==> WellNested(TokensOf(gaps[k]))
    ensures WellNested(TokensOf(Concat(gaps)))
  {
    if gaps == [] {
      NothingNested();
    } else {
      var n := |gaps| - 1;
      GapsNested(gaps[..n]);
      TokensOfConcat(Concat(gaps[..n]), gaps[n]);
      NestedConcat(TokensOf(Concat(gaps[..n])), TokensOf(gaps[n]));
    }
  }

  /** Every tag is reported once or belongs to the paired tags, never both: the report names the
      unexpected closing tags and then the unclosed opening ones, each group in document order,
      and what is left after deleting all reported tags is well nested. */
  lemma EveryTagOnce(events: seq<Event>)
    ensures var s := Sift(events); var paired := Concat(s.paired);
      && multiset(paired) + multiset(s.open) + multiset(s.unexpected) == AllTags(events)
      && Ascending(paired) && Ascending(s.open) && Ascending(s.unexpected)
      && WellNested(TokensOf(paired))
      && (forall k :: 0 <= k < |s.open| ==> !s.open[k].event.closing)
      && (forall k :: 0 <= k < |s.unexpected| ==> s.unexpected[k].event.closing)
    ensures Report(events) == UnexpectedTags(Sift(events).unexpected) + UnclosedTags(Kept(Sift(events).open))
  {
    var s := Sift(events);
    SiftPlacement(events);
    GapsInOrder(s.open, s.paired, |events|);
    SiftSorted(events);
    GapsNested(s.paired);
    ScanSifts(events);
  }

  function Kinds(open: seq<Placed>): seq<string> {
    seq(|open|, k requires 0 <= k < |open| => open[k].event.tag)
  }

  lemma StrictNext(s: Sifted, p: Placed)
    requires |s.paired| == |s.open| + 1
    ensures var t := SiftNext(s, p);
      && s.unexpected <= t.unexpected
      && Push(TokenOf(p.event), Kinds(s.open)) == if t.unexpected == s.unexpected then Some(Kinds(t.open)) else None
  {
    assert |s.unexpected + [p]| > |s.unexpected|;
    assert Kinds(s.open + [p]) == Kinds(s.open) + [p.event.tag];
    if s.open != [] { assert Kinds(s.open)[..|s.open| - 1] == Kinds(s.open[..|s.open| - 1]); }
  }

  /** Until something unexpected is met the open tags are the stack of the recogniser. */
  lemma {:induction false} StrictRun(events: seq<Event>)
    ensures Run(Tokens(events), []) == if Sift(events).unexpected == [] then Some(Kinds(Sift(events).open)) else None
  {
    if events == [] {
      assert Tokens(events) == [] && Kinds([]) == [];
    } else {
      var n := |events| - 1;
      StrictRun(events[..n]);
      assert Tokens(events) == Tokens(events[..n]) + [TokenOf(events[n])];
      RunSnoc(Tokens(events[..n]), TokenOf(events[n]), []);
      StrictNext(Sift(events[..n]), Placed(n, events[n]));
    }
  }

  /** Nothing is reported exactly on well-nested tags. */
  lemma SilentIffWellNested(events: seq<Event>)
    ensures Report(events) == [] <==> WellNested(Tokens(events))
  {
    var s := Sift(events);
    ScanSifts(events);
    StrictRun(events);
    RecognisesGrammar(Tokens(events));
    assert |Report(events)| == |s.unexpected| + |s.open|;
    assert |Kinds(s.open)| == |s.open|;
  }
}
