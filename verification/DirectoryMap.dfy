/** Directory maps drawn in documents: reading the box-drawing listing back into paths, and
    comparing those paths with the disk. */
module DirectoryMap {
  import opened Wrappers
  import opened TextLines

  // ----- Paths ------------------------------------------------------------------------------

  /** A path after normalisation: its anchor (empty when relative) and its components. */
  datatype Path = Path(anchor: string, parts: seq<string>)

  function PieceLength(s: string): (n: nat)
    ensures n <= |s| && (n < |s| ==> s[n] == '/') && forall i :: 0 <= i < n ==> s[i] != '/'
  {
    if s == "" || s[0] == '/' then 0 else 1 + PieceLength(s[1..])
  }

  /** The pieces between slashes; empty pieces and single dots are dropped. */
  function Components(s: string): seq<string>
    decreases |s|
  {
    var n := PieceLength(s);
    (if s[..n] in ["", "."] then [] else [s[..n]]) + (if n == |s| then [] else Components(s[n + 1..]))
  }

  function Anchor(s: string): string {
    if "//" <= s && !("///" <= s) then "//" else if "/" <= s then "/" else ""
  }

  /** `path / name`: an absolute name replaces the path. */
  function Join(p: Path, name: string): Path {
    if Anchor(name) != "" then Path(Anchor(name), Components(name)) else Path(p.anchor, p.parts + Components(name))
  }

  function Parent(p: Path): Path {
    if p.parts == [] then p else Path(p.anchor, p.parts[..|p.parts| - 1])
  }

  function Name(p: Path): string {
    if p.parts == [] then "" else p.parts[|p.parts| - 1]
  }

  predicate Under(p: Path, root: Path) { p.anchor == root.anchor && root.parts <= p.parts }

  /** `path.relative_to(root)`, or None where that raises. */
  function Relative(p: Path, root: Path): Option<seq<string>> {
    if Under(p, root) then Some(p.parts[|root.parts|..]) else None
  }

  // ----- One line -----------------------------------------------------------------------------

  const BAR: string := "\U{2502}   "
  const BLANK: string := "    "
  const TEE: string := "\U{251c}\U{2500}\U{2500} "
  const CORNER: string := "\U{2514}\U{2500}\U{2500} "

  datatype Parsed = Parsed(depth: nat, name: string, dir: bool)

  predicate Unit(s: string) { s == BAR || s == BLANK }

  predicate Connector(s: string) { s == TEE || s == CORNER }

  /** How many indentation units a line starts with. */
  function Units(s: string): (n: nat)
    ensures 4 * n <= |s|
  {
    if |s| >= 4 && Unit(s[..4]) then 1 + Units(s[4..]) else 0
  }

  function WordLength(s: string): (n: nat)
    ensures n <= |s| && (n < |s| ==> IsSpace(s[n])) && forall i :: 0 <= i < n ==> !IsSpace(s[i])
  {
    if s == "" || IsSpace(s[0]) then 0 else 1 + WordLength(s[1..])
  }

  /** `name.rstrip("/")`. */
  function TrimSlashes(s: string): (r: string)
    ensures r <= s && (r != "" ==> r[|r| - 1] != '/')
  {
    if s != "" && s[|s| - 1] == '/' then TrimSlashes(s[..|s| - 1]) else s
  }

  /** What follows the indentation: a connector and a word. */
  function ParseName(rest: string, depth: nat): Option<Parsed> {
    if |rest| < 4 || !Connector(rest[..4]) then None else Word(rest[4..], depth)
  }

  function Word(s: string, depth: nat): Option<Parsed> {
    var word := s[..WordLength(s)];
    if word == "" then None else Some(Parsed(depth, TrimSlashes(word), word[|word| - 1] == '/'))
  }

  function ParseTreeLine(line: string): Option<Parsed> {
    ParseName(line[4 * Units(line)..], Units(line))
  }

  // ----- A whole listing ------------------------------------------------------------------------

  type Numbered = (nat, string)

  datatype TreeEntry = TreeEntry(line: nat, path: Path, dir: bool)

  predicate Ellipsis(name: string) { name in ["...", "\U{2026}"] }

  function Above(ancestors: map<int, Path>, depth: nat, root: Path): Path {
    if depth - 1 in ancestors then ancestors[depth - 1] else root
  }

  function Prefixed<T>(front: seq<T>, rest: Option<seq<T>>): Option<seq<T>> {
    if rest.None? then None else Some(front + rest.value)
  }

  /** What one line contributes: nothing, the end of the whole listing, or a row. */
  datatype Row = Skip | Stop | Row(depth: nat, entry: TreeEntry)

  function ReadRow(line: Numbered, root: Path, ancestors: map<int, Path>): Row {
    match ParseTreeLine(line.1)
    case None => Skip
    case Some(p) =>
      if Ellipsis(p.name) then Stop
      else Row(p.depth, TreeEntry(line.0, Join(Above(ancestors, p.depth, root), p.name), p.dir))
  }

  /** The entries of the remaining lines, or None once an ellipsis marks the listing as partial. */
  function Gather(block: seq<Numbered>, root: Path, ancestors: map<int, Path>): Option<seq<TreeEntry>>
    decreases block, 0
  {
    if block == [] then Some([]) else GatherAfter(ReadRow(block[0], root, ancestors), block[1..], root, ancestors)
  }

  function GatherAfter(row: Row, rest: seq<Numbered>, root: Path, ancestors: map<int, Path>): Option<seq<TreeEntry>>
    decreases rest, 1
  {
    match row
    case Skip => Gather(rest, root, ancestors)
    case Stop => None
    case Row(depth, entry) => Prefixed([entry], Gather(rest, root, ancestors[depth := entry.path]))
  }

  function Entries(block: seq<Numbered>, root: Path): seq<TreeEntry> {
    var r := Gather(block, root, map[]);
    if r.None? then [] else r.value
  }

  method TreeEntries(block: seq<Numbered>, root: Path) returns (entries: seq<TreeEntry>)
    ensures entries == Entries(block, root)
  {
    entries := [];
    var ancestors: map<int, Path> := map[];
    ghost var whole := Gather(block, root, map[]);
    assert block[0..] == block;
    PrefixedNone(whole);
    for i := 0 to |block|
      invariant whole == Prefixed(entries, Gather(block[i..], root, ancestors))
    {
      var parsed := ParseTreeLine(block[i].1);
      if parsed.None? { continue; }
      var p := parsed.value;
      if Ellipsis(p.name) { return []; }
      var path := Join(if p.depth - 1 in ancestors then ancestors[p.depth - 1] else root, p.name);
      var entry := TreeEntry(block[i].0, path, p.dir);
      ancestors := ancestors[p.depth := path];
      PrefixedTwice(entries, [entry], Gather(block[i + 1..], root, ancestors));
      entries := entries + [entry];
    }
    assert block[|block|..] == [];
  }

  lemma PrefixedTwice<T>(a: seq<T>, b: seq<T>, rest: Option<seq<T>>)
    ensures Prefixed(a, Prefixed(b, rest)) == Prefixed(a + b, rest)
  {
    if rest.Some? { assert a + (b + rest.value) == (a + b) + rest.value; }
  }

  lemma PrefixedNone<T>(rest: Option<seq<T>>)
    ensures Prefixed([], rest) == rest
  {
    if rest.Some? { assert [] + rest.value == rest.value; }
  }

  // ----- Printing a forest ------------------------------------------------------------------------

  /** What a map draws: a name, whether it carries the trailing slash of a directory, a remark
      after the name, and the nodes below it. */
  datatype Node = Node(name: string, dir: bool, remark: string, children: seq<Node>)

  function Label(n: Node): string { n.name + (if n.dir then "/" else "") + n.remark }

  /** The pre-order listing: a bar continues every ancestor that has later siblings. */
  function Print(forest: seq<Node>, prefix: string): seq<string>
    decreases forest
  {
    if forest == [] then []
    else
      var last := |forest| == 1;
      [prefix + (if last then CORNER else TEE) + Label(forest[0])]
      + Print(forest[0].children, prefix + if last then BLANK else BAR)
      + Print(forest[1..], prefix)
  }

  /** Every node's path and kind, in the same order. */
  function Paths(forest: seq<Node>, base: Path): (r: seq<(Path, bool)>)
    decreases forest
  {
    if forest == [] then []
    else
      var here := Path(base.anchor, base.parts + [forest[0].name]);
      [(here, forest[0].dir)] + Paths(forest[0].children, here) + Paths(forest[1..], base)
  }

  predicate FileName(s: string) {
    s != "" && s != "." && forall i :: 0 <= i < |s| ==> s[i] != '/' && !IsSpace(s[i])
  }

  predicate Remark(s: string) { s != "" ==> IsSpace(s[0]) }

  predicate WellNamed(forest: seq<Node>)
    decreases forest
  {
    forest != [] ==>
      && FileName(forest[0].name) && Remark(forest[0].remark)
      && WellNamed(forest[0].children) && WellNamed(forest[1..])
  }

  predicate Partial(forest: seq<Node>)
    decreases forest
  {
    forest != [] && (Ellipsis(forest[0].name) || Partial(forest[0].children) || Partial(forest[1..]))
  }

  predicate IsIndent(s: string, depth: nat) {
    if depth == 0 then s == "" else |s| >= 4 && Unit(s[..4]) && IsIndent(s[4..], depth - 1)
  }

  lemma {:induction false} IndentLength(s: string, depth: nat)
    requires IsIndent(s, depth)
    ensures |s| == 4 * depth
  {
    if depth > 0 { IndentLength(s[4..], depth - 1); }
  }

  lemma {:induction false} IndentSnoc(s: string, depth: nat, unit: string)
    requires IsIndent(s, depth) && Unit(unit)
    ensures IsIndent(s + unit, depth + 1)
  {
    if depth > 0 {
      IndentSnoc(s[4..], depth - 1, unit);
      assert (s + unit)[4..] == s[4..] + unit;
      assert (s + unit)[..4] == s[..4];
    } else {
      assert s + unit == unit && unit[..4] == unit && unit[4..] == "";
    }
  }

  lemma {:induction false} UnitsOf(s: string, depth: nat, rest: string)
    requires IsIndent(s, depth)
    ensures Units(s + rest) == depth + Units(rest)
  {
    if depth > 0 {
      UnitsOf(s[4..], depth - 1, rest);
      assert (s + rest)[4..] == s[4..] + rest;
      assert (s + rest)[..4] == s[..4];
    } else {
      assert s + rest == rest;
    }
  }

  lemma ConnectorHasNoUnits(connector: string, rest: string)
    requires Connector(connector)
    ensures Units(connector + rest) == 0
    ensures (connector + rest)[..4] == connector && (connector + rest)[4..] == rest
  {
    assert (connector + rest)[..4] == connector;
    assert connector[0] != BAR[0] && connector[0] != BLANK[0];
  }

  /** What a drawn line reads as: its depth and the first word after the connector. */
  lemma DrawnLine(prefix: string, depth: nat, connector: string, text: string)
    requires IsIndent(prefix, depth) && Connector(connector)
    ensures ParseTreeLine(prefix + connector + text) == Word(text, depth)
  {
    var rest := connector + text;
    assert prefix + connector + text == prefix + rest;
    UnitsOf(prefix, depth, rest);
    IndentLength(prefix, depth);
    ConnectorHasNoUnits(connector, text);
    ParseAt(prefix, rest, depth);
  }

  lemma ParseAt(prefix: string, rest: string, depth: nat)
    requires |prefix| == 4 * depth && Units(prefix + rest) == depth
    ensures ParseTreeLine(prefix + rest) == ParseName(rest, depth)
  {
    assert (prefix + rest)[|prefix|..] == rest;
  }

  predicate Spaceless(s: string) { forall i :: 0 <= i < |s| ==> !IsSpace(s[i]) }

  function Slashed(n: Node): string { n.name + if n.dir then "/" else "" }

  predicate Readable(name: string, dir: bool) {
    Spaceless(name) && if name == "" then dir else name[|name| - 1] != '/'
  }

  lemma SpacelessWord(n: Node)
    requires Spaceless(n.name) && Remark(n.remark)
    ensures Label(n)[..WordLength(Label(n))] == Slashed(n)
  {
    var s := Slashed(n);
    assert Label(n) == s + n.remark;
    assert forall i :: 0 <= i < |s| ==> !IsSpace(s[i]) && Label(n)[i] == s[i];
    assert |s| < |Label(n)| ==> Label(n)[|s|] == n.remark[0];
  }

  lemma SpacedWord(n: Node)
    requires !Spaceless(n.name)
    ensures WordLength(Label(n)) < |n.name|
  {
    var i :| 0 <= i < |n.name| && IsSpace(n.name[i]);
    assert Label(n)[i] == n.name[i];
  }

  /** A drawn line reads back as what was drawn exactly when the name holds no white space and
      does not itself end in a slash; an empty name needs the slash of a directory. */
  lemma LineRoundTrip(prefix: string, depth: nat, connector: string, n: Node)
    requires IsIndent(prefix, depth) && Connector(connector) && Remark(n.remark)
    ensures ParseTreeLine(prefix + connector + Label(n)) == Some(Parsed(depth, n.name, n.dir))
         <==> Readable(n.name, n.dir)
  {
    DrawnLine(prefix, depth, connector, Label(n));
    if Spaceless(n.name) {
      SpacelessWord(n);
      TrimSlashed(n);
    } else {
      SpacedWord(n);
    }
  }

  lemma TrimSlashed(n: Node)
    ensures TrimSlashes(Slashed(n)) == n.name <==> n.name == "" || n.name[|n.name| - 1] != '/'
  {
    if n.dir {
      assert Slashed(n)[..|Slashed(n)| - 1] == n.name;
      assert TrimSlashes(Slashed(n)) == TrimSlashes(n.name);
    }
  }

  lemma FileNameComponents(s: string)
    requires FileName(s)
    ensures Components(s) == [s] && Anchor(s) == ""
  {
    assert s[..PieceLength(s)] == s;
    assert s[0] != '/';
  }

  // ----- Reading a printed forest back ------------------------------------------------------------

  /** The ancestors table once a forest at this depth has been read; deeper rows stay behind. */
  function After(forest: seq<Node>, base: Path, depth: nat, ancestors: map<int, Path>): map<int, Path>
    decreases forest
  {
    if forest == [] then ancestors
    else
      var here := Path(base.anchor, base.parts + [forest[0].name]);
      After(forest[1..], base, depth, After(forest[0].children, here, depth + 1, ancestors[depth := here]))
  }

  lemma {:induction false} AfterKeeps(forest: seq<Node>, base: Path, depth: nat, ancestors: map<int, Path>, d: int)
    requires d < depth
    ensures var r := After(forest, base, depth, ancestors);
      (d in r <==> d in ancestors) && (d in r ==> r[d] == ancestors[d])
    decreases forest
  {
    if forest != [] {
      var here := Path(base.anchor, base.parts + [forest[0].name]);
      var inner := ancestors[depth := here];
      AfterKeeps(forest[0].children, here, depth + 1, inner, d);
      AfterKeeps(forest[1..], base, depth, After(forest[0].children, here, depth + 1, inner), d);
    }
  }

  /** The lines of a block without their numbers. */
  function Texts(block: seq<Numbered>): seq<string> {
    seq(|block|, i requires 0 <= i < |block| => block[i].1)
  }

  function Entry(line: Numbered, item: (Path, bool)): TreeEntry { TreeEntry(line.0, item.0, item.1) }

  function Listed(block: seq<Numbered>, items: seq<(Path, bool)>): (r: seq<TreeEntry>)
    requires |block| == |items|
  {
    seq(|block|, i requires 0 <= i < |block| => Entry(block[i], items[i]))
  }

  lemma {:induction false} OneLineEach(forest: seq<Node>, prefix: string, base: Path)
    ensures |Print(forest, prefix)| == |Paths(forest, base)|
    decreases forest
  {
    if forest != [] {
      var here := Path(base.anchor, base.parts + [forest[0].name]);
      OneLineEach(forest[0].children, prefix + if |forest| == 1 then BLANK else BAR, here);
      OneLineEach(forest[1..], prefix, base);
    }
  }

  /** Reading a drawn node: its entry hangs below the row one level up. */
  lemma GatherNode(line: Numbered, rest: seq<Numbered>, n: Node, here: Path, prefix: string, depth: nat,
                   connector: string, root: Path, ancestors: map<int, Path>)
    requires IsIndent(prefix, depth) && Connector(connector)
    requires FileName(n.name) && Remark(n.remark) && line.1 == prefix + connector + Label(n)
    requires here == Path(Above(ancestors, depth, root).anchor, Above(ancestors, depth, root).parts + [n.name])
    ensures Gather([line] + rest, root, ancestors)
      == Unless(Ellipsis(n.name), Prefixed([Entry(line, (here, n.dir))], Gather(rest, root, ancestors[depth := here])))
  {
    LineRoundTrip(prefix, depth, connector, n);
    FileNameComponents(n.name);
    assert ([line] + rest)[1..] == rest;
  }

  /** The three parts of a printed forest: its first node's line, what is below it, its siblings. */
  lemma PrintParts(block: seq<Numbered>, forest: seq<Node>, prefix: string, k: nat)
    requires forest != [] && Texts(block) == Print(forest, prefix)
    requires k == |Print(forest[0].children, Below(forest, prefix))|
    ensures 1 + k <= |block| && block == [block[0]] + block[1..1 + k] + block[1 + k..]
    ensures block[0].1 == prefix + (if |forest| == 1 then CORNER else TEE) + Label(forest[0])
    ensures Texts(block[1..1 + k]) == Print(forest[0].children, Below(forest, prefix))
    ensures Texts(block[1 + k..]) == Print(forest[1..], prefix)
  {
    var kids, others := Print(forest[0].children, Below(forest, prefix)), Print(forest[1..], prefix);
    var lines := [prefix + (if |forest| == 1 then CORNER else TEE) + Label(forest[0])] + kids + others;
    assert Print(forest, prefix) == lines && Texts(block)[0] == lines[0];
    assert forall i :: 0 <= i < |kids| ==> lines[1 + i] == kids[i];
    assert forall i :: 0 <= i < |others| ==> lines[1 + k + i] == others[i];
  }

  /** A printed forest in front of any further lines reads as its own paths, and leaves the rows
      above its depth as it found them. */
  lemma {:induction false} GatherForest(
    block: seq<Numbered>, tail: seq<Numbered>, forest: seq<Node>, prefix: string, base: Path, depth: nat, root: Path,
    ancestors: map<int, Path>)
    requires Texts(block) == Print(forest, prefix) && IsIndent(prefix, depth) && WellNamed(forest)
    requires base == Above(ancestors, depth, root)
    ensures |block| == |Paths(forest, base)|
    ensures Gather(block + tail, root, ancestors) == Reading(block, tail, forest, base, depth, root, ancestors)
    decreases forest
  {
    OneLineEach(forest, prefix, base);
    assert |Texts(block)| == |block|;
    if forest == [] {
      NothingRead(block, tail, base, depth, root, ancestors);
    } else {
      var below := Below(forest, prefix);
      var k := |Print(forest[0].children, below)|;
      PrintParts(block, forest, prefix, k);
      var kids, others, here := block[1..1 + k], block[1 + k..], Here(forest, base);
      var inner := ancestors[depth := here];
      var left := After(forest[0].children, here, depth + 1, inner);
      IndentSnoc(prefix, depth, if |forest| == 1 then BLANK else BAR);
      GatherForest(kids, others + tail, forest[0].children, below, here, depth + 1, root, inner);
      AfterKeeps(forest[0].children, here, depth + 1, inner, depth - 1);
      GatherForest(others, tail, forest[1..], prefix, base, depth, root, left);
      Regroup(block, kids, others, tail);
      FirstNodeRead(block, kids + (others + tail), block + tail, forest, prefix, base, here, depth, root, ancestors);
      ReadingParts(block, kids, others, tail, forest, base, here, depth, root, ancestors, left);
    }
  }

  lemma NothingRead(block: seq<Numbered>, tail: seq<Numbered>, base: Path, depth: nat, root: Path,
                    ancestors: map<int, Path>)
    requires block == []
    ensures Gather(block + tail, root, ancestors) == Reading(block, tail, [], base, depth, root, ancestors)
  {
    assert block + tail == tail && Listed(block, Paths([], base)) == [];
    PrefixedNone(Gather(tail, root, ancestors));
  }

  lemma Regroup(block: seq<Numbered>, kids: seq<Numbered>, others: seq<Numbered>, tail: seq<Numbered>)
    requires block != [] && block == [block[0]] + kids + others
    ensures block + tail == [block[0]] + (kids + (others + tail))
  {
  }

  lemma FirstNodeRead(block: seq<Numbered>, rest: seq<Numbered>, whole: seq<Numbered>, forest: seq<Node>,
                      prefix: string,
                      base: Path, here: Path, depth: nat, root: Path, ancestors: map<int, Path>)
    requires forest != [] && block != [] && whole == [block[0]] + rest
    requires IsIndent(prefix, depth) && WellNamed(forest)
    requires base == Above(ancestors, depth, root) && here == Here(forest, base)
    requires block[0].1 == prefix + (if |forest| == 1 then CORNER else TEE) + Label(forest[0])
    ensures Gather(whole, root, ancestors)
      == Unless(Ellipsis(forest[0].name),
                Prefixed([Entry(block[0], (here, forest[0].dir))], Gather(rest, root, ancestors[depth := here])))
  {
    GatherNode(block[0], rest, forest[0], here, prefix, depth, if |forest| == 1 then CORNER else TEE, root, ancestors);
  }

  lemma ReadingParts(block: seq<Numbered>, kids: seq<Numbered>, others: seq<Numbered>, tail: seq<Numbered>,
                     forest: seq<Node>, base: Path, here: Path, depth: nat, root: Path,
                     ancestors: map<int, Path>, left: map<int, Path>)
    requires forest != [] && block != [] && block == [block[0]] + kids + others
    requires |kids| == |Paths(forest[0].children, Here(forest, base))| && |others| == |Paths(forest[1..], base)|
    requires |block| == |Paths(forest, base)|
    requires here == Here(forest, base) && left == After(forest[0].children, here, depth + 1, ancestors[depth := here])
    requires Gather(others + tail, root, left) == Reading(others, tail, forest[1..], base, depth, root, left)
    ensures Reading(block, tail, forest, base, depth, root, ancestors)
      == Unless(Ellipsis(forest[0].name), Prefixed([Entry(block[0], (here, forest[0].dir))],
           Reading(kids, others + tail, forest[0].children, here, depth + 1, root, ancestors[depth := here])))
  {
    var n := forest[0];
    var rest := Gather(tail, root, After(forest[1..], base, depth, left));
    var x, y := Paths(n.children, here), Paths(forest[1..], base);
    ListedParts(block[0], kids, others, (here, n.dir), x, y);
    ThreeReadings([Entry(block[0], (here, n.dir))], Listed(kids, x), Listed(others, y),
                  Ellipsis(n.name), Partial(n.children), Partial(forest[1..]), rest);
  }

  function Here(forest: seq<Node>, base: Path): Path
    requires forest != []
  {
    Path(base.anchor, base.parts + [forest[0].name])
  }

  function Below(forest: seq<Node>, prefix: string): string {
    prefix + if |forest| == 1 then BLANK else BAR
  }

  /** What reading a printed forest and then the tail must give. */
  function Reading(block: seq<Numbered>, tail: seq<Numbered>, forest: seq<Node>, base: Path, depth: nat, root: Path,
                   ancestors: map<int, Path>): Option<seq<TreeEntry>>
    requires |block| == |Paths(forest, base)|
  {
    var rest := Gather(tail, root, After(forest, base, depth, ancestors));
    Unless(Partial(forest), Prefixed(Listed(block, Paths(forest, base)), rest))
  }

  lemma ListedConcat(a: seq<Numbered>, b: seq<Numbered>, x: seq<(Path, bool)>, y: seq<(Path, bool)>)
    requires |a| == |x| && |b| == |y|
    ensures Listed(a + b, x + y) == Listed(a, x) + Listed(b, y)
  {
  }

  lemma ListedParts(line: Numbered, kids: seq<Numbered>, others: seq<Numbered>, item: (Path, bool),
                    x: seq<(Path, bool)>, y: seq<(Path, bool)>)
    requires |kids| == |x| && |others| == |y|
    ensures Listed([line] + kids + others, [item] + x + y) == [Entry(line, item)] + Listed(kids, x) + Listed(others, y)
  {
    ListedConcat([line] + kids, others, [item] + x, y);
    ListedConcat([line], kids, [item], x);
    assert Listed([line], [item]) == [Entry(line, item)];
  }

  lemma ThreeReadings<T>(a: seq<T>, b: seq<T>, c: seq<T>, p: bool, q: bool, r: bool, rest: Option<seq<T>>)
    ensures Unless(p, Prefixed(a, Unless(q, Prefixed(b, Unless(r, Prefixed(c, rest))))))
         == Unless(p || q || r, Prefixed(a + b + c, rest))
  {
    PrefixedTwice(a, b, Prefixed(c, rest));
    PrefixedTwice(a + b, c, rest);
  }

  function Unless<T>(stopped: bool, r: Option<T>): Option<T> { if stopped then None else r }

  /** The lines of a block that are tree lines at all. */
  function TreeLines(block: seq<Numbered>): seq<Numbered> {
    if block == [] then []
    else (if ParseTreeLine(block[0].1).None? then [] else [block[0]]) + TreeLines(block[1..])
  }

  lemma {:induction false} OtherLinesIgnored(block: seq<Numbered>, root: Path, ancestors: map<int, Path>)
    ensures Gather(block, root, ancestors) == Gather(TreeLines(block), root, ancestors)
  {
    if block != [] {
      var parsed := ParseTreeLine(block[0].1);
      if parsed.None? {
        assert TreeLines(block) == TreeLines(block[1..]);
        OtherLinesIgnored(block[1..], root, ancestors);
      } else {
        assert TreeLines(block)[0] == block[0] && TreeLines(block)[1..] == TreeLines(block[1..]);
        var p := parsed.value;
        OtherLinesIgnored(block[1..], root, ancestors[p.depth := Join(Above(ancestors, p.depth, root), p.name)]);
      }
    }
  }

  /** A block whose tree lines draw a forest yields every node's full path and kind, in order and
      with its line number; one that holds an ellipsis yields nothing. */
  lemma ListingRoundTrip(block: seq<Numbered>, forest: seq<Node>, root: Path)
    requires Texts(TreeLines(block)) == Print(forest, "") && WellNamed(forest)
    ensures |TreeLines(block)| == |Paths(forest, root)|
    ensures Entries(block, root) == if Partial(forest) then [] else Listed(TreeLines(block), Paths(forest, root))
  {
    var drawn := TreeLines(block);
    OtherLinesIgnored(block, root, map[]);
    GatherForest(drawn, [], forest, "", root, 0, root, map[]);
    assert drawn + [] == drawn;
  }
}
