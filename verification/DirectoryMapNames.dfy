/** Which names a directory map can draw: exactly those for which the whole listing reads back. */
module DirectoryMapNames {
  import opened Wrappers
  import opened DirectoryMap

  /** Whatever the names, a remark is set off by white space. */
  predicate Remarked(forest: seq<Node>)
    decreases forest
  {
    forest != [] ==> Remark(forest[0].remark) && Remarked(forest[0].children) && Remarked(forest[1..])
  }

  // ----- Names that survive joining ---------------------------------------------------------

  /** The components of a text without white space are file names. */
  lemma {:induction false} ComponentsProper(s: string)
    requires Spaceless(s)
    ensures forall c :: c in Components(s) ==> FileName(c)
    decreases |s|
  {
    var n := PieceLength(s);
    assert forall i :: 0 <= i < n ==> s[..n][i] == s[i];
    if n < |s| {
      var rest := s[n + 1..];
      assert forall i :: 0 <= i < |rest| ==> rest[i] == s[n + 1 + i];
      ComponentsProper(rest);
    }
  }

  /** Only a file name can be the child that joining a spaceless text leads to. */
  lemma JoinIsChild(base: Path, s: string, name: string)
    requires Spaceless(s) && Join(base, s) == Path(base.anchor, base.parts + [name])
    ensures FileName(name)
  {
    ComponentsProper(s);
    var longer := base.parts + [name];
    assert longer[|longer| - 1] == name;
    if Anchor(s) != "" {
      assert Components(s)[|longer| - 1] == name;
    } else {
      assert (base.parts + Components(s))[|longer| - 1] == name;
      assert |Components(s)| == 1 && Components(s)[0] == name;
    }
  }

  lemma WordSpaceless(s: string)
    ensures Spaceless(s[..WordLength(s)]) && Spaceless(TrimSlashes(s[..WordLength(s)]))
  {
    var word := s[..WordLength(s)];
    assert forall i :: 0 <= i < |word| ==> word[i] == s[i];
    assert forall i :: 0 <= i < |TrimSlashes(word)| ==> TrimSlashes(word)[i] == word[i];
  }

  /** A drawn node that reads back as its path has a file name, and no ellipsis. */
  lemma NodeNamed(line: Numbered, n: Node, prefix: string, depth: nat, connector: string, base: Path, root: Path,
                  ancestors: map<int, Path>)
    requires IsIndent(prefix, depth) && Connector(connector) && Remark(n.remark)
    requires line.1 == prefix + connector + Label(n) && base == Above(ancestors, depth, root)
    requires ReadRow(line, root, ancestors).Row?
    requires ReadRow(line, root, ancestors).entry == Entry(line, (Path(base.anchor, base.parts + [n.name]), n.dir))
    ensures FileName(n.name) && !Ellipsis(n.name) && ReadRow(line, root, ancestors).depth == depth
  {
    DrawnLine(prefix, depth, connector, Label(n));
    var p := ParseTreeLine(line.1).value;
    WordSpaceless(Label(n));
    JoinIsChild(base, p.name, n.name);
    LineRoundTrip(prefix, depth, connector, n);
  }

  // ----- A listing read as a whole --------------------------------------------------------------

  /** Every line of the block is an entry. */
  predicate Whole(block: seq<Numbered>, root: Path, ancestors: map<int, Path>, entries: seq<TreeEntry>) {
    Gather(block, root, ancestors) == Some(entries) && |entries| == |block|
  }

  lemma {:induction false} GatherLength(block: seq<Numbered>, root: Path, ancestors: map<int, Path>)
    ensures var r := Gather(block, root, ancestors);
      r.Some? ==> |r.value| <= |block|
    decreases |block|
  {
    if block != [] {
      match ReadRow(block[0], root, ancestors)
      case Skip => GatherLength(block[1..], root, ancestors);
      case Stop =>
      case Row(depth, entry) => GatherLength(block[1..], root, ancestors[depth := entry.path]);
    }
  }

  lemma WholeHead(line: Numbered, rest: seq<Numbered>, root: Path, ancestors: map<int, Path>, entries: seq<TreeEntry>)
    requires Whole([line] + rest, root, ancestors, entries)
    ensures ReadRow(line, root, ancestors).Row? && entries[0] == ReadRow(line, root, ancestors).entry
    ensures var row := ReadRow(line, root, ancestors);
      Whole(rest, root, ancestors[row.depth := row.entry.path], entries[1..])
  {
    var row := ReadRow(line, root, ancestors);
    assert ([line] + rest)[0] == line && ([line] + rest)[1..] == rest;
    assert GatherAfter(row, rest, root, ancestors) == Some(entries);
    GatherLength(rest, root, ancestors);
    if row.Row? {
      var more := Gather(rest, root, ancestors[row.depth := row.entry.path]);
      assert entries == [row.entry] + more.value && entries[1..] == more.value;
    }
  }

  /** The first node of a printed forest, and what remains to be read below and beside it. */
  lemma HeadRead(block: seq<Numbered>, kids: seq<Numbered>, others: seq<Numbered>, tail: seq<Numbered>,
                 forest: seq<Node>, prefix: string, base: Path, depth: nat, root: Path, ancestors: map<int, Path>,
                 more: seq<TreeEntry>)
    requires forest != [] && Remark(forest[0].remark) && IsIndent(prefix, depth)
    requires base == Above(ancestors, depth, root)
    requires block != [] && block == [block[0]] + kids + others
    requires block[0].1 == prefix + (if |forest| == 1 then CORNER else TEE) + Label(forest[0])
    requires |kids| == |Paths(forest[0].children, Here(forest, base))| && |others| == |Paths(forest[1..], base)|
    requires |block| == |Paths(forest, base)|
    requires Whole(block + tail, root, ancestors, Listed(block, Paths(forest, base)) + more)
    ensures FileName(forest[0].name) && !Ellipsis(forest[0].name)
    ensures var here := Here(forest, base);
      Whole(kids + (others + tail), root, ancestors[depth := here],
            Listed(kids, Paths(forest[0].children, here)) + (Listed(others, Paths(forest[1..], base)) + more))
  {
    var n, here := forest[0], Here(forest, base);
    var x, y := Paths(n.children, here), Paths(forest[1..], base);
    var first := Entry(block[0], (here, n.dir));
    Regroup(block, kids, others, tail);
    ListedParts(block[0], kids, others, (here, n.dir), x, y);
    EntriesSplit(first, Listed(kids, x), Listed(others, y), more);
    WholeHead(block[0], kids + (others + tail), root, ancestors, [first] + Listed(kids, x) + Listed(others, y) + more);
    NodeNamed(block[0], n, prefix, depth, if |forest| == 1 then CORNER else TEE, base, root, ancestors);
  }

  lemma EntriesSplit(first: TreeEntry, x: seq<TreeEntry>, y: seq<TreeEntry>, more: seq<TreeEntry>)
    ensures var entries := [first] + x + y + more;
      entries[0] == first && entries[1..] == x + (y + more)
  {
  }

  /** The same from the printed block. */
  lemma BlockRead(block: seq<Numbered>, tail: seq<Numbered>, forest: seq<Node>, prefix: string, base: Path, depth: nat,
                  root: Path, ancestors: map<int, Path>, more: seq<TreeEntry>)
    returns (kids: seq<Numbered>, others: seq<Numbered>)
    requires forest != [] && Remarked(forest) && Texts(block) == Print(forest, prefix) && IsIndent(prefix, depth)
    requires base == Above(ancestors, depth, root) && |block| == |Paths(forest, base)|
    requires Whole(block + tail, root, ancestors, Listed(block, Paths(forest, base)) + more)
    ensures FileName(forest[0].name) && !Ellipsis(forest[0].name)
    ensures Texts(kids) == Print(forest[0].children, Below(forest, prefix))
    ensures Texts(others) == Print(forest[1..], prefix)
    ensures |kids| == |Paths(forest[0].children, Here(forest, base))| && |others| == |Paths(forest[1..], base)|
    ensures Whole(kids + (others + tail), root, ancestors[depth := Here(forest, base)],
                  Listed(kids, Paths(forest[0].children, Here(forest, base)))
                  + (Listed(others, Paths(forest[1..], base)) + more))
  {
    var k := |Print(forest[0].children, Below(forest, prefix))|;
    PrintParts(block, forest, prefix, k);
    kids, others := block[1..1 + k], block[1 + k..];
    SizesMatch(kids, others, forest, prefix, base);
    HeadRead(block, kids, others, tail, forest, prefix, base, depth, root, ancestors, more);
  }

  /** If a printed forest, in front of any further lines, reads as its paths, its names are file
      names and none is an ellipsis. */
  lemma {:induction false} ReadBackNames(
    block: seq<Numbered>, tail: seq<Numbered>, forest: seq<Node>, prefix: string, base: Path, depth: nat, root: Path,
    ancestors: map<int, Path>, more: seq<TreeEntry>)
    requires Texts(block) == Print(forest, prefix) && IsIndent(prefix, depth) && Remarked(forest)
    requires base == Above(ancestors, depth, root) && |block| == |Paths(forest, base)|
    requires Whole(block + tail, root, ancestors, Listed(block, Paths(forest, base)) + more)
    ensures WellNamed(forest) && !Partial(forest)
    ensures Whole(tail, root, After(forest, base, depth, ancestors), more)
    decreases forest
  {
    if forest == [] {
      assert block + tail == tail && Listed(block, Paths(forest, base)) + more == more;
    } else {
      var n, below, here := forest[0], Below(forest, prefix), Here(forest, base);
      var kids, others := BlockRead(block, tail, forest, prefix, base, depth, root, ancestors, more);
      var inner := ancestors[depth := here];
      var left := After(n.children, here, depth + 1, inner);
      IndentSnoc(prefix, depth, if |forest| == 1 then BLANK else BAR);
      ReadBackNames(kids, others + tail, n.children, below, here, depth + 1, root, inner,
                    Listed(others, Paths(forest[1..], base)) + more);
      AfterKeeps(n.children, here, depth + 1, inner, depth - 1);
      ReadBackNames(others, tail, forest[1..], prefix, base, depth, root, left, more);
    }
  }

  lemma SizesMatch(kids: seq<Numbered>, others: seq<Numbered>, forest: seq<Node>, prefix: string, base: Path)
    requires forest != [] && Texts(kids) == Print(forest[0].children, Below(forest, prefix))
    requires Texts(others) == Print(forest[1..], prefix)
    ensures |kids| == |Paths(forest[0].children, Here(forest, base))| && |others| == |Paths(forest[1..], base)|
  {
    assert |Texts(kids)| == |kids| && |Texts(others)| == |others|;
    OneLineEach(forest[0].children, Below(forest, prefix), Here(forest, base));
    OneLineEach(forest[1..], prefix, base);
  }

  lemma {:induction false} WellNamedRemarked(forest: seq<Node>)
    requires WellNamed(forest)
    ensures Remarked(forest)
    decreases forest
  {
    if forest != [] {
      WellNamedRemarked(forest[0].children);
      WellNamedRemarked(forest[1..]);
    }
  }

  /** The drawing of any forest reads back as all its paths and kinds exactly if every name is a
      file name without white space and none is an ellipsis. */
  lemma ListingReadsBackIff(block: seq<Numbered>, forest: seq<Node>, root: Path)
    requires Texts(block) == Print(forest, "") && Remarked(forest)
    ensures |block| == |Paths(forest, root)|
    ensures Entries(block, root) == Listed(block, Paths(forest, root)) <==> WellNamed(forest) && !Partial(forest)
  {
    assert |Texts(block)| == |block| && block + [] == block;
    OneLineEach(forest, "", root);
    var paths := Paths(forest, root);
    if WellNamed(forest) {
      GatherForest(block, [], forest, "", root, 0, root, map[]);
    }
    if Entries(block, root) == Listed(block, paths) && block != [] {
      assert Listed(block, paths) + [] == Listed(block, paths);
      ReadBackNames(block, [], forest, "", root, 0, root, map[], []);
    }
  }
}
