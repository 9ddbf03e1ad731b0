/** Comparing a directory map with the disk it describes. */
module DirectoryMapCheck {
  import opened Wrappers
  import opened DirectoryMap
  import opened TextLines
  import opened NameOrder

  datatype Kind = Dir | File

  /** What the disk answers: a listing per directory, and the direct question for a path that
      names no entry of its parent. */
  datatype Disk = Disk(listing: Path -> map<string, Kind>, direct: Path -> Option<Kind>)

  function KindOf(disk: Disk, p: Path): Option<Kind> {
    if Name(p) == "" || Name(p) == ".." then disk.direct(p)
    else if Name(p) in disk.listing(Parent(p)) then Some(disk.listing(Parent(p))[Name(p)])
    else None
  }

  function Declared(dir: bool): Kind { if dir then Dir else File }

  predicate EndsWith(s: string, t: string) { |s| >= |t| && s[|s| - |t|..] == t }

  /** What a map is expected to enumerate at all. */
  predicate Navigable(name: string) {
    && !("." <= name) && !EndsWith(name, ".egg-info")
    && name !in ["__pycache__", "node_modules", "build", "dist", "uv.lock"]
  }

  predicate IsCandidateChild(name: string, kind: Kind, kinds: set<bool>) {
    Navigable(name) && kind.Dir? in kinds
  }

  // ----- What an accurate map is ----------------------------------------------------------------

  type Item = (Path, bool)

  function Items(entries: seq<TreeEntry>): (r: seq<Item>)
    ensures |r| == |entries|
  {
    seq(|entries|, i requires 0 <= i < |entries| => (entries[i].path, entries[i].dir))
  }

  predicate Stands(item: Item, disk: Disk) { KindOf(disk, item.0) == Some(Declared(item.1)) }

  /** A child on disk whose kind the map lists beside it, and which the map leaves out. */
  predicate Omits(items: seq<Item>, disk: Disk, parent: Path, name: string) {
    && name in disk.listing(parent) && Navigable(name)
    && (exists item :: item in items && Parent(item.0) == parent && item.1 == disk.listing(parent)[name].Dir?)
    && (forall item :: item in items && Parent(item.0) == parent ==> Name(item.0) != name)
  }

  ghost predicate Accurate(items: seq<Item>, disk: Disk) {
    && (forall item :: item in items ==> Stands(item, disk))
    && (forall parent, name :: !Omits(items, disk, parent, name))
  }

  // ----- The same for a forest ---------------------------------------------------------------------

  function At(base: Path, name: string): Path { Path(base.anchor, base.parts + [name]) }

  predicate Shows(forest: seq<Node>, name: string) { exists i :: 0 <= i < |forest| && forest[i].name == name }

  predicate ShowsKind(forest: seq<Node>, kind: Kind) { exists i :: 0 <= i < |forest| && forest[i].dir == kind.Dir? }

  predicate SiblingsShown(forest: seq<Node>, base: Path, disk: Disk) {
    forall name :: name in disk.listing(base) && Navigable(name) && ShowsKind(forest, disk.listing(base)[name])
        ==> Shows(forest, name)
  }

  /** Every node stands on disk as drawn, and no directory holds an undrawn navigable child of a
      kind the map draws there. */
  predicate Matches(forest: seq<Node>, base: Path, disk: Disk)
    decreases forest
  {
    && (forall i :: 0 <= i < |forest| ==> Stands((At(base, forest[i].name), forest[i].dir), disk))
    && SiblingsShown(forest, base, disk)
    && (forall i :: 0 <= i < |forest| ==> Matches(forest[i].children, At(base, forest[i].name), disk))
  }

  predicate DistinctNames(forest: seq<Node>)
    decreases forest
  {
    && (forall i, j :: 0 <= i < j < |forest| ==> forest[i].name != forest[j].name)
    && (forall i :: 0 <= i < |forest| ==> DistinctNames(forest[i].children))
  }

  /** The item of a node, or of something drawn below it. */
  predicate From(n: Node, base: Path, item: Item) {
    item == (At(base, n.name), n.dir) || item in Paths(n.children, At(base, n.name))
  }

  lemma {:induction false} ItemIn(forest: seq<Node>, base: Path, item: Item)
    ensures item in Paths(forest, base) <==> exists i :: 0 <= i < |forest| && From(forest[i], base, item)
    decreases forest
  {
    if forest != [] {
      ItemIn(forest[1..], base, item);
      var n, here := forest[0], At(base, forest[0].name);
      assert Paths(forest, base) == [(here, n.dir)] + Paths(n.children, here) + Paths(forest[1..], base);
      assert item in Paths(forest, base) <==> From(n, base, item) || item in Paths(forest[1..], base);
      assert forall i :: 1 <= i < |forest| ==> forest[i] == forest[1..][i - 1];
    }
  }

  /** Everything drawn lies strictly below where it is drawn. */
  lemma {:induction false} ItemBelow(forest: seq<Node>, base: Path, item: Item)
    requires item in Paths(forest, base)
    ensures |item.0.parts| > |base.parts| && Under(item.0, base) && Under(Parent(item.0), base)
    decreases forest
  {
    ItemIn(forest, base, item);
    var i :| 0 <= i < |forest| && From(forest[i], base, item);
    if item != (At(base, forest[i].name), forest[i].dir) {
      ItemBelow(forest[i].children, At(base, forest[i].name), item);
    }
  }

  lemma ItemParent(forest: seq<Node>, base: Path, item: Item, i: nat)
    requires i < |forest| && From(forest[i], base, item)
    ensures Parent(item.0) == base <==> item == (At(base, forest[i].name), forest[i].dir)
    ensures Parent(item.0) != base ==> Under(Parent(item.0), At(base, forest[i].name))
  {
    if item != (At(base, forest[i].name), forest[i].dir) {
      ItemBelow(forest[i].children, At(base, forest[i].name), item);
    } else {
      assert At(base, forest[i].name).parts[..|base.parts|] == base.parts;
    }
  }

  /** What hangs at a place below the i-th node was drawn below the i-th node. */
  lemma OwnSubtree(forest: seq<Node>, base: Path, item: Item, i: nat)
    requires DistinctNames(forest) && i < |forest| && item in Paths(forest, base)
    requires Under(Parent(item.0), At(base, forest[i].name))
    ensures item in Paths(forest[i].children, At(base, forest[i].name))
  {
    ItemIn(forest, base, item);
    var j :| 0 <= j < |forest| && From(forest[j], base, item);
    ItemParent(forest, base, item, j);
    var k := |base.parts|;
    assert Parent(item.0).parts[k] == At(base, forest[i].name).parts[k] == forest[i].name;
    assert Parent(item.0) != base;
    assert Parent(item.0).parts[k] == At(base, forest[j].name).parts[k] == forest[j].name;
  }

  /** A navigable child of an enumerated kind that is not among the siblings. */
  predicate Unshown(forest: seq<Node>, base: Path, disk: Disk, name: string) {
    && name in disk.listing(base) && Navigable(name)
    && ShowsKind(forest, disk.listing(base)[name]) && !Shows(forest, name)
  }

  lemma OmitsAtBase(forest: seq<Node>, base: Path, disk: Disk, name: string)
    ensures Omits(Paths(forest, base), disk, base, name)
      <==> Unshown(forest, base, disk, name)
  {
    var items := Paths(forest, base);
    forall i | 0 <= i < |forest|
      ensures var item := (At(base, forest[i].name), forest[i].dir);
        item in items && Parent(item.0) == base && Name(item.0) == forest[i].name
    {
      var item := (At(base, forest[i].name), forest[i].dir);
      assert From(forest[i], base, item);
      ItemIn(forest, base, item);
      ItemParent(forest, base, item, i);
    }
    forall item | item in items && Parent(item.0) == base
      ensures exists i :: 0 <= i < |forest| && item == (At(base, forest[i].name), forest[i].dir)
    {
      ItemIn(forest, base, item);
      var i :| 0 <= i < |forest| && From(forest[i], base, item);
      ItemParent(forest, base, item, i);
    }
  }

  lemma OmitsBelow(forest: seq<Node>, base: Path, disk: Disk, i: nat, parent: Path, name: string)
    requires DistinctNames(forest) && i < |forest| && Under(parent, At(base, forest[i].name))
    ensures Omits(Paths(forest, base), disk, parent, name)
      <==> Omits(Paths(forest[i].children, At(base, forest[i].name)), disk, parent, name)
  {
    var items, kids := Paths(forest, base), Paths(forest[i].children, At(base, forest[i].name));
    forall item: Item | Parent(item.0) == parent
      ensures item in items <==> item in kids
    {
      if item in items { OwnSubtree(forest, base, item, i); }
      if item in kids {
        assert From(forest[i], base, item);
        ItemIn(forest, base, item);
      }
    }
  }

  lemma StandsBelow(forest: seq<Node>, base: Path, disk: Disk)
    ensures (forall item :: item in Paths(forest, base) ==> Stands(item, disk))
      <==> forall i, item :: 0 <= i < |forest| && From(forest[i], base, item) ==> Stands(item, disk)
  {
    forall item
      ensures item in Paths(forest, base) <==> exists i :: 0 <= i < |forest| && From(forest[i], base, item)
    {
      ItemIn(forest, base, item);
    }
  }

  /** The paths of a forest are accurate exactly when the forest matches the disk. */
  lemma {:induction false} AccurateIffMatches(forest: seq<Node>, base: Path, disk: Disk)
    requires DistinctNames(forest)
    ensures Accurate(Paths(forest, base), disk) <==> Matches(forest, base, disk)
    decreases forest
  {
    StandsBelow(forest, base, disk);
    forall i | 0 <= i < |forest|
      ensures Accurate(Paths(forest[i].children, At(base, forest[i].name)), disk)
             <==> Matches(forest[i].children, At(base, forest[i].name), disk)
    {
      AccurateIffMatches(forest[i].children, At(base, forest[i].name), disk);
    }
    if Accurate(Paths(forest, base), disk) {
      AccurateMatches(forest, base, disk);
    }
    if Matches(forest, base, disk) {
      MatchesAccurate(forest, base, disk);
    }
  }

  ghost predicate PartsAccurate(forest: seq<Node>, base: Path, disk: Disk) {
    forall i :: 0 <= i < |forest| ==> Accurate(Paths(forest[i].children, At(base, forest[i].name)), disk)
  }

  lemma AccurateMatches(forest: seq<Node>, base: Path, disk: Disk)
    requires DistinctNames(forest) && Accurate(Paths(forest, base), disk)
    ensures PartsAccurate(forest, base, disk) && SiblingsShown(forest, base, disk)
  {
    forall i | 0 <= i < |forest|
      ensures Accurate(Paths(forest[i].children, At(base, forest[i].name)), disk)
    {
      var kids := Paths(forest[i].children, At(base, forest[i].name));
      forall item | item in kids ensures Stands(item, disk) {
        assert From(forest[i], base, item);
        ItemIn(forest, base, item);
      }
      forall parent, name ensures !Omits(kids, disk, parent, name) {
        if Omits(kids, disk, parent, name) {
          var item :| item in kids && Parent(item.0) == parent;
          ItemBelow(forest[i].children, At(base, forest[i].name), item);
          OmitsBelow(forest, base, disk, i, parent, name);
        }
      }
    }
    forall name | name in disk.listing(base) && Navigable(name) && ShowsKind(forest, disk.listing(base)[name])
      ensures Shows(forest, name)
    {
      OmitsAtBase(forest, base, disk, name);
    }
  }

  lemma NothingOmitted(forest: seq<Node>, base: Path, disk: Disk, parent: Path, name: string)
    requires DistinctNames(forest) && PartsAccurate(forest, base, disk) && SiblingsShown(forest, base, disk)
    ensures !Omits(Paths(forest, base), disk, parent, name)
  {
    if Omits(Paths(forest, base), disk, parent, name) {
      var item :| item in Paths(forest, base) && Parent(item.0) == parent;
      ItemIn(forest, base, item);
      var i :| 0 <= i < |forest| && From(forest[i], base, item);
      ItemParent(forest, base, item, i);
      if parent == base {
        OmitsAtBase(forest, base, disk, name);
      } else {
        OmitsBelow(forest, base, disk, i, parent, name);
      }
    }
  }

  lemma MatchesAccurate(forest: seq<Node>, base: Path, disk: Disk)
    requires DistinctNames(forest) && PartsAccurate(forest, base, disk) && SiblingsShown(forest, base, disk)
    requires forall i :: 0 <= i < |forest| ==> Stands((At(base, forest[i].name), forest[i].dir), disk)
    ensures Accurate(Paths(forest, base), disk)
  {
    StandsBelow(forest, base, disk);
    forall parent, name ensures !Omits(Paths(forest, base), disk, parent, name) {
      NothingOmitted(forest, base, disk, parent, name);
    }
  }

  // ----- The report -----------------------------------------------------------------------------------

  datatype Finding =
    | Vanished(line: nat, dir: bool, path: seq<string>)
    | Omitted(line: nat, location: seq<string>, name: string)

  /** How many entries exist on disk, of any kind. */
  function Resolved(entries: seq<TreeEntry>, disk: Disk): nat {
    if entries == [] then 0
    else Resolved(entries[..|entries| - 1], disk) + if KindOf(disk, entries[|entries| - 1].path).Some? then 1 else 0
  }

  /** A map marks a directory, and at least half of what it names exists. */
  predicate IsDirectoryMap(entries: seq<TreeEntry>, disk: Disk) {
    (exists i :: 0 <= i < |entries| && entries[i].dir) && Resolved(entries, disk) * 2 >= |entries|
  }

  /** The positions of the entries that exist. */
  function ResolvedAt(entries: seq<TreeEntry>, disk: Disk): set<nat> {
    set i: nat | i < |entries| && KindOf(disk, entries[i].path).Some?
  }

  lemma {:induction false} ResolvedCounts(entries: seq<TreeEntry>, disk: Disk)
    ensures Resolved(entries, disk) == |ResolvedAt(entries, disk)|
  {
    if entries != [] {
      var n: nat := |entries| - 1;
      ResolvedCounts(entries[..n], disk);
      var before := ResolvedAt(entries[..n], disk);
      assert ResolvedAt(entries, disk) == if KindOf(disk, entries[n].path).Some? then before + {n} else before;
    } else {
      assert ResolvedAt(entries, disk) == {};
    }
  }

  /** When a drawn block is audited as a map. */
  lemma DirectoryMapIff(entries: seq<TreeEntry>, disk: Disk)
    ensures IsDirectoryMap(entries, disk)
       <==> (exists i :: 0 <= i < |entries| && entries[i].dir) && 2 * |ResolvedAt(entries, disk)| >= |entries|
  {
    ResolvedCounts(entries, disk);
  }

  function WithoutRoot(p: Path, root: Path): seq<string> {
    if |root.parts| <= |p.parts| then p.parts[|root.parts|..] else []
  }

  function VanishedIn(entries: seq<TreeEntry>, root: Path, disk: Disk): seq<Finding> {
    if entries == [] then []
    else
      var e := entries[|entries| - 1];
      VanishedIn(entries[..|entries| - 1], root, disk)
      + if Stands((e.path, e.dir), disk) then [] else [Vanished(e.line, e.dir, WithoutRoot(e.path, root))]
  }

  predicate Increasing(at: seq<nat>, n: nat) {
    && (forall i :: 0 <= i < |at| ==> at[i] < n)
    && (forall i, j :: 0 <= i < j < |at| ==> at[i] < at[j])
  }

  predicate VanishedAt(entries: seq<TreeEntry>, disk: Disk, i: nat)
    requires i < |entries|
  {
    !Stands((entries[i].path, entries[i].dir), disk)
  }

  function VanishedFor(e: TreeEntry, root: Path): Finding { Vanished(e.line, e.dir, WithoutRoot(e.path, root)) }

  /** Every entry that does not stand as drawn is reported, once and in order, and nothing else is. */
  lemma {:induction false} VanishedAre(entries: seq<TreeEntry>, root: Path, disk: Disk) returns (at: seq<nat>)
    ensures Increasing(at, |entries|) && forall i: nat :: i < |entries| ==> (i in at <==> VanishedAt(entries, disk, i))
    ensures |VanishedIn(entries, root, disk)| == |at|
    ensures forall k :: 0 <= k < |at| ==>
      VanishedIn(entries, root, disk)[k] == VanishedFor(entries[at[k]], root)
  {
    at := [];
    if entries != [] {
      var n: nat := |entries| - 1;
      at := VanishedAre(entries[..n], root, disk);
      forall i: nat | i < n ensures VanishedAt(entries[..n], disk, i) <==> VanishedAt(entries, disk, i) {}
      if VanishedAt(entries, disk, n) { at := at + [n]; }
    }
  }

  /** The parents of the entries, in order of first appearance. */
  function ParentsOf(entries: seq<TreeEntry>): seq<Path> {
    if entries == [] then []
    else
      var before, parent := ParentsOf(entries[..|entries| - 1]), Parent(entries[|entries| - 1].path);
      if parent in before then before else before + [parent]
  }

  function ListedUnder(entries: seq<TreeEntry>, parent: Path): seq<TreeEntry> {
    if entries == [] then []
    else
      var e := entries[|entries| - 1];
      ListedUnder(entries[..|entries| - 1], parent) + if Parent(e.path) == parent then [e] else []
  }

  lemma {:induction false} ListedUnderIs(entries: seq<TreeEntry>, parent: Path)
    ensures forall e :: e in ListedUnder(entries, parent) <==> e in entries && Parent(e.path) == parent
  {
    if entries != [] {
      ListedUnderIs(entries[..|entries| - 1], parent);
      assert entries == entries[..|entries| - 1] + [entries[|entries| - 1]];
    }
  }

  lemma {:induction false} ParentsOfIs(entries: seq<TreeEntry>)
    ensures forall p :: p in ParentsOf(entries) <==> exists i :: 0 <= i < |entries| && Parent(entries[i].path) == p
    ensures forall i, j :: 0 <= i < j < |ParentsOf(entries)| ==> ParentsOf(entries)[i] != ParentsOf(entries)[j]
  {
    if entries != [] {
      var n := |entries| - 1;
      ParentsOfIs(entries[..n]);
      assert forall i :: 0 <= i < n ==> entries[..n][i] == entries[i];
      assert Parent(entries[n].path) in ParentsOf(entries);
    }
  }

  /** The entry is the first one listed under its parent. */
  predicate FirstChild(entries: seq<TreeEntry>, i: nat, parent: Path) {
    && i < |entries| && Parent(entries[i].path) == parent
    && forall j :: 0 <= j < i ==> Parent(entries[j].path) != parent
  }

  /** The parents stand in the order of their first entries. */
  lemma {:induction false} ParentsInOrder(entries: seq<TreeEntry>) returns (at: seq<nat>)
    ensures Increasing(at, |entries|) && |at| == |ParentsOf(entries)|
    ensures forall k :: 0 <= k < |at| ==> FirstChild(entries, at[k], ParentsOf(entries)[k])
    ensures forall i :: 0 <= i < |entries| ==> Parent(entries[i].path) in ParentsOf(entries)
  {
    ParentsOfIs(entries);
    at := [];
    if entries != [] {
      var n: nat := |entries| - 1;
      at := ParentsInOrder(entries[..n]);
      var before, parent := ParentsOf(entries[..n]), Parent(entries[n].path);
      forall k | 0 <= k < |at| ensures FirstChild(entries, at[k], before[k]) {
        assert FirstChild(entries[..n], at[k], before[k]);
      }
      if parent !in before {
        forall j | 0 <= j < n ensures Parent(entries[j].path) != parent {
          assert Parent(entries[..n][j].path) in before;
        }
        at := at + [n];
      }
    }
  }

  // ----- Missing children -------------------------------------------------------------------------------

  /** The candidate children a map does not declare. */
  function Undeclared(listing: map<string, Kind>, declared: set<string>, kinds: set<bool>): set<string> {
    set x | x in listing && IsCandidateChild(x, listing[x], kinds) && x !in declared
  }

  function Names(entries: seq<TreeEntry>): set<string> { set e | e in entries :: Name(e.path) }

  function Kinds(entries: seq<TreeEntry>): set<bool> { set e | e in entries :: e.dir }

  /** What a parent's listing holds and the entries listed under it leave out, in order. */
  ghost function Missing(parent: Path, listed: seq<TreeEntry>, disk: Disk): seq<string> {
    InOrder(Undeclared(disk.listing(parent), Names(listed), Kinds(listed)))
  }

  lemma MissingIs(entries: seq<TreeEntry>, parent: Path, disk: Disk)
    ensures var missing := Missing(parent, ListedUnder(entries, parent), disk);
      Ascending(missing) && forall name :: name in missing <==> Omits(Items(entries), disk, parent, name)
  {
    var listed, listing := ListedUnder(entries, parent), disk.listing(parent);
    var missing, all := Missing(parent, listed, disk), Undeclared(listing, Names(listed), Kinds(listed));
    InOrderIs(all);
    forall name
      ensures name in missing <==> Omits(Items(entries), disk, parent, name)
    {
      ListedFacts(entries, parent, name);
      assert name in missing <==> name in all;
    }
  }

  lemma ItemsAre(entries: seq<TreeEntry>)
    ensures forall item :: item in Items(entries) <==> exists e :: e in entries && item == (e.path, e.dir)
  {
    forall e | e in entries ensures (e.path, e.dir) in Items(entries) {
      var i :| 0 <= i < |entries| && entries[i] == e;
      assert Items(entries)[i] == (e.path, e.dir);
    }
  }

  predicate HasName(items: seq<Item>, parent: Path, name: string) {
    exists item :: item in items && Parent(item.0) == parent && Name(item.0) == name
  }

  predicate HasKind(items: seq<Item>, parent: Path, dir: bool) {
    exists item :: item in items && Parent(item.0) == parent && item.1 == dir
  }

  /** The declared names and kinds under a parent, told through the items. */
  lemma ListedFacts(entries: seq<TreeEntry>, parent: Path, name: string)
    ensures name in Names(ListedUnder(entries, parent)) <==> HasName(Items(entries), parent, name)
    ensures forall dir :: dir in Kinds(ListedUnder(entries, parent)) <==> HasKind(Items(entries), parent, dir)
  {
    ListedUnderIs(entries, parent);
    ItemsAre(entries);
    forall e | e in entries ensures (e.path, e.dir) in Items(entries) {}
    forall e | e in entries && Parent(e.path) == parent
      ensures e in ListedUnder(entries, parent)
    {
    }
  }

  method UndeclaredChildren(parent: Path, declared: set<string>, kinds: set<bool>, disk: Disk)
    returns (names: seq<string>)
    ensures Ascending(names) && Holds(names, Undeclared(disk.listing(parent), declared, kinds))
  {
    var listing := disk.listing(parent);
    var sorted := Sorted(listing.Keys);
    names := [];
    for i := 0 to |sorted|
      invariant Ascending(names) && forall x :: x in names ==> x in sorted[..i]
      invariant forall x :: x in names <==> x in sorted[..i] && x in Undeclared(listing, declared, kinds)
    {
      assert sorted[..i + 1] == sorted[..i] + [sorted[i]];
      if IsCandidateChild(sorted[i], listing[sorted[i]], kinds) && sorted[i] !in declared {
        forall j | 0 <= j < |names| ensures StrLess(names[j], sorted[i]) {
          assert names[j] in names;
        }
        names := names + [sorted[i]];
      }
    }
    assert sorted[..|sorted|] == sorted;
    forall i | 0 <= i < |names| ensures names[i] in Undeclared(listing, declared, kinds) {
      assert names[i] in names;
    }
  }

  /** An insertion-ordered dictionary from each parent to the entries listed under it. */
  ghost predicate Grouped(order: seq<Path>, children: map<Path, seq<TreeEntry>>, entries: seq<TreeEntry>) {
    && order == ParentsOf(entries)
    && (forall p :: p in children <==> p in order)
    && (forall p :: p in children ==> children[p] != [] && children[p] == ListedUnder(entries, p))
    && (forall p :: p !in children ==> ListedUnder(entries, p) == [])
  }

  lemma GroupedMore(order: seq<Path>, children: map<Path, seq<TreeEntry>>, entries: seq<TreeEntry>, e: TreeEntry)
    requires Grouped(order, children, entries)
    ensures var parent := Parent(e.path);
      var listed := if parent in children then children[parent] else [];
      Grouped(if parent in children then order else order + [parent], children[parent := listed + [e]], entries + [e])
  {
  }

  method GroupEntriesByParent(entries: seq<TreeEntry>) returns (order: seq<Path>, children: map<Path, seq<TreeEntry>>)
    ensures Grouped(order, children, entries)
  {
    order, children := [], map[];
    for i := 0 to |entries|
      invariant Grouped(order, children, entries[..i])
    {
      assert entries[..i + 1] == entries[..i] + [entries[i]];
      GroupedMore(order, children, entries[..i], entries[i]);
      var parent := Parent(entries[i].path);
      if parent !in children {
        assert [] + [entries[i]] == [entries[i]];
        order := order + [parent];
        children := children[parent := [entries[i]]];
      } else {
        children := children[parent := children[parent] + [entries[i]]];
      }
    }
    assert entries[..|entries|] == entries;
  }

  method ParentMissingChildren(parent: Path, listed: seq<TreeEntry>, disk: Disk) returns (names: seq<string>)
    ensures names == Missing(parent, listed, disk)
  {
    ghost var all := Undeclared(disk.listing(parent), Names(listed), Kinds(listed));
    InOrderIs(all);
    if |disk.listing(parent)| == 0 {
      names := [];
    } else {
      names := UndeclaredChildren(parent, Names(listed), Kinds(listed), disk);
    }
    AscendingUnique(names, Missing(parent, listed, disk), all);
  }

  /** The findings for the missing children of one directory. */
  ghost function OmittedFor(parent: Path, listed: seq<TreeEntry>, root: Path, disk: Disk): seq<Finding>
    requires listed != []
  {
    Omissions(listed[0].line, WithoutRoot(parent, root), Missing(parent, listed, disk))
  }

  ghost function OmittedUnder(entries: seq<TreeEntry>, parent: Path, root: Path, disk: Disk): seq<Finding> {
    var listed := ListedUnder(entries, parent);
    if listed == [] then [] else OmittedFor(parent, listed, root, disk)
  }

  function Omissions(line: nat, location: seq<string>, names: seq<string>): seq<Finding> {
    seq(|names|, i requires 0 <= i < |names| => Omitted(line, location, names[i]))
  }

  function FlatMap<A, B>(xs: seq<A>, f: A -> seq<B>): seq<B> {
    if xs == [] then [] else FlatMap(xs[..|xs| - 1], f) + f(xs[|xs| - 1])
  }

  lemma FlatMapNext<A, B>(xs: seq<A>, f: A -> seq<B>, i: nat)
    requires i < |xs|
    ensures FlatMap(xs[..i + 1], f) == FlatMap(xs[..i], f) + f(xs[i])
  {
    assert xs[..i + 1][..i] == xs[..i];
  }

  lemma {:induction false} FlatMapEmpty<A, B>(xs: seq<A>, f: A -> seq<B>)
    ensures FlatMap(xs, f) == [] <==> forall x :: x in xs ==> f(x) == []
  {
    if xs != [] {
      var n := |xs| - 1;
      FlatMapEmpty(xs[..n], f);
      assert |FlatMap(xs, f)| == |FlatMap(xs[..n], f)| + |f(xs[n])|;
      assert xs == xs[..n] + [xs[n]];
    }
  }

  ghost function OmittedIn(entries: seq<TreeEntry>, root: Path, disk: Disk): seq<Finding> {
    FlatMap(ParentsOf(entries), p => OmittedUnder(entries, p, root, disk))
  }

  method ReportOmissions(line: nat, location: seq<string>, names: seq<string>) returns (findings: seq<Finding>)
    ensures findings == Omissions(line, location, names)
  {
    findings := [];
    for i := 0 to |names|
      invariant findings == Omissions(line, location, names[..i])
    {
      findings := findings + [Omitted(line, location, names[i])];
    }
    assert names[..|names|] == names;
  }

  method CheckParent(parent: Path, listed: seq<TreeEntry>, root: Path, disk: Disk) returns (r: Option<seq<Finding>>)
    requires listed != []
    ensures r == if Under(parent, root) then Some(OmittedFor(parent, listed, root, disk)) else None
  {
    var missing := ParentMissingChildren(parent, listed, disk);
    var location := Relative(parent, root);
    if location.None? { return None; }
    var findings := ReportOmissions(listed[0].line, location.value, missing);
    return Some(findings);
  }

  method CheckParents(order: seq<Path>, children: map<Path, seq<TreeEntry>>, root: Path, disk: Disk,
                      ghost of: Path -> seq<Finding>)
    returns (r: Option<seq<Finding>>)
    requires forall i :: 0 <= i < |order| ==> Known(order[i], children, root, disk, of)
    ensures r.None? <==> !AllUnder(order, root)
    ensures r.Some? ==> r.value == FlatMap(order, of)
  {
    var findings: seq<Finding> := [];
    for i := 0 to |order|
      invariant forall j :: 0 <= j < i ==> Under(order[j], root)
      invariant findings == FlatMap(order[..i], of)
    {
      FlatMapNext(order, of, i);
      assert Known(order[i], children, root, disk, of);
      var more := CheckParent(order[i], children[order[i]], root, disk);
      if more.None? { return None; }
      findings := findings + more.value;
    }
    assert order[..|order|] == order;
    return Some(findings);
  }

  predicate AllUnder(paths: seq<Path>, root: Path) {
    forall i :: 0 <= i < |paths| ==> Under(paths[i], root)
  }

  ghost predicate Known(p: Path, children: map<Path, seq<TreeEntry>>, root: Path, disk: Disk,
                        of: Path -> seq<Finding>) {
    p in children && children[p] != [] && of(p) == OmittedFor(p, children[p], root, disk)
  }

  method CheckTreeCompleteness(entries: seq<TreeEntry>, root: Path, disk: Disk) returns (r: Option<seq<Finding>>)
    ensures r.None? <==> !AllUnder(ParentsOf(entries), root)
    ensures r.Some? ==> r.value == OmittedIn(entries, root, disk)
  {
    var order, children := GroupEntriesByParent(entries);
    forall i | 0 <= i < |order|
      ensures Known(order[i], children, root, disk, p => OmittedUnder(entries, p, root, disk))
    {
      assert order[i] in order;
    }
    r := CheckParents(order, children, root, disk, p => OmittedUnder(entries, p, root, disk));
  }

  predicate RootedParents(entries: seq<TreeEntry>, root: Path) {
    forall i :: 0 <= i < |entries| ==> Under(Parent(entries[i].path), root)
  }

  /** The map is silent exactly when it is accurate; it raises exactly when an entry's parent
      lies outside the root. */
  method AuditDirectoryBlock(block: seq<Numbered>, root: Path, disk: Disk) returns (r: Option<seq<Finding>>)
    ensures !IsDirectoryMap(Entries(block, root), disk) ==> r == Some([])
    ensures IsDirectoryMap(Entries(block, root), disk) ==> AuditOf(Entries(block, root), root, disk, r)
  {
    var entries := TreeEntries(block, root);
    if !IsDirectoryMap(entries, disk) { return Some([]); }
    var vanished := CheckEntriesExist(entries, root, disk);
    SilentIffAccurate(entries, root, disk);
    RootedIff(entries, root);
    if vanished.None? { return None; }
    var omitted := CheckTreeCompleteness(entries, root, disk);
    r := if omitted.None? then None else Some(vanished.value + omitted.value);
  }

  method CheckEntriesExist(entries: seq<TreeEntry>, root: Path, disk: Disk) returns (r: Option<seq<Finding>>)
    ensures r.None? ==> !RootedParents(entries, root)
    ensures r.Some? ==> r.value == VanishedIn(entries, root, disk)
  {
    var findings: seq<Finding> := [];
    for i := 0 to |entries|
      invariant findings == VanishedIn(entries[..i], root, disk)
    {
      assert entries[..i + 1][..i] == entries[..i];
      var e := entries[i];
      if !Stands((e.path, e.dir), disk) {
        var shown := Relative(e.path, root);
        if shown.None? { return None; }
        findings := findings + [Vanished(e.line, e.dir, shown.value)];
      }
    }
    assert entries[..|entries|] == entries;
    return Some(findings);
  }

  lemma RootedIff(entries: seq<TreeEntry>, root: Path)
    ensures RootedParents(entries, root) <==> AllUnder(ParentsOf(entries), root)
  {
    var parents := ParentsOf(entries);
    ParentsOfIs(entries);
    forall i | 0 <= i < |entries| && AllUnder(parents, root) ensures Under(Parent(entries[i].path), root) {
      assert Parent(entries[i].path) in parents;
    }
    forall i | 0 <= i < |parents| && RootedParents(entries, root) ensures Under(parents[i], root) {
      assert parents[i] in parents;
    }
  }

  ghost predicate AuditOf(entries: seq<TreeEntry>, root: Path, disk: Disk, r: Option<seq<Finding>>) {
    && (r.Some? <==> RootedParents(entries, root))
    && (r.Some? ==> r.value == VanishedIn(entries, root, disk) + OmittedIn(entries, root, disk))
    && (r.Some? ==> (r.value == [] <==> Accurate(Items(entries), disk)))
  }

  lemma {:induction false} VanishedSilent(entries: seq<TreeEntry>, root: Path, disk: Disk)
    ensures VanishedIn(entries, root, disk) == [] <==> forall e :: e in entries ==> Stands((e.path, e.dir), disk)
  {
    if entries != [] {
      VanishedSilent(entries[..|entries| - 1], root, disk);
      assert entries == entries[..|entries| - 1] + [entries[|entries| - 1]];
    }
  }

  lemma OmittedSilent(entries: seq<TreeEntry>, root: Path, disk: Disk)
    ensures OmittedIn(entries, root, disk) == []
         <==> forall p :: p in ParentsOf(entries) ==> OmittedUnder(entries, p, root, disk) == []
  {
    FlatMapEmpty(ParentsOf(entries), p => OmittedUnder(entries, p, root, disk));
  }

  lemma {:induction false} FlatMapHolds<A, B>(xs: seq<A>, f: A -> seq<B>, y: B)
    ensures y in FlatMap(xs, f) <==> exists x :: x in xs && y in f(x)
  {
    if xs != [] {
      var n := |xs| - 1;
      FlatMapHolds(xs[..n], f, y);
      assert xs == xs[..n] + [xs[n]];
      assert y in FlatMap(xs, f) <==> y in FlatMap(xs[..n], f) || y in f(xs[n]);
    }
  }

  ghost predicate OmissionAt(entries: seq<TreeEntry>, root: Path, disk: Disk, finding: Finding, i: nat, name: string) {
    && i < |entries| && FirstChild(entries, i, Parent(entries[i].path))
    && Omits(Items(entries), disk, Parent(entries[i].path), name)
    && finding == Omitted(entries[i].line, WithoutRoot(Parent(entries[i].path), root), name)
  }

  /** Every name a map leaves out is reported at the first entry beside it, and nothing else is. */
  lemma OmittedAre(entries: seq<TreeEntry>, root: Path, disk: Disk, finding: Finding)
    ensures finding in OmittedIn(entries, root, disk)
       <==> exists i: nat, name :: OmissionAt(entries, root, disk, finding, i, name)
  {
    FlatMapHolds(ParentsOf(entries), p => OmittedUnder(entries, p, root, disk), finding);
    var at := ParentsInOrder(entries);
    if finding in OmittedIn(entries, root, disk) {
      var p :| p in ParentsOf(entries) && finding in OmittedUnder(entries, p, root, disk);
      var k :| 0 <= k < |at| && ParentsOf(entries)[k] == p;
      var name := OmittedAt(entries, root, disk, finding, at[k], p);
    }
    if i: nat, name :| OmissionAt(entries, root, disk, finding, i, name) {
      OmissionReported(entries, root, disk, finding, i, name);
    }
  }

  lemma OmittedAt(entries: seq<TreeEntry>, root: Path, disk: Disk, finding: Finding, i: nat, p: Path)
    returns (name: string)
    requires FirstChild(entries, i, p) && finding in OmittedUnder(entries, p, root, disk)
    ensures OmissionAt(entries, root, disk, finding, i, name)
  {
    ListedFirst(entries, i, p);
    MissingIs(entries, p, disk);
    var missing := Missing(p, ListedUnder(entries, p), disk);
    var m :| 0 <= m < |missing| && finding == Omitted(entries[i].line, WithoutRoot(p, root), missing[m]);
    name := missing[m];
    assert name in missing;
  }

  lemma OmissionReported(entries: seq<TreeEntry>, root: Path, disk: Disk, finding: Finding, i: nat, name: string)
    requires OmissionAt(entries, root, disk, finding, i, name)
    ensures finding in OmittedUnder(entries, Parent(entries[i].path), root, disk)
  {
    var p := Parent(entries[i].path);
    ListedFirst(entries, i, p);
    MissingIs(entries, p, disk);
    var missing := Missing(p, ListedUnder(entries, p), disk);
    assert name in missing;
    var m :| 0 <= m < |missing| && missing[m] == name;
    assert OmittedUnder(entries, p, root, disk)[m] == finding;
  }

  lemma {:induction false} ListedFirst(entries: seq<TreeEntry>, i: nat, parent: Path)
    requires FirstChild(entries, i, parent)
    ensures ListedUnder(entries, parent) != [] && ListedUnder(entries, parent)[0] == entries[i]
    decreases |entries|
  {
    var n := |entries| - 1;
    if i < n {
      assert FirstChild(entries[..n], i, parent);
      ListedFirst(entries[..n], i, parent);
    } else {
      NoneListed(entries[..n], parent);
    }
  }

  lemma {:induction false} NoneListed(entries: seq<TreeEntry>, parent: Path)
    requires forall i :: 0 <= i < |entries| ==> Parent(entries[i].path) != parent
    ensures ListedUnder(entries, parent) == []
  {
    if entries != [] { NoneListed(entries[..|entries| - 1], parent); }
  }

  lemma UnderSilent(entries: seq<TreeEntry>, parent: Path, root: Path, disk: Disk)
    ensures OmittedUnder(entries, parent, root, disk) == []
         <==> forall name :: !Omits(Items(entries), disk, parent, name)
  {
    MissingIs(entries, parent, disk);
    var listed := ListedUnder(entries, parent);
    var missing := Missing(parent, listed, disk);
    if listed == [] {
      forall name ensures !Omits(Items(entries), disk, parent, name) {
        ListedUnderIs(entries, parent);
        ItemsAre(entries);
      }
    } else if missing != [] {
      assert missing[0] in missing;
    }
  }

  lemma SilentIffAccurate(entries: seq<TreeEntry>, root: Path, disk: Disk)
    ensures VanishedIn(entries, root, disk) + OmittedIn(entries, root, disk) == [] <==> Accurate(Items(entries), disk)
  {
    VanishedSilent(entries, root, disk);
    OmittedSilent(entries, root, disk);
    ItemsAre(entries);
    ParentsOfIs(entries);
    forall p, name | Omits(Items(entries), disk, p, name)
      ensures p in ParentsOf(entries)
    {
      var item :| item in Items(entries) && Parent(item.0) == p;
      var i :| 0 <= i < |entries| && Items(entries)[i] == item;
      assert Parent(entries[i].path) == p;
    }
    forall p
      ensures OmittedUnder(entries, p, root, disk) == [] <==> forall name :: !Omits(Items(entries), disk, p, name)
    {
      UnderSilent(entries, p, root, disk);
    }
    forall e | e in entries ensures (e.path, e.dir) in Items(entries) {}
  }

  // ----- From the drawn forest to the verdict -------------------------------------------------------

  /** A drawn forest without an ellipsis never raises, and its map is accurate exactly when the
      forest matches the disk. */
  lemma DrawnForestVerdict(block: seq<Numbered>, forest: seq<Node>, root: Path, disk: Disk)
    requires Texts(TreeLines(block)) == Print(forest, "") && WellNamed(forest) && DistinctNames(forest)
        && !Partial(forest)
    ensures RootedParents(Entries(block, root), root)
    ensures Accurate(Items(Entries(block, root)), disk) <==> Matches(forest, root, disk)
  {
    ListingRoundTrip(block, forest, root);
    var entries, paths := Entries(block, root), Paths(forest, root);
    assert Items(entries) == paths;
    forall i | 0 <= i < |entries|
      ensures Under(Parent(entries[i].path), root)
    {
      assert paths[i] in paths;
      ItemBelow(forest, root, paths[i]);
    }
    AccurateIffMatches(forest, root, disk);
  }
}
