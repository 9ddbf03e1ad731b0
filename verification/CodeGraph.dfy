/** The persistent code graph: its update operations, its adjacency tables, and the upstream
    closure computed from them. */
module CodeGraph {
  import opened Wrappers

  datatype EdgeKind = Calls | Imports | Inherits | Defines

  datatype Edge = Edge(source: string, target: string, kind: EdgeKind, line: nat)

  datatype Symbol = Symbol(id: string, name: string, filePath: string, line: nat)

  datatype End = Source | Target

  function EndOf(e: Edge, end: End): string {
    match end
    case Source => e.source
    case Target => e.target
  }

  // ----- Grouping -----------------------------------------------------------------------

  function Select(edges: seq<Edge>, end: End, key: string): seq<Edge> {
    if edges == [] then []
    else
      var rest := Select(edges[..|edges| - 1], end, key);
      var e := edges[|edges| - 1];
      if EndOf(e, end) == key then rest + [e] else rest
  }

  lemma {:induction false} SelectMembers(edges: seq<Edge>, end: End, key: string, e: Edge)
    ensures e in Select(edges, end, key) <==> e in edges && EndOf(e, end) == key
  {
    if edges != [] {
      var n := |edges| - 1;
      SelectMembers(edges[..n], end, key, e);
      assert edges == edges[..n] + [edges[n]];
    }
  }

  /** A lookup table is the grouping of the edge list: one entry per end that occurs, holding
      that end's edges in list order. */
  ghost predicate Groups(table: map<string, seq<Edge>>, edges: seq<Edge>, end: End) {
    forall key :: (if key in table then table[key] else []) == Select(edges, end, key)
               && (key in table ==> table[key] != [])
  }

  function Get(table: map<string, seq<Edge>>, key: string): seq<Edge> {
    if key in table then table[key] else []
  }

  // ----- The graph as a value -----------------------------------------------------------

  /** `order` lists the keys of the symbol registry in insertion order. */
  datatype Graph = Graph(
    order: seq<string>,
    symbols: map<string, Symbol>,
    edges: seq<Edge>,
    hashes: map<string, string>,
    fileSymbols: map<string, seq<string>>)

  /** What parsing one file yields. */
  datatype Artifacts = Artifacts(symbols: seq<Symbol>, edges: seq<Edge>)

  predicate Distinct(ids: seq<string>) {
    forall i, j :: 0 <= i < j < |ids| ==> ids[i] != ids[j]
  }

  ghost predicate Registered(g: Graph) {
    (forall id :: id in g.order <==> id in g.symbols) && Distinct(g.order)
  }

  function OldIds(g: Graph, path: string): seq<string> {
    if path in g.fileSymbols then g.fileSymbols[path] else []
  }

  predicate Survives(e: Edge, ids: seq<string>, path: string) {
    e.source !in ids && e.target !in ids && !(path + "::" <= e.source)
  }

  function KeepEdges(edges: seq<Edge>, ids: seq<string>, path: string): seq<Edge> {
    if edges == [] then []
    else
      var rest := KeepEdges(edges[..|edges| - 1], ids, path);
      var e := edges[|edges| - 1];
      if Survives(e, ids, path) then rest + [e] else rest
  }

  function Without(order: seq<string>, ids: seq<string>): seq<string> {
    if order == [] then []
    else
      var rest := Without(order[..|order| - 1], ids);
      if order[|order| - 1] in ids then rest else rest + [order[|order| - 1]]
  }

  function Drop(symbols: map<string, Symbol>, ids: seq<string>): map<string, Symbol> {
    map id | id in symbols && id !in ids :: symbols[id]
  }

  function Removed(g: Graph, path: string): Graph {
    var ids := OldIds(g, path);
    g.(order := Without(g.order, ids),
       symbols := Drop(g.symbols, ids),
       edges := KeepEdges(g.edges, ids, path))
  }

  /** Storing symbols one by one: a known identifier keeps its place. */
  function Register(g: Graph, symbols: seq<Symbol>): Graph {
    if symbols == [] then g
    else
      var h := Register(g, symbols[..|symbols| - 1]);
      var s := symbols[|symbols| - 1];
      h.(order := if s.id in h.symbols then h.order else h.order + [s.id], symbols := h.symbols[s.id := s])
  }

  function Ids(symbols: seq<Symbol>): seq<string> {
    seq(|symbols|, i requires 0 <= i < |symbols| => symbols[i].id)
  }

  function Recorded(g: Graph, path: string, code: string, a: Artifacts): Graph {
    g.(hashes := g.hashes[path := code], fileSymbols := g.fileSymbols[path := Ids(a.symbols)])
  }

  function Added(g: Graph, path: string, code: string, a: Artifacts): Graph {
    var h := Register(Recorded(g, path, code, a), a.symbols);
    h.(edges := h.edges + a.edges)
  }

  predicate Unchanged(g: Graph, path: string, code: string) {
    path in g.hashes && g.hashes[path] == code
  }

  /** One call of the indexer; `parsed` is None for a file that does not parse. */
  function Indexed(g: Graph, path: string, code: string, parsed: Option<Artifacts>): Graph {
    if Unchanged(g, path, code) then g
    else match parsed
      case None => Removed(g, path)
      case Some(a) => Added(Removed(g, path), path, code, a)
  }

  lemma {:induction false} WithoutMembers(order: seq<string>, ids: seq<string>)
    ensures forall id :: id in Without(order, ids) <==> id in order && id !in ids
    ensures Distinct(order) ==> Distinct(Without(order, ids))
  {
    if order != [] {
      var n := |order| - 1;
      WithoutMembers(order[..n], ids);
      assert order == order[..n] + [order[n]];
      if Distinct(order) { assert order[n] !in order[..n]; }
    }
  }

  lemma {:induction false} RegisterKeeps(g: Graph, symbols: seq<Symbol>)
    requires Registered(g)
    ensures Registered(Register(g, symbols))
    ensures Register(g, symbols) == g.(order := Register(g, symbols).order, symbols := Register(g, symbols).symbols)
    ensures forall id :: id in Register(g, symbols).symbols <==> id in g.symbols || id in Ids(symbols)
  {
    if symbols != [] {
      var n := |symbols| - 1;
      RegisterKeeps(g, symbols[..n]);
      assert Ids(symbols) == Ids(symbols[..n]) + [symbols[n].id];
    }
  }

  /** The last of the symbols that share an identifier. */
  predicate LastWith(symbols: seq<Symbol>, id: string, i: nat) {
    && i < |symbols| && symbols[i].id == id
    && forall j :: i < j < |symbols| ==> symbols[j].id != id
  }

  /** Each identifier is mapped to the last symbol that carries it. */
  lemma {:induction false} RegisteredSymbol(g: Graph, symbols: seq<Symbol>, id: string, i: nat)
    requires LastWith(symbols, id, i)
    ensures id in Register(g, symbols).symbols && Register(g, symbols).symbols[id] == symbols[i]
  {
    var n: nat := |symbols| - 1;
    if i < n {
      forall j | i < j < n ensures symbols[..n][j].id != id {}
      RegisteredSymbol(g, symbols[..n], id, i);
    }
  }

  /** An identifier that none carries keeps what it was mapped to. */
  lemma {:induction false} RegisterLeaves(g: Graph, symbols: seq<Symbol>, id: string)
    requires forall i :: 0 <= i < |symbols| ==> symbols[i].id != id
    ensures id in Register(g, symbols).symbols <==> id in g.symbols
    ensures id in g.symbols ==> Register(g, symbols).symbols[id] == g.symbols[id]
  {
    if symbols != [] { RegisterLeaves(g, symbols[..|symbols| - 1], id); }
  }

  /** The known identifiers keep their place in front of the new ones. */
  lemma {:induction false} RegisterAppends(g: Graph, symbols: seq<Symbol>)
    ensures g.order <= Register(g, symbols).order
  {
    if symbols != [] { RegisterAppends(g, symbols[..|symbols| - 1]); }
  }

  /** Every update keeps the registry's key list duplicate-free and complete. */
  lemma IndexedKeepsRegistered(g: Graph, path: string, code: string, parsed: Option<Artifacts>)
    requires Registered(g)
    ensures Registered(Indexed(g, path, code, parsed))
  {
    WithoutMembers(g.order, OldIds(g, path));
    if parsed.Some? {
      var r := Removed(g, path);
      assert Registered(r);
      RegisterKeeps(Recorded(r, path, code, parsed.value), parsed.value.symbols);
    }
  }

  lemma {:induction false} KeptEdges(edges: seq<Edge>, ids: seq<string>, path: string, e: Edge)
    ensures e in KeepEdges(edges, ids, path) <==> e in edges && Survives(e, ids, path)
  {
    if edges != [] {
      var n := |edges| - 1;
      KeptEdges(edges[..n], ids, path, e);
      assert edges == edges[..n] + [edges[n]];
    }
  }

  /** Re-indexing is not a fresh build: a module-level edge, whose source is the bare file path,
      outlives every later version of the file unless one of its ends was a symbol of it. */
  lemma ModuleEdgesSurvive(g: Graph, path: string, code: string, parsed: Option<Artifacts>, e: Edge)
    requires e in g.edges && e.source == path && path !in OldIds(g, path)
    ensures e in Indexed(g, path, code, parsed).edges
       <==> (Unchanged(g, path, code) || e.target !in OldIds(g, path) || (parsed.Some? && e in parsed.value.edges))
  {
    assert |path + "::"| > |path|;
    KeptEdges(g.edges, OldIds(g, path), path, e);
    if parsed.Some? {
      RegisterEdges(Recorded(Removed(g, path), path, code, parsed.value), parsed.value.symbols);
    }
  }

  lemma {:induction false} RegisterEdges(g: Graph, symbols: seq<Symbol>)
    ensures Register(g, symbols).edges == g.edges
  {
    if symbols != [] { RegisterEdges(g, symbols[..|symbols| - 1]); }
  }

  /** A version that does not parse empties the file but leaves its old hash behind, so putting
      the earlier text back is taken for no change and the file stays empty. */
  lemma RestoredFileStaysEmpty(g: Graph, path: string, code: string, broken: string, parsed: Option<Artifacts>)
    requires Unchanged(g, path, code) && broken != code
    ensures var h := Indexed(g, path, broken, None);
      && Indexed(h, path, code, parsed) == h
      && forall id :: id in OldIds(g, path) ==> id !in h.symbols
  {
  }

  // ----- Paths --------------------------------------------------------------------------

  /** A dependency that is not mere containment. */
  ghost predicate Depends(edges: seq<Edge>, a: string, b: string) {
    exists e :: e in edges && e.source == a && e.target == b && e.kind != Defines
  }

  ghost predicate DependencyPath(edges: seq<Edge>, p: seq<string>) {
    |p| >= 2 && forall i :: 0 <= i < |p| - 1 ==> Depends(edges, p[i], p[i + 1])
  }

  /** `a` reaches `b` along one dependency or more. */
  ghost predicate Reaches(edges: seq<Edge>, a: string, b: string) {
    exists p :: DependencyPath(edges, p) && p[0] == a && p[|p| - 1] == b
  }

  lemma ReachesStep(edges: seq<Edge>, a: string, b: string, c: string)
    requires Depends(edges, a, b) && (b == c || Reaches(edges, b, c))
    ensures Reaches(edges, a, c)
  {
    if b == c {
      assert DependencyPath(edges, [a, b]);
    } else {
      var p :| DependencyPath(edges, p) && p[0] == b && p[|p| - 1] == c;
      var q := [a] + p;
      forall i | 0 <= i < |q| - 1 ensures Depends(edges, q[i], q[i + 1]) {
        if i > 0 { assert q[i] == p[i - 1] && q[i + 1] == p[i]; }
      }
      assert DependencyPath(edges, q);
    }
  }

  ghost predicate PredecessorsIn(edges: seq<Edge>, x: string, visited: set<string>) {
    forall a :: Depends(edges, a, x) ==> a in visited
  }

  /** A set closed under predecessors contains everything that reaches the target. */
  lemma {:induction false} ClosedContainsPath(edges: seq<Edge>, target: string, visited: set<string>, p: seq<string>)
    requires forall x :: x == target || x in visited ==> PredecessorsIn(edges, x, visited)
    requires DependencyPath(edges, p) && p[|p| - 1] == target
    ensures p[0] in visited
    decreases |p|
  {
    assert Depends(edges, p[0], p[1]);
    if |p| == 2 {
      assert PredecessorsIn(edges, p[1], visited);
    } else {
      var q := p[1..];
      forall i | 0 <= i < |q| - 1 ensures Depends(edges, q[i], q[i + 1]) {
        assert q[i] == p[i + 1] && q[i + 1] == p[i + 2];
      }
      ClosedContainsPath(edges, target, visited, q);
      assert PredecessorsIn(edges, p[1], visited);
    }
  }

  /** The incoming edges of a symbol carry all its dependencies. */
  lemma SelectedDependencies(edges: seq<Edge>, b: string)
    ensures forall a :: Depends(Select(edges, Target, b), a, b) <==> Depends(edges, a, b)
  {
    forall e ensures e in Select(edges, Target, b) <==> e in edges && e.target == b {
      SelectMembers(edges, Target, b, e);
    }
  }

  // ----- The index ----------------------------------------------------------------------

  class CodeMemoryIndex {
    var order: seq<string>
    var symbols: map<string, Symbol>
    var edges: seq<Edge>
    var fileHashes: map<string, string>
    var fileSymbols: map<string, seq<string>>
    var forwardEdges: map<string, seq<Edge>>
    var backwardEdges: map<string, seq<Edge>>

    ghost function Abs(): Graph
      reads this
    {
      Graph(order, symbols, edges, fileHashes, fileSymbols)
    }

    ghost predicate Valid()
      reads this
    {
      && Registered(Abs())
      && Groups(forwardEdges, edges, Source)
      && Groups(backwardEdges, edges, Target)
    }

    constructor ()
      ensures Valid() && Abs() == Graph([], map[], [], map[], map[])
    {
      order, symbols, edges := [], map[], [];
      fileHashes, fileSymbols := map[], map[];
      forwardEdges, backwardEdges := map[], map[];
    }

    method RebuildAdjacency()
      modifies this`forwardEdges, this`backwardEdges
      ensures Groups(forwardEdges, edges, Source) && Groups(backwardEdges, edges, Target)
    {
      forwardEdges, backwardEdges := map[], map[];
      for i := 0 to |edges|
        invariant Groups(forwardEdges, edges[..i], Source) && Groups(backwardEdges, edges[..i], Target)
      {
        var e := edges[i];
        assert edges[..i + 1] == edges[..i] + [e];
        assert edges[..i + 1][..i] == edges[..i];
        forwardEdges := forwardEdges[e.source := Get(forwardEdges, e.source) + [e]];
        backwardEdges := backwardEdges[e.target := Get(backwardEdges, e.target) + [e]];
      }
      assert edges[..|edges|] == edges;
    }

    method RemoveFileSymbols(path: string)
      requires Registered(Abs())
      modifies this
      ensures Valid() && Abs() == Removed(old(Abs()), path)
    {
      var ids := if path in fileSymbols then fileSymbols[path] else [];
      WithoutMembers(order, ids);
      symbols := Drop(symbols, ids);
      order := Without(order, ids);
      edges := KeepEdges(edges, ids, path);
      RebuildAdjacency();
    }

    method AddFileArtifacts(path: string, code: string, a: Artifacts)
      requires Valid()
      modifies this
      ensures Valid() && Abs() == Added(old(Abs()), path, code, a)
    {
      fileHashes := fileHashes[path := code];
      fileSymbols := fileSymbols[path := Ids(a.symbols)];
      ghost var base := Abs();
      for i := 0 to |a.symbols|
        invariant Abs() == Register(base, a.symbols[..i])
        invariant Registered(base)
      {
        var s := a.symbols[i];
        assert a.symbols[..i + 1] == a.symbols[..i] + [s];
        assert a.symbols[..i + 1][..i] == a.symbols[..i];
        order := if s.id in symbols then order else order + [s.id];
        symbols := symbols[s.id := s];
      }
      assert a.symbols[..|a.symbols|] == a.symbols;
      RegisterKeeps(base, a.symbols);
      edges := edges + a.edges;
      RebuildAdjacency();
    }

    /** After any sequence of calls both adjacency tables are the ordered grouping of the edges. */
    method IndexFile(path: string, code: string, parsed: Option<Artifacts>) returns (updated: bool)
      requires Valid()
      modifies this
      ensures Valid() && Abs() == Indexed(old(Abs()), path, code, parsed)
      ensures updated <==> !old(Unchanged(Abs(), path, code)) && parsed.Some?
    {
      if path in fileHashes && fileHashes[path] == code { return false; }
      RemoveFileSymbols(path);
      if parsed.None? { return false; }
      AddFileArtifacts(path, code, parsed.value);
      return true;
    }

    method StepBlastRadius(current: string, visited: set<string>, queue: seq<string>)
      returns (visited': set<string>, queue': seq<string>)
      requires Valid()
      ensures forall x :: x in visited' <==> x in visited || Depends(edges, x, current)
      ensures |queue'| + |visited| == |queue| + |visited'|
      ensures forall x :: x in queue' <==> x in queue || x in visited' - visited
    {
      visited', queue' := visited, queue;
      var incoming := Get(backwardEdges, current);
      for i := 0 to |incoming|
        invariant forall x :: x in visited' <==> x in visited || Depends(incoming[..i], x, current)
        invariant |queue'| + |visited| == |queue| + |visited'|
        invariant forall x :: x in queue' <==> x in queue || x in visited' - visited
      {
        var edge := incoming[i];
        SelectMembers(edges, Target, current, edge);
        if edge.kind != Defines && edge.source !in visited' {
          visited' := visited' + {edge.source};
          queue' := queue' + [edge.source];
        }
      }
      assert incoming[..|incoming|] == incoming;
      SelectedDependencies(edges, current);
    }

    /** The upstream closure: exactly the other symbols with a dependency path to the target. */
    method BlastRadius(symbolId: string) returns (radius: set<string>)
      requires Valid()
      ensures forall x :: x in radius <==> x != symbolId && Reaches(edges, x, symbolId)
    {
      var visited: set<string> := {};
      var queue := [symbolId];
      ghost var sources := set e | e in edges :: e.source;
      while queue != []
        invariant visited <= sources
        invariant forall x :: x in queue ==> x == symbolId || x in visited
        invariant forall x :: x in visited ==> Reaches(edges, x, symbolId)
        invariant forall x :: x == symbolId || x in visited ==> x in queue || PredecessorsIn(edges, x, visited)
        decreases |sources| - |visited|, |queue|
      {
        var current := queue[0];
        var before := visited;
        assert forall x :: x in queue ==> x == current || x in queue[1..];
        visited, queue := StepBlastRadius(current, visited, queue[1..]);
        assert visited <= sources;
        SubsetSize(before, visited);
        SubsetSize(visited, sources);
        assert PredecessorsIn(edges, current, visited);
        forall x | x in visited
          ensures Reaches(edges, x, symbolId)
        {
          if x !in before {
            assert Depends(edges, x, current);
            ReachesStep(edges, x, current, symbolId);
          }
        }
        forall x | x == symbolId || x in visited
          ensures x in queue || PredecessorsIn(edges, x, visited)
        {
        }
      }
      forall x | Reaches(edges, x, symbolId)
        ensures x in visited
      {
        var p :| DependencyPath(edges, p) && p[0] == x && p[|p| - 1] == symbolId;
        ClosedContainsPath(edges, symbolId, visited, p);
      }
      radius := visited - {symbolId};
    }
  }

  lemma SubsetSize(a: set<string>, b: set<string>)
    requires a <= b
    ensures |a| <= |b| && (|a| == |b| ==> a == b)
  {
    assert |b| == |a| + |b - a|;
    assert a != b ==> exists x :: x in b - a;
  }
}
