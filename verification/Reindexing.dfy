/** Indexing a changed file again, against a fresh build of its new version. */
module Reindexing {
  import opened Wrappers
  import opened CodeGraph

  /** What the file itself contributes: edges that start at the bare path or at one of its symbols. */
  predicate Own(e: Edge, path: string) { e.source == path || path + "::" <= e.source }

  /** The graph has never seen the file. */
  ghost predicate Unseen(g: Graph, path: string) {
    && Registered(g) && path !in g.hashes && path !in g.fileSymbols
    && forall e :: e in g.edges ==> !Own(e, path)
  }

  /** What parsing a version of the file yields: identifiers below its path that no other file
      has, and edges of its own. */
  ghost predicate VersionOf(a: Artifacts, path: string, g: Graph) {
    && (forall id :: id in Ids(a.symbols) ==> path + "::" <= id && id !in g.symbols)
    && (forall e :: e in a.edges ==> Own(e, path))
  }

  // ----- Edges kept ----------------------------------------------------------------------------

  lemma {:induction false} KeepConcat(a: seq<Edge>, b: seq<Edge>, ids: seq<string>, path: string)
    ensures KeepEdges(a + b, ids, path) == KeepEdges(a, ids, path) + KeepEdges(b, ids, path)
  {
    if b == [] {
      assert a + b == a;
    } else {
      var n := |b| - 1;
      KeepConcat(a, b[..n], ids, path);
      assert (a + b)[..|a + b| - 1] == a + b[..n];
    }
  }

  /** Nothing is dropped exactly if every edge survives. */
  lemma {:induction false} KeepAllIff(edges: seq<Edge>, ids: seq<string>, path: string)
    ensures |KeepEdges(edges, ids, path)| <= |edges|
    ensures KeepEdges(edges, ids, path) == edges <==> forall e :: e in edges ==> Survives(e, ids, path)
  {
    if edges != [] {
      var n := |edges| - 1;
      KeepAllIff(edges[..n], ids, path);
      assert edges == edges[..n] + [edges[n]];
    }
  }

  /** Keeping the edges of both leaves exactly the first exactly if all of them survive and none of
      the second do. */
  lemma KeepFirstIff(mine: seq<Edge>, own: seq<Edge>, ids: seq<string>, path: string)
    requires forall e :: e in mine ==> !Own(e, path)
    requires forall e :: e in own ==> Own(e, path)
    ensures KeepEdges(mine + own, ids, path) == mine
       <==> (forall e :: e in mine ==> Survives(e, ids, path)) && (forall e :: e in own ==> !Survives(e, ids, path))
  {
    KeepConcat(mine, own, ids, path);
    KeepAllIff(mine, ids, path);
    var kept, more := KeepEdges(mine, ids, path), KeepEdges(own, ids, path);
    forall e ensures e in more <==> e in own && Survives(e, ids, path) { KeptEdges(own, ids, path, e); }
    if more != [] { ForeignTail(kept, more, mine); }
  }

  lemma ForeignTail(kept: seq<Edge>, more: seq<Edge>, mine: seq<Edge>)
    requires more != [] && forall e :: e in more ==> e !in mine
    ensures kept + more != mine
    ensures exists e :: e in more
  {
    assert more[0] in more && (kept + more)[|kept|] == more[0];
  }

  // ----- The registry --------------------------------------------------------------------------

  /** Registering depends on the registry and touches nothing else. */
  lemma {:induction false} RegisterAlike(g: Graph, h: Graph, symbols: seq<Symbol>)
    requires g.order == h.order && g.symbols == h.symbols
    ensures Register(g, symbols).order == Register(h, symbols).order
    ensures Register(g, symbols).symbols == Register(h, symbols).symbols
  {
    if symbols != [] { RegisterAlike(g, h, symbols[..|symbols| - 1]); }
  }

  lemma {:induction false} WithoutSnoc(order: seq<string>, id: string, ids: seq<string>)
    ensures Without(order + [id], ids) == if id in ids then Without(order, ids) else Without(order, ids) + [id]
  {
    assert (order + [id])[..|order|] == order;
  }

  lemma {:induction false} WithoutNone(order: seq<string>, ids: seq<string>)
    requires forall id :: id in order ==> id !in ids
    ensures Without(order, ids) == order
  {
    if order != [] {
      WithoutNone(order[..|order| - 1], ids);
      assert order == order[..|order| - 1] + [order[|order| - 1]];
    }
  }

  predicate AllIn(symbols: seq<Symbol>, ids: seq<string>) {
    forall i :: 0 <= i < |symbols| ==> symbols[i].id in ids
  }

  /** Registering new symbols and dropping them again changes nothing. */
  lemma {:induction false} DropRegistered(g: Graph, symbols: seq<Symbol>, ids: seq<string>)
    requires Registered(g) && AllIn(symbols, ids) && forall id :: id in ids ==> id !in g.symbols
    ensures Without(Register(g, symbols).order, ids) == g.order
    ensures Drop(Register(g, symbols).symbols, ids) == g.symbols
  {
    if symbols == [] {
      WithoutNone(g.order, ids);
    } else {
      var n := |symbols| - 1;
      DropRegistered(g, symbols[..n], ids);
      DropOneMore(Register(g, symbols[..n]), symbols[n], ids);
    }
  }

  lemma DropOneMore(g: Graph, s: Symbol, ids: seq<string>)
    requires s.id in ids
    ensures Without(g.order + [s.id], ids) == Without(g.order, ids)
    ensures Drop(g.symbols[s.id := s], ids) == Drop(g.symbols, ids)
  {
    WithoutSnoc(g.order, s.id, ids);
  }

  lemma IdsHold(symbols: seq<Symbol>)
    ensures AllIn(symbols, Ids(symbols))
  {
    forall i | 0 <= i < |symbols| ensures symbols[i].id in Ids(symbols) {
      assert Ids(symbols)[i] == symbols[i].id;
    }
  }

  // ----- A changed file ---------------------------------------------------------------------------

  lemma UnseenRemoved(g: Graph, path: string)
    requires Unseen(g, path)
    ensures Removed(g, path) == g
  {
    WithoutNone(g.order, []);
    KeepAllIff(g.edges, [], path);
    assert Drop(g.symbols, []) == g.symbols;
  }

  function Traced(g: Graph, path: string, former: string, ids: seq<string>, edges: seq<Edge>): Graph {
    g.(hashes := g.hashes[path := former], fileSymbols := g.fileSymbols[path := ids], edges := edges)
  }

  /** Removing the only version so far leaves its trace in the bookkeeping and in the edges. */
  lemma RemovedVersion(g: Graph, path: string, former: string, a: Artifacts)
    requires Unseen(g, path) && VersionOf(a, path, g)
    ensures Removed(Added(g, path, former, a), path)
         == Traced(g, path, former, Ids(a.symbols), KeepEdges(g.edges + a.edges, Ids(a.symbols), path))
  {
    var r, ids := Recorded(g, path, former, a), Ids(a.symbols);
    RegisterKeeps(r, a.symbols);
    RegisterAlike(g, r, a.symbols);
    IdsHold(a.symbols);
    DropRegistered(g, a.symbols, ids);
  }

  /** Adding to graphs that differ only in edges and in the entries being overwritten. */
  lemma AddedAlike(g: Graph, h: Graph, path: string, code: string, b: Artifacts)
    requires Registered(g) && h.order == g.order && h.symbols == g.symbols
    requires h.hashes[path := code] == g.hashes[path := code]
    requires h.fileSymbols[path := Ids(b.symbols)] == g.fileSymbols[path := Ids(b.symbols)]
    ensures Added(h, path, code, b) == Added(g, path, code, b) <==> h.edges == g.edges
  {
    var r, q := Recorded(g, path, code, b), Recorded(h, path, code, b);
    RegisterKeeps(r, b.symbols);
    RegisterKeeps(q, b.symbols);
    RegisterAlike(r, q, b.symbols);
    if h.edges + b.edges == g.edges + b.edges { SamePrefix(h.edges, g.edges, b.edges); }
  }

  lemma AddedAfter(g: Graph, path: string, former: string, code: string, ids: seq<string>, b: Artifacts,
                   edges: seq<Edge>)
    requires Registered(g)
    ensures Added(Traced(g, path, former, ids, edges), path, code, b) == Added(g, path, code, b) <==> edges == g.edges
  {
    var h := Traced(g, path, former, ids, edges);
    assert h.hashes[path := code] == g.hashes[path := code];
    assert h.fileSymbols[path := Ids(b.symbols)] == g.fileSymbols[path := Ids(b.symbols)];
    AddedAlike(g, h, path, code, b);
  }

  lemma SamePrefix(a: seq<Edge>, b: seq<Edge>, c: seq<Edge>)
    requires a + c == b + c
    ensures a == b
  {
    assert |a| == |b|;
    assert (a + c)[..|a|] == a && (b + c)[..|b|] == b;
  }

  /** The old version leaves no trace: its module-level edges, such as imports and calls, lead to
      nothing but its own symbols, and no other file's edge leads to them. */
  ghost predicate NoTrace(g: Graph, path: string, a: Artifacts) {
    && (forall e :: e in a.edges && e.source == path ==> e.target in Ids(a.symbols))
    && (forall e :: e in g.edges ==> e.target !in Ids(a.symbols))
  }

  lemma SurvivesIff(g: Graph, path: string, a: Artifacts)
    requires Unseen(g, path) && VersionOf(a, path, g)
    ensures forall e :: e in g.edges ==> (Survives(e, Ids(a.symbols), path) <==> e.target !in Ids(a.symbols))
    ensures forall e :: e in a.edges ==>
      (Survives(e, Ids(a.symbols), path) <==> e.source == path && e.target !in Ids(a.symbols))
  {
    assert |path + "::"| > |path|;
  }

  lemma TraceInEdges(g: Graph, path: string, a: Artifacts)
    requires Unseen(g, path) && VersionOf(a, path, g)
    ensures KeepEdges(g.edges + a.edges, Ids(a.symbols), path) == g.edges <==> NoTrace(g, path, a)
  {
    SurvivesIff(g, path, a);
    KeepFirstIff(g.edges, a.edges, Ids(a.symbols), path);
  }

  lemma IndexedOver(g: Graph, path: string, former: string, code: string, a: Artifacts, b: Artifacts)
    requires Unseen(g, path) && former != code
    ensures Indexed(Indexed(g, path, former, Some(a)), path, code, Some(b))
         == Added(Removed(Added(g, path, former, a), path), path, code, b)
    ensures Indexed(g, path, code, Some(b)) == Added(g, path, code, b)
  {
    UnseenRemoved(g, path);
    RegisterKeeps(Recorded(g, path, former, a), a.symbols);
  }

  /** Indexing a file's new version over its old one gives what a fresh build of the new version
      gives, exactly if the old version leaves no trace. */
  lemma ReindexIsFreshIff(g: Graph, path: string, former: string, code: string, a: Artifacts, b: Artifacts)
    requires Unseen(g, path) && VersionOf(a, path, g) && former != code
    ensures Indexed(Indexed(g, path, former, Some(a)), path, code, Some(b)) == Indexed(g, path, code, Some(b))
       <==> NoTrace(g, path, a)
  {
    IndexedOver(g, path, former, code, a, b);
    RemovedVersion(g, path, former, a);
    AddedAfter(g, path, former, code, Ids(a.symbols), b, KeepEdges(g.edges + a.edges, Ids(a.symbols), path));
    TraceInEdges(g, path, a);
  }

  /** The edges after indexing the new version over the old one, and after a fresh build. */
  lemma ReindexedEdges(g: Graph, path: string, former: string, code: string, a: Artifacts, b: Artifacts)
    requires Unseen(g, path) && VersionOf(a, path, g) && former != code
    ensures Indexed(Indexed(g, path, former, Some(a)), path, code, Some(b)).edges
         == KeepEdges(g.edges + a.edges, Ids(a.symbols), path) + b.edges
    ensures Indexed(g, path, code, Some(b)).edges == g.edges + b.edges
  {
    var removed := Removed(Added(g, path, former, a), path);
    IndexedOver(g, path, former, code, a, b);
    RemovedVersion(g, path, former, a);
    RegisterEdges(Recorded(g, path, code, b), b.symbols);
    RegisterEdges(Recorded(removed, path, code, b), b.symbols);
  }

  /** A version that does not parse never gives the graph of a fresh build: the old hash stays. */
  lemma BrokenIsNeverFresh(g: Graph, path: string, former: string, broken: string, a: Artifacts)
    requires Unseen(g, path) && former != broken
    ensures Indexed(Indexed(g, path, former, Some(a)), path, broken, None) != Indexed(g, path, broken, None)
  {
    UnseenRemoved(g, path);
    RegisterKeeps(Recorded(g, path, former, a), a.symbols);
    assert path in Indexed(Indexed(g, path, former, Some(a)), path, broken, None).hashes;
  }

  /** The edges of a file without symbols that removing the file would drop. */
  lemma SymbolFree(g: Graph, path: string, former: string, a: Artifacts)
    requires Unseen(g, path) && VersionOf(a, path, g) && a.symbols == []
    ensures Removed(Added(g, path, former, a), path) == Added(g, path, former, a)
       <==> forall e :: e in a.edges ==> e.source == path
  {
    var h := Added(g, path, former, a);
    RemovedVersion(g, path, former, a);
    assert Ids(a.symbols) == [] && h.edges == g.edges + a.edges;
    KeepAllIff(h.edges, [], path);
    SurvivesIff(g, path, a);
    assert h == g.(hashes := g.hashes[path := former], fileSymbols := g.fileSymbols[path := []], edges := h.edges);
  }

  /** Putting the old text back after such a version restores the graph exactly if the file defines
      no symbol and has nothing but module-level edges. */
  lemma RestoredIff(g: Graph, path: string, former: string, broken: string, a: Artifacts)
    requires Unseen(g, path) && VersionOf(a, path, g) && former != broken
    ensures var h := Indexed(g, path, former, Some(a));
      Indexed(Indexed(h, path, broken, None), path, former, Some(a)) == h
      <==> a.symbols == [] && forall e :: e in a.edges ==> e.source == path
  {
    var h := Added(g, path, former, a);
    UnseenRemoved(g, path);
    RegisterKeeps(Recorded(g, path, former, a), a.symbols);
    RestoredFileStaysEmpty(h, path, former, broken, Some(a));
    if a.symbols == [] {
      SymbolFree(g, path, former, a);
    } else {
      IdsHold(a.symbols);
      assert OldIds(h, path) == Ids(a.symbols);
      assert a.symbols[0].id in h.symbols;
    }
  }

  // ----- Inputs on which re-indexing differs ------------------------------------------------------

  const EMPTY: Graph := Graph([], map[], [], map[], map[])

  /** An import of the old version outlives it. */
  lemma ImportOutlives(path: string, former: string, code: string, target: string, line: nat)
    requires former != code
    ensures var outside := Edge(path, target, Imports, line);
      var once := Indexed(EMPTY, path, former, Some(Artifacts([], [outside])));
      && Indexed(once, path, code, Some(Artifacts([], []))).edges == [outside]
      && Indexed(EMPTY, path, code, Some(Artifacts([], []))).edges == []
  {
    var outside := Edge(path, target, Imports, line);
    ReindexedEdges(EMPTY, path, former, code, Artifacts([], [outside]), Artifacts([], []));
    assert |path + "::"| > |path| && Ids([]) == [];
    assert EMPTY.edges + [outside] == [outside] && [outside] + [] == [outside];
    KeepAllIff([outside], [], path);
  }

  /** Another file's call of a function is lost when the function's file is indexed again, although
      the function is still there. */
  lemma IncomingCallIsLost(path: string, former: string, code: string, caller: string, f: Symbol, line: nat)
    requires former != code && f.id == path + "::f" && !(path + "::" <= caller) && caller != path
    ensures var call := Edge(caller, f.id, Calls, line);
      var g := EMPTY.(edges := [call]);
      var version := Artifacts([f], []);
      && Indexed(Indexed(g, path, former, Some(version)), path, code, Some(version)).edges == []
      && Indexed(g, path, code, Some(version)).edges == [call]
  {
    var call := Edge(caller, f.id, Calls, line);
    var g, version := EMPTY.(edges := [call]), Artifacts([f], []);
    assert Ids([f]) == [f.id];
    ReindexedEdges(g, path, former, code, version, version);
    assert [call] + [] == [call] && KeepEdges([call], [f.id], path) == [];
  }
}
