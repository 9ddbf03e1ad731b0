/** Cycle detection over the code graph: a three-colour depth-first search with a cutoff on the
    number of cycles found. */
module DependencyCycles {
  import opened CodeGraph

  const CUTOFF: nat := 10

  /** An edge of any kind, containment included. */
  ghost predicate Arc(edges: seq<Edge>, a: string, b: string) {
    exists e :: e in edges && e.source == a && e.target == b
  }

  ghost predicate Walk(edges: seq<Edge>, p: seq<string>) {
    p != [] && forall i :: 0 <= i < |p| - 1 ==> Arc(edges, p[i], p[i + 1])
  }

  ghost predicate ClosedWalk(edges: seq<Edge>, c: seq<string>) {
    |c| >= 2 && c[0] == c[|c| - 1] && Walk(edges, c)
  }

  ghost predicate ReachableFrom(edges: seq<Edge>, roots: seq<string>, x: string) {
    exists p :: Walk(edges, p) && p[0] in roots && p[|p| - 1] == x
  }

  /** What a report entry promises: a closed path that repeats no node but its end, in the part
      of the graph an indexed symbol leads to. */
  ghost predicate RealCycle(edges: seq<Edge>, roots: seq<string>, c: seq<string>) {
    ClosedWalk(edges, c) && Distinct(c[..|c| - 1]) && ReachableFrom(edges, roots, c[0])
  }

  // ----- Why every cycle runs over a reported arc ------------------------------------------

  /** The arc that closes a reported cycle: its last two nodes. */
  predicate Closing(cycles: seq<seq<string>>, x: string, y: string) {
    exists c :: c in cycles && |c| >= 2 && c[|c| - 2] == x && c[|c| - 1] == y
  }

  /** The walk takes the closing arc of some reported cycle. */
  predicate RunsOver(cycles: seq<seq<string>>, p: seq<string>) {
    exists i :: 0 <= i < |p| - 1 && Closing(cycles, p[i], p[i + 1])
  }

  /** Every cycle that can be reached from a root does. */
  ghost predicate AllRunOver(edges: seq<Edge>, roots: seq<string>, cycles: seq<seq<string>>) {
    forall c :: ClosedWalk(edges, c) && ReachableFrom(edges, roots, c[0]) ==> RunsOver(cycles, c)
  }

  /** In finishing order every arc leads to a node finished before, unless it closes a reported
      cycle. */
  ghost predicate Settled(edges: seq<Edge>, finished: seq<string>, cycles: seq<seq<string>>) {
    forall i, y :: 0 <= i < |finished| && Arc(edges, finished[i], y)
      ==> y in finished[..i] || Closing(cycles, finished[i], y)
  }

  function Position(s: seq<string>, x: string): (i: nat)
    requires x in s
    ensures i < |s| && s[i] == x && x !in s[..i]
  {
    if s[0] == x then 0 else
      assert s == [s[0]] + s[1..];
      var i := Position(s[1..], x) + 1;
      assert s[..i] == [s[0]] + s[1..][..i - 1];
      i
  }

  lemma ArcDescends(edges: seq<Edge>, finished: seq<string>, cycles: seq<seq<string>>, x: string, y: string)
    requires Settled(edges, finished, cycles) && x in finished && Arc(edges, x, y) && !Closing(cycles, x, y)
    ensures y in finished && Position(finished, y) < Position(finished, x)
  {
    var i := Position(finished, x);
    assert finished[i] == x && y in finished[..i];
    var k :| 0 <= k < i && finished[k] == y;
  }

  lemma {:induction false} WalkDescends(edges: seq<Edge>, finished: seq<string>, cycles: seq<seq<string>>,
                                        p: seq<string>, n: nat)
    requires Settled(edges, finished, cycles) && Walk(edges, p) && !RunsOver(cycles, p)
    requires p[0] in finished && n < |p|
    ensures p[n] in finished && Position(finished, p[n]) + n <= Position(finished, p[0])
  {
    if n > 0 {
      WalkDescends(edges, finished, cycles, p, n - 1);
      assert !Closing(cycles, p[n - 1], p[n - 1 + 1]) && Arc(edges, p[n - 1], p[n - 1 + 1]);
      ArcDescends(edges, finished, cycles, p[n - 1], p[n]);
    }
  }

  /** Everything the finished nodes lead to is finished. */
  ghost predicate Complete(edges: seq<Edge>, finished: seq<string>) {
    forall x, y :: x in finished && Arc(edges, x, y) ==> y in finished
  }

  lemma {:induction false} WalkFinished(edges: seq<Edge>, finished: seq<string>, p: seq<string>, n: nat)
    requires Complete(edges, finished) && Walk(edges, p) && p[0] in finished && n < |p|
    ensures p[n] in finished
  {
    if n > 0 {
      WalkFinished(edges, finished, p, n - 1);
      assert Arc(edges, p[n - 1], p[n - 1 + 1]);
    }
  }

  /** Every cycle that can be reached from a root takes the closing arc of a reported one. */
  lemma EveryCycleRunsOver(edges: seq<Edge>, roots: seq<string>, finished: seq<string>, cycles: seq<seq<string>>,
                           c: seq<string>)
    requires Settled(edges, finished, cycles) && Complete(edges, finished) && forall r :: r in roots ==> r in finished
    requires ClosedWalk(edges, c) && ReachableFrom(edges, roots, c[0])
    ensures RunsOver(cycles, c)
  {
    var p :| Walk(edges, p) && p[0] in roots && p[|p| - 1] == c[0];
    WalkFinished(edges, finished, p, |p| - 1);
    if !RunsOver(cycles, c) { WalkDescends(edges, finished, cycles, c, |c| - 1); }
  }

  lemma ExtendWalk(edges: seq<Edge>, p: seq<string>, x: string)
    requires p == [] || (Walk(edges, p) && Arc(edges, p[|p| - 1], x))
    ensures Walk(edges, p + [x])
  {
    forall i | 0 <= i < |p + [x]| - 1
      ensures Arc(edges, (p + [x])[i], (p + [x])[i + 1])
    {
      if i < |p| - 1 { assert Arc(edges, p[i], p[i + 1]); }
    }
  }

  /** Closing the stretch of the current path back to a grey node gives a real cycle. */
  lemma BackEdgeIsCycle(edges: seq<Edge>, roots: seq<string>, path: seq<string>, k: nat)
    requires Walk(edges, path) && Distinct(path) && path[0] in roots
    requires k < |path| && Arc(edges, path[|path| - 1], path[k])
    ensures RealCycle(edges, roots, path[k..] + [path[k]])
  {
    var stretch, c := path[k..], path[k..] + [path[k]];
    forall i | 0 <= i < |stretch| - 1 ensures Arc(edges, stretch[i], stretch[i + 1]) {
      assert stretch[i] == path[k + i] && stretch[i + 1] == path[k + i + 1];
    }
    ExtendWalk(edges, stretch, path[k]);
    assert c[..|c| - 1] == stretch;
    var p := path[..k + 1];
    assert Walk(edges, p) by {
      forall i | 0 <= i < |p| - 1 ensures Arc(edges, p[i], p[i + 1]) {
        assert p[i] == path[i] && p[i + 1] == path[i + 1];
      }
    }
    assert p[|p| - 1] == c[0];
  }

  // ----- The state of the search ----------------------------------------------------------

  const GREY: int := 1
  const BLACK: int := 2

  predicate Grey(visited: map<string, int>, x: string) { x in visited && visited[x] == GREY }

  predicate Black(visited: map<string, int>, x: string) { x in visited && visited[x] == BLACK }

  /** The grey nodes are those of the current path. */
  ghost predicate Coloured(visited: map<string, int>, path: seq<string>) {
    && (forall x :: x in visited ==> Grey(visited, x) || Black(visited, x))
    && (forall x :: x in path <==> Grey(visited, x))
  }

  /** The current path is a simple walk from an indexed symbol. */
  ghost predicate Rooted(edges: seq<Edge>, roots: seq<string>, path: seq<string>) {
    Distinct(path) && (path != [] ==> Walk(edges, path) && path[0] in roots)
  }

  ghost predicate Reported(edges: seq<Edge>, roots: seq<string>, cycles: seq<seq<string>>) {
    forall c :: c in cycles ==> RealCycle(edges, roots, c)
  }

  /** Black are the finished nodes, and what they lead to has been met. */
  ghost predicate FinishedBlack(edges: seq<Edge>, visited: map<string, int>, finished: seq<string>,
                                cycles: seq<seq<string>>) {
    && Settled(edges, finished, cycles)
    && (forall x :: x in finished <==> Black(visited, x))
    && (forall x, y :: x in finished && Arc(edges, x, y) ==> y in visited)
  }

  /** Colours only darken. */
  ghost predicate Darker(before: map<string, int>, after: map<string, int>) {
    before.Keys <= after.Keys && forall x :: Black(before, x) ==> Black(after, x)
  }

  /** The edge has been dealt with: its target is black, or grey and the edge reported. */
  ghost predicate Done(visited: map<string, int>, cycles: seq<seq<string>>, e: Edge) {
    Black(visited, e.target) || (e.target in visited && Closing(cycles, e.source, e.target))
  }

  ghost predicate AllDone(visited: map<string, int>, cycles: seq<seq<string>>, out: seq<Edge>) {
    forall i :: 0 <= i < |out| ==> Done(visited, cycles, out[i])
  }

  lemma EnterKeeps(edges: seq<Edge>, roots: seq<string>, visited: map<string, int>, path: seq<string>, x: string)
    requires Coloured(visited, path) && Rooted(edges, roots, path) && x !in visited
    requires if path == [] then x in roots else Arc(edges, path[|path| - 1], x)
    ensures Coloured(visited[x := GREY], path + [x]) && Rooted(edges, roots, path + [x])
    ensures Darker(visited, visited[x := GREY])
    ensures forall y :: Black(visited[x := GREY], y) <==> Black(visited, y)
  {
    ExtendWalk(edges, path, x);
    assert x !in path;
  }

  lemma LeaveKeeps(edges: seq<Edge>, roots: seq<string>, visited: map<string, int>, path: seq<string>)
    requires Coloured(visited, path) && Rooted(edges, roots, path) && path != []
    ensures var n := |path| - 1; var after := visited[path[n] := BLACK];
      && Coloured(after, path[..n]) && Rooted(edges, roots, path[..n]) && Darker(visited, after)
      && after.Keys == visited.Keys && Black(after, path[n])
  {
    var n := |path| - 1;
    assert path == path[..n] + [path[n]];
    assert path[n] in path && path[n] !in path[..n];
    forall x ensures x in path <==> x in path[..n] || x == path[n] { }
    if n > 0 {
      forall i | 0 <= i < n - 1 ensures Arc(edges, path[..n][i], path[..n][i + 1]) {
        assert Arc(edges, path[i], path[i + 1]);
      }
    }
  }

  /** A node whose edges have all been dealt with can finish. */
  lemma FinishKeeps(edges: seq<Edge>, visited: map<string, int>, finished: seq<string>, cycles: seq<seq<string>>,
                    x: string,
                    out: seq<Edge>)
    requires FinishedBlack(edges, visited, finished, cycles)
    requires out == Select(edges, Source, x) && AllDone(visited, cycles, out)
    ensures FinishedBlack(edges, visited[x := BLACK], finished + [x], cycles)
  {
    var longer := finished + [x];
    forall y | Arc(edges, x, y)
      ensures y in visited && (y in finished || Closing(cycles, x, y))
    {
      var e :| e in edges && e.source == x && e.target == y;
      SelectMembers(edges, Source, x, e);
      assert Done(visited, cycles, e);
    }
    forall i, y | 0 <= i < |longer| && Arc(edges, longer[i], y)
      ensures y in longer[..i] || Closing(cycles, longer[i], y)
    {
      if i < |finished| {
        assert longer[..i] == finished[..i];
      } else {
        assert longer[..i] == finished;
      }
    }
    forall y ensures y in longer <==> Black(visited[x := BLACK], y) {
      assert y in finished <==> Black(visited, y);
    }
  }

  ghost predicate Leaving(edges: seq<Edge>, x: string, out: seq<Edge>) {
    forall i :: 0 <= i < |out| ==> out[i] in edges && out[i].source == x
  }

  lemma SelectLeaves(edges: seq<Edge>, x: string)
    ensures Leaving(edges, x, Select(edges, Source, x))
  {
    var out := Select(edges, Source, x);
    forall i | 0 <= i < |out| ensures out[i] in edges && out[i].source == x {
      SelectMembers(edges, Source, x, out[i]);
    }
  }

  lemma OneMoreDone(before: map<string, int>, reported: seq<seq<string>>, after: map<string, int>,
                    cycles: seq<seq<string>>,
                    out: seq<Edge>, i: nat)
    requires i < |out| && AllDone(before, reported, out[..i]) && Progress(before, reported, after, cycles)
    requires Done(after, cycles, out[i])
    ensures AllDone(after, cycles, out[..i + 1])
  {
    assert out[..i + 1] == out[..i] + [out[i]];
    forall j | 0 <= j < i ensures Done(after, cycles, out[j]) {
      assert Done(before, reported, out[..i][j]);
      ClosingKept(reported, cycles, out[j].source, out[j].target);
    }
  }

  lemma ClosingKept(cs: seq<seq<string>>, cs': seq<seq<string>>, x: string, y: string)
    requires cs <= cs'
    ensures Closing(cs, x, y) ==> Closing(cs', x, y)
  {
    if Closing(cs, x, y) {
      var c :| c in cs && |c| >= 2 && c[|c| - 2] == x && c[|c| - 1] == y;
      assert c in cs';
    }
  }

  /** A longer report exempts more arcs, and more nodes met are more nodes met. */
  lemma SettledKept(edges: seq<Edge>, finished: seq<string>, cs: seq<seq<string>>, cs': seq<seq<string>>)
    requires Settled(edges, finished, cs) && cs <= cs'
    ensures Settled(edges, finished, cs')
  {
    forall i, y | 0 <= i < |finished| && Arc(edges, finished[i], y)
      ensures y in finished[..i] || Closing(cs', finished[i], y)
    {
      ClosingKept(cs, cs', finished[i], y);
    }
  }

  /** What every step of the search keeps: colours only darken and the report only grows. */
  ghost predicate Progress(v: map<string, int>, cs: seq<seq<string>>, v': map<string, int>, cs': seq<seq<string>>) {
    Darker(v, v') && cs <= cs'
  }

  lemma ProgressTransitive(v: map<string, int>, cs: seq<seq<string>>, v': map<string, int>, cs': seq<seq<string>>,
                           v'': map<string, int>, cs'': seq<seq<string>>)
    requires Progress(v, cs, v', cs') && Progress(v', cs', v'', cs'')
    ensures Progress(v, cs, v'', cs'')
  {
  }

  /** An edge list together with its grouping by source. */
  datatype Adjacency = Adjacency(edges: seq<Edge>, forward: map<string, seq<Edge>>)

  type SourceIndex = a: Adjacency | Groups(a.forward, a.edges, Source) witness Adjacency([], map[])

  /** Every node the search can meet. */
  function Universe(edges: seq<Edge>, roots: seq<string>): set<string> {
    (set r | r in roots) + (set e | e in edges :: e.target)
  }

  ghost predicate Consistent(edges: seq<Edge>, roots: seq<string>, visited: map<string, int>, path: seq<string>,
                             cycles: seq<seq<string>>, finished: seq<string>) {
    && Coloured(visited, path)
    && Rooted(edges, roots, path)
    && Reported(edges, roots, cycles)
    && (|cycles| < CUTOFF ==> FinishedBlack(edges, visited, finished, cycles))
  }

  lemma LeaveConsistent(edges: seq<Edge>, roots: seq<string>, visited: map<string, int>, path: seq<string>, x: string,
                        cycles: seq<seq<string>>, finished: seq<string>, out: seq<Edge>)
    requires Consistent(edges, roots, visited, path + [x], cycles, finished)
    requires out == Select(edges, Source, x) && (|cycles| < CUTOFF ==> AllDone(visited, cycles, out))
    ensures Consistent(edges, roots, visited[x := BLACK], path, cycles, finished + [x])
    ensures Darker(visited, visited[x := BLACK]) && visited[x := BLACK].Keys == visited.Keys
  {
    assert (path + [x])[..|path|] == path;
    LeaveKeeps(edges, roots, visited, path + [x]);
    if |cycles| < CUTOFF { FinishKeeps(edges, visited, finished, cycles, x, out); }
  }

  /** One more cycle is reported: the path from the first occurrence of the node, and the node again. */
  ghost predicate Closes(before: seq<seq<string>>, after: seq<seq<string>>, path: seq<string>, x: string) {
    exists k: nat :: k < |path| && path[k] == x && x !in path[..k] && after == before + [path[k..] + [x]]
  }

  lemma ClosedByLast(cycles: seq<seq<string>>, cycle: seq<string>, path: seq<string>, k: nat)
    requires k < |path| && cycle == path[k..] + [path[k]] && cycle in cycles
    ensures Closing(cycles, path[|path| - 1], path[k])
  {
    assert |cycle| >= 2 && cycle[|cycle| - 2] == path[|path| - 1] && cycle[|cycle| - 1] == path[k];
  }

  class CycleSearch {
    const graph: SourceIndex
    const roots: seq<string>
    var visited: map<string, int>
    var path: seq<string>
    var cycles: seq<seq<string>>
    ghost var finished: seq<string>  // black nodes in the order in which they turned black

    ghost predicate Inv()
      reads this
    {
      && visited.Keys <= Universe(graph.edges, roots)
      && Consistent(graph.edges, roots, visited, path, cycles, finished)
    }

    constructor (graph: SourceIndex, roots: seq<string>)
      ensures Inv() && path == [] && visited == map[] && cycles == []
      ensures this.graph == graph && this.roots == roots
    {
      this.graph, this.roots := graph, roots;
      visited, path, cycles, finished := map[], [], [], [];
    }

    ghost function Whites(): set<string>
      reads this`visited
    {
      Universe(graph.edges, roots) - visited.Keys
    }

    method IndexOf(x: string) returns (k: nat)
      requires x in path
      ensures k < |path| && path[k] == x && x !in path[..k]
    {
      k := 0;
      while path[k] != x
        invariant k < |path| && x !in path[..k]
        decreases |path| - k
      {
        k := k + 1;
      }
    }

    method StepEdge(edge: Edge)
      requires Inv() && edge in graph.edges && path != [] && path[|path| - 1] == edge.source
      modifies this
      ensures Inv() && path == old(path) && Progress(old(visited), old(cycles), visited, cycles)
      ensures |cycles| < 10 ==> Done(visited, cycles, edge)
      ensures old(Grey(visited, edge.target))
        ==> visited == old(visited) && Closes(old(cycles), cycles, path, edge.target)
      ensures old(edge.target !in visited && |cycles| < 10) ==> Black(visited, edge.target)
      ensures old(Black(visited, edge.target) || (edge.target !in visited && |cycles| >= 10))
        ==> visited == old(visited) && cycles == old(cycles)
      decreases Whites(), 1
    {
      var next := edge.target;
      assert Arc(graph.edges, edge.source, next);
      var state := if next in visited then visited[next] else 0;
      if state == GREY {
        assert Grey(visited, next);
        var k := IndexOf(next);
        BackEdgeIsCycle(graph.edges, roots, path, k);
        var cycle := path[k..] + [next];
        if |cycles| < CUTOFF { SettledKept(graph.edges, finished, cycles, cycles + [cycle]); }
        cycles := cycles + [cycle];
        ClosedByLast(cycles, cycle, path, k);
      } else if state == 0 && |cycles| < CUTOFF {
        assert next !in visited;
        Dfs(next);
      } else {
        assert state == BLACK || |cycles| >= CUTOFF;
      }
    }

    method Dfs(current: string)
      requires Inv() && current !in visited && current in Universe(graph.edges, roots)
      requires if path == [] then current in roots else Arc(graph.edges, path[|path| - 1], current)
      modifies this
      ensures Inv() && path == old(path) && Progress(old(visited), old(cycles), visited, cycles)
      ensures Black(visited, current)
      decreases Whites(), 0
    {
      Enter(current);
      ghost var entered := visited;
      ghost var reported := cycles;
      var out := Outgoing(current);
      Explore(current, out);
      ProgressTransitive(old(visited), old(cycles), entered, reported, visited, cycles);
      ghost var explored := visited;
      Leave(current, old(path), out);
      ProgressTransitive(old(visited), old(cycles), explored, cycles, visited, cycles);
    }

    method Outgoing(x: string) returns (out: seq<Edge>)
      ensures out == Select(graph.edges, Source, x) && Leaving(graph.edges, x, out)
    {
      out := Get(graph.forward, x);
      assert out == Select(graph.edges, Source, x);
      SelectLeaves(graph.edges, x);
    }

    /** Entering a node: it turns grey at the end of the path. */
    method Enter(current: string)
      requires Inv() && current !in visited && current in Universe(graph.edges, roots)
      requires if path == [] then current in roots else Arc(graph.edges, path[|path| - 1], current)
      modifies this`visited, this`path
      ensures Inv() && path == old(path) + [current] && Darker(old(visited), visited)
      ensures Whites() < old(Whites())
    {
      EnterKeeps(graph.edges, roots, visited, path, current);
      visited := visited[current := GREY];
      path := path + [current];
      assert current in old(Whites()) && current !in Whites();
    }

    /** Leaving a node: it turns black behind its successors. */
    method Leave(current: string, ghost before: seq<string>, ghost out: seq<Edge>)
      requires Inv() && path == before + [current]
      requires out == Select(graph.edges, Source, current) && (|cycles| < CUTOFF ==> AllDone(visited, cycles, out))
      modifies this`visited, this`path, this`finished
      ensures Inv() && path == before && Darker(old(visited), visited)
      ensures Black(visited, current)
    {
      LeaveConsistent(graph.edges, roots, visited, before, current, cycles, finished, out);
      assert path[..|path| - 1] == before;
      path := path[..|path| - 1];
      visited := visited[current := BLACK];
      finished := finished + [current];
    }

    /** The loop over a node's outgoing edges, in list order. */
    method Explore(current: string, out: seq<Edge>)
      requires Inv() && path != [] && path[|path| - 1] == current
      requires Leaving(graph.edges, current, out)
      modifies this
      ensures Inv() && path == old(path) && Progress(old(visited), old(cycles), visited, cycles)
      ensures |cycles| < CUTOFF ==> AllDone(visited, cycles, out)
      decreases Whites(), 2
    {
      var i := 0;
      while i < |out|
        invariant 0 <= i <= |out|
        invariant Inv() && path == old(path) && Progress(old(visited), old(cycles), visited, cycles)
        invariant |cycles| < CUTOFF ==> AllDone(visited, cycles, out[..i])
        invariant Whites() <= old(Whites())
      {
        ghost var before := visited;
        ghost var reported := cycles;
        StepEdge(out[i]);
        ProgressTransitive(old(visited), old(cycles), before, reported, visited, cycles);
        if |cycles| < CUTOFF { OneMoreDone(before, reported, visited, cycles, out, i); }
        i := i + 1;
      }
      assert out[..i] == out;
    }
  }

  /** The report is sound; while it stays below ten it is complete, in that every cycle reachable
      from an indexed symbol takes the closing arc of a reported one; so it is empty exactly when
      there is none. */
  method DetectDependencyCycles(index: CodeMemoryIndex) returns (cycles: seq<seq<string>>)
    requires index.Valid()
    ensures forall c :: c in cycles ==> RealCycle(index.edges, index.order, c)
    ensures |cycles| < 10 ==> AllRunOver(index.edges, index.order, cycles)
    ensures cycles == [] <==> !exists c :: ClosedWalk(index.edges, c) && ReachableFrom(index.edges, index.order, c[0])
  {
    var graph: SourceIndex := Adjacency(index.edges, index.forwardEdges);
    var roots := index.order;
    var search := new CycleSearch(graph, roots);
    for i := 0 to |roots|
      invariant fresh(search) && search.graph == graph && search.roots == roots
      invariant search.Inv() && search.path == []
      invariant forall j :: 0 <= j < i ==> Black(search.visited, roots[j])
    {
      if roots[i] !in search.visited {
        search.Dfs(roots[i]);
      }
    }
    cycles := search.cycles;
    if |cycles| < CUTOFF {
      SearchComplete(graph.edges, roots, search.visited, search.finished, cycles);
    }
    EmptyReport(graph.edges, roots, cycles);
  }

  lemma EmptyReport(edges: seq<Edge>, roots: seq<string>, cycles: seq<seq<string>>)
    requires Reported(edges, roots, cycles) && (cycles == [] ==> AllRunOver(edges, roots, cycles))
    ensures cycles == [] <==> !exists c :: ClosedWalk(edges, c) && ReachableFrom(edges, roots, c[0])
  {
    if cycles != [] { assert RealCycle(edges, roots, cycles[0]); }
  }

  /** At the end nothing is grey, so what has been met is finished. */
  lemma SearchComplete(edges: seq<Edge>, roots: seq<string>, visited: map<string, int>, finished: seq<string>,
                       cycles: seq<seq<string>>)
    requires Coloured(visited, []) && FinishedBlack(edges, visited, finished, cycles)
    requires forall i :: 0 <= i < |roots| ==> Black(visited, roots[i])
    ensures AllRunOver(edges, roots, cycles)
  {
    forall c | ClosedWalk(edges, c) && ReachableFrom(edges, roots, c[0]) ensures RunsOver(cycles, c) {
      EveryCycleRunsOver(edges, roots, finished, cycles, c);
    }
  }
}
