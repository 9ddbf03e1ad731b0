/** The control-flow graph of a function body, and McCabe's measure read off it. */
module ControlFlow {
  import opened Wrappers
  import opened PySyntax

  /** A graph under construction: nodes are numbered from 0, and control stands at one of them. */
  datatype Flow = Flow(nodes: nat, edges: seq<(nat, nat)>, at: nat)

  const ENTRY: nat := 0
  const EXIT: nat := 1

  function Edge(f: Flow, from: nat, to: nat): Flow { f.(edges := f.edges + [(from, to)]) }

  /** Control goes on at a new node that no edge leads to yet. */
  function Fresh(f: Flow): Flow { f.(nodes := f.nodes + 1, at := f.nodes) }

  /** Control may go from the current node to a new one, where it then stands. */
  function Branch(f: Flow, from: nat): Flow { Fresh(Edge(f, from, f.nodes)) }

  // ----- Expressions ----------------------------------------------------------------------

  /** Operands are evaluated one after the other; a conditional expression takes one of two ways, and
      a boolean operator may leave after each operand but the last. */
  function AddExpr(f: Flow, e: Expr): Flow
    decreases e, 1
  {
    match e
    case Constant(_) => f
    case Name(_) => f
    case Not(x) => AddExpr(f, x)
    case Compare(l, _, cs) => AddExprs(AddExpr(f, l), cs)
    case BoolOp(_, vs) =>
      if vs == [] then f
      else
        var join := f.nodes;
        var g := AddOperands(f.(nodes := f.nodes + 1), vs, join);
        g.(at := join)
    case IfExp(t, b, o) =>
      var tested := AddExpr(f, t);
      var yes := AddExpr(Branch(tested, tested.at), b);
      var no := AddExpr(Branch(yes, tested.at), o);
      Branch(Edge(no, yes.at, no.nodes), no.at)
    case Tuple(es) => AddExprs(f, es)
    case Call(_, args) => AddExprs(f, args)
    case TableGet(_, k, d) => AddExpr(AddExpr(f, k), d)
  }

  function AddExprs(f: Flow, es: seq<Expr>): Flow
    decreases es, 0
  {
    if es == [] then f else AddExprs(AddExpr(f, es[0]), es[1..])
  }

  function AddOperands(f: Flow, vs: seq<Expr>, join: nat): Flow
    requires vs != []
    decreases vs, 0
  {
    var g := AddExpr(f, vs[0]);
    var left := Edge(g, g.at, join);
    if |vs| == 1 then left else AddOperands(Branch(left, g.at), vs[1..], join)
  }

  function AddOption(f: Flow, e: Option<Expr>): Flow {
    if e.Some? then AddExpr(f, e.value) else f
  }

  // ----- Statements -----------------------------------------------------------------------

  /** A return goes to the exit, and so does an assert that fails, after its message; an `if` joins its
      two ways again; the body of a loop goes back to its test. */
  function AddStmt(f: Flow, s: Stmt): Flow
    decreases s, 1
  {
    match s
    case Assign(_, v) => AddExpr(f, v)
    case Evaluate(v) => AddExpr(f, v)
    case Return(r) =>
      var g := AddOption(f, r);
      Fresh(Edge(g, g.at, EXIT))
    case Assert(t, m) =>
      var tested := AddExpr(f, t);
      var failed := AddOption(Branch(tested, tested.at), m);
      Branch(Edge(failed, failed.at, EXIT), tested.at)
    case If(t, b, o) =>
      var tested := AddExpr(f, t);
      var yes := AddBody(Branch(tested, tested.at), b);
      var no := AddBody(Branch(yes, tested.at), o);
      Branch(Edge(no, yes.at, no.nodes), no.at)
    case While(t, b) =>
      var head := Branch(f, f.at);
      var tested := AddExpr(head, t);
      var looped := AddBody(Branch(tested, tested.at), b);
      Branch(Edge(looped, looped.at, head.at), tested.at)
  }

  function AddBody(f: Flow, ss: seq<Stmt>): Flow
    decreases ss, 0
  {
    if ss == [] then f else AddBody(AddStmt(f, ss[0]), ss[1..])
  }

  /** The graph of a function: from its entry through its body to its exit. */
  function GraphOf(body: seq<Stmt>): Flow {
    var f := AddBody(Flow(2, [], ENTRY), body);
    Edge(f, f.at, EXIT)
  }

  // ----- McCabe's measure -------------------------------------------------------------------

  /** Edges without nodes. */
  function Balance(f: Flow): int { |f.edges| - f.nodes }

  /** Every edge joins two nodes of the graph, and control stands at one. */
  predicate Wired(f: Flow) {
    f.at < f.nodes && forall i :: 0 <= i < |f.edges| ==> f.edges[i].0 < f.nodes && f.edges[i].1 < f.nodes
  }

  /** What a piece of code adds: `weight` edges more than nodes, to a graph that keeps its nodes. */
  predicate Adds(f: Flow, g: Flow, weight: nat) {
    Balance(g) == Balance(f) + weight && Wired(g) && f.nodes <= g.nodes
  }

  lemma BranchAdds(f: Flow, from: nat)
    requires Wired(f) && from < f.nodes
    ensures Adds(f, Branch(f, from), 0)
  {
  }

  lemma WaysJoin(f: Flow, tested: Flow, yes: Flow, no: Flow, t: nat, b: nat, o: nat)
    requires Wired(f) && Adds(f, tested, t)
    requires Adds(Branch(tested, tested.at), yes, b) && Adds(Branch(yes, tested.at), no, o)
    ensures Adds(f, Branch(Edge(no, yes.at, no.nodes), no.at), 1 + t + b + o)
  {
  }

  lemma FailureLeaves(f: Flow, tested: Flow, failed: Flow, t: nat, m: nat)
    requires Wired(f) && f.nodes >= 2 && Adds(f, tested, t) && Adds(Branch(tested, tested.at), failed, m)
    ensures Adds(f, Branch(Edge(failed, failed.at, EXIT), tested.at), 1 + t + m)
  {
  }

  lemma LoopCloses(f: Flow, head: Flow, tested: Flow, looped: Flow, t: nat, b: nat)
    requires Wired(f) && head == Branch(f, f.at) && Adds(head, tested, t)
    requires Adds(Branch(tested, tested.at), looped, b)
    ensures Adds(f, Branch(Edge(looped, looped.at, head.at), tested.at), 1 + t + b)
  {
  }

  lemma {:induction false} ExprAdds(f: Flow, e: Expr)
    requires Wired(f)
    ensures Adds(f, AddExpr(f, e), ExprWeight(e))
    decreases e, 1
  {
    match e {
      case Constant(_) =>
      case Name(_) =>
      case Not(x) => ExprAdds(f, x);
      case Compare(l, _, cs) =>
        ExprAdds(f, l);
        ExprsAdd(AddExpr(f, l), cs);
      case BoolOp(_, vs) =>
        if vs != [] { OperandsAdd(f.(nodes := f.nodes + 1), vs, f.nodes); }
      case IfExp(t, b, o) =>
        ExprAdds(f, t);
        var tested := AddExpr(f, t);
        var yes := AddExpr(Branch(tested, tested.at), b);
        var no := AddExpr(Branch(yes, tested.at), o);
        BranchAdds(tested, tested.at);
        ExprAdds(Branch(tested, tested.at), b);
        BranchAdds(yes, tested.at);
        ExprAdds(Branch(yes, tested.at), o);
        WaysJoin(f, tested, yes, no, ExprWeight(t), ExprWeight(b), ExprWeight(o));
      case Tuple(es) => ExprsAdd(f, es);
      case Call(_, args) => ExprsAdd(f, args);
      case TableGet(_, k, d) =>
        ExprAdds(f, k);
        ExprAdds(AddExpr(f, k), d);
    }
  }

  lemma {:induction false} ExprsAdd(f: Flow, es: seq<Expr>)
    requires Wired(f)
    ensures Adds(f, AddExprs(f, es), ExprsWeight(es))
    decreases es, 0
  {
    if es != [] {
      ExprAdds(f, es[0]);
      ExprsAdd(AddExpr(f, es[0]), es[1..]);
    }
  }

  lemma {:induction false} OperandsAdd(f: Flow, vs: seq<Expr>, join: nat)
    requires Wired(f) && vs != [] && join < f.nodes
    ensures Adds(f, AddOperands(f, vs, join), ExprsWeight(vs) + |vs|)
    decreases vs, 0
  {
    ExprAdds(f, vs[0]);
    var g := AddExpr(f, vs[0]);
    if |vs| > 1 {
      OperandsAdd(Branch(Edge(g, g.at, join), g.at), vs[1..], join);
    } else {
      assert ExprsWeight(vs[1..]) == 0;
    }
  }

  lemma OptionAdds(f: Flow, e: Option<Expr>)
    requires Wired(f)
    ensures Adds(f, AddOption(f, e), OptWeight(e))
  {
    if e.Some? { ExprAdds(f, e.value); }
  }

  lemma {:induction false} StmtAdds(f: Flow, s: Stmt)
    requires Wired(f) && f.nodes >= 2
    ensures Adds(f, AddStmt(f, s), StmtWeight(s))
    decreases s, 1
  {
    match s {
      case Assign(_, v) => ExprAdds(f, v);
      case Evaluate(v) => ExprAdds(f, v);
      case Return(r) => OptionAdds(f, r);
      case Assert(t, m) =>
        ExprAdds(f, t);
        var tested := AddExpr(f, t);
        BranchAdds(tested, tested.at);
        OptionAdds(Branch(tested, tested.at), m);
        FailureLeaves(f, tested, AddOption(Branch(tested, tested.at), m), ExprWeight(t), OptWeight(m));
      case If(t, b, o) =>
        ExprAdds(f, t);
        var tested := AddExpr(f, t);
        var yes := AddBody(Branch(tested, tested.at), b);
        var no := AddBody(Branch(yes, tested.at), o);
        BranchAdds(tested, tested.at);
        BodyAdds(Branch(tested, tested.at), b);
        BranchAdds(yes, tested.at);
        BodyAdds(Branch(yes, tested.at), o);
        WaysJoin(f, tested, yes, no, ExprWeight(t), BodyWeight(b), BodyWeight(o));
      case While(t, b) =>
        var head := Branch(f, f.at);
        var tested := AddExpr(head, t);
        BranchAdds(f, f.at);
        ExprAdds(head, t);
        BranchAdds(tested, tested.at);
        BodyAdds(Branch(tested, tested.at), b);
        LoopCloses(f, head, tested, AddBody(Branch(tested, tested.at), b), ExprWeight(t), BodyWeight(b));
    }
  }

  lemma {:induction false} BodyAdds(f: Flow, ss: seq<Stmt>)
    requires Wired(f) && f.nodes >= 2
    ensures Adds(f, AddBody(f, ss), BodyWeight(ss))
    decreases ss, 0
  {
    if ss != [] {
      StmtAdds(f, ss[0]);
      BodyAdds(AddStmt(f, ss[0]), ss[1..]);
    }
  }

  /** One plus the sum of the node weights is the number of edges, less the number of nodes, plus two. */
  lemma ComplexityIsMcCabe(body: seq<Stmt>)
    ensures var g := GraphOf(body);
      Wired(g) && Complexity(body) == |g.edges| - g.nodes + 2
  {
    BodyAdds(Flow(2, [], ENTRY), body);
  }
}
