/** Which outside definitions and which names an expression can observe. */
module PyNames {
  import opened Wrappers
  import opened PySyntax
  import opened PySemantics

  /** The callees and dispatch tables an expression refers to. */
  function Mentions(e: Expr): set<string>
    decreases e, 1
  {
    match e
    case Constant(_) => {}
    case Name(_) => {}
    case Not(x) => Mentions(x)
    case Compare(l, _, cs) => Mentions(l) + MentionsAll(cs)
    case BoolOp(_, vs) => MentionsAll(vs)
    case IfExp(t, b, o) => Mentions(t) + Mentions(b) + Mentions(o)
    case Tuple(es) => MentionsAll(es)
    case Call(fn, args) => {fn} + MentionsAll(args)
    case TableGet(t, k, d) => {t} + Mentions(k) + Mentions(d)
  }

  function MentionsAll(es: seq<Expr>): set<string>
    decreases es, 0
  {
    if es == [] then {} else Mentions(es[0]) + MentionsAll(es[1..])
  }

  function MentionsOpt(e: Option<Expr>): set<string> {
    if e.Some? then Mentions(e.value) else {}
  }

  function StmtMentions(s: Stmt): set<string>
    decreases s, 1
  {
    match s
    case Assign(_, v) => Mentions(v)
    case Evaluate(v) => Mentions(v)
    case Return(r) => MentionsOpt(r)
    case Assert(t, m) => Mentions(t) + MentionsOpt(m)
    case If(t, b, o) => Mentions(t) + BodyMentions(b) + BodyMentions(o)
    case While(t, b) => Mentions(t) + BodyMentions(b)
  }

  function BodyMentions(ss: seq<Stmt>): set<string>
    decreases ss, 0
  {
    if ss == [] then {} else StmtMentions(ss[0]) + BodyMentions(ss[1..])
  }

  function FreeVars(e: Expr): set<string>
    decreases e, 1
  {
    match e
    case Constant(_) => {}
    case Name(x) => {x}
    case Not(x) => FreeVars(x)
    case Compare(l, _, cs) => FreeVars(l) + FreeVarsAll(cs)
    case BoolOp(_, vs) => FreeVarsAll(vs)
    case IfExp(t, b, o) => FreeVars(t) + FreeVars(b) + FreeVars(o)
    case Tuple(es) => FreeVarsAll(es)
    case Call(_, args) => FreeVarsAll(args)
    case TableGet(_, k, d) => FreeVars(k) + FreeVars(d)
  }

  function FreeVarsAll(es: seq<Expr>): set<string>
    decreases es, 0
  {
    if es == [] then {} else FreeVars(es[0]) + FreeVarsAll(es[1..])
  }

  /** Two worlds with the same callees and tables of these names. */
  ghost predicate SameCallees(w: World, u: World, names: set<string>) {
    && (forall fn, vs :: fn in names ==> w.call(fn, vs) == u.call(fn, vs))
    && (forall t :: t in names ==> (t in w.tables <==> t in u.tables))
    && (forall t :: t in names && t in w.tables && t in u.tables ==> w.tables[t] == u.tables[t])
  }

  /** Two worlds that cannot be told apart through the given callees and tables. */
  ghost predicate Agree(w: World, u: World, names: set<string>) {
    w.globals == u.globals && SameCallees(w, u, names)
  }

  /** Two situations in which these variables have the same values, or are both undefined. */
  ghost predicate LookAlike(w: World, f: Frame, u: World, g: Frame, names: set<string>) {
    forall x :: x in names ==> Lookup(w, f, x) == Lookup(u, g, x)
  }

  /** Evaluation sees a frame and the globals only through the free variables of the expression,
      and the rest of the world only through what it mentions. */
  lemma {:induction false} EvalSame(w: World, f: Frame, u: World, g: Frame, e: Expr)
    requires LookAlike(w, f, u, g, FreeVars(e)) && SameCallees(w, u, Mentions(e))
    ensures Eval(w, f, e) == Eval(u, g, e)
    decreases e, 1
  {
    match e
    case Constant(_) =>
    case Name(_) =>
    case Not(x) => EvalSame(w, f, u, g, x);
    case Compare(l, ops, cs) =>
      EvalSame(w, f, u, g, l);
      var r := Eval(w, f, l);
      if r.Ok? { ChainSame(w, f, u, g, r.value, ops, cs); }
    case BoolOp(k, vs) => BoolSame(w, f, u, g, k, vs);
    case IfExp(t, b, o) => EvalSame(w, f, u, g, t); EvalSame(w, f, u, g, b); EvalSame(w, f, u, g, o);
    case Tuple(es) => AllSame(w, f, u, g, es);
    case Call(_, args) => AllSame(w, f, u, g, args);
    case TableGet(_, k, d) => EvalSame(w, f, u, g, k); EvalSame(w, f, u, g, d);
  }

  lemma {:induction false} ChainSame(w: World, f: Frame, u: World, g: Frame, v: Value, ops: seq<CmpOp>, cs: seq<Expr>)
    requires LookAlike(w, f, u, g, FreeVarsAll(cs)) && SameCallees(w, u, MentionsAll(cs))
    ensures EvalChain(w, f, v, ops, cs) == EvalChain(u, g, v, ops, cs)
    decreases cs, 0
  {
    if ops != [] && cs != [] {
      EvalSame(w, f, u, g, cs[0]);
      var c := Eval(w, f, cs[0]);
      if c.Ok? { ChainSame(w, f, u, g, c.value, ops[1..], cs[1..]); }
    }
  }

  lemma {:induction false} BoolSame(w: World, f: Frame, u: World, g: Frame, k: BoolKind, vs: seq<Expr>)
    requires LookAlike(w, f, u, g, FreeVarsAll(vs)) && SameCallees(w, u, MentionsAll(vs))
    ensures EvalBool(w, f, k, vs) == EvalBool(u, g, k, vs)
    decreases vs, 0
  {
    if vs != [] {
      EvalSame(w, f, u, g, vs[0]);
      BoolSame(w, f, u, g, k, vs[1..]);
    }
  }

  lemma {:induction false} AllSame(w: World, f: Frame, u: World, g: Frame, es: seq<Expr>)
    requires LookAlike(w, f, u, g, FreeVarsAll(es)) && SameCallees(w, u, MentionsAll(es))
    ensures EvalAll(w, f, es) == EvalAll(u, g, es)
    decreases es, 0
  {
    if es != [] {
      EvalSame(w, f, u, g, es[0]);
      AllSame(w, f, u, g, es[1..]);
    }
  }

  lemma EvalAgrees(w: World, u: World, f: Frame, e: Expr)
    requires Agree(w, u, Mentions(e))
    ensures Eval(w, f, e) == Eval(u, f, e)
  {
    EvalSame(w, f, u, f, e);
  }

  lemma {:induction false} ExecAgrees(w: World, u: World, fuel: nat, s: Stmt, f: Frame)
    requires Agree(w, u, StmtMentions(s))
    ensures Exec(w, fuel, s, f) == Exec(u, fuel, s, f)
    decreases fuel, s, 1
  {
    match s
    case Assign(_, v) => EvalAgrees(w, u, f, v);
    case Evaluate(v) => EvalAgrees(w, u, f, v);
    case Return(r) => if r.Some? { EvalAgrees(w, u, f, r.value); }
    case Assert(t, m) =>
      EvalAgrees(w, u, f, t);
      if m.Some? { EvalAgrees(w, u, f, m.value); }
    case If(t, b, o) =>
      EvalAgrees(w, u, f, t);
      RunAgrees(w, u, fuel, b, f);
      RunAgrees(w, u, fuel, o, f);
    case While(t, b) =>
      EvalAgrees(w, u, f, t);
      RunAgrees(w, u, fuel, b, f);
      var out := Run(w, fuel, b, f);
      if fuel > 0 && out.Normal? { ExecAgrees(w, u, fuel - 1, s, out.frame); }
  }

  /** A definition that a body never mentions can be added or changed without effect. */
  lemma {:induction false} RunAgrees(w: World, u: World, fuel: nat, ss: seq<Stmt>, f: Frame)
    requires Agree(w, u, BodyMentions(ss))
    ensures Run(w, fuel, ss, f) == Run(u, fuel, ss, f)
    decreases fuel, ss, 0
  {
    if ss != [] {
      ExecAgrees(w, u, fuel, ss[0], f);
      var out := Exec(w, fuel, ss[0], f);
      if out.Normal? { RunAgrees(w, u, fuel, ss[1..], out.frame); }
    }
  }

  lemma {:induction false} BodyMentionsConcat(a: seq<Stmt>, b: seq<Stmt>)
    ensures BodyMentions(a + b) == BodyMentions(a) + BodyMentions(b)
  {
    if a == [] {
      assert a + b == b;
    } else {
      assert (a + b)[1..] == a[1..] + b;
      BodyMentionsConcat(a[1..], b);
    }
  }
}
