/** Moving a compound test into a helper function. */
module PredicateExtraction {
  import opened Wrappers
  import opened PySyntax
  import opened PySemantics
  import opened PyNames

  // ----- Addressing a nested statement --------------------------------------------------

  type Path = seq<nat>

  function Children(s: Stmt): seq<Stmt> {
    match s
    case If(_, b, o) => b + o
    case While(_, b) => b
    case _ => []
  }

  predicate ValidPath(ss: seq<Stmt>, p: Path)
    decreases |p|
  {
    && p != [] && p[0] < |ss|
    && (|p| == 1 || ValidPath(Children(ss[p[0]]), p[1..]))
  }

  function At(ss: seq<Stmt>, p: Path): Stmt
    requires ValidPath(ss, p)
    decreases |p|
  {
    if |p| == 1 then ss[p[0]] else At(Children(ss[p[0]]), p[1..])
  }

  predicate CompoundIf(s: Stmt) {
    s.If? && s.test.BoolOp? && |s.test.values| >= 2
  }

  predicate CompoundAt(ss: seq<Stmt>, p: Path) {
    ValidPath(ss, p) && CompoundIf(At(ss, p))
  }

  /** An `if` whose test joins operands by `and` or by `or` stands at the path. */
  predicate JoinedTestAt(ss: seq<Stmt>, p: Path, kind: BoolKind, operands: seq<Expr>) {
    ValidPath(ss, p) && At(ss, p).If? && At(ss, p).test == BoolOp(kind, operands)
  }

  /** Which statements are looked for. */
  lemma CompoundAtIs(ss: seq<Stmt>, p: Path)
    ensures CompoundAt(ss, p) <==> exists kind, operands :: |operands| >= 2 && JoinedTestAt(ss, p, kind, operands)
  {
    if CompoundAt(ss, p) {
      var test := At(ss, p).test;
      assert JoinedTestAt(ss, p, test.kind, test.values);
    }
  }

  // ----- The walk -----------------------------------------------------------------------

  predicate LexLess(p: Path, q: Path) {
    p != [] && q != [] && (p[0] < q[0] || (p[0] == q[0] && LexLess(p[1..], q[1..])))
  }

  /** Breadth-first order: shallower first, then left to right. */
  predicate Before(p: Path, q: Path) {
    |p| < |q| || (|p| == |q| && LexLess(p, q))
  }

  function StmtSize(s: Stmt): nat
    decreases s, 1
  {
    match s
    case If(_, b, o) => 1 + BodySize(b) + BodySize(o)
    case While(_, b) => 1 + BodySize(b)
    case _ => 1
  }

  function BodySize(ss: seq<Stmt>): nat
    decreases ss, 0
  {
    if ss == [] then 0 else StmtSize(ss[0]) + BodySize(ss[1..])
  }

  lemma {:induction false} BodySizeConcat(a: seq<Stmt>, b: seq<Stmt>)
    ensures BodySize(a + b) == BodySize(a) + BodySize(b)
  {
    if a == [] {
      assert a + b == b;
    } else {
      assert (a + b)[1..] == a[1..] + b;
      BodySizeConcat(a[1..], b);
    }
  }

  lemma PoppedShrinks(nodes: seq<Stmt>)
    requires nodes != []
    ensures BodySize(nodes[1..] + Children(nodes[0])) < BodySize(nodes)
  {
    BodySizeConcat(nodes[1..], Children(nodes[0]));
    if nodes[0].If? { BodySizeConcat(nodes[0].body, nodes[0].orelse); }
  }

  lemma {:induction false} ChildPath(ss: seq<Stmt>, p: Path, i: nat)
    requires ValidPath(ss, p)
    ensures ValidPath(ss, p + [i]) <==> i < |Children(At(ss, p))|
    ensures i < |Children(At(ss, p))| ==> At(ss, p + [i]) == Children(At(ss, p))[i]
    decreases |p|
  {
    if |p| == 1 {
      assert (p + [i])[1..] == [i];
    } else {
      assert (p + [i])[1..] == p[1..] + [i];
      ChildPath(Children(ss[p[0]]), p[1..], i);
    }
  }

  lemma {:induction false} PrefixValid(ss: seq<Stmt>, p: Path, n: nat)
    requires ValidPath(ss, p) && 1 <= n <= |p|
    ensures ValidPath(ss, p[..n])
    decreases |p|
  {
    if n > 1 {
      assert p[..n][1..] == p[1..][..n - 1];
      PrefixValid(Children(ss[p[0]]), p[1..], n - 1);
    }
  }

  lemma {:induction false} LexAppend(p: Path, q: Path, i: nat, j: nat)
    requires |p| == |q|
    ensures LexLess(p, q) ==> LexLess(p + [i], q + [j])
    ensures p == q && i < j ==> LexLess(p + [i], q + [j])
  {
    if p != [] {
      assert (p + [i])[1..] == p[1..] + [i] && (q + [j])[1..] == q[1..] + [j];
      LexAppend(p[1..], q[1..], i, j);
    }
  }

  /** What the queue of the walk holds: valid nodes in breadth-first order, at most one level
      apart, and a prefix of every compound `if` not ruled out yet. */
  ghost predicate WalkInvariant(body: seq<Stmt>, paths: seq<Path>, nodes: seq<Stmt>) {
    && |paths| == |nodes|
    && (forall i :: 0 <= i < |paths| ==> ValidPath(body, paths[i]) && nodes[i] == At(body, paths[i]))
    && (forall i, j :: 0 <= i < j < |paths| ==> Before(paths[i], paths[j]))
    && (forall i :: 0 <= i < |paths| ==> |paths[i]| <= |paths[0]| + 1)
    && (forall i, j :: 0 <= i < |paths| && 0 <= j < |paths| && |paths[j]| == |paths[i]| + 1
          ==> LexLess(paths[j][..|paths[i]|], paths[i]))
  }

  ghost predicate Covers(paths: seq<Path>, p: Path) {
    exists i :: 0 <= i < |paths| && paths[i] <= p
  }

  ghost predicate CoversAll(body: seq<Stmt>, paths: seq<Path>) {
    forall p :: CompoundAt(body, p) ==> Covers(paths, p)
  }

  function ChildPaths(p: Path, n: nat): seq<Path> {
    seq(n, i requires 0 <= i < n => p + [i])
  }

  function Popped(paths: seq<Path>, nodes: seq<Stmt>): seq<Path>
    requires paths != [] && nodes != []
  {
    paths[1..] + ChildPaths(paths[0], |Children(nodes[0])|)
  }

  lemma PoppedElement(body: seq<Stmt>, paths: seq<Path>, nodes: seq<Stmt>, i: nat)
    requires paths != [] && WalkInvariant(body, paths, nodes) && i < |Popped(paths, nodes)|
    ensures var p := Popped(paths, nodes)[i]; var h := paths[0]; var rest := |paths| - 1;
      && ValidPath(body, p) && (nodes[1..] + Children(nodes[0]))[i] == At(body, p)
      && |h| <= |p| <= |h| + 1
      && (if i < rest then p == paths[i + 1] && Before(h, p) else p == h + [i - rest])
      && (|p| == |h| + 1 ==> p == p[..|h|] + [p[|h|]] && (p[..|h|] == h || LexLess(p[..|h|], h)))
  {
    var h := paths[0];
    var p := Popped(paths, nodes)[i];
    if i < |paths| - 1 {
      assert p == paths[i + 1];
    } else {
      assert p == h + [i - (|paths| - 1)];
      ChildPath(body, h, i - (|paths| - 1));
    }
  }

  lemma PoppedInOrder(body: seq<Stmt>, paths: seq<Path>, nodes: seq<Stmt>, i: nat, j: nat)
    requires paths != [] && WalkInvariant(body, paths, nodes) && i < j < |Popped(paths, nodes)|
    ensures Before(Popped(paths, nodes)[i], Popped(paths, nodes)[j])
  {
    var h, p, rest := paths[0], Popped(paths, nodes)[i], |paths| - 1;
    PoppedElement(body, paths, nodes, i);
    PoppedElement(body, paths, nodes, j);
    if j >= rest {
      if i >= rest {
        LexAppend(h, h, i - rest, j - rest);
      } else if |p| == |h| + 1 {
        LexAppend(p[..|h|], h, p[|h|], j - rest);
      }
    }
  }

  lemma PopKeepsInvariant(body: seq<Stmt>, paths: seq<Path>, nodes: seq<Stmt>)
    requires paths != [] && WalkInvariant(body, paths, nodes)
    ensures WalkInvariant(body, Popped(paths, nodes), nodes[1..] + Children(nodes[0]))
  {
    var h, next := paths[0], Popped(paths, nodes);
    forall i | 0 <= i < |next|
      ensures ValidPath(body, next[i]) && (nodes[1..] + Children(nodes[0]))[i] == At(body, next[i])
      ensures |h| <= |next[i]| <= |h| + 1
    {
      PoppedElement(body, paths, nodes, i);
    }
    forall i, j | 0 <= i < j < |next|
      ensures Before(next[i], next[j])
    {
      PoppedInOrder(body, paths, nodes, i, j);
    }
    forall i, j | 0 <= i < |next| && 0 <= j < |next| && |next[j]| == |next[i]| + 1
      ensures LexLess(next[j][..|next[i]|], next[i])
    {
      PoppedElement(body, paths, nodes, i);
      PoppedElement(body, paths, nodes, j);
    }
  }

  lemma PopKeepsCover(body: seq<Stmt>, paths: seq<Path>, nodes: seq<Stmt>)
    requires paths != [] && WalkInvariant(body, paths, nodes) && CoversAll(body, paths)
    requires !CompoundIf(nodes[0])
    ensures CoversAll(body, Popped(paths, nodes))
  {
    var h := paths[0];
    var n := |Children(nodes[0])|;
    var next := Popped(paths, nodes);
    forall p | CompoundAt(body, p)
      ensures Covers(next, p)
    {
      var i :| 0 <= i < |paths| && paths[i] <= p;
      if i > 0 {
        assert next[i - 1] == paths[i];
      } else {
        assert p != h;
        var k := p[|h|];
        PrefixValid(body, p, |h| + 1);
        assert p[..|h| + 1] == h + [k];
        ChildPath(body, h, k);
        assert next[|paths| - 1 + k] == h + [k];
      }
    }
  }

  /** The chosen `if` comes before every other compound one in breadth-first order. */
  ghost predicate FirstCompound(body: seq<Stmt>, p: Path) {
    CompoundAt(body, p) && forall q :: CompoundAt(body, q) && q != p ==> Before(p, q)
  }

  lemma HeadIsFirst(body: seq<Stmt>, paths: seq<Path>, nodes: seq<Stmt>)
    requires paths != [] && WalkInvariant(body, paths, nodes) && CoversAll(body, paths)
    requires CompoundIf(nodes[0])
    ensures FirstCompound(body, paths[0])
  {
    var h := paths[0];
    forall q | CompoundAt(body, q) && q != h
      ensures Before(h, q)
    {
      var i :| 0 <= i < |paths| && paths[i] <= q;
      if i > 0 {
        assert Before(h, paths[i]);
        assert |h| == |q| ==> q == paths[i];
      }
    }
  }

  method FindCompoundIf(body: seq<Stmt>) returns (found: Option<Path>)
    ensures match found
            case Some(p) => FirstCompound(body, p)
            case None => forall p :: !CompoundAt(body, p)
  {
    var paths: seq<Path> := seq(|body|, i requires 0 <= i < |body| => [i]);
    var nodes := body;
    forall p | CompoundAt(body, p)
      ensures Covers(paths, p)
    {
      assert paths[p[0]] <= p;
    }
    while paths != []
      invariant WalkInvariant(body, paths, nodes) && CoversAll(body, paths)
      decreases BodySize(nodes)
    {
      var node := nodes[0];
      if CompoundIf(node) {
        HeadIsFirst(body, paths, nodes);
        return Some(paths[0]);
      }
      PopKeepsInvariant(body, paths, nodes);
      PopKeepsCover(body, paths, nodes);
      PoppedShrinks(nodes);
      paths := paths[1..] + ChildPaths(paths[0], |Children(node)|);
      nodes := nodes[1..] + Children(node);
    }
    NothingCovered(body);
    return None;
  }

  lemma NothingCovered(body: seq<Stmt>)
    requires CoversAll(body, [])
    ensures forall p :: !CompoundAt(body, p)
  {
    forall p ensures !CompoundAt(body, p) {
      assert CompoundAt(body, p) ==> Covers([], p);
    }
  }

  // ----- The rewrite --------------------------------------------------------------------

  function ReplaceTest(ss: seq<Stmt>, p: Path, test: Expr): seq<Stmt>
    requires ValidPath(ss, p) && At(ss, p).If?
    decreases |p|, 0
  {
    ss[p[0] := ReplaceIn(ss[p[0]], p, test)]
  }

  function ReplaceIn(s: Stmt, p: Path, test: Expr): Stmt
    requires p != []
    requires if |p| == 1 then s.If? else ValidPath(Children(s), p[1..]) && At(Children(s), p[1..]).If?
    decreases |p|, 0, 1
  {
    if |p| == 1 then If(test, s.body, s.orelse)
    else
      var q := p[1..];
      match s
      case If(t, b, o) =>
        if q[0] < |b| then
          assert (b + o)[q[0]] == b[q[0]];
          If(t, ReplaceTest(b, q, test), o)
        else
          var r := [q[0] - |b|] + q[1..];
          assert (b + o)[q[0]] == o[r[0]] && r[1..] == q[1..];
          If(t, b, ReplaceTest(o, r, test))
      case While(t, b) => While(t, ReplaceTest(b, q, test))
  }

  function Passed(args: seq<string>): (ps: seq<string>)
    ensures forall x :: x in ps <==> x in args && x != "self" && x != "cls"
  {
    if args == [] then []
    else (if args[0] in {"self", "cls"} then [] else [args[0]]) + Passed(args[1..])
  }

  /** Every positional parameter is passed in its place, except `self` and `cls`. */
  lemma {:induction false} PassedInPlace(before: seq<string>, x: string, after: seq<string>)
    ensures Passed(before + [x] + after)
         == Passed(before) + (if x == "self" || x == "cls" then [] else [x]) + Passed(after)
  {
    var args := before + [x] + after;
    if before == [] {
      assert args[0] == x && args[1..] == after;
    } else {
      assert args[0] == before[0] && args[1..] == before[1..] + [x] + after;
      PassedInPlace(before[1..], x, after);
    }
  }

  function Names(xs: seq<string>): seq<Expr> {
    seq(|xs|, i requires 0 <= i < |xs| => Name(xs[i]))
  }

  function HelperName(fn: string): string { "_is_" + fn + "_valid" }

  function HelperCall(fn: string, args: seq<string>): Expr {
    Call(HelperName(fn), Names(Passed(args)))
  }

  method Apply(tree: ModuleNode, fn: FunctionNode)
    modifies tree, fn
    ensures (forall p :: !CompoundAt(old(fn.body), p)) ==> fn.body == old(fn.body) && tree.body == old(tree.body)
    ensures forall p :: FirstCompound(old(fn.body), p) ==>
              && fn.body == ReplaceTest(old(fn.body), p, HelperCall(fn.name, fn.args))
              && InsertedBefore(old(tree.body), tree.body, fn,
                   HelperDef(HelperName(fn.name), Passed(fn.args), At(old(fn.body), p).test))
  {
    var found := FindCompoundIf(fn.body);
    if found.None? { return; }
    var p := found.value;
    var helper := HelperDef(HelperName(fn.name), Passed(fn.args), At(fn.body, p).test);
    forall q | FirstCompound(fn.body, q)
      ensures q == p
    {
      if q != p { BeforeAsymmetric(p, q); }
    }
    fn.body := ReplaceTest(fn.body, p, HelperCall(fn.name, fn.args));
    tree.InsertBefore(fn, helper);
  }

  lemma {:induction false} LexAsymmetric(p: Path, q: Path)
    ensures !(LexLess(p, q) && LexLess(q, p))
  {
    if p != [] && q != [] { LexAsymmetric(p[1..], q[1..]); }
  }

  lemma BeforeAsymmetric(p: Path, q: Path)
    ensures !(Before(p, q) && Before(q, p))
  {
    LexAsymmetric(p, q);
  }

  // ----- Meaning ------------------------------------------------------------------------

  function HelperFrame(params: seq<string>, vs: seq<Value>): Frame
    requires |params| == |vs|
  {
    Frame((set x | x in params), BindAll(params, vs))
  }

  function BindAll(params: seq<string>, vs: seq<Value>): map<string, Value>
    requires |params| == |vs|
  {
    if params == [] then map[] else BindAll(params[1..], vs[1..])[params[0] := vs[0]]
  }

  /** The helper: a docstring, then the moved test. */
  function HelperBody(doc: string, test: Expr): seq<Stmt> {
    [Evaluate(Constant(StrLit(doc))), Return(Some(test))]
  }

  function CallHelper(w: World, doc: string, params: seq<string>, test: Expr, vs: seq<Value>): Result {
    if |vs| != |params| then Raise(TypeError)
    else match CallBody(w, 0, HelperBody(doc, test), HelperFrame(params, vs))
      case Returned(v, _) => Ok(v)
      case Raised(x, _) => Raise(x)
      case _ => Raise(TypeError)
  }

  function WithHelper(w: World, helper: string, doc: string, params: seq<string>, test: Expr): World {
    w.(call := (fn, vs) => if fn == helper then CallHelper(w, doc, params, test, vs) else w.call(fn, vs))
  }

  lemma HelperReturnsTest(w: World, doc: string, params: seq<string>, test: Expr, vs: seq<Value>)
    requires |vs| == |params|
    ensures CallHelper(w, doc, params, test, vs) == Eval(w, HelperFrame(params, vs), test)
  {
    var h := HelperFrame(params, vs);
    var body := HelperBody(doc, test);
    assert Exec(w, 0, body[0], h) == Normal(h) by {
      assert Eval(w, h, Constant(StrLit(doc))) == Ok(StrV(doc));
    }
    assert body[1..] == [Return(Some(test))];
    assert Run(w, 0, body, h) == Run(w, 0, body[1..], h);
    assert Run(w, 0, body[1..], h) == Exec(w, 0, Return(Some(test)), h);
  }

  /** The caller's frame while the function runs: its own parameters stay bound. */
  predicate Bound(f: Frame, params: seq<string>) {
    forall x :: x in params ==> x in f.locals && x in f.vars
  }

  lemma {:induction false} ExecKeepsBindings(w: World, fuel: nat, s: Stmt, f: Frame)
    ensures var out := Exec(w, fuel, s, f);
      out.Normal? ==> out.frame.locals == f.locals && f.vars.Keys <= out.frame.vars.Keys
    decreases fuel, s, 1
  {
    match s
    case If(_, b, o) => RunKeepsBindings(w, fuel, b, f); RunKeepsBindings(w, fuel, o, f);
    case While(_, b) =>
      RunKeepsBindings(w, fuel, b, f);
      var out := Run(w, fuel, b, f);
      if fuel > 0 && out.Normal? { ExecKeepsBindings(w, fuel - 1, s, out.frame); }
    case _ =>
  }

  lemma {:induction false} RunKeepsBindings(w: World, fuel: nat, ss: seq<Stmt>, f: Frame)
    ensures var out := Run(w, fuel, ss, f);
      out.Normal? ==> out.frame.locals == f.locals && f.vars.Keys <= out.frame.vars.Keys
    decreases fuel, ss, 0
  {
    if ss != [] {
      ExecKeepsBindings(w, fuel, ss[0], f);
      var out := Exec(w, fuel, ss[0], f);
      if out.Normal? { RunKeepsBindings(w, fuel, ss[1..], out.frame); }
    }
  }

  lemma {:induction false} EvalNames(w: World, f: Frame, xs: seq<string>)
    requires Bound(f, xs)
    ensures var r := EvalAll(w, f, Names(xs));
      r.Oks? && |r.values| == |xs| && forall i :: 0 <= i < |xs| ==> r.values[i] == f.vars[xs[i]]
  {
    if xs != [] {
      assert Names(xs)[1..] == Names(xs[1..]);
      EvalNames(w, f, xs[1..]);
      assert Eval(w, f, Names(xs)[0]) == Ok(f.vars[xs[0]]);
      assert EvalAll(w, f, Names(xs)).values == [f.vars[xs[0]]] + EvalAll(w, f, Names(xs[1..])).values;
    }
  }

  lemma {:induction false} BindAllCopies(f: Frame, params: seq<string>, vs: seq<Value>)
    requires |params| == |vs| && Bound(f, params)
    requires forall i :: 0 <= i < |vs| ==> vs[i] == f.vars[params[i]]
    ensures var m := BindAll(params, vs);
      (forall x :: x in m <==> x in params) && forall x :: x in params ==> m[x] == f.vars[x]
  {
    if params != [] {
      BindAllCopies(f, params[1..], vs[1..]);
      assert params == [params[0]] + params[1..];
    }
  }

  // ----- What the helper can see ----------------------------------------------------------

  /** Evaluating the expression gets as far as reading one of these names. */
  predicate Reads(w: World, f: Frame, lost: set<string>, e: Expr)
    decreases e, 1
  {
    match e
    case Constant(_) => false
    case Name(x) => x in lost
    case Not(x) => Reads(w, f, lost, x)
    case Compare(l, ops, cs) =>
      Reads(w, f, lost, l) || (Eval(w, f, l).Ok? && ReadsChain(w, f, lost, Eval(w, f, l).value, ops, cs))
    case BoolOp(k, vs) => ReadsBool(w, f, lost, k, vs)
    case IfExp(t, b, o) =>
      || Reads(w, f, lost, t)
      || (Eval(w, f, t).Ok? && if Truthy(Eval(w, f, t).value) then Reads(w, f, lost, b) else Reads(w, f, lost, o))
    case Tuple(es) => ReadsAll(w, f, lost, es)
    case Call(_, args) => ReadsAll(w, f, lost, args)
    case TableGet(_, k, d) => Reads(w, f, lost, k) || (Eval(w, f, k).Ok? && Reads(w, f, lost, d))
  }

  predicate ReadsChain(w: World, f: Frame, lost: set<string>, v: Value, ops: seq<CmpOp>, cs: seq<Expr>)
    decreases cs, 0
  {
    && ops != [] && cs != []
    && (|| Reads(w, f, lost, cs[0])
        || (var c := Eval(w, f, cs[0]);
            && c.Ok? && |ops| > 1 && |cs| > 1
            && Relate(ops[0], v, c.value).Ok? && Truthy(Relate(ops[0], v, c.value).value)
            && ReadsChain(w, f, lost, c.value, ops[1..], cs[1..])))
  }

  /** Short circuit: an operand is read only if no earlier one decided. */
  predicate ReadsBool(w: World, f: Frame, lost: set<string>, k: BoolKind, vs: seq<Expr>)
    decreases vs, 0
  {
    && vs != []
    && (|| Reads(w, f, lost, vs[0])
        || (var r := Eval(w, f, vs[0]);
            r.Ok? && |vs| > 1 && Truthy(r.value) != (k == Or) && ReadsBool(w, f, lost, k, vs[1..])))
  }

  predicate ReadsAll(w: World, f: Frame, lost: set<string>, es: seq<Expr>)
    decreases es, 0
  {
    es != [] && (Reads(w, f, lost, es[0]) || (Eval(w, f, es[0]).Ok? && ReadsAll(w, f, lost, es[1..])))
  }

  /** From `h`, every name but the lost ones looks as it does from `f`. */
  ghost predicate SeenFrom(w: World, f: Frame, h: Frame, lost: set<string>, names: set<string>) {
    forall x :: x in names && x !in lost ==> Lookup(w, h, x) == Lookup(w, f, x)
  }

  ghost predicate Undefined(w: World, h: Frame, lost: set<string>, names: set<string>) {
    forall x :: x in names && x in lost ==> Lookup(w, h, x) == Raise(NameError)
  }

  /** What the expression gives from `h`: the same as from `f` if no lost name is read, and a
      NameError if one is and the lost names are undefined. */
  ghost predicate Hidden(lost: bool, undefined: bool, seen: Result, r: Result) {
    if lost then undefined ==> seen == Raise(NameError) else seen == r
  }

  lemma {:induction false} EvalHidden(w: World, f: Frame, h: Frame, lost: set<string>, e: Expr)
    requires SeenFrom(w, f, h, lost, FreeVars(e))
    ensures Hidden(Reads(w, f, lost, e), Undefined(w, h, lost, FreeVars(e)), Eval(w, h, e), Eval(w, f, e))
    decreases e, 1
  {
    match e
    case Constant(_) =>
    case Name(_) =>
    case Not(x) => EvalHidden(w, f, h, lost, x);
    case Compare(l, ops, cs) =>
      EvalHidden(w, f, h, lost, l);
      var r := Eval(w, f, l);
      if r.Ok? { ChainHidden(w, f, h, lost, r.value, ops, cs); }
    case BoolOp(k, vs) => BoolHidden(w, f, h, lost, k, vs);
    case IfExp(t, b, o) =>
      EvalHidden(w, f, h, lost, t);
      EvalHidden(w, f, h, lost, b);
      EvalHidden(w, f, h, lost, o);
    case Tuple(es) => AllHidden(w, f, h, lost, es);
    case Call(_, args) => AllHidden(w, f, h, lost, args);
    case TableGet(_, k, d) =>
      EvalHidden(w, f, h, lost, k);
      EvalHidden(w, f, h, lost, d);
  }

  lemma {:induction false} ChainHidden(w: World, f: Frame, h: Frame, lost: set<string>, v: Value, ops: seq<CmpOp>,
                                           cs: seq<Expr>)
    requires SeenFrom(w, f, h, lost, FreeVarsAll(cs))
    ensures Hidden(ReadsChain(w, f, lost, v, ops, cs), Undefined(w, h, lost, FreeVarsAll(cs)),
                   EvalChain(w, h, v, ops, cs), EvalChain(w, f, v, ops, cs))
    decreases cs, 0
  {
    if ops != [] && cs != [] {
      EvalHidden(w, f, h, lost, cs[0]);
      var c := Eval(w, f, cs[0]);
      if c.Ok? && |ops| > 1 && |cs| > 1 { ChainHidden(w, f, h, lost, c.value, ops[1..], cs[1..]); }
    }
  }

  lemma {:induction false} BoolHidden(w: World, f: Frame, h: Frame, lost: set<string>, k: BoolKind, vs: seq<Expr>)
    requires SeenFrom(w, f, h, lost, FreeVarsAll(vs))
    ensures Hidden(ReadsBool(w, f, lost, k, vs), Undefined(w, h, lost, FreeVarsAll(vs)),
                   EvalBool(w, h, k, vs), EvalBool(w, f, k, vs))
    decreases vs, 0
  {
    if vs != [] {
      EvalHidden(w, f, h, lost, vs[0]);
      BoolHidden(w, f, h, lost, k, vs[1..]);
    }
  }

  lemma {:induction false} AllHidden(w: World, f: Frame, h: Frame, lost: set<string>, es: seq<Expr>)
    requires SeenFrom(w, f, h, lost, FreeVarsAll(es))
    ensures var seen := EvalAll(w, h, es);
      if !ReadsAll(w, f, lost, es) then seen == EvalAll(w, f, es)
      else Undefined(w, h, lost, FreeVarsAll(es)) ==> seen == Raises(NameError)
    decreases es, 0
  {
    if es != [] {
      EvalHidden(w, f, h, lost, es[0]);
      AllHidden(w, f, h, lost, es[1..]);
    }
  }

  /** What a name means at module level. */
  function Global(w: World, x: string): Result {
    if x in w.globals then Ok(w.globals[x]) else Raise(NameError)
  }

  /** The locals that are not passed and mean something else at module level. */
  function Lost(w: World, f: Frame, passed: seq<string>): set<string> {
    set x | x in f.locals && x !in passed && Lookup(w, f, x) != Global(w, x)
  }

  /** The frame of the helper: the passed parameters and nothing else. */
  function Inside(f: Frame, passed: seq<string>): Frame {
    Frame((set x | x in passed), map x | x in passed && x in f.vars :: f.vars[x])
  }

  lemma SeenFromInside(w: World, f: Frame, passed: seq<string>, names: set<string>)
    requires Bound(f, passed)
    ensures SeenFrom(w, f, Inside(f, passed), Lost(w, f, passed), names)
    ensures forall x :: x in Lost(w, f, passed) ==> Lookup(w, Inside(f, passed), x) == Global(w, x)
  {
  }

  lemma HelperFrameIsInside(f: Frame, params: seq<string>, vs: seq<Value>)
    requires |params| == |vs| && Bound(f, params)
    requires forall i :: 0 <= i < |vs| ==> vs[i] == f.vars[params[i]]
    ensures HelperFrame(params, vs) == Inside(f, params)
  {
    BindAllCopies(f, params, vs);
  }

  /** The helper evaluates the test in a frame that holds the passed parameters and nothing else. */
  lemma HelperCallInside(w: World, f: Frame, helper: string, doc: string, params: seq<string>, test: Expr)
    requires Bound(f, params)
    ensures Eval(WithHelper(w, helper, doc, params, test), f, Call(helper, Names(params)))
         == Eval(w, Inside(f, params), test)
  {
    var u := WithHelper(w, helper, doc, params, test);
    EvalNames(u, f, params);
    var vs := EvalAll(u, f, Names(params)).values;
    HelperFrameIsInside(f, params, vs);
    HelperReturnsTest(w, doc, params, test, vs);
    assert u.call(helper, vs) == CallHelper(w, doc, params, test, vs);
  }

  /** The test gives from inside what it gives in place, as long as evaluating it in place reads no
      lost local: every local read is passed, or has the value of the module global of its name. */
  lemma HelperCallMeaning(w: World, f: Frame, helper: string, doc: string, params: seq<string>, test: Expr)
    requires Bound(f, params) && !Reads(w, f, Lost(w, f, params), test)
    ensures Eval(WithHelper(w, helper, doc, params, test), f, Call(helper, Names(params))) == Eval(w, f, test)
  {
    HelperCallInside(w, f, helper, doc, params, test);
    SeenFromInside(w, f, params, FreeVars(test));
    EvalHidden(w, f, Inside(f, params), Lost(w, f, params), test);
  }

  /** No lost local of the test is a module global. */
  predicate Unshadowed(w: World, f: Frame, test: Expr, passed: seq<string>) {
    forall x :: x in FreeVars(test) && x in Lost(w, f, passed) ==> x !in w.globals
  }

  lemma InsideExact(w: World, f: Frame, params: seq<string>, test: Expr)
    requires Bound(f, params) && Unshadowed(w, f, test, params)
    ensures Eval(w, Inside(f, params), test)
         == if Reads(w, f, Lost(w, f, params), test) then Raise(NameError) else Eval(w, f, test)
  {
    SeenFromInside(w, f, params, FreeVars(test));
    EvalHidden(w, f, Inside(f, params), Lost(w, f, params), test);
  }

  /** Exactly when the helper call equals the test in place, where no global stands in for a lost
      local: evaluating the test reads none, or ends in a NameError anyway. */
  lemma HelperCallExact(w: World, f: Frame, helper: string, doc: string, params: seq<string>, test: Expr)
    requires Bound(f, params) && Unshadowed(w, f, test, params)
    ensures Eval(WithHelper(w, helper, doc, params, test), f, Call(helper, Names(params))) == Eval(w, f, test)
       <==> !Reads(w, f, Lost(w, f, params), test) || Eval(w, f, test) == Raise(NameError)
  {
    HelperCallInside(w, f, helper, doc, params, test);
    InsideExact(w, f, params, test);
  }

  /** A test is self-contained when every local variable it reads is one of the passed
      parameters; module-level names need not be passed. */
  predicate SelfContained(test: Expr, locals: set<string>, passed: seq<string>) {
    forall x :: x in FreeVars(test) && x in locals ==> x in passed
  }

  /** A self-contained expression reads nothing that is lost, in any state. */
  lemma SelfContainedReadsNothing(w: World, f: Frame, passed: seq<string>, e: Expr)
    requires SelfContained(e, f.locals, passed)
    ensures !Reads(w, f, Lost(w, f, passed), e)
  {
    ReadsSomething(w, f, Lost(w, f, passed), e);
  }

  /** Whatever is read occurs in the expression. */
  lemma {:induction false} ReadsSomething(w: World, f: Frame, lost: set<string>, e: Expr)
    ensures Reads(w, f, lost, e) ==> exists x :: x in FreeVars(e) && x in lost
    decreases e, 1
  {
    match e
    case Constant(_) =>
    case Name(x) => assert x in FreeVars(e);
    case Not(x) => ReadsSomething(w, f, lost, x);
    case Compare(l, _, cs) =>
      ReadsSomething(w, f, lost, l);
      if Eval(w, f, l).Ok? { ChainReads(w, f, lost, Eval(w, f, l).value, e.ops, cs); }
    case BoolOp(k, vs) => BoolReads(w, f, lost, k, vs);
    case IfExp(t, b, o) =>
      ReadsSomething(w, f, lost, t);
      ReadsSomething(w, f, lost, b);
      ReadsSomething(w, f, lost, o);
    case Tuple(es) => AllReads(w, f, lost, es);
    case Call(_, args) => AllReads(w, f, lost, args);
    case TableGet(_, k, d) =>
      ReadsSomething(w, f, lost, k);
      ReadsSomething(w, f, lost, d);
  }

  lemma {:induction false} ChainReads(w: World, f: Frame, lost: set<string>, v: Value, ops: seq<CmpOp>, cs: seq<Expr>)
    ensures ReadsChain(w, f, lost, v, ops, cs) ==> exists x :: x in FreeVarsAll(cs) && x in lost
    decreases cs, 0
  {
    if ops != [] && cs != [] {
      ReadsSomething(w, f, lost, cs[0]);
      var c := Eval(w, f, cs[0]);
      if c.Ok? { ChainReads(w, f, lost, c.value, ops[1..], cs[1..]); }
    }
  }

  lemma {:induction false} BoolReads(w: World, f: Frame, lost: set<string>, k: BoolKind, vs: seq<Expr>)
    ensures ReadsBool(w, f, lost, k, vs) ==> exists x :: x in FreeVarsAll(vs) && x in lost
    decreases vs, 0
  {
    if vs != [] {
      ReadsSomething(w, f, lost, vs[0]);
      BoolReads(w, f, lost, k, vs[1..]);
    }
  }

  lemma {:induction false} AllReads(w: World, f: Frame, lost: set<string>, es: seq<Expr>)
    ensures ReadsAll(w, f, lost, es) ==> exists x :: x in FreeVarsAll(es) && x in lost
    decreases es, 0
  {
    if es != [] {
      ReadsSomething(w, f, lost, es[0]);
      AllReads(w, f, lost, es[1..]);
    }
  }

  // ----- Whole runs -------------------------------------------------------------------------

  datatype Extraction = Extraction(helper: string, doc: string, params: seq<string>, test: Expr) {
    function In(w: World): World { WithHelper(w, helper, doc, params, test) }
    function CallExpr(): Expr { Call(helper, Names(params)) }
  }

  /** An `if` cannot tell the two results apart. */
  predicate SameTest(r: Result, s: Result) {
    r == s || (r.Ok? && s.Ok? && Truthy(r.value) == Truthy(s.value))
  }

  /** In this state the helper sends the `if` another way than the test. */
  predicate Breaks(w: World, x: Extraction, f: Frame) {
    !SameTest(Eval(w, Inside(f, x.params), x.test), Eval(w, f, x.test))
  }

  /** Following the original run: the state in which the test first breaks, if it ever does. */
  function BreakExec(w: World, x: Extraction, fuel: nat, s: Stmt, p: Path, f: Frame): Option<Frame>
    requires p != []
    requires if |p| == 1 then s.If? else ValidPath(Children(s), p[1..]) && At(Children(s), p[1..]).If?
    decreases fuel, s, 1
  {
    if |p| == 1 then if Breaks(w, x, f) then Some(f) else None
    else
      var q := p[1..];
      match s
      case If(t, b, o) =>
        var r := Eval(w, f, t);
        if r.Raise? || Truthy(r.value) != (q[0] < |b|) then None
        else if q[0] < |b| then
          assert (b + o)[q[0]] == b[q[0]];
          BreakRun(w, x, fuel, b, q, f)
        else
          var r := [q[0] - |b|] + q[1..];
          assert (b + o)[q[0]] == o[r[0]] && r[1..] == q[1..];
          BreakRun(w, x, fuel, o, r, f)
      case While(t, b) =>
        var r := Eval(w, f, t);
        if fuel == 0 || r.Raise? || !Truthy(r.value) then None
        else
          var first := BreakRun(w, x, fuel, b, q, f);
          if first.Some? then first
          else match Run(w, fuel, b, f)
            case Normal(g) => BreakExec(w, x, fuel - 1, s, p, g)
            case _ => None
  }

  function BreakRun(w: World, x: Extraction, fuel: nat, ss: seq<Stmt>, p: Path, f: Frame): Option<Frame>
    requires ValidPath(ss, p) && At(ss, p).If?
    decreases fuel, ss, 0
  {
    if p[0] == 0 then BreakExec(w, x, fuel, ss[0], p, f)
    else
      var q := [p[0] - 1] + p[1..];
      assert ss[1..][q[0]] == ss[p[0]] && q[1..] == p[1..];
      match Exec(w, fuel, ss[0], f)
      case Normal(g) => BreakRun(w, x, fuel, ss[1..], q, g)
      case _ => None
  }

  /** A run that never breaks is the original one; one that breaks where the helper raises ends
      there with that exception. */
  predicate UpTo(w: World, x: Extraction, at: Option<Frame>, rewritten: Outcome, original: Outcome) {
    match at
    case None => rewritten == original
    case Some(g) => match Eval(w, Inside(g, x.params), x.test)
      case Raise(e) => rewritten == Raised(e, g)
      case Ok(_) => true
  }

  ghost predicate Applies(x: Extraction, s: Stmt, p: Path, f: Frame) {
    && p != [] && x.helper !in StmtMentions(s)
    && Bound(f, x.params)
    && if |p| == 1 then s.If? && s.test == x.test
       else ValidPath(Children(s), p[1..]) && At(Children(s), p[1..]).If? && At(Children(s), p[1..]).test == x.test
  }

  lemma {:induction false} ExecReplaced(w: World, x: Extraction, fuel: nat, s: Stmt, p: Path, f: Frame)
    requires Applies(x, s, p, f)
    ensures UpTo(w, x, BreakExec(w, x, fuel, s, p, f),
                 Exec(x.In(w), fuel, ReplaceIn(s, p, x.CallExpr()), f), Exec(w, fuel, s, f))
    decreases fuel, s, 2
  {
    if |p| == 1 {
      TopReplaced(w, x, fuel, s, p, f);
    } else if s.If? {
      IfReplaced(w, x, fuel, s, p, f);
    } else {
      WhileReplaced(w, x, fuel, s, p, f);
    }
  }

  lemma TopReplaced(w: World, x: Extraction, fuel: nat, s: Stmt, p: Path, f: Frame)
    requires |p| == 1 && Applies(x, s, p, f)
    ensures UpTo(w, x, BreakExec(w, x, fuel, s, p, f),
                 Exec(x.In(w), fuel, ReplaceIn(s, p, x.CallExpr()), f), Exec(w, fuel, s, f))
  {
    HelperCallInside(w, f, x.helper, x.doc, x.params, x.test);
    assert Agree(w, x.In(w), StmtMentions(s));
    RunAgrees(w, x.In(w), fuel, s.body, f);
    RunAgrees(w, x.In(w), fuel, s.orelse, f);
  }

  lemma {:induction false} IfReplaced(w: World, x: Extraction, fuel: nat, s: Stmt, p: Path, f: Frame)
    requires |p| > 1 && s.If? && Applies(x, s, p, f)
    ensures UpTo(w, x, BreakExec(w, x, fuel, s, p, f),
                 Exec(x.In(w), fuel, ReplaceIn(s, p, x.CallExpr()), f), Exec(w, fuel, s, f))
    decreases fuel, s, 1
  {
    var u, b, o, q := x.In(w), s.body, s.orelse, p[1..];
    assert Agree(w, u, StmtMentions(s));
    EvalAgrees(w, u, f, s.test);
    RunAgrees(w, u, fuel, b, f);
    RunAgrees(w, u, fuel, o, f);
    if q[0] < |b| {
      assert (b + o)[q[0]] == b[q[0]];
      RunReplaced(w, x, fuel, b, q, f);
    } else {
      var r := [q[0] - |b|] + q[1..];
      assert (b + o)[q[0]] == o[r[0]] && r[1..] == q[1..];
      RunReplaced(w, x, fuel, o, r, f);
    }
  }

  lemma {:induction false} WhileReplaced(w: World, x: Extraction, fuel: nat, s: Stmt, p: Path, f: Frame)
    requires |p| > 1 && s.While? && Applies(x, s, p, f)
    ensures UpTo(w, x, BreakExec(w, x, fuel, s, p, f),
                 Exec(x.In(w), fuel, ReplaceIn(s, p, x.CallExpr()), f), Exec(w, fuel, s, f))
    decreases fuel, s, 1
  {
    assert Agree(w, x.In(w), StmtMentions(s));
    EvalAgrees(w, x.In(w), f, s.test);
    RunReplaced(w, x, fuel, s.body, p[1..], f);
    RunKeepsBindings(w, fuel, s.body, f);
    var out := Run(w, fuel, s.body, f);
    if fuel > 0 && out.Normal? { ExecReplaced(w, x, fuel - 1, s, p, out.frame); }
  }

  /** The rewritten run is the original one up to the first state in which the test breaks; for any
      test at any depth, in branches and loops, and any module globals. */
  lemma {:induction false} RunReplaced(w: World, x: Extraction, fuel: nat, ss: seq<Stmt>, p: Path, f: Frame)
    requires ValidPath(ss, p) && At(ss, p).If? && At(ss, p).test == x.test
    requires x.helper !in BodyMentions(ss)
    requires Bound(f, x.params)
    ensures UpTo(w, x, BreakRun(w, x, fuel, ss, p, f),
                 Run(x.In(w), fuel, ReplaceTest(ss, p, x.CallExpr()), f), Run(w, fuel, ss, f))
    decreases fuel, ss, 0
  {
    var u := x.In(w);
    var replaced := ReplaceTest(ss, p, x.CallExpr());
    if p[0] == 0 {
      ExecReplaced(w, x, fuel, ss[0], p, f);
      var out := Exec(w, fuel, ss[0], f);
      assert replaced[1..] == ss[1..];
      assert Agree(w, u, BodyMentions(ss[1..]));
      if out.Normal? { RunAgrees(w, u, fuel, ss[1..], out.frame); }
    } else {
      var q := [p[0] - 1] + p[1..];
      assert ss[1..][q[0]] == ss[p[0]] && q[1..] == p[1..];
      SamePlace(ss, p, q, x.CallExpr());
      assert Agree(w, u, StmtMentions(ss[0]));
      ExecAgrees(w, u, fuel, ss[0], f);
      ExecKeepsBindings(w, fuel, ss[0], f);
      var out := Exec(w, fuel, ss[0], f);
      if out.Normal? { RunReplaced(w, x, fuel, ss[1..], q, out.frame); }
    }
  }

  lemma SamePlace(ss: seq<Stmt>, p: Path, q: Path, test: Expr)
    requires ValidPath(ss, p) && At(ss, p).If? && p[0] > 0 && q == [p[0] - 1] + p[1..]
    requires ValidPath(ss[1..], q) && At(ss[1..], q).If?
    ensures ReplaceTest(ss, p, test)[0] == ss[0]
    ensures ReplaceTest(ss, p, test)[1..] == ReplaceTest(ss[1..], q, test)
  {
    assert q[1..] == p[1..] && ss[1..][q[0]] == ss[p[0]];
    assert ReplaceIn(ss[p[0]], p, test) == ReplaceIn(ss[1..][q[0]], q, test);
  }

  function ExtractionOf(fn: string, args: seq<string>, doc: string, test: Expr): Extraction {
    Extraction(HelperName(fn), doc, Passed(args), test)
  }

  /** The state in which a run first breaks is one it reaches: a breaking one, with the locals and
      all the bindings there were. */
  lemma {:induction false} BreakExecState(w: World, x: Extraction, fuel: nat, s: Stmt, p: Path, f: Frame)
    requires p != []
    requires if |p| == 1 then s.If? else ValidPath(Children(s), p[1..]) && At(Children(s), p[1..]).If?
    ensures BrokenState(w, x, f, BreakExec(w, x, fuel, s, p, f))
    decreases fuel, s, 1
  {
    if |p| > 1 {
      var q := p[1..];
      match s
      case If(_, b, o) =>
        if q[0] < |b| {
          assert (b + o)[q[0]] == b[q[0]];
          BreakRunState(w, x, fuel, b, q, f);
        } else {
          var r := [q[0] - |b|] + q[1..];
          assert (b + o)[q[0]] == o[r[0]] && r[1..] == q[1..];
          BreakRunState(w, x, fuel, o, r, f);
        }
      case While(_, b) =>
        BreakRunState(w, x, fuel, b, q, f);
        RunKeepsBindings(w, fuel, b, f);
        var out := Run(w, fuel, b, f);
        if fuel > 0 && out.Normal? { BreakExecState(w, x, fuel - 1, s, p, out.frame); }
    }
  }

  predicate BrokenState(w: World, x: Extraction, f: Frame, at: Option<Frame>) {
    at.Some? ==> Breaks(w, x, at.value) && at.value.locals == f.locals && f.vars.Keys <= at.value.vars.Keys
  }

  lemma {:induction false} BreakRunState(w: World, x: Extraction, fuel: nat, ss: seq<Stmt>, p: Path, f: Frame)
    requires ValidPath(ss, p) && At(ss, p).If?
    ensures BrokenState(w, x, f, BreakRun(w, x, fuel, ss, p, f))
    decreases fuel, ss, 0
  {
    if p[0] == 0 {
      BreakExecState(w, x, fuel, ss[0], p, f);
    } else {
      var q := [p[0] - 1] + p[1..];
      assert ss[1..][q[0]] == ss[p[0]] && q[1..] == p[1..];
      ExecKeepsBindings(w, fuel, ss[0], f);
      var out := Exec(w, fuel, ss[0], f);
      if out.Normal? { BreakRunState(w, x, fuel, ss[1..], q, out.frame); }
    }
  }

  /** No local of the test that is not passed is a module global. */
  predicate NoneShadowed(w: World, test: Expr, locals: set<string>, passed: seq<string>) {
    forall x :: x in FreeVars(test) && x in locals && x !in passed ==> x !in w.globals
  }

  /** The extraction the transformer performs, for a function called with its parameters bound.  A
      run that never breaks is preserved.  Where no unpassed local is shadowed, one that breaks
      ends there with a NameError, so that a run is preserved exactly when it never breaks, or when
      the original itself ends in a NameError with the bindings of the first breaking state. */
  lemma ExtractionExact(w: World, fuel: nat, fn: string, args: seq<string>, doc: string, body: seq<Stmt>, p: Path,
                        f: Frame)
    requires FirstCompound(body, p) && HelperName(fn) !in BodyMentions(body) && Bound(f, args)
    ensures var x := ExtractionOf(fn, args, doc, At(body, p).test);
      var rewritten := Run(x.In(w), fuel, ReplaceTest(body, p, HelperCall(fn, args)), f);
      var original := Run(w, fuel, body, f);
      var at := BreakRun(w, x, fuel, body, p, f);
      && (at.None? ==> rewritten == original)
      && (NoneShadowed(w, x.test, f.locals, x.params) && at.Some? ==> rewritten == Raised(NameError, at.value))
      && (NoneShadowed(w, x.test, f.locals, x.params)
          ==> (rewritten == original <==> at.None? || original == Raised(NameError, at.value)))
  {
    var x := ExtractionOf(fn, args, doc, At(body, p).test);
    RunReplaced(w, x, fuel, body, p, f);
    BreakRunState(w, x, fuel, body, p, f);
    var at := BreakRun(w, x, fuel, body, p, f);
    if at.Some? && NoneShadowed(w, x.test, f.locals, x.params) { InsideExact(w, at.value, x.params, x.test); }
  }

  /** A state breaks only if evaluating the test there reads a lost local. */
  lemma BreakingReads(w: World, x: Extraction, f: Frame)
    requires Bound(f, x.params) && !Reads(w, f, Lost(w, f, x.params), x.test)
    ensures !Breaks(w, x, f)
  {
    SeenFromInside(w, f, x.params, FreeVars(x.test));
    EvalHidden(w, f, Inside(f, x.params), Lost(w, f, x.params), x.test);
  }

  lemma {:induction false} NeverBreaksExec(w: World, x: Extraction, fuel: nat, s: Stmt, p: Path, f: Frame)
    requires p != [] && SelfContained(x.test, f.locals, x.params) && Bound(f, x.params)
    requires if |p| == 1 then s.If? else ValidPath(Children(s), p[1..]) && At(Children(s), p[1..]).If?
    ensures BreakExec(w, x, fuel, s, p, f) == None
    decreases fuel, s, 1
  {
    if |p| == 1 {
      SelfContainedReadsNothing(w, f, x.params, x.test);
      BreakingReads(w, x, f);
    } else {
      var q := p[1..];
      match s
      case If(_, b, o) =>
        if q[0] < |b| {
          assert (b + o)[q[0]] == b[q[0]];
          NeverBreaks(w, x, fuel, b, q, f);
        } else {
          var r := [q[0] - |b|] + q[1..];
          assert (b + o)[q[0]] == o[r[0]] && r[1..] == q[1..];
          NeverBreaks(w, x, fuel, o, r, f);
        }
      case While(_, b) =>
        NeverBreaks(w, x, fuel, b, q, f);
        RunKeepsBindings(w, fuel, b, f);
        var out := Run(w, fuel, b, f);
        if fuel > 0 && out.Normal? { NeverBreaksExec(w, x, fuel - 1, s, p, out.frame); }
    }
  }

  /** A self-contained test never breaks, whatever the run does. */
  lemma {:induction false} NeverBreaks(w: World, x: Extraction, fuel: nat, ss: seq<Stmt>, p: Path, f: Frame)
    requires ValidPath(ss, p) && At(ss, p).If? && SelfContained(x.test, f.locals, x.params) && Bound(f, x.params)
    ensures BreakRun(w, x, fuel, ss, p, f) == None
    decreases fuel, ss, 0
  {
    if p[0] == 0 {
      NeverBreaksExec(w, x, fuel, ss[0], p, f);
    } else {
      var q := [p[0] - 1] + p[1..];
      assert ss[1..][q[0]] == ss[p[0]] && q[1..] == p[1..];
      ExecKeepsBindings(w, fuel, ss[0], f);
      var out := Exec(w, fuel, ss[0], f);
      if out.Normal? { NeverBreaks(w, x, fuel, ss[1..], q, out.frame); }
    }
  }

  /** The premise a maintainer can check: every local of the test is a passed parameter. */
  lemma ExtractionPreservesMeaning(w: World, fuel: nat, fn: string, args: seq<string>, doc: string, body: seq<Stmt>,
                                   p: Path, f: Frame)
    requires FirstCompound(body, p) && HelperName(fn) !in BodyMentions(body) && Bound(f, args)
    requires SelfContained(At(body, p).test, f.locals, Passed(args))
    ensures var x := ExtractionOf(fn, args, doc, At(body, p).test);
      Run(x.In(w), fuel, ReplaceTest(body, p, HelperCall(fn, args)), f) == Run(w, fuel, body, f)
  {
    ExtractionExact(w, fuel, fn, args, doc, body, p, f);
    NeverBreaks(w, ExtractionOf(fn, args, doc, At(body, p).test), fuel, body, p, f);
  }

  // ----- Inputs on which the rewrite fails --------------------------------------------------

  /** Operands that evaluate and decide nothing. */
  predicate PassesOver(w: World, f: Frame, kind: BoolKind, vs: seq<Expr>) {
    forall i :: 0 <= i < |vs| ==>
      Eval(w, f, vs[i]).Ok? && Truthy(Eval(w, f, vs[i]).value) != (kind == Or)
  }

  lemma {:induction false} ReachesOperand(w: World, f: Frame, lost: set<string>, kind: BoolKind,
                                          before: seq<Expr>, x: string, more: seq<Expr>)
    requires PassesOver(w, f, kind, before)
    requires x in lost && x in f.locals && x in f.vars
    ensures ReadsBool(w, f, lost, kind, before + [Name(x)] + more)
    ensures more == [] || Truthy(f.vars[x]) == (kind == Or)
         ==> EvalBool(w, f, kind, before + [Name(x)] + more) == Ok(f.vars[x])
  {
    var vs := before + [Name(x)] + more;
    if before == [] {
      assert vs[0] == Name(x) && vs[1..] == more;
    } else {
      assert vs[0] == before[0] && vs[1..] == before[1..] + [Name(x)] + more;
      assert forall i :: 0 <= i < |before| - 1 ==> before[1..][i] == before[i + 1];
      ReachesOperand(w, f, lost, kind, before[1..], x, more);
    }
  }

  /** Any operand that is reached and names an unpassed, bound local breaks the test: in place the
      local decides, in the helper its name is undefined. */
  lemma UnpassedLocalBreaks(w: World, f: Frame, helper: string, doc: string, params: seq<string>, kind: BoolKind,
                            before: seq<Expr>, x: string, more: seq<Expr>)
    requires Bound(f, params) && x !in params && x in f.locals && x in f.vars
    requires Unshadowed(w, f, BoolOp(kind, before + [Name(x)] + more), params) && x !in w.globals
    requires PassesOver(w, f, kind, before)
    requires more == [] || Truthy(f.vars[x]) == (kind == Or)
    ensures var test := BoolOp(kind, before + [Name(x)] + more);
      && Eval(w, f, test) == Ok(f.vars[x])
      && Eval(WithHelper(w, helper, doc, params, test), f, Call(helper, Names(params))) == Raise(NameError)
  {
    var test := BoolOp(kind, before + [Name(x)] + more);
    ReachesOperand(w, f, Lost(w, f, params), kind, before, x, more);
    HelperCallInside(w, f, helper, doc, params, test);
    InsideExact(w, f, params, test);
  }

  /** Where a module global has the name of an unpassed local, the helper silently reads the
      global instead. */
  lemma ShadowedGlobalIsRead(w: World, f: Frame, helper: string, doc: string, params: seq<string>, x: string,
                             more: seq<Expr>)
    requires Bound(f, params) && x !in params && x in f.locals && x in f.vars && x in w.globals
    requires Truthy(f.vars[x]) && Truthy(w.globals[x])
    ensures var test := BoolOp(Or, [Name(x)] + more);
      && Eval(w, f, test) == Ok(f.vars[x])
      && Eval(WithHelper(w, helper, doc, params, test), f, Call(helper, Names(params))) == Ok(w.globals[x])
  {
    var test := BoolOp(Or, [Name(x)] + more);
    var h := Inside(f, params);
    HelperCallInside(w, f, helper, doc, params, test);
    assert test.values[0] == Name(x) && Eval(w, f, Name(x)) == Ok(f.vars[x]);
    assert Eval(w, h, Name(x)) == Ok(w.globals[x]);
    assert EvalBool(w, f, Or, test.values) == Ok(f.vars[x]);
    assert EvalBool(w, h, Or, test.values) == Ok(w.globals[x]);
  }
}
