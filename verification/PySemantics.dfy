/** Big-step semantics of the fragment: values, truthiness, comparison, name resolution,
    expressions that may raise, and statements. */
module PySemantics {
  import opened Wrappers
  import opened PySyntax
  import TextLines

  /** Three corners of the value domain matter to the rewrites and are kept: a not-a-number
      object, which is unequal to itself although containers compare it by identity, a list, which
      no dictionary accepts as a key, and sets, here of integers, which are ordered by inclusion. */
  datatype Value =
    | NoneV
    | BoolV(b: bool)
    | IntV(n: int)
    | StrV(s: string)
    | NanV(object_id: nat)
    | TupleV(items: seq<Value>)
    | ListV(list_id: nat, items: seq<Value>)
    | SetV(set_id: nat, members: set<int>)

  datatype Exn = NameError | TypeError | AssertionError | UserError(code: int)

  datatype Result = Ok(value: Value) | Raise(exn: Exn)

  /** Everything outside the function: module globals, dispatch tables and callees.  A callee
      is an arbitrary deterministic function of its arguments. */
  datatype World = World(
    globals: map<string, Value>,
    tables: map<string, seq<(Value, Value)>>,
    call: (string, seq<Value>) -> Result)

  /** One activation: the names the function binds, and their current values. */
  datatype Frame = Frame(locals: set<string>, vars: map<string, Value>)

  datatype Outcome =
    | Normal(frame: Frame)
    | Returned(value: Value, frame: Frame)
    | Raised(exn: Exn, frame: Frame)
    | OutOfFuel

  // ----- Values -----------------------------------------------------------------------

  function LiteralValue(l: Literal): Value {
    match l
    case NoneLit => NoneV
    case BoolLit(b) => BoolV(b)
    case IntLit(n) => IntV(n)
    case StrLit(s) => StrV(s)
  }

  predicate Truthy(v: Value) {
    match v
    case NoneV => false
    case BoolV(b) => b
    case IntV(n) => n != 0
    case StrV(s) => s != ""
    case NanV(_) => true
    case TupleV(vs) => vs != []
    case ListV(_, vs) => vs != []
    case SetV(_, members) => members != {}
  }

  predicate Numeric(v: Value) { v.BoolV? || v.IntV? }

  function AsInt(v: Value): int
    requires Numeric(v)
  {
    match v
    case BoolV(b) => if b then 1 else 0
    case IntV(n) => n
  }

  /** The `==` operator.  Booleans are integers; a not-a-number object equals nothing. */
  predicate PyEq(a: Value, b: Value)
    decreases a, 1
  {
    match a
    case NoneV => b.NoneV?
    case BoolV(_) => Numeric(b) && AsInt(a) == AsInt(b)
    case IntV(_) => Numeric(b) && AsInt(a) == AsInt(b)
    case StrV(s) => b.StrV? && b.s == s
    case NanV(_) => false
    case TupleV(vs) => b.TupleV? && ItemsEq(vs, b.items)
    case ListV(_, vs) => b.ListV? && ItemsEq(vs, b.items)
    case SetV(_, members) => b.SetV? && b.members == members
  }

  /** Container comparison: the same object, or equal. */
  predicate SameOrEq(a: Value, b: Value)
    decreases a, 2
  {
    a == b || PyEq(a, b)
  }

  predicate ItemsEq(xs: seq<Value>, ys: seq<Value>)
    decreases xs, 0
  {
    if xs == [] then ys == []
    else ys != [] && SameOrEq(xs[0], ys[0]) && ItemsEq(xs[1..], ys[1..])
  }

  lemma {:induction false} ItemsEqReflexive(xs: seq<Value>)
    ensures ItemsEq(xs, xs)
  {
    if xs != [] { ItemsEqReflexive(xs[1..]); }
  }

  lemma {:induction false} ItemsEqPointwise(xs: seq<Value>, ys: seq<Value>)
    ensures ItemsEq(xs, ys) <==> |xs| == |ys| && forall i :: 0 <= i < |xs| ==> SameOrEq(xs[i], ys[i])
  {
    if xs != [] && ys != [] {
      ItemsEqPointwise(xs[1..], ys[1..]);
      assert forall i :: 1 <= i < |xs| ==> xs[i] == xs[1..][i - 1];
      assert forall i :: 1 <= i < |ys| ==> ys[i] == ys[1..][i - 1];
    }
  }

  /** Every value but a not-a-number object equals itself, so identity and equality part
      company on that object alone. */
  lemma SelfEquality(v: Value)
    ensures PyEq(v, v) <==> !v.NanV?
  {
    match v
    case TupleV(vs) => ItemsEqReflexive(vs);
    case ListV(_, vs) => ItemsEqReflexive(vs);
    case _ =>
  }

  predicate Hashable(v: Value) {
    match v
    case ListV(_, _) => false
    case SetV(_, _) => false
    case TupleV(vs) => forall i :: 0 <= i < |vs| ==> Hashable(vs[i])
    case _ => true
  }

  lemma {:induction false} EqSymmetric(a: Value, b: Value)
    ensures PyEq(a, b) <==> PyEq(b, a)
    decreases a, 1
  {
    if (a.TupleV? && b.TupleV?) || (a.ListV? && b.ListV?) { ItemsEqSymmetric(a.items, b.items); }
  }

  lemma {:induction false} ItemsEqSymmetric(xs: seq<Value>, ys: seq<Value>)
    ensures ItemsEq(xs, ys) <==> ItemsEq(ys, xs)
    decreases xs, 0
  {
    if xs != [] && ys != [] {
      EqSymmetric(xs[0], ys[0]);
      ItemsEqSymmetric(xs[1..], ys[1..]);
    }
  }

  lemma {:induction false} EqTransitive(a: Value, b: Value, c: Value)
    requires PyEq(a, b) && PyEq(b, c)
    ensures PyEq(a, c)
    decreases a, 1
  {
    if a.TupleV? || a.ListV? { ItemsEqTransitive(a.items, b.items, c.items); }
  }

  lemma {:induction false} ItemsEqTransitive(xs: seq<Value>, ys: seq<Value>, zs: seq<Value>)
    requires ItemsEq(xs, ys) && ItemsEq(ys, zs)
    ensures ItemsEq(xs, zs)
    decreases xs, 0
  {
    if xs != [] {
      if PyEq(xs[0], ys[0]) && PyEq(ys[0], zs[0]) { EqTransitive(xs[0], ys[0], zs[0]); }
      ItemsEqTransitive(xs[1..], ys[1..], zs[1..]);
    }
  }

  /** Keys that count as one key to a dictionary are found by the same lookups. */
  lemma SameKey(a: Value, b: Value, c: Value)
    requires SameOrEq(a, b)
    ensures SameOrEq(a, c) <==> SameOrEq(b, c)
  {
    EqSymmetric(a, b);
    if PyEq(a, b) && PyEq(b, c) { EqTransitive(a, b, c); }
    if PyEq(b, a) && PyEq(a, c) { EqTransitive(b, a, c); }
  }

  lemma {:induction false} EqualHashable(a: Value, b: Value)
    requires PyEq(a, b) && Hashable(b)
    ensures Hashable(a)
    decreases a
  {
    if a.TupleV? {
      ItemsEqPointwise(a.items, b.items);
      forall i | 0 <= i < |a.items| ensures Hashable(a.items[i]) {
        if a.items[i] != b.items[i] { EqualHashable(a.items[i], b.items[i]); }
      }
    }
  }

  predicate Ordered(v: Value) { Numeric(v) || v.NanV? }

  predicate Less(a: Value, b: Value)
    requires (Numeric(a) && Numeric(b)) || (a.StrV? && b.StrV?)
  {
    if a.StrV? then TextLines.StrLess(a.s, b.s) else AsInt(a) < AsInt(b)
  }

  /** `<`, `<=`, `>` and `>=` among numbers, among strings, and among sets by inclusion; any other
      pairing is a TypeError, and a not-a-number operand makes every one of them false. */
  function Order(op: CmpOp, a: Value, b: Value): Result
    requires op in {Lt, LtE, Gt, GtE}
  {
    if Ordered(a) && Ordered(b) && (a.NanV? || b.NanV?) then Ok(BoolV(false))
    else if (Numeric(a) && Numeric(b)) || (a.StrV? && b.StrV?) then
      Ok(BoolV(match op
               case Lt => Less(a, b)
               case LtE => Less(a, b) || PyEq(a, b)
               case Gt => Less(b, a)
               case GtE => Less(b, a) || PyEq(a, b)))
    else if a.SetV? && b.SetV? then
      Ok(BoolV(match op
               case Lt => a.members < b.members
               case LtE => a.members <= b.members
               case Gt => b.members < a.members
               case GtE => b.members <= a.members))
    else Raise(TypeError)
  }

  predicate StartsAt(needle: string, hay: string, i: nat) {
    i + |needle| <= |hay| && hay[i..i + |needle|] == needle
  }

  predicate Occurs(needle: string, hay: string) {
    exists i :: 0 <= i <= |hay| && StartsAt(needle, hay, i)
  }

  function Contains(a: Value, b: Value): Result {
    match b
    case StrV(s) => if a.StrV? then Ok(BoolV(Occurs(a.s, s))) else Raise(TypeError)
    case TupleV(vs) => Ok(BoolV(exists i :: 0 <= i < |vs| && SameOrEq(vs[i], a)))
    case ListV(_, vs) => Ok(BoolV(exists i :: 0 <= i < |vs| && SameOrEq(vs[i], a)))
    case SetV(_, members) =>
      if Hashable(a) || a.SetV? then Ok(BoolV(Numeric(a) && AsInt(a) in members)) else Raise(TypeError)
    case _ => Raise(TypeError)
  }

  function Negate(r: Result): Result {
    match r
    case Ok(v) => Ok(BoolV(!Truthy(v)))
    case Raise(_) => r
  }

  function Relate(op: CmpOp, a: Value, b: Value): Result {
    match op
    case Eq => Ok(BoolV(PyEq(a, b)))
    case NotEq => Ok(BoolV(!PyEq(a, b)))
    case Is => Ok(BoolV(a == b))
    case IsNot => Ok(BoolV(a != b))
    case In => Contains(a, b)
    case NotIn => Negate(Contains(a, b))
    case _ => Order(op, a, b)
  }

  // ----- Dictionaries -----------------------------------------------------------------

  /** Storing into a dictionary: an identical or equal key keeps its place and takes the new value. */
  function DictSet(d: seq<(Value, Value)>, k: Value, v: Value): seq<(Value, Value)> {
    if d == [] then [(k, v)]
    else if SameOrEq(d[0].0, k) then [(d[0].0, v)] + d[1..]
    else [d[0]] + DictSet(d[1..], k, v)
  }

  function DictGet(d: seq<(Value, Value)>, v: Value): Option<Value> {
    if d == [] then None
    else if SameOrEq(d[0].0, v) then Some(d[0].1)
    else DictGet(d[1..], v)
  }

  // ----- Expressions ------------------------------------------------------------------

  function Lookup(w: World, f: Frame, x: string): Result {
    if x in f.locals then if x in f.vars then Ok(f.vars[x]) else Raise(NameError)
    else if x in w.globals then Ok(w.globals[x])
    else Raise(NameError)
  }

  datatype Results = Oks(values: seq<Value>) | Raises(exn: Exn)

  function Eval(w: World, f: Frame, e: Expr): Result
    decreases e, 1
  {
    match e
    case Constant(l) => Ok(LiteralValue(l))
    case Name(x) => Lookup(w, f, x)
    case Not(x) => Negate(Eval(w, f, x))
    case Compare(l, ops, cs) =>
      var r := Eval(w, f, l);
      if r.Raise? then r else EvalChain(w, f, r.value, ops, cs)
    case BoolOp(k, vs) => EvalBool(w, f, k, vs)
    case IfExp(t, b, o) =>
      var r := Eval(w, f, t);
      if r.Raise? then r else if Truthy(r.value) then Eval(w, f, b) else Eval(w, f, o)
    case Tuple(es) =>
      (match EvalAll(w, f, es)
       case Oks(vs) => Ok(TupleV(vs))
       case Raises(x) => Raise(x))
    case Call(fn, args) =>
      (match EvalAll(w, f, args)
       case Oks(vs) => w.call(fn, vs)
       case Raises(x) => Raise(x))
    case TableGet(t, k, d) =>
      var key := Eval(w, f, k);
      if key.Raise? then key else
      var default := Eval(w, f, d);
      if default.Raise? then default
      else if t !in w.tables then Raise(NameError)
      else if !Hashable(key.value) then Raise(TypeError)
      else match DictGet(w.tables[t], key.value)
        case Some(found) => Ok(found)
        case None => default
  }

  /** A comparison chain `v op0 c0 op1 c1 ...`: each operand is evaluated once, left to right,
      and the first false link ends the chain. */
  function EvalChain(w: World, f: Frame, v: Value, ops: seq<CmpOp>, cs: seq<Expr>): Result
    decreases cs, 0
  {
    if ops == [] || cs == [] then Ok(BoolV(true))
    else
      var c := Eval(w, f, cs[0]);
      if c.Raise? then c else
      var r := Relate(ops[0], v, c.value);
      if r.Raise? || |ops| == 1 || |cs| == 1 || !Truthy(r.value) then r
      else EvalChain(w, f, c.value, ops[1..], cs[1..])
  }

  /** Short-circuit evaluation: the value is that of the operand that decided. */
  function EvalBool(w: World, f: Frame, k: BoolKind, vs: seq<Expr>): Result
    decreases vs, 0
  {
    if vs == [] then Ok(BoolV(k == And))
    else
      var r := Eval(w, f, vs[0]);
      if r.Raise? || |vs| == 1 || Truthy(r.value) == (k == Or) then r
      else EvalBool(w, f, k, vs[1..])
  }

  function EvalAll(w: World, f: Frame, es: seq<Expr>): (r: Results)
    ensures r.Oks? ==> |r.values| == |es|
    decreases es, 0
  {
    if es == [] then Oks([])
    else
      var r := Eval(w, f, es[0]);
      if r.Raise? then Raises(r.exn) else
      match EvalAll(w, f, es[1..])
      case Oks(vs) => Oks([r.value] + vs)
      case Raises(x) => Raises(x)
  }

  /** The meaning of a single-operator comparison. */
  lemma CompareOne(w: World, f: Frame, l: Expr, op: CmpOp, r: Expr)
    ensures Eval(w, f, Compare(l, [op], [r]))
         == var a := Eval(w, f, l);
            if a.Raise? then a else
            var b := Eval(w, f, r);
            if b.Raise? then b else Relate(op, a.value, b.value)
  {
    var e := Compare(l, [op], [r]);
    var a := Eval(w, f, l);
    if a.Ok? {
      assert Eval(w, f, e) == EvalChain(w, f, a.value, [op], [r]);
    }
  }

  // ----- Statements -------------------------------------------------------------------

  function Bind(f: Frame, x: string, v: Value): Frame {
    Frame(f.locals, f.vars[x := v])
  }

  /** `fuel` bounds loop iterations only, so two programs that agree at every fuel agree on
      termination as well as on results. */
  function Exec(w: World, fuel: nat, s: Stmt, f: Frame): Outcome
    decreases fuel, s, 1
  {
    match s
    case Assign(x, e) =>
      (match Eval(w, f, e)
       case Ok(v) => Normal(Bind(f, x, v))
       case Raise(x) => Raised(x, f))
    case Evaluate(e) =>
      (match Eval(w, f, e)
       case Ok(_) => Normal(f)
       case Raise(x) => Raised(x, f))
    case Return(None) => Returned(NoneV, f)
    case Return(Some(e)) =>
      (match Eval(w, f, e)
       case Ok(v) => Returned(v, f)
       case Raise(x) => Raised(x, f))
    case Assert(t, m) =>
      (match Eval(w, f, t)
       case Raise(x) => Raised(x, f)
       case Ok(v) =>
         if Truthy(v) then Normal(f)
         else if m.Some? && Eval(w, f, m.value).Raise? then Raised(Eval(w, f, m.value).exn, f)
         else Raised(AssertionError, f))
    case If(t, b, o) =>
      (match Eval(w, f, t)
       case Raise(x) => Raised(x, f)
       case Ok(v) => if Truthy(v) then Run(w, fuel, b, f) else Run(w, fuel, o, f))
    case While(t, b) =>
      if fuel == 0 then OutOfFuel
      else match Eval(w, f, t)
        case Raise(x) => Raised(x, f)
        case Ok(v) =>
          if !Truthy(v) then Normal(f)
          else match Run(w, fuel, b, f)
            case Normal(g) => Exec(w, fuel - 1, s, g)
            case out => out
  }

  function Run(w: World, fuel: nat, ss: seq<Stmt>, f: Frame): Outcome
    decreases fuel, ss, 0
  {
    if ss == [] then Normal(f)
    else match Exec(w, fuel, ss[0], f)
      case Normal(g) => Run(w, fuel, ss[1..], g)
      case out => out
  }

  /** What a caller sees: falling off the end of a body returns None. */
  function Finish(out: Outcome): Outcome {
    match out
    case Normal(f) => Returned(NoneV, f)
    case _ => out
  }

  function CallBody(w: World, fuel: nat, body: seq<Stmt>, f: Frame): Outcome {
    Finish(Run(w, fuel, body, f))
  }

  lemma {:induction false} RunConcat(w: World, fuel: nat, a: seq<Stmt>, b: seq<Stmt>, f: Frame)
    ensures Run(w, fuel, a + b, f)
         == match Run(w, fuel, a, f)
            case Normal(g) => Run(w, fuel, b, g)
            case out => out
    decreases a
  {
    if a == [] {
      assert a + b == b;
    } else {
      assert (a + b)[0] == a[0] && (a + b)[1..] == a[1..] + b;
      var out := Exec(w, fuel, a[0], f);
      if out.Normal? { RunConcat(w, fuel, a[1..], b, out.frame); }
    }
  }

  // ----- Worlds without not-a-number objects -------------------------------------------

  predicate NanFreeValue(v: Value) {
    match v
    case NanV(_) => false
    case TupleV(vs) => forall i :: 0 <= i < |vs| ==> NanFreeValue(vs[i])
    case ListV(_, vs) => forall i :: 0 <= i < |vs| ==> NanFreeValue(vs[i])
    case _ => true
  }

  ghost predicate NanFreeWorld(w: World) {
    && (forall x :: x in w.globals ==> NanFreeValue(w.globals[x]))
    && (forall fn, vs :: w.call(fn, vs).Ok? ==> NanFreeValue(w.call(fn, vs).value))
    && (forall t, i :: t in w.tables && 0 <= i < |w.tables[t]| ==> NanFreeValue(w.tables[t][i].1))
  }

  predicate NanFreeFrame(f: Frame) {
    forall x :: x in f.vars ==> NanFreeValue(f.vars[x])
  }

  predicate NanFreeResult(r: Result) { r.Ok? ==> NanFreeValue(r.value) }

  lemma {:induction false} EvalNanFree(w: World, f: Frame, e: Expr)
    requires NanFreeWorld(w) && NanFreeFrame(f)
    ensures NanFreeResult(Eval(w, f, e))
    decreases e, 1
  {
    match e
    case Constant(_) =>
    case Name(_) =>
    case Not(_) =>
    case Compare(l, ops, cs) =>
      var r := Eval(w, f, l);
      if r.Ok? { ChainNanFree(w, f, r.value, ops, cs); }
    case BoolOp(k, vs) => BoolNanFree(w, f, k, vs);
    case IfExp(t, b, o) => EvalNanFree(w, f, b); EvalNanFree(w, f, o);
    case Tuple(es) =>
      AllNanFree(w, f, es);
      var r := EvalAll(w, f, es);
      if r.Oks? { assert NanFreeValue(TupleV(r.values)); }
    case Call(_, _) =>
    case TableGet(t, k, d) =>
      EvalNanFree(w, f, d);
      var key := Eval(w, f, k);
      if t in w.tables && key.Ok? { FoundInTable(w.tables[t], key.value); }
  }

  lemma {:induction false} FoundInTable(d: seq<(Value, Value)>, v: Value)
    ensures DictGet(d, v).Some? ==> exists i :: 0 <= i < |d| && d[i].1 == DictGet(d, v).value
  {
    if d != [] && !SameOrEq(d[0].0, v) {
      FoundInTable(d[1..], v);
      assert forall i :: 1 <= i < |d| ==> d[i] == d[1..][i - 1];
    }
  }

  lemma {:induction false} ChainNanFree(w: World, f: Frame, v: Value, ops: seq<CmpOp>, cs: seq<Expr>)
    requires NanFreeWorld(w) && NanFreeFrame(f)
    ensures NanFreeResult(EvalChain(w, f, v, ops, cs))
    decreases cs, 0
  {
    if ops != [] && cs != [] {
      var c := Eval(w, f, cs[0]);
      if c.Ok? && |ops| > 1 && |cs| > 1 { ChainNanFree(w, f, c.value, ops[1..], cs[1..]); }
    }
  }

  lemma {:induction false} BoolNanFree(w: World, f: Frame, k: BoolKind, vs: seq<Expr>)
    requires NanFreeWorld(w) && NanFreeFrame(f)
    ensures NanFreeResult(EvalBool(w, f, k, vs))
    decreases vs, 0
  {
    if vs != [] {
      EvalNanFree(w, f, vs[0]);
      BoolNanFree(w, f, k, vs[1..]);
    }
  }

  lemma {:induction false} AllNanFree(w: World, f: Frame, es: seq<Expr>)
    requires NanFreeWorld(w) && NanFreeFrame(f)
    ensures var r := EvalAll(w, f, es);
            r.Oks? ==> forall i :: 0 <= i < |r.values| ==> NanFreeValue(r.values[i])
    decreases es, 0
  {
    if es != [] {
      EvalNanFree(w, f, es[0]);
      AllNanFree(w, f, es[1..]);
      var first, rest := Eval(w, f, es[0]), EvalAll(w, f, es[1..]);
      if first.Ok? && rest.Oks? {
        var all := EvalAll(w, f, es).values;
        forall i | 0 <= i < |all| ensures NanFreeValue(all[i]) {
          assert all[i] == if i == 0 then first.value else rest.values[i - 1];
        }
      }
    }
  }

  /** No step of any execution creates a not-a-number object out of nothing. */
  lemma {:induction false} ExecNanFree(w: World, fuel: nat, s: Stmt, f: Frame)
    requires NanFreeWorld(w) && NanFreeFrame(f)
    ensures var out := Exec(w, fuel, s, f); out.Normal? ==> NanFreeFrame(out.frame)
    decreases fuel, s, 1
  {
    match s
    case Assign(_, e) => EvalNanFree(w, f, e);
    case If(_, b, o) => RunNanFree(w, fuel, b, f); RunNanFree(w, fuel, o, f);
    case While(_, b) =>
      RunNanFree(w, fuel, b, f);
      var out := Run(w, fuel, b, f);
      if fuel > 0 && out.Normal? { ExecNanFree(w, fuel - 1, s, out.frame); }
    case _ =>
  }

  lemma {:induction false} RunNanFree(w: World, fuel: nat, ss: seq<Stmt>, f: Frame)
    requires NanFreeWorld(w) && NanFreeFrame(f)
    ensures var out := Run(w, fuel, ss, f); out.Normal? ==> NanFreeFrame(out.frame)
    decreases fuel, ss, 0
  {
    if ss != [] {
      ExecNanFree(w, fuel, ss[0], f);
      var out := Exec(w, fuel, ss[0], f);
      if out.Normal? { RunNanFree(w, fuel, ss[1..], out.frame); }
    }
  }
}
