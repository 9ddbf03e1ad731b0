/** Inverting a condition, and flattening an `if` into an early-return guard. */
module GuardClause {
  import opened Wrappers
  import opened PySyntax
  import opened PySemantics
  import TextLines

  // ----- Inversion ----------------------------------------------------------------------

  function InvertOp(op: CmpOp): CmpOp {
    match op
    case Eq => NotEq
    case NotEq => Eq
    case Lt => GtE
    case LtE => Gt
    case Gt => LtE
    case GtE => Lt
    case Is => IsNot
    case IsNot => Is
    case In => NotIn
    case NotIn => In
  }

  /** A leading `not` is dropped, a single comparison swaps its operator, anything else is
      wrapped in `not`. */
  function Invert(e: Expr): Expr {
    match e
    case Not(x) => x
    case Compare(l, ops, cs) => if |ops| == 1 then Compare(l, [InvertOp(ops[0])], cs) else Not(e)
    case _ => Not(e)
  }

  /** Operands that no ordering relates: a number against a not-a-number object, or two sets
      neither of which includes the other. */
  predicate Incomparable(a: Value, b: Value) {
    || (Ordered(a) && Ordered(b) && (a.NanV? || b.NanV?))
    || (a.SetV? && b.SetV? && !(a.members <= b.members) && !(b.members <= a.members))
  }

  /** The one comparison whose swapped operator is not its negation: an ordering of incomparable
      operands, false both ways round. */
  predicate Unordered(w: World, f: Frame, e: Expr) {
    && e.Compare? && |e.ops| == 1 && |e.comparators| == 1 && e.ops[0] in {Lt, LtE, Gt, GtE}
    && Eval(w, f, e.left).Ok? && Eval(w, f, e.comparators[0]).Ok?
    && Incomparable(Eval(w, f, e.left).value, Eval(w, f, e.comparators[0]).value)
  }

  /** A comparison carries one operand per operator. */
  predicate WellFormed(e: Expr) { e.Compare? ==> |e.ops| == |e.comparators| >= 1 }

  predicate Opposite(r: Result, s: Result) {
    match r
    case Raise(_) => s == r
    case Ok(v) => s.Ok? && Truthy(s.value) == !Truthy(v)
  }

  lemma RelateInverted(op: CmpOp, a: Value, b: Value)
    ensures Opposite(Relate(op, a, b), Relate(InvertOp(op), a, b))
        <==> !(op in {Lt, LtE, Gt, GtE} && Incomparable(a, b))
  {
    if a.StrV? && b.StrV? {
      TextLines.StrTrichotomy(a.s, b.s);
      TextLines.StrTrichotomy(b.s, a.s);
    }
  }

  /** The inverted test has the opposite truth value, and raises what the test raises,
      exactly when the test is not an ordering of incomparable operands. */
  lemma InvertNegates(w: World, f: Frame, e: Expr)
    requires WellFormed(e)
    ensures Opposite(Eval(w, f, e), Eval(w, f, Invert(e))) <==> !Unordered(w, f, e)
  {
    match e
    case Not(x) => assert Eval(w, f, e) == Negate(Eval(w, f, x));
    case Compare(l, ops, cs) =>
      if |ops| == 1 {
        assert e == Compare(l, [ops[0]], [cs[0]]);
        assert Invert(e) == Compare(l, [InvertOp(ops[0])], [cs[0]]);
        CompareOne(w, f, l, ops[0], cs[0]);
        CompareOne(w, f, l, InvertOp(ops[0]), cs[0]);
        var a, b := Eval(w, f, l), Eval(w, f, cs[0]);
        if a.Ok? && b.Ok? { RelateInverted(ops[0], a.value, b.value); }
      } else {
        assert Eval(w, f, Not(e)) == Negate(Eval(w, f, e));
      }
    case _ => assert Eval(w, f, Not(e)) == Negate(Eval(w, f, e));
  }

  /** An unordered test and its inversion are false together. */
  lemma UnorderedIsFalse(w: World, f: Frame, e: Expr)
    requires WellFormed(e) && Unordered(w, f, e)
    ensures Eval(w, f, e) == Ok(BoolV(false)) == Eval(w, f, Invert(e))
  {
    CompareOne(w, f, e.left, e.ops[0], e.comparators[0]);
    CompareOne(w, f, e.left, InvertOp(e.ops[0]), e.comparators[0]);
    assert e == Compare(e.left, [e.ops[0]], [e.comparators[0]]);
    assert Invert(e) == Compare(e.left, [InvertOp(e.ops[0])], [e.comparators[0]]);
  }

  // ----- The rewrite --------------------------------------------------------------------

  predicate Flattens(s: Stmt) { s.If? && |s.body| >= 2 && s.orelse == [] }

  function Guard(test: Expr): Stmt {
    If(Invert(test), [Return(Some(Constant(NoneLit)))], [])
  }

  /** Every top-level `if` with a body of two or more and no else becomes a guard followed by
      its former body. */
  function Flatten(body: seq<Stmt>): seq<Stmt> {
    if body == [] then [] else FlattenOne(body[0]) + Flatten(body[1..])
  }

  function FlattenOne(s: Stmt): seq<Stmt> {
    if Flattens(s) then [Guard(s.test)] + s.body else [s]
  }

  lemma {:induction false} FlattenSnoc(body: seq<Stmt>, s: Stmt)
    ensures Flatten(body + [s]) == Flatten(body) + FlattenOne(s)
  {
    if body == [] {
      assert body + [s] == [s] && Flatten([s][1..]) == [];
    } else {
      assert (body + [s])[1..] == body[1..] + [s];
      FlattenSnoc(body[1..], s);
    }
  }

  method Apply(fn: FunctionNode)
    modifies fn
    ensures fn.body == Flatten(old(fn.body))
  {
    var newBody: seq<Stmt> := [];
    for i := 0 to |fn.body|
      invariant fn.body == old(fn.body)
      invariant newBody == Flatten(fn.body[..i])
    {
      var stmt := fn.body[i];
      assert fn.body[..i + 1] == fn.body[..i] + [stmt];
      FlattenSnoc(fn.body[..i], stmt);
      if Flattens(stmt) {
        newBody := newBody + ([Guard(stmt.test)] + stmt.body);
      } else {
        newBody := newBody + [stmt];
      }
    }
    assert fn.body[..|fn.body|] == fn.body;
    fn.body := newBody;
  }

  // ----- Meaning ------------------------------------------------------------------------

  predicate WellFormedTests(body: seq<Stmt>) {
    forall i :: 0 <= i < |body| && body[i].If? ==> WellFormed(body[i].test)
  }

  /** Where flattening keeps the meaning.  Following the original run: a flattened `if` that
      is skipped must be followed by nothing but a tail that returns None and binds nothing,
      because its guard returns at once; and an ordering of incomparable operands, which lets the
      guard through, must not make the moved body observable. */
  predicate Harmless(w: World, fuel: nat, body: seq<Stmt>, f: Frame) {
    if body == [] then true
    else if !Flattens(body[0]) then
      var out := Exec(w, fuel, body[0], f);
      out.Normal? ==> Harmless(w, fuel, body[1..], out.frame)
    else
      var s := body[0];
      match Eval(w, f, s.test)
      case Raise(_) => true
      case Ok(v) =>
        if Truthy(v) then
          var out := Run(w, fuel, s.body, f);
          out.Normal? ==> Harmless(w, fuel, body[1..], out.frame)
        else if Unordered(w, f, s.test) then
          CallBody(w, fuel, s.body + Flatten(body[1..]), f) == CallBody(w, fuel, body[1..], f)
        else
          CallBody(w, fuel, body[1..], f) == Returned(NoneV, f)
  }

  /** A guard lets control through exactly when its inverted test is false. */
  lemma GuardMeaning(w: World, fuel: nat, test: Expr, rest: seq<Stmt>, f: Frame)
    ensures Run(w, fuel, [Guard(test)] + rest, f)
         == match Eval(w, f, Invert(test))
            case Raise(x) => Raised(x, f)
            case Ok(v) => if Truthy(v) then Returned(NoneV, f) else Run(w, fuel, rest, f)
  {
    var g := Guard(test);
    assert ([g] + rest)[0] == g && ([g] + rest)[1..] == rest;
    var ret := [Return(Some(Constant(NoneLit)))];
    assert Exec(w, fuel, ret[0], f) == Returned(NoneV, f) by {
      assert Eval(w, f, Constant(NoneLit)) == Ok(NoneV);
    }
    assert Run(w, fuel, ret, f) == Returned(NoneV, f);
    assert Run(w, fuel, [], f) == Normal(f);
  }

  /** The flattened function returns the same value with the same bindings, or raises the same
      exception, exactly where it is harmless. */
  lemma {:induction false} FlattenPreservesMeaning(w: World, fuel: nat, body: seq<Stmt>, f: Frame)
    requires WellFormedTests(body)
    ensures CallBody(w, fuel, Flatten(body), f) == CallBody(w, fuel, body, f) <==> Harmless(w, fuel, body, f)
    decreases body
  {
    if body != [] {
      var s, rest := body[0], body[1..];
      if Flattens(s) {
        FlattenedStep(w, fuel, body, f);
      } else {
        assert Flatten(body) == [s] + Flatten(rest);
        assert ([s] + Flatten(rest))[1..] == Flatten(rest);
        var out := Exec(w, fuel, s, f);
        if out.Normal? { FlattenPreservesMeaning(w, fuel, rest, out.frame); }
      }
    }
  }

  lemma {:induction false} FlattenedStep(w: World, fuel: nat, body: seq<Stmt>, f: Frame)
    requires body != [] && Flattens(body[0]) && WellFormedTests(body)
    ensures CallBody(w, fuel, Flatten(body), f) == CallBody(w, fuel, body, f) <==> Harmless(w, fuel, body, f)
    decreases body, 0
  {
    var s, rest := body[0], body[1..];
    var moved := s.body + Flatten(rest);
    assert Flatten(body) == [Guard(s.test)] + moved;
    GuardMeaning(w, fuel, s.test, moved, f);
    InvertNegates(w, f, s.test);
    var t := Eval(w, f, s.test);
    if Unordered(w, f, s.test) { UnorderedIsFalse(w, f, s.test); }
    assert Run(w, fuel, [], f) == Normal(f);
    assert Exec(w, fuel, s, f)
        == match t
           case Raise(x) => Raised(x, f)
           case Ok(v) => if Truthy(v) then Run(w, fuel, s.body, f) else Normal(f);
    if t.Ok? && Truthy(t.value) {
      RunConcat(w, fuel, s.body, Flatten(rest), f);
      var out := Run(w, fuel, s.body, f);
      if out.Normal? { FlattenPreservesMeaning(w, fuel, rest, out.frame); }
    }
  }

  /** Following the original run, every flattened `if` that is skipped is followed by a tail that
      returns None and binds nothing.  It speaks of the original function alone. */
  predicate SkipsQuietly(w: World, fuel: nat, body: seq<Stmt>, f: Frame) {
    if body == [] then true
    else
      var out := Exec(w, fuel, body[0], f);
      var skipped := Flattens(body[0]) && Eval(w, f, body[0].test).Ok? && !Truthy(Eval(w, f, body[0].test).value);
      && (skipped ==> CallBody(w, fuel, body[1..], f) == Returned(NoneV, f))
      && (!skipped && out.Normal? ==> SkipsQuietly(w, fuel, body[1..], out.frame))
  }

  /** Following the original run, no test of a flattened `if` that is reached orders incomparable
      operands. */
  predicate AlwaysOrdered(w: World, fuel: nat, body: seq<Stmt>, f: Frame) {
    body != [] ==>
      && (Flattens(body[0]) ==> !Unordered(w, f, body[0].test))
      && (Exec(w, fuel, body[0], f).Normal? ==> AlwaysOrdered(w, fuel, body[1..], Exec(w, fuel, body[0], f).frame))
  }

  predicate IsOrdering(e: Expr) { e.Compare? && |e.ops| == 1 && e.ops[0] in {Lt, LtE, Gt, GtE} }

  /** Tests that are no orderings are always ordered, in every run. */
  lemma {:induction false} NoOrderingTests(w: World, fuel: nat, body: seq<Stmt>, f: Frame)
    requires forall i :: 0 <= i < |body| && Flattens(body[i]) ==> !IsOrdering(body[i].test)
    ensures AlwaysOrdered(w, fuel, body, f)
    decreases body
  {
    if body != [] {
      var out := Exec(w, fuel, body[0], f);
      if out.Normal? { NoOrderingTests(w, fuel, body[1..], out.frame); }
    }
  }

  lemma {:induction false} QuietIsHarmless(w: World, fuel: nat, body: seq<Stmt>, f: Frame)
    requires AlwaysOrdered(w, fuel, body, f)
    ensures Harmless(w, fuel, body, f) <==> SkipsQuietly(w, fuel, body, f)
    decreases body
  {
    if body != [] {
      var out := Exec(w, fuel, body[0], f);
      if out.Normal? { QuietIsHarmless(w, fuel, body[1..], out.frame); }
    }
  }

  /** Where no reached test orders incomparable operands, flattening is right exactly when the
      original skips quietly. */
  lemma FlattenExact(w: World, fuel: nat, body: seq<Stmt>, f: Frame)
    requires WellFormedTests(body) && AlwaysOrdered(w, fuel, body, f)
    ensures CallBody(w, fuel, Flatten(body), f) == CallBody(w, fuel, body, f) <==> SkipsQuietly(w, fuel, body, f)
  {
    FlattenPreservesMeaning(w, fuel, body, f);
    QuietIsHarmless(w, fuel, body, f);
  }

  lemma {:induction false} OnlyLastSkipsQuietly(w: World, fuel: nat, body: seq<Stmt>, f: Frame)
    requires forall i :: 0 <= i < |body| - 1 ==> !Flattens(body[i])
    ensures SkipsQuietly(w, fuel, body, f)
    decreases body
  {
    if body != [] {
      assert Run(w, fuel, [], f) == Normal(f);
      var out := Exec(w, fuel, body[0], f);
      if Flattens(body[0]) {
        assert body[1..] == [];
      } else if out.Normal? {
        OnlyLastSkipsQuietly(w, fuel, body[1..], out.frame);
      }
    }
  }

  /** Only the last statement is flattened, and its test never orders incomparable operands. */
  lemma FlattenSound(w: World, fuel: nat, body: seq<Stmt>, f: Frame)
    requires WellFormedTests(body) && AlwaysOrdered(w, fuel, body, f)
    requires forall i :: 0 <= i < |body| - 1 ==> !Flattens(body[i])
    ensures CallBody(w, fuel, Flatten(body), f) == CallBody(w, fuel, body, f)
  {
    OnlyLastSkipsQuietly(w, fuel, body, f);
    FlattenExact(w, fuel, body, f);
  }

  lemma {:induction false} FlattenConcat(a: seq<Stmt>, b: seq<Stmt>)
    ensures Flatten(a + b) == Flatten(a) + Flatten(b)
  {
    if a == [] {
      assert a + b == b;
    } else {
      assert (a + b)[1..] == a[1..] + b;
      FlattenConcat(a[1..], b);
    }
  }

  predicate NoneFlattens(body: seq<Stmt>) {
    forall i :: 0 <= i < |body| ==> !Flattens(body[i])
  }

  lemma {:induction false} NothingFlattened(body: seq<Stmt>)
    requires NoneFlattens(body)
    ensures Flatten(body) == body
  {
    if body != [] { NothingFlattened(body[1..]); }
  }

  lemma FlattenHead(s: Stmt, rest: seq<Stmt>)
    requires Flattens(s)
    ensures Flatten([s] + rest) == [Guard(s.test)] + (s.body + Flatten(rest))
  {
    assert ([s] + rest)[0] == s && ([s] + rest)[1..] == rest;
    Regrouped([Guard(s.test)], s.body, Flatten(rest));
  }

  lemma FlattenAround(body: seq<Stmt>, pre: seq<Stmt>, s: Stmt, rest: seq<Stmt>)
    requires NoneFlattens(pre) && Flattens(s) && body == pre + ([s] + rest)
    ensures Flatten(body) == pre + ([Guard(s.test)] + (s.body + Flatten(rest)))
  {
    NothingFlattened(pre);
    FlattenConcat(pre, [s] + rest);
    FlattenHead(s, rest);
  }

  function Then(w: World, fuel: nat, reached: Outcome, rest: seq<Stmt>): Outcome {
    match reached
    case Normal(g) => Run(w, fuel, rest, g)
    case out => out
  }

  /** The original body around the first `if` that is flattened. */
  lemma OriginalAround(w: World, fuel: nat, pre: seq<Stmt>, s: Stmt, rest: seq<Stmt>, f: Frame)
    ensures Run(w, fuel, pre + [s] + rest, f) == Then(w, fuel, Run(w, fuel, pre, f), [s] + rest)
  {
    Regrouped(pre, [s], rest);
    RunSplit(w, fuel, pre + [s] + rest, pre, [s] + rest, f);
  }

  /** And the rewritten one. */
  lemma RewrittenAround(w: World, fuel: nat, pre: seq<Stmt>, s: Stmt, rest: seq<Stmt>, f: Frame)
    requires NoneFlattens(pre) && Flattens(s)
    ensures var moved := [Guard(s.test)] + (s.body + Flatten(rest));
      Run(w, fuel, Flatten(pre + [s] + rest), f) == Then(w, fuel, Run(w, fuel, pre, f), moved)
  {
    Regrouped(pre, [s], rest);
    FlattenAround(pre + [s] + rest, pre, s, rest);
    RunSplit(w, fuel, Flatten(pre + [s] + rest), pre, [Guard(s.test)] + (s.body + Flatten(rest)), f);
  }

  lemma Regrouped(a: seq<Stmt>, b: seq<Stmt>, c: seq<Stmt>)
    ensures a + b + c == a + (b + c)
  {
  }

  lemma RunSplit(w: World, fuel: nat, body: seq<Stmt>, pre: seq<Stmt>, rest: seq<Stmt>, f: Frame)
    requires body == pre + rest
    ensures Run(w, fuel, body, f) == Then(w, fuel, Run(w, fuel, pre, f), rest)
  {
    RunConcat(w, fuel, pre, rest, f);
  }

  predicate ReturnsNoneAtOnce(w: World, fuel: nat, body: seq<Stmt>, f: Frame) {
    CallBody(w, fuel, body, f) == Returned(NoneV, f)
  }

  /** The rewrite's good case with every value allowed: only the last statement is flattened.  The
      outcome is preserved exactly unless its test orders incomparable operands in the state where it
      is reached and the body, which the guard then lets run, does not return None at once. */
  lemma LastIfExact(w: World, fuel: nat, pre: seq<Stmt>, s: Stmt, f: Frame)
    requires NoneFlattens(pre) && Flattens(s) && WellFormed(s.test)
    ensures var reached := Run(w, fuel, pre, f);
      CallBody(w, fuel, Flatten(pre + [s]), f) == CallBody(w, fuel, pre + [s], f)
      <==> (reached.Normal? && Unordered(w, reached.frame, s.test)
            ==> ReturnsNoneAtOnce(w, fuel, s.body, reached.frame))
  {
    assert pre + [s] + [] == pre + [s] && [s] + [] == [s] && s.body + Flatten([]) == s.body;
    OriginalAround(w, fuel, pre, s, [], f);
    RewrittenAround(w, fuel, pre, s, [], f);
    var reached := Run(w, fuel, pre, f);
    if reached.Normal? {
      var g := reached.frame;
      GuardMeaning(w, fuel, s.test, s.body, g);
      InvertNegates(w, g, s.test);
      SkippedOrRun(w, fuel, s, [], g);
      if Unordered(w, g, s.test) { UnorderedIsFalse(w, g, s.test); }
    }
  }

  lemma SkippedOrRun(w: World, fuel: nat, s: Stmt, rest: seq<Stmt>, g: Frame)
    requires Flattens(s)
    ensures Run(w, fuel, [s] + rest, g)
         == match Eval(w, g, s.test)
            case Raise(x) => Raised(x, g)
            case Ok(v) => if Truthy(v) then Run(w, fuel, s.body + rest, g) else Run(w, fuel, rest, g)
  {
    assert ([s] + rest)[0] == s && ([s] + rest)[1..] == rest;
    RunConcat(w, fuel, s.body, rest, g);
    assert Run(w, fuel, [], g) == Normal(g);
  }

  // ----- Inputs on which the rewrite fails ----------------------------------------------------

  /** An earlier `if` must not be flattened: where its test is false the original goes on to the
      statements behind it, while the rewritten function has already returned None.  For any
      statements in front of it and any tail that does more than return None. */
  lemma EarlierIfChangesMeaning(w: World, fuel: nat, pre: seq<Stmt>, s: Stmt, rest: seq<Stmt>, f: Frame, g: Frame)
    requires NoneFlattens(pre) && Flattens(s) && WellFormed(s.test)
    requires Run(w, fuel, pre, f) == Normal(g) && !Unordered(w, g, s.test)
    requires Eval(w, g, s.test).Ok? && !Truthy(Eval(w, g, s.test).value)
    requires CallBody(w, fuel, rest, g) != Returned(NoneV, g)
    ensures CallBody(w, fuel, Flatten(pre + [s] + rest), f) == Returned(NoneV, g)
    ensures CallBody(w, fuel, pre + [s] + rest, f) == CallBody(w, fuel, rest, g) != Returned(NoneV, g)
  {
    OriginalAround(w, fuel, pre, s, rest, f);
    RewrittenAround(w, fuel, pre, s, rest, f);
    GuardMeaning(w, fuel, s.test, s.body + Flatten(rest), g);
    InvertNegates(w, g, s.test);
    SkippedOrRun(w, fuel, s, rest, g);
  }

  function LessThan(x: string, y: string): Expr { Compare(Name(x), [Lt], [Name(y)]) }

  /** The incomparable operands: a not-a-number object and a number, or two different singletons. */
  lemma IncomparablePairs(id: nat, n: int, i: nat, j: nat)
    ensures Incomparable(NanV(id), IntV(n)) && Incomparable(SetV(i, {1}), SetV(j, {2}))
  {
    assert 1 in {1} && 1 !in {2} && 2 !in {1};
  }

  /** For such arguments `x < y` and its inversion `x >= y` are both false. */
  lemma IncomparableFailsBothWays(w: World, f: Frame, x: string, y: string, a: Value, b: Value)
    requires Lookup(w, f, x) == Ok(a) && Lookup(w, f, y) == Ok(b) && Incomparable(a, b)
    ensures Eval(w, f, LessThan(x, y)) == Ok(BoolV(false)) == Eval(w, f, Invert(LessThan(x, y)))
    ensures !Opposite(Eval(w, f, LessThan(x, y)), Eval(w, f, Invert(LessThan(x, y))))
  {
    assert Eval(w, f, Name(x)) == Ok(a) && Eval(w, f, Name(y)) == Ok(b);
    UnorderedIsFalse(w, f, LessThan(x, y));
  }

  /** So the guard lets them into the body that the original skips. */
  lemma IncomparablePassTheGuard(w: World, fuel: nat, f: Frame, x: string, y: string, a: Value, b: Value, answer: int)
    requires Lookup(w, f, x) == Ok(a) && Lookup(w, f, y) == Ok(b) && Incomparable(a, b)
    ensures var body := [If(LessThan(x, y), [Evaluate(Name(x)), Return(Some(Constant(IntLit(answer))))], [])];
      && CallBody(w, fuel, body, f) == Returned(NoneV, f)
      && CallBody(w, fuel, Flatten(body), f) == Returned(IntV(answer), f)
  {
    var last := Return(Some(Constant(IntLit(answer))));
    var inner := [Evaluate(Name(x)), last];
    var s := If(LessThan(x, y), inner, []);
    IncomparableFailsBothWays(w, f, x, y, a, b);
    assert [] + [s] + [] == [s] && [s] + [] == [s] && inner + Flatten([]) == inner;
    OriginalAround(w, fuel, [], s, [], f);
    RewrittenAround(w, fuel, [], s, [], f);
    GuardMeaning(w, fuel, s.test, inner, f);
    SkippedOrRun(w, fuel, s, [], f);
    assert Eval(w, f, Name(x)) == Ok(a) && Eval(w, f, Constant(IntLit(answer))) == Ok(IntV(answer));
    assert Exec(w, fuel, last, f) == Returned(IntV(answer), f);
    assert inner[1..] == [last] && Exec(w, fuel, inner[0], f) == Normal(f);
    assert Run(w, fuel, [last], f) == Returned(IntV(answer), f);
  }
}
