/** Merging runs of equality asserts into one assert over tuples. */
module AssertionMerge {
  import opened Wrappers
  import opened PySyntax
  import opened PySemantics

  // ----- The rewrite --------------------------------------------------------------------

  predicate SimpleEquality(s: Stmt) {
    s.Assert? && s.test.Compare? && s.test.ops == [Eq] && |s.test.comparators| == 1
  }

  function EqAssert(l: Expr, r: Expr): Stmt { Assert(Compare(l, [Eq], [r]), None) }

  /** One assert per accumulated pair, without its message. */
  function Each(ls: seq<Expr>, rs: seq<Expr>): seq<Stmt>
    requires |ls| == |rs|
  {
    seq(|ls|, i requires 0 <= i < |ls| => EqAssert(ls[i], rs[i]))
  }

  function Flushed(ls: seq<Expr>, rs: seq<Expr>): seq<Stmt>
    requires |ls| == |rs|
  {
    if |ls| < 3 then Each(ls, rs) else [EqAssert(Tuple(ls), Tuple(rs))]
  }

  /** The rewrite of a body, given the pairs accumulated in front of it: a run grows over
      simple equality asserts and is flushed by anything else. */
  function Merge(body: seq<Stmt>, ls: seq<Expr>, rs: seq<Expr>): seq<Stmt>
    requires |ls| == |rs|
    decreases |body|
  {
    if body == [] then Flushed(ls, rs)
    else if SimpleEquality(body[0]) then
      Merge(body[1..], ls + [body[0].test.left], rs + [body[0].test.comparators[0]])
    else Flushed(ls, rs) + [body[0]] + Merge(body[1..], [], [])
  }

  method Flush(ls: seq<Expr>, rs: seq<Expr>, out: seq<Stmt>) returns (res: seq<Stmt>)
    requires |ls| == |rs|
    ensures res == out + Flushed(ls, rs)
  {
    if ls == [] { return out; }
    res := out;
    if |ls| < 3 {
      for i := 0 to |ls|
        invariant res == out + Each(ls, rs)[..i]
      {
        res := res + [EqAssert(ls[i], rs[i])];
      }
    } else {
      res := res + [EqAssert(Tuple(ls), Tuple(rs))];
    }
  }

  method Apply(fn: FunctionNode)
    modifies fn
    ensures fn.body == Merge(old(fn.body), [], [])
  {
    var newBody: seq<Stmt> := [];
    var lefts: seq<Expr>, rights: seq<Expr> := [], [];
    var i := 0;
    while i < |fn.body|
      invariant 0 <= i <= |fn.body| && fn.body == old(fn.body)
      invariant |lefts| == |rights|
      invariant newBody + Merge(fn.body[i..], lefts, rights) == Merge(fn.body, [], [])
    {
      var stmt := fn.body[i];
      assert fn.body[i..][1..] == fn.body[i + 1..];
      if SimpleEquality(stmt) {
        lefts := lefts + [stmt.test.left];
        rights := rights + [stmt.test.comparators[0]];
      } else {
        newBody := Flush(lefts, rights, newBody);
        newBody := newBody + [stmt];
        lefts, rights := [], [];
      }
      i := i + 1;
    }
    newBody := Flush(lefts, rights, newBody);
    fn.body := newBody;
  }

  // ----- What the rewrite leaves ----------------------------------------------------------

  /** An equality assert as written. */
  datatype Equality = Equality(left: Expr, right: Expr, msg: Option<Expr>)

  function Written(run: seq<Equality>): seq<Stmt> {
    seq(|run|, i requires 0 <= i < |run| => Assert(Compare(run[i].left, [Eq], [run[i].right]), run[i].msg))
  }

  function LeftSides(run: seq<Equality>): seq<Expr> { seq(|run|, i requires 0 <= i < |run| => run[i].left) }

  function RightSides(run: seq<Equality>): seq<Expr> { seq(|run|, i requires 0 <= i < |run| => run[i].right) }

  function Unexplained(run: seq<Equality>): seq<Equality> {
    seq(|run|, i requires 0 <= i < |run| => run[i].(msg := None))
  }

  ghost predicate NoEquality(s: Stmt) {
    forall l, r, msg :: s != Assert(Compare(l, [Eq], [r]), msg)
  }

  /** The asserts of a run between other statements, or at an end of the body, become one assert over
      tuples if they are three or more and are written back one by one otherwise, in either case
      without their messages. */
  lemma RunIsMerged(front: seq<Stmt>, run: seq<Equality>, back: seq<Stmt>)
    requires front == [] || NoEquality(front[|front| - 1])
    requires back == [] || NoEquality(back[0])
    ensures Merge(front + Written(run) + back, [], [])
         == Merge(front, [], [])
          + (if |run| < 3 then Written(Unexplained(run))
             else [Assert(Compare(Tuple(LeftSides(run)), [Eq], [Tuple(RightSides(run))]), None)])
          + Merge(back, [], [])
  {
    if front != [] { NotSimple(front[|front| - 1]); }
    if back != [] { NotSimple(back[0]); }
    MergeAround(front, Written(run), back);
    RunAlone(run);
  }

  lemma MergeAround(front: seq<Stmt>, middle: seq<Stmt>, back: seq<Stmt>)
    requires front == [] || !SimpleEquality(front[|front| - 1])
    requires back == [] || !SimpleEquality(back[0])
    ensures Merge(front + middle + back, [], []) == Merge(front, [], []) + Merge(middle, [], []) + Merge(back, [], [])
  {
    MergeAfter(front, middle, [], []);
    MergeBefore(front + middle, back, [], []);
  }

  lemma RunAlone(run: seq<Equality>)
    ensures Merge(Written(run), [], [])
         == if |run| < 3 then Written(Unexplained(run))
            else [Assert(Compare(Tuple(LeftSides(run)), [Eq], [Tuple(RightSides(run))]), None)]
  {
    MergeRun(run, [], []);
    var ls, rs := LeftSides(run), RightSides(run);
    assert [] + ls == ls && [] + rs == rs;
    assert Each(ls, rs) == Written(Unexplained(run));
  }

  /** All other statements stay as they are. */
  lemma {:induction false} OthersAreKept(body: seq<Stmt>)
    requires forall i :: 0 <= i < |body| ==> NoEquality(body[i])
    ensures Merge(body, [], []) == body
  {
    if body != [] {
      NotSimple(body[0]);
      OthersAreKept(body[1..]);
    }
  }

  lemma NotSimple(s: Stmt)
    ensures NoEquality(s) <==> !SimpleEquality(s)
  {
    if SimpleEquality(s) { assert s == Assert(Compare(s.test.left, [Eq], [s.test.comparators[0]]), s.msg); }
  }

  lemma {:induction false} MergeBefore(front: seq<Stmt>, back: seq<Stmt>, ls: seq<Expr>, rs: seq<Expr>)
    requires |ls| == |rs| && (back == [] || !SimpleEquality(back[0]))
    ensures Merge(front + back, ls, rs) == Merge(front, ls, rs) + Merge(back, [], [])
    decreases |front|
  {
    if front == [] {
      assert front + back == back && Flushed([], []) == [];
    } else {
      assert (front + back)[1..] == front[1..] + back;
      if SimpleEquality(front[0]) {
        MergeBefore(front[1..], back, ls + [front[0].test.left], rs + [front[0].test.comparators[0]]);
      } else {
        MergeBefore(front[1..], back, [], []);
      }
    }
  }

  lemma {:induction false} MergeAfter(front: seq<Stmt>, back: seq<Stmt>, ls: seq<Expr>, rs: seq<Expr>)
    requires |ls| == |rs| && if front == [] then ls == [] else !SimpleEquality(front[|front| - 1])
    ensures Merge(front + back, ls, rs) == Merge(front, ls, rs) + Merge(back, [], [])
    decreases |front|
  {
    if front == [] {
      assert front + back == back && Flushed([], []) == [];
    } else {
      assert (front + back)[1..] == front[1..] + back;
      if SimpleEquality(front[0]) {
        MergeAfter(front[1..], back, ls + [front[0].test.left], rs + [front[0].test.comparators[0]]);
      } else {
        MergeAfter(front[1..], back, [], []);
      }
    }
  }

  lemma {:induction false} MergeRun(run: seq<Equality>, ls: seq<Expr>, rs: seq<Expr>)
    requires |ls| == |rs|
    ensures Merge(Written(run), ls, rs) == Flushed(ls + LeftSides(run), rs + RightSides(run))
    decreases |run|
  {
    if run == [] {
      assert ls + LeftSides(run) == ls && rs + RightSides(run) == rs;
    } else {
      var l, r := run[0].left, run[0].right;
      assert Written(run)[0] == Assert(Compare(l, [Eq], [r]), run[0].msg);
      assert Written(run)[1..] == Written(run[1..]);
      MergeRun(run[1..], ls + [l], rs + [r]);
      assert ls + [l] + LeftSides(run[1..]) == ls + LeftSides(run);
      assert rs + [r] + RightSides(run[1..]) == rs + RightSides(run);
    }
  }

  // ----- Meaning ------------------------------------------------------------------------

  /** The same verdict: both runs fail with the same bindings, or they agree exactly.  Which
      exception a failing test raises is not part of its verdict. */
  predicate SameVerdict(a: Outcome, b: Outcome) {
    a == b || (a.Raised? && b.Raised? && a.frame == b.frame)
  }

  predicate PairHolds(w: World, f: Frame, l: Expr, r: Expr) {
    Eval(w, f, l).Ok? && Eval(w, f, r).Ok? && PyEq(Eval(w, f, l).value, Eval(w, f, r).value)
  }

  /** The looser pairwise test a tuple comparison makes. */
  predicate PairMatches(w: World, f: Frame, l: Expr, r: Expr) {
    Eval(w, f, l).Ok? && Eval(w, f, r).Ok? && SameOrEq(Eval(w, f, l).value, Eval(w, f, r).value)
  }

  predicate AllHold(w: World, f: Frame, ls: seq<Expr>, rs: seq<Expr>)
    requires |ls| == |rs|
  {
    forall i :: 0 <= i < |ls| ==> PairHolds(w, f, ls[i], rs[i])
  }

  predicate AllMatch(w: World, f: Frame, ls: seq<Expr>, rs: seq<Expr>)
    requires |ls| == |rs|
  {
    forall i :: 0 <= i < |ls| ==> PairMatches(w, f, ls[i], rs[i])
  }

  predicate AllTotal(w: World, f: Frame, es: seq<Expr>) {
    forall i :: 0 <= i < |es| ==> Eval(w, f, es[i]).Ok?
  }

  /** A pair whose two sides are one and the same not-a-number object. */
  predicate NanAgainstItself(w: World, f: Frame, l: Expr, r: Expr) {
    Eval(w, f, l).Ok? && Eval(w, f, l) == Eval(w, f, r) && Eval(w, f, l).value.NanV?
  }

  lemma EqAssertMeaning(w: World, fuel: nat, l: Expr, r: Expr, msg: Option<Expr>, f: Frame)
    ensures Exec(w, fuel, Assert(Compare(l, [Eq], [r]), msg), f).Normal? <==> PairHolds(w, f, l, r)
    ensures var out := Exec(w, fuel, Assert(Compare(l, [Eq], [r]), msg), f);
      out == Normal(f) || (out.Raised? && out.frame == f)
    ensures Eval(w, f, l).Ok? && Eval(w, f, r).Ok? && !PairHolds(w, f, l, r)
      ==> Exec(w, fuel, EqAssert(l, r), f) == Raised(AssertionError, f)
  {
    CompareOne(w, f, l, Eq, r);
  }

  lemma {:induction false} EachMeaning(w: World, fuel: nat, ls: seq<Expr>, rs: seq<Expr>, f: Frame)
    requires |ls| == |rs|
    ensures Run(w, fuel, Each(ls, rs), f).Normal? <==> AllHold(w, f, ls, rs)
    ensures var out := Run(w, fuel, Each(ls, rs), f); out == Normal(f) || (out.Raised? && out.frame == f)
    ensures AllTotal(w, f, ls) && AllTotal(w, f, rs) && !AllHold(w, f, ls, rs)
      ==> Run(w, fuel, Each(ls, rs), f) == Raised(AssertionError, f)
  {
    if ls != [] {
      EqAssertMeaning(w, fuel, ls[0], rs[0], None, f);
      assert Each(ls, rs)[0] == EqAssert(ls[0], rs[0]);
      assert Each(ls, rs)[1..] == Each(ls[1..], rs[1..]);
      EachMeaning(w, fuel, ls[1..], rs[1..], f);
      assert AllHold(w, f, ls, rs) <==> PairHolds(w, f, ls[0], rs[0]) && AllHold(w, f, ls[1..], rs[1..]) by {
        assert forall i :: 1 <= i < |ls| ==> ls[i] == ls[1..][i - 1] && rs[i] == rs[1..][i - 1];
      }
    }
  }

  lemma {:induction false} EvalAllMeaning(w: World, f: Frame, es: seq<Expr>)
    ensures EvalAll(w, f, es).Oks? <==> AllTotal(w, f, es)
    ensures var all := EvalAll(w, f, es);
      all.Oks? ==> forall i :: 0 <= i < |es| ==> Eval(w, f, es[i]) == Ok(all.values[i])
  {
    if es != [] {
      EvalAllMeaning(w, f, es[1..]);
      assert AllTotal(w, f, es) <==> Eval(w, f, es[0]).Ok? && AllTotal(w, f, es[1..]) by {
        assert forall i :: 1 <= i < |es| ==> es[i] == es[1..][i - 1];
      }
      if EvalAll(w, f, es).Oks? {
        var vs := EvalAll(w, f, es).values;
        forall i | 0 <= i < |es| ensures Eval(w, f, es[i]) == Ok(vs[i]) {
          if i > 0 { assert es[i] == es[1..][i - 1]; }
        }
      }
    }
  }

  lemma TupleAssertMeaning(w: World, fuel: nat, ls: seq<Expr>, rs: seq<Expr>, f: Frame)
    requires |ls| == |rs|
    ensures var out := Exec(w, fuel, EqAssert(Tuple(ls), Tuple(rs)), f);
      && (out.Normal? <==> AllMatch(w, f, ls, rs))
      && (out == Normal(f) || (out.Raised? && out.frame == f))
      && (AllTotal(w, f, ls) && AllTotal(w, f, rs) && !AllMatch(w, f, ls, rs) ==> out == Raised(AssertionError, f))
  {
    EqAssertMeaning(w, fuel, Tuple(ls), Tuple(rs), None, f);
    EvalAllMeaning(w, f, ls);
    EvalAllMeaning(w, f, rs);
    var a, b := EvalAll(w, f, ls), EvalAll(w, f, rs);
    if a.Oks? && b.Oks? {
      assert Eval(w, f, Tuple(ls)) == Ok(TupleV(a.values)) && Eval(w, f, Tuple(rs)) == Ok(TupleV(b.values));
      ItemsEqPointwise(a.values, b.values);
      assert PyEq(TupleV(a.values), TupleV(b.values)) <==> ItemsEq(a.values, b.values);
    }
  }

  /** One run against its merged form.  The verdicts differ exactly when every pair matches
      and one of them compares a not-a-number object with itself; when every expression of the
      run evaluates and the verdicts agree, even the exceptions are the same. */
  lemma MergedRunVerdict(w: World, fuel: nat, ls: seq<Expr>, rs: seq<Expr>, f: Frame)
    requires |ls| == |rs|
    ensures SameVerdict(Exec(w, fuel, EqAssert(Tuple(ls), Tuple(rs)), f), Run(w, fuel, Each(ls, rs), f))
       <==> !(AllMatch(w, f, ls, rs) && exists i :: 0 <= i < |ls| && NanAgainstItself(w, f, ls[i], rs[i]))
    ensures AllTotal(w, f, ls) && AllTotal(w, f, rs)
         && SameVerdict(Exec(w, fuel, EqAssert(Tuple(ls), Tuple(rs)), f), Run(w, fuel, Each(ls, rs), f))
       ==> Exec(w, fuel, EqAssert(Tuple(ls), Tuple(rs)), f) == Run(w, fuel, Each(ls, rs), f)
  {
    EachMeaning(w, fuel, ls, rs, f);
    TupleAssertMeaning(w, fuel, ls, rs, f);
    forall i | 0 <= i < |ls| && PairMatches(w, f, ls[i], rs[i])
      ensures PairHolds(w, f, ls[i], rs[i]) <==> !NanAgainstItself(w, f, ls[i], rs[i])
    {
      SelfEquality(Eval(w, f, ls[i]).value);
    }
  }

  // ----- Which exception -------------------------------------------------------------------

  function AfterFault(fault: Option<Exn>, f: Frame): Outcome {
    if fault.None? then Normal(f) else Raised(fault.value, f)
  }

  /** What makes one assert fail: an operand that raises, a message that raises, or the test. */
  function AssertFault(w: World, f: Frame, s: Stmt): Option<Exn>
    requires SimpleEquality(s)
  {
    var l, r := Eval(w, f, s.test.left), Eval(w, f, s.test.comparators[0]);
    if l.Raise? then Some(l.exn)
    else if r.Raise? then Some(r.exn)
    else if PyEq(l.value, r.value) then None
    else if s.msg.Some? && Eval(w, f, s.msg.value).Raise? then Some(Eval(w, f, s.msg.value).exn)
    else Some(AssertionError)
  }

  predicate AllSimple(run: seq<Stmt>) { forall i :: 0 <= i < |run| ==> SimpleEquality(run[i]) }

  /** Asserted one by one, a run fails with its first assert that fails. */
  function EachFault(w: World, f: Frame, run: seq<Stmt>): Option<Exn>
    requires AllSimple(run)
  {
    if run == [] then None
    else
      var fault := AssertFault(w, f, run[0]);
      if fault.Some? then fault else EachFault(w, f, run[1..])
  }

  /** Merged, it fails with the first left side that raises, then the first right side that
      raises, and only then with a pair that differs. */
  function TupleFault(w: World, f: Frame, ls: seq<Expr>, rs: seq<Expr>): Option<Exn> {
    match EvalAll(w, f, ls)
    case Raises(x) => Some(x)
    case Oks(a) => match EvalAll(w, f, rs)
      case Raises(x) => Some(x)
      case Oks(b) => if ItemsEq(a, b) then None else Some(AssertionError)
  }

  function Lefts(run: seq<Stmt>): (ls: seq<Expr>)
    requires AllSimple(run)
    ensures |ls| == |run|
  {
    seq(|run|, i requires 0 <= i < |run| => run[i].test.left)
  }

  function Rights(run: seq<Stmt>): (rs: seq<Expr>)
    requires AllSimple(run)
    ensures |rs| == |run|
  {
    seq(|run|, i requires 0 <= i < |run| => run[i].test.comparators[0])
  }

  function FlushFault(w: World, f: Frame, run: seq<Stmt>): Option<Exn>
    requires AllSimple(run)
  {
    if |run| < 3 then EachFault(w, f, Each(Lefts(run), Rights(run))) else TupleFault(w, f, Lefts(run), Rights(run))
  }

  lemma AssertMeaning(w: World, fuel: nat, s: Stmt, f: Frame)
    requires SimpleEquality(s)
    ensures Exec(w, fuel, s, f) == AfterFault(AssertFault(w, f, s), f)
  {
    assert s.test == Compare(s.test.left, [Eq], [s.test.comparators[0]]);
    CompareOne(w, f, s.test.left, Eq, s.test.comparators[0]);
  }

  lemma {:induction false} EachFaultMeaning(w: World, fuel: nat, run: seq<Stmt>, f: Frame)
    requires AllSimple(run)
    ensures Run(w, fuel, run, f) == AfterFault(EachFault(w, f, run), f)
  {
    if run != [] {
      AssertMeaning(w, fuel, run[0], f);
      EachFaultMeaning(w, fuel, run[1..], f);
    }
  }

  lemma FlushFaultMeaning(w: World, fuel: nat, run: seq<Stmt>, f: Frame)
    requires AllSimple(run)
    ensures Run(w, fuel, Flushed(Lefts(run), Rights(run)), f) == AfterFault(FlushFault(w, f, run), f)
  {
    var ls, rs := Lefts(run), Rights(run);
    if |run| < 3 {
      EachFaultMeaning(w, fuel, Each(ls, rs), f);
    } else {
      var merged := EqAssert(Tuple(ls), Tuple(rs));
      AssertMeaning(w, fuel, merged, f);
      Singleton(w, fuel, merged, f);
      TupleFaultMeaning(w, f, ls, rs);
    }
  }

  lemma TupleFaultMeaning(w: World, f: Frame, ls: seq<Expr>, rs: seq<Expr>)
    ensures AssertFault(w, f, EqAssert(Tuple(ls), Tuple(rs))) == TupleFault(w, f, ls, rs)
  {
    var a, b := EvalAll(w, f, ls), EvalAll(w, f, rs);
    if a.Oks? && b.Oks? { assert PyEq(TupleV(a.values), TupleV(b.values)) <==> ItemsEq(a.values, b.values); }
  }

  lemma Singleton(w: World, fuel: nat, s: Stmt, f: Frame)
    ensures Run(w, fuel, [s], f) == Exec(w, fuel, s, f)
  {
    var out := Exec(w, fuel, s, f);
    if out.Normal? { assert Run(w, fuel, [s][1..], out.frame) == out; }
  }

  // ----- Whole bodies ------------------------------------------------------------------------

  /** Compared outright, or by verdict and bindings only. */
  datatype Judge = Outright | ByVerdict

  predicate Same(j: Judge, a: Outcome, b: Outcome) {
    a == b || (j.ByVerdict? && a.Raised? && b.Raised? && a.frame == b.frame)
  }

  predicate SameFault(j: Judge, a: Option<Exn>, b: Option<Exn>) {
    a == b || (j.ByVerdict? && a.Some? && b.Some?)
  }

  /** Following the original run, with the asserts of the current run held back in `run`: at the
      end of every run reached, both forms pass or both fail the same way.  A merged form that
      passes where the original fails lets the rest of the body run, which must then fail that
      way itself. */
  predicate Kept(j: Judge, w: World, fuel: nat, run: seq<Stmt>, body: seq<Stmt>, f: Frame)
    requires AllSimple(run)
    decreases |body|
  {
    var each, flushed := EachFault(w, f, run), FlushFault(w, f, run);
    if body == [] then SameFault(j, each, flushed)
    else if SimpleEquality(body[0]) then Kept(j, w, fuel, run + [body[0]], body[1..], f)
    else if each.Some? && flushed.None? then
      Same(j, Run(w, fuel, [body[0]] + Merge(body[1..], [], []), f), Raised(each.value, f))
    else if each.None? && flushed.None? then
      var out := Exec(w, fuel, body[0], f);
      out.Normal? ==> Kept(j, w, fuel, [], body[1..], out.frame)
    else SameFault(j, each, flushed)
  }

  /** The rewritten body against the original, for any mix of asserts and other statements and
      whichever expressions raise: same outcome, or same verdict, exactly where it is kept. */
  lemma {:induction false} MergeExact(j: Judge, w: World, fuel: nat, run: seq<Stmt>, body: seq<Stmt>, f: Frame)
    requires AllSimple(run)
    ensures Same(j, Run(w, fuel, Merge(body, Lefts(run), Rights(run)), f), Run(w, fuel, run + body, f))
       <==> Kept(j, w, fuel, run, body, f)
    decreases |body|
  {
    EachFaultMeaning(w, fuel, run, f);
    FlushFaultMeaning(w, fuel, run, f);
    if body == [] {
      assert run + body == run;
    } else if SimpleEquality(body[0]) {
      RunGrows(run, body);
      MergeExact(j, w, fuel, run + [body[0]], body[1..], f);
    } else {
      OtherStatement(j, w, fuel, run, body, f);
      if EachFault(w, f, run).None? { PassingStaysPassing(w, f, run); }
      assert Lefts([]) == [] && Rights([]) == [] && [] + body[1..] == body[1..];
      var out := Exec(w, fuel, body[0], f);
      if out.Normal? { MergeExact(j, w, fuel, [], body[1..], out.frame); }
    }
  }

  lemma RunGrows(run: seq<Stmt>, body: seq<Stmt>)
    requires AllSimple(run) && body != [] && SimpleEquality(body[0])
    ensures var longer := run + [body[0]];
      && AllSimple(longer) && run + body == longer + body[1..]
      && Merge(body, Lefts(run), Rights(run)) == Merge(body[1..], Lefts(longer), Rights(longer))
  {
    var longer := run + [body[0]];
    assert Lefts(longer) == Lefts(run) + [body[0].test.left];
    assert Rights(longer) == Rights(run) + [body[0].test.comparators[0]];
  }

  /** Both bodies where a run ends before another statement. */
  lemma OtherStatement(j: Judge, w: World, fuel: nat, run: seq<Stmt>, body: seq<Stmt>, f: Frame)
    requires AllSimple(run) && body != [] && !SimpleEquality(body[0])
    ensures Run(w, fuel, run + body, f)
         == if EachFault(w, f, run).Some? then Raised(EachFault(w, f, run).value, f) else Run(w, fuel, body, f)
    ensures var tail := [body[0]] + Merge(body[1..], [], []);
      Run(w, fuel, Merge(body, Lefts(run), Rights(run)), f)
      == if FlushFault(w, f, run).Some? then Raised(FlushFault(w, f, run).value, f) else Run(w, fuel, tail, f)
    ensures var tail := [body[0]] + Merge(body[1..], [], []);
      Run(w, fuel, tail, f)
      == match Exec(w, fuel, body[0], f)
         case Normal(g) => Run(w, fuel, Merge(body[1..], [], []), g)
         case out => out
  {
    var tail := [body[0]] + Merge(body[1..], [], []);
    EachFaultMeaning(w, fuel, run, f);
    FlushFaultMeaning(w, fuel, run, f);
    RunConcat(w, fuel, run, body, f);
    RunConcat(w, fuel, Flushed(Lefts(run), Rights(run)), tail, f);
    assert Merge(body, Lefts(run), Rights(run)) == Flushed(Lefts(run), Rights(run)) + tail;
    assert tail[0] == body[0] && tail[1..] == Merge(body[1..], [], []);
  }

  /** When the merged form of a run passes. */
  lemma FlushPasses(w: World, f: Frame, run: seq<Stmt>)
    requires AllSimple(run)
    ensures FlushFault(w, f, run).None?
       <==> if |run| < 3 then AllHold(w, f, Lefts(run), Rights(run)) else AllMatch(w, f, Lefts(run), Rights(run))
  {
    var ls, rs := Lefts(run), Rights(run);
    if |run| < 3 {
      EachHolds(w, f, Each(ls, rs));
      assert Lefts(Each(ls, rs)) == ls && Rights(Each(ls, rs)) == rs;
    } else {
      EvalAllMeaning(w, f, ls);
      EvalAllMeaning(w, f, rs);
      var a, b := EvalAll(w, f, ls), EvalAll(w, f, rs);
      if a.Oks? && b.Oks? { ItemsEqPointwise(a.values, b.values); }
    }
  }

  /** Merging never makes a passing run fail. */
  lemma PassingStaysPassing(w: World, f: Frame, run: seq<Stmt>)
    requires AllSimple(run) && EachFault(w, f, run).None?
    ensures FlushFault(w, f, run).None?
  {
    EachHolds(w, f, run);
    FlushPasses(w, f, run);
  }

  /** Without not-a-number objects both forms of a run pass together and fail together. */
  lemma NanFreeVerdict(w: World, f: Frame, run: seq<Stmt>)
    requires AllSimple(run) && NanFreeWorld(w) && NanFreeFrame(f)
    ensures EachFault(w, f, run).Some? <==> FlushFault(w, f, run).Some?
  {
    var ls, rs := Lefts(run), Rights(run);
    EachHolds(w, f, run);
    FlushPasses(w, f, run);
    forall i | 0 <= i < |ls| && PairMatches(w, f, ls[i], rs[i]) ensures PairHolds(w, f, ls[i], rs[i]) {
      EvalNanFree(w, f, ls[i]);
      SelfEquality(Eval(w, f, ls[i]).value);
    }
  }

  lemma {:induction false} EachHolds(w: World, f: Frame, run: seq<Stmt>)
    requires AllSimple(run)
    ensures EachFault(w, f, run).None? <==> AllHold(w, f, Lefts(run), Rights(run))
  {
    if run != [] {
      EachHolds(w, f, run[1..]);
      var ls, rs := Lefts(run), Rights(run);
      assert Lefts(run[1..]) == ls[1..] && Rights(run[1..]) == rs[1..];
      assert forall i :: 1 <= i < |ls| ==> ls[i] == ls[1..][i - 1] && rs[i] == rs[1..][i - 1];
      assert AssertFault(w, f, run[0]).None? <==> PairHolds(w, f, ls[0], rs[0]);
    }
  }

  lemma {:induction false} NanFreeKept(w: World, fuel: nat, run: seq<Stmt>, body: seq<Stmt>, f: Frame)
    requires AllSimple(run) && NanFreeWorld(w) && NanFreeFrame(f)
    ensures Kept(ByVerdict, w, fuel, run, body, f)
    decreases |body|
  {
    NanFreeVerdict(w, f, run);
    if body != [] {
      if SimpleEquality(body[0]) {
        NanFreeKept(w, fuel, run + [body[0]], body[1..], f);
      } else {
        ExecNanFree(w, fuel, body[0], f);
        var out := Exec(w, fuel, body[0], f);
        if out.Normal? { NanFreeKept(w, fuel, [], body[1..], out.frame); }
      }
    }
  }

  /** With no not-a-number object around, every call passes or fails as before. */
  lemma MergeSound(w: World, fuel: nat, body: seq<Stmt>, f: Frame)
    requires NanFreeWorld(w) && NanFreeFrame(f)
    ensures SameVerdict(CallBody(w, fuel, Merge(body, [], []), f), CallBody(w, fuel, body, f))
  {
    assert Lefts([]) == [] && Rights([]) == [] && [] + body == body;
    NanFreeKept(w, fuel, [], body, f);
    MergeExact(ByVerdict, w, fuel, [], body, f);
  }

  // ----- Inputs on which the rewrite fails ------------------------------------------------------

  lemma {:induction false} MergeAsserts(run: seq<Stmt>, more: seq<Stmt>)
    requires AllSimple(run) && AllSimple(more)
    ensures Merge(more, Lefts(run), Rights(run)) == Flushed(Lefts(run + more), Rights(run + more))
    decreases |more|
  {
    if more == [] {
      assert run + more == run;
    } else {
      var longer := run + [more[0]];
      assert Lefts(longer) == Lefts(run) + [more[0].test.left];
      assert Rights(longer) == Rights(run) + [more[0].test.comparators[0]];
      assert run + more == longer + more[1..];
      MergeAsserts(longer, more[1..]);
    }
  }

  /** A body of asserts only is one run. */
  lemma AssertsOnly(w: World, fuel: nat, body: seq<Stmt>, f: Frame)
    requires AllSimple(body)
    ensures Run(w, fuel, body, f) == AfterFault(EachFault(w, f, body), f)
    ensures Run(w, fuel, Merge(body, [], []), f) == AfterFault(FlushFault(w, f, body), f)
  {
    EachFaultMeaning(w, fuel, body, f);
    FlushFaultMeaning(w, fuel, body, f);
    MergeAsserts([], body);
    assert Lefts([]) == [] && Rights([]) == [] && [] + body == body;
  }

  /** Three asserts that a not-a-number object equals itself fail, merged they pass. */
  lemma NanAssertsPass(w: World, fuel: nat, f: Frame, x: string, id: nat)
    requires Lookup(w, f, x) == Ok(NanV(id))
    ensures var s := EqAssert(Name(x), Name(x));
      && Run(w, fuel, [s, s, s], f) == Raised(AssertionError, f)
      && Run(w, fuel, Merge([s, s, s], [], []), f) == Normal(f)
  {
    var s := EqAssert(Name(x), Name(x));
    var run := [s, s, s];
    AssertsOnly(w, fuel, run, f);
    assert Eval(w, f, Name(x)) == Ok(NanV(id)) && run[0] == s;
    var es := [Name(x), Name(x), Name(x)];
    assert Lefts(run) == es && Rights(run) == es;
    EvalAllMeaning(w, f, es);
    assert AllTotal(w, f, es);
    ItemsEqReflexive(EvalAll(w, f, es).values);
  }

  /** A differing pair in front of an undefined name: the failed test becomes a NameError. */
  lemma MergeChangesException(w: World, fuel: nat, f: Frame, y: string)
    requires Lookup(w, f, y) == Raise(NameError)
    ensures var one, two := Constant(IntLit(1)), Constant(IntLit(2));
      var body := [EqAssert(one, two), EqAssert(one, one), EqAssert(Name(y), one)];
      && Run(w, fuel, body, f) == Raised(AssertionError, f)
      && Run(w, fuel, Merge(body, [], []), f) == Raised(NameError, f)
  {
    var one, two := Constant(IntLit(1)), Constant(IntLit(2));
    var body := [EqAssert(one, two), EqAssert(one, one), EqAssert(Name(y), one)];
    AssertsOnly(w, fuel, body, f);
    assert Eval(w, f, one) == Ok(IntV(1)) && Eval(w, f, two) == Ok(IntV(2));
    var ls := [one, one, Name(y)];
    assert Lefts(body) == ls && ls[1..] == [one, Name(y)] && ls[1..][1..] == [Name(y)];
    assert EvalAll(w, f, [Name(y)]) == Raises(NameError);
    assert EvalAll(w, f, ls[1..]) == Raises(NameError) && EvalAll(w, f, ls) == Raises(NameError);
  }
}
