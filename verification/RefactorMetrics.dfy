/** The metric side of the refactorer: what each rewrite does to cyclomatic complexity and to
    nesting depth, and therefore when the safety check can reject it. */
module RefactorMetrics {
  import opened Wrappers
  import opened PySyntax
  import T = TableDispatch
  import G = GuardClause
  import P = PredicateExtraction
  import A = AssertionMerge

  datatype SafetyError = Unparsable | FunctionMissing | ComplexityRegressed | DepthRegressed

  /** What reading the rewritten code back gives: a syntax error, a module in which the function
      is missing, or the function's body. */
  datatype ReadBack = SyntaxError | NoFunction | Found(body: seq<Stmt>)

  ghost predicate Accepts(before: seq<Stmt>, after: seq<Stmt>) {
    Complexity(after) <= Complexity(before) && NestingDepth(after) <= NestingDepth(before)
  }

  method VerifySafety(code: ReadBack, initialC: nat, initialD: nat)
    returns (safe: bool, finalC: nat, finalD: nat, error: Option<SafetyError>)
    ensures !code.Found? ==> !safe && finalC == initialC && finalD == initialD
    ensures error == Some(Unparsable) <==> code.SyntaxError?
    ensures error == Some(FunctionMissing) <==> code.NoFunction?
    ensures code.Found? ==> finalC == Complexity(code.body) && finalD == NestingDepth(code.body)
    ensures code.Found? ==> (safe <==> finalC <= initialC && finalD <= initialD)
    ensures safe <==> error == None
    ensures error == Some(ComplexityRegressed) <==> code.Found? && finalC > initialC
    ensures error == Some(DepthRegressed) <==> code.Found? && finalC <= initialC && finalD > initialD
  {
    if code.SyntaxError? { return false, initialC, initialD, Some(Unparsable); }
    if code.NoFunction? { return false, initialC, initialD, Some(FunctionMissing); }
    finalC, finalD := Complexity(code.body), NestingDepth(code.body);
    if finalC > initialC { return false, finalC, finalD, Some(ComplexityRegressed); }
    if finalD > initialD { return false, finalC, finalD, Some(DepthRegressed); }
    return true, finalC, finalD, None;
  }

  lemma WeightOfOne(s: Stmt)
    ensures BodyWeight([s]) == StmtWeight(s)
    ensures forall d: nat :: BodyDepth([s], d) == Max(WalkDepth(s, d), d)
  {
    assert [s][1..] == [];
  }

  // ----- Depth as a path ------------------------------------------------------------------

  /** The level of the block a statement opens, or stands in if it opens none. */
  function LevelAt(body: seq<Stmt>, p: P.Path): nat
    requires P.ValidPath(body, p)
  {
    var s := P.At(body, p);
    if s.If? || s.While? then |p| + 1 else |p|
  }

  /** The depth of a body is the deepest level of any statement in it. */
  lemma NestingDepthIs(body: seq<Stmt>)
    ensures forall p :: P.ValidPath(body, p) ==> LevelAt(body, p) <= NestingDepth(body)
    ensures if body == [] then NestingDepth(body) == 1
            else exists p :: P.ValidPath(body, p) && LevelAt(body, p) == NestingDepth(body)
  {
    forall p | P.ValidPath(body, p) ensures LevelAt(body, p) <= NestingDepth(body) {
      LevelBound(body, p, 1);
    }
    if body != [] { var p := DeepestPath(body, 1); }
  }

  lemma DepthOf(s: Stmt, d: nat)
    requires s.If? || s.While?
    ensures WalkDepth(s, d) == BodyDepth(P.Children(s), d + 1)
  {
    if s.If? { BodyDepthConcat(s.body, s.orelse, d + 1); }
  }

  lemma {:induction false} MemberDepth(ss: seq<Stmt>, i: nat, d: nat)
    requires i < |ss|
    ensures WalkDepth(ss[i], d) <= BodyDepth(ss, d)
  {
    if i > 0 { MemberDepth(ss[1..], i - 1, d); }
  }

  lemma {:induction false} LevelBound(ss: seq<Stmt>, p: P.Path, d: nat)
    requires P.ValidPath(ss, p)
    ensures d - 1 + LevelAt(ss, p) <= BodyDepth(ss, d)
    decreases |p|
  {
    var s := ss[p[0]];
    MemberDepth(ss, p[0], d);
    if s.If? || s.While? {
      DepthOf(s, d);
      if |p| > 1 { LevelBound(P.Children(s), p[1..], d + 1); } else { BodyDepthAtLeast(P.Children(s), d + 1); }
    }
  }

  lemma {:induction false} DeepestMember(ss: seq<Stmt>, d: nat) returns (i: nat)
    requires ss != []
    ensures i < |ss| && WalkDepth(ss[i], d) == BodyDepth(ss, d)
  {
    i := 0;
    StmtDepthAtLeast(ss[0], d);
    if |ss| > 1 {
      var j := DeepestMember(ss[1..], d);
      if WalkDepth(ss[0], d) < BodyDepth(ss[1..], d) { i := j + 1; }
    }
  }

  lemma StmtDepthAtLeast(s: Stmt, d: nat)
    ensures WalkDepth(s, d) >= d
  {
    if s.If? || s.While? {
      DepthOf(s, d);
      BodyDepthAtLeast(P.Children(s), d + 1);
    }
  }

  lemma {:induction false} DeepestPath(ss: seq<Stmt>, d: nat) returns (p: P.Path)
    requires ss != []
    ensures P.ValidPath(ss, p) && d - 1 + LevelAt(ss, p) == BodyDepth(ss, d)
    decreases P.BodySize(ss)
  {
    var i := DeepestMember(ss, d);
    var s := ss[i];
    p := [i];
    if s.If? || s.While? {
      DepthOf(s, d);
      if P.Children(s) != [] {
        MemberSize(ss, i);
        if s.If? { P.BodySizeConcat(s.body, s.orelse); }
        var q := DeepestPath(P.Children(s), d + 1);
        p := [i] + q;
        assert p[1..] == q;
      }
    }
  }

  lemma {:induction false} MemberSize(ss: seq<Stmt>, i: nat)
    requires i < |ss|
    ensures P.StmtSize(ss[i]) <= P.BodySize(ss)
  {
    if i > 0 { MemberSize(ss[1..], i - 1); }
  }

  // ----- Guards -------------------------------------------------------------------------

  lemma InvertKeepsWeight(e: Expr)
    ensures ExprWeight(G.Invert(e)) == ExprWeight(e)
  {
  }

  /** Flattening keeps M exactly and never deepens. */
  lemma {:induction false} FlattenMetrics(body: seq<Stmt>)
    ensures BodyWeight(G.Flatten(body)) == BodyWeight(body)
    ensures BodyDepth(G.Flatten(body), 1) <= BodyDepth(body, 1)
  {
    if body != [] {
      var s, rest := body[0], body[1..];
      FlattenMetrics(rest);
      BodyWeightConcat(G.FlattenOne(s), G.Flatten(rest));
      BodyDepthConcat(G.FlattenOne(s), G.Flatten(rest), 1);
      if G.Flattens(s) {
        FlattenedMetrics(s);
      } else {
        WeightOfOne(s);
      }
      BodyDepthAtLeast(rest, 1);
    }
  }

  lemma FlattenedMetrics(s: Stmt)
    requires G.Flattens(s)
    ensures BodyWeight(G.FlattenOne(s)) == StmtWeight(s)
    ensures BodyDepth(G.FlattenOne(s), 1) <= WalkDepth(s, 1)
  {
    var guard := G.Guard(s.test);
    InvertKeepsWeight(s.test);
    WeightOfOne(guard);
    WeightOfOne(Return(Some(Constant(NoneLit))));
    BodyWeightConcat([guard], s.body);
    BodyDepthConcat([guard], s.body, 1);
    DepthMonotone(s.body, 1, 2);
    BodyDepthAtLeast(s.body, 2);
    assert G.FlattenOne(s) == [guard] + s.body;
    assert BodyDepth([], 2) == 2 && BodyWeight([]) == 0;
    assert WalkDepth(guard, 1) == 2;
  }

  lemma FlattenAccepted(body: seq<Stmt>)
    ensures Accepts(body, G.Flatten(body)) && Complexity(G.Flatten(body)) == Complexity(body)
  {
    FlattenMetrics(body);
  }

  // ----- Extracted predicates -----------------------------------------------------------

  lemma {:induction false} BodyUpdate(ss: seq<Stmt>, i: nat, s: Stmt, d: nat)
    requires i < |ss|
    ensures BodyWeight(ss[i := s]) + StmtWeight(ss[i]) == BodyWeight(ss) + StmtWeight(s)
    ensures WalkDepth(ss[i], d) == WalkDepth(s, d) ==> BodyDepth(ss[i := s], d) == BodyDepth(ss, d)
  {
    if i > 0 {
      BodyUpdate(ss[1..], i - 1, s, d);
      assert ss[i := s][1..] == ss[1..][i - 1 := s];
    }
  }

  lemma {:induction false} ReplaceTestMetrics(ss: seq<Stmt>, p: P.Path, e: Expr, d: nat)
    requires P.ValidPath(ss, p) && P.At(ss, p).If?
    ensures BodyWeight(P.ReplaceTest(ss, p, e)) + ExprWeight(P.At(ss, p).test) == BodyWeight(ss) + ExprWeight(e)
    ensures BodyDepth(P.ReplaceTest(ss, p, e), d) == BodyDepth(ss, d)
    decreases |p|, 0
  {
    BodyUpdate(ss, p[0], P.ReplaceIn(ss[p[0]], p, e), d);
    if |p| > 1 { ReplaceInMetrics(ss[p[0]], p, e, d); }
  }

  lemma {:induction false} ReplaceInMetrics(s: Stmt, p: P.Path, e: Expr, d: nat)
    requires |p| > 1 && P.ValidPath(P.Children(s), p[1..]) && P.At(P.Children(s), p[1..]).If?
    ensures StmtWeight(P.ReplaceIn(s, p, e)) + ExprWeight(P.At(P.Children(s), p[1..]).test)
         == StmtWeight(s) + ExprWeight(e)
    ensures WalkDepth(P.ReplaceIn(s, p, e), d) == WalkDepth(s, d)
    decreases |p|, 0, 1
  {
    var q := p[1..];
    match s
    case If(_, b, o) =>
      if q[0] < |b| {
        assert (b + o)[q[0]] == b[q[0]];
        ReplaceTestMetrics(b, q, e, d + 1);
      } else {
        var r := [q[0] - |b|] + q[1..];
        assert (b + o)[q[0]] == o[r[0]] && r[1..] == q[1..];
        ReplaceTestMetrics(o, r, e, d + 1);
      }
    case While(_, b) => ReplaceTestMetrics(b, q, e, d + 1);
  }

  lemma {:induction false} NamesWeighNothing(xs: seq<string>)
    ensures ExprsWeight(P.Names(xs)) == 0
  {
    if xs != [] {
      assert P.Names(xs)[1..] == P.Names(xs[1..]);
      NamesWeighNothing(xs[1..]);
    }
  }

  lemma CallWeighsNothing(fn: string, args: seq<string>)
    ensures ExprWeight(P.HelperCall(fn, args)) == 0
  {
    NamesWeighNothing(P.Passed(args));
  }

  lemma TestWeighs(s: Stmt)
    requires P.CompoundIf(s)
    ensures ExprWeight(s.test) > 0
  {
  }

  /** Extraction lowers M by exactly the weight of the extracted test, at least one, and keeps
      the depth. */
  lemma ExtractionAccepted(body: seq<Stmt>, p: P.Path, fn: string, args: seq<string>)
    requires P.FirstCompound(body, p)
    ensures var after := P.ReplaceTest(body, p, P.HelperCall(fn, args));
      && Accepts(body, after)
      && Complexity(after) == Complexity(body) - ExprWeight(P.At(body, p).test)
      && Complexity(after) < Complexity(body)
      && NestingDepth(after) == NestingDepth(body)
  {
    ReplaceTestMetrics(body, p, P.HelperCall(fn, args), 1);
    CallWeighsNothing(fn, args);
    TestWeighs(P.At(body, p));
  }

  // ----- Merged asserts -----------------------------------------------------------------

  /** What merging saves: a run of k >= 3 asserts saves k - 1, and every absorbed assert loses
      its message. */
  function Saving(pending: nat): nat { if pending < 3 then 0 else pending - 1 }

  function Saved(body: seq<Stmt>, pending: nat): nat {
    if body == [] then Saving(pending)
    else if A.SimpleEquality(body[0]) then OptWeight(body[0].msg) + Saved(body[1..], pending + 1)
    else Saving(pending) + Saved(body[1..], 0)
  }

  lemma {:induction false} EachMetrics(ls: seq<Expr>, rs: seq<Expr>)
    requires |ls| == |rs|
    ensures BodyWeight(A.Each(ls, rs)) == |ls| + ExprsWeight(ls) + ExprsWeight(rs)
    ensures BodyDepth(A.Each(ls, rs), 1) == 1
  {
    if ls != [] {
      assert A.Each(ls, rs)[1..] == A.Each(ls[1..], rs[1..]);
      EachMetrics(ls[1..], rs[1..]);
      EqAssertWeight(ls[0], rs[0]);
    }
  }

  lemma EqAssertWeight(l: Expr, r: Expr)
    ensures StmtWeight(A.EqAssert(l, r)) == 1 + ExprWeight(l) + ExprWeight(r)
  {
    assert [r][1..] == [];
    assert ExprsWeight([r]) == ExprWeight(r);
  }

  lemma FlushedMetrics(ls: seq<Expr>, rs: seq<Expr>)
    requires |ls| == |rs|
    ensures BodyWeight(A.Flushed(ls, rs)) + Saving(|ls|) == BodyWeight(A.Each(ls, rs))
    ensures BodyDepth(A.Flushed(ls, rs), 1) == 1
  {
    EachMetrics(ls, rs);
    if |ls| >= 3 {
      WeightOfOne(A.EqAssert(Tuple(ls), Tuple(rs)));
      EqAssertWeight(Tuple(ls), Tuple(rs));
    }
  }

  lemma {:induction false} MergeMetrics(body: seq<Stmt>, ls: seq<Expr>, rs: seq<Expr>)
    requires |ls| == |rs|
    ensures BodyWeight(A.Merge(body, ls, rs)) + Saved(body, |ls|) == BodyWeight(A.Each(ls, rs)) + BodyWeight(body)
    ensures BodyDepth(A.Merge(body, ls, rs), 1) == BodyDepth(body, 1)
    decreases |body|
  {
    FlushedMetrics(ls, rs);
    if body != [] {
      var s, rest := body[0], body[1..];
      if A.SimpleEquality(s) {
        var l, r := s.test.left, s.test.comparators[0];
        assert s.test == Compare(l, [Eq], [r]);
        MergeMetrics(rest, ls + [l], rs + [r]);
        EachMetrics(ls, rs);
        EachMetrics(ls + [l], rs + [r]);
        ExprsWeightConcat(ls, [l]);
        ExprsWeightConcat(rs, [r]);
        EqAssertWeight(l, r);
        assert [l][1..] == [] && [r][1..] == [];
        BodyDepthAtLeast(rest, 1);
      } else {
        MergeMetrics(rest, [], []);
        WeightOfOne(s);
        BodyWeightConcat(A.Flushed(ls, rs), [s]);
        BodyWeightConcat(A.Flushed(ls, rs) + [s], A.Merge(rest, [], []));
        BodyDepthConcat(A.Flushed(ls, rs), [s], 1);
        BodyDepthConcat(A.Flushed(ls, rs) + [s], A.Merge(rest, [], []), 1);
        BodyDepthAtLeast(rest, 1);
      }
    }
  }

  lemma MergeAccepted(body: seq<Stmt>)
    ensures var after := A.Merge(body, [], []);
      && Accepts(body, after)
      && Complexity(after) == Complexity(body) - Saved(body, 0)
      && NestingDepth(after) == NestingDepth(body)
  {
    MergeMetrics(body, [], []);
  }

  // ----- Dispatch tables ----------------------------------------------------------------

  function Ladders(body: seq<Stmt>): nat {
    if body == [] then 0 else (if T.Extract(body[0]).Some? then 1 else 0) + Ladders(body[1..])
  }

  function LadderWeight(body: seq<Stmt>): nat {
    if body == [] then 0
    else (if T.Extract(body[0]).Some? then StmtWeight(body[0]) else 0) + LadderWeight(body[1..])
  }

  lemma {:induction false} ChainWeight(curr: seq<Stmt>, target: string)
    requires T.Collect(curr, target).Some?
    ensures var c := T.Collect(curr, target).value; BodyWeight(curr) >= |c.0| + OptWeight(c.1)
    decreases curr
  {
    if curr != [] && curr[0].If? {
      ChainWeight(curr[0].orelse, target);
    }
  }

  /** A ladder weighs at least one per branch, on top of its fallback. */
  lemma LadderWeighs(s: Stmt)
    requires T.Extract(s).Some?
    ensures StmtWeight(s) >= |T.Extract(s).value.branches| + OptWeight(T.Extract(s).value.fallback)
    ensures WalkDepth(s, 1) >= 2
  {
    ChainWeight([s], T.TargetOf(s).value);
    WeightOfOne(s);
    BodyDepthAtLeast(s.body, 2);
  }

  lemma OneMore(n: nat, k: nat)
    ensures (1 + n) * k == k + n * k
  {
  }

  function Head(s: Stmt, l: T.Ladder, table: string): Stmt {
    if T.Extract(s).Some? then T.LookupStmt(l, table) else s
  }

  /** Conservation: each rewritten ladder gives up its own weight and receives one copy of the
      default of the first ladder. */
  lemma {:induction false} ReplaceMetrics(body: seq<Stmt>, l: T.Ladder, table: string)
    ensures BodyWeight(T.Replace(body, l, table)) + LadderWeight(body)
         == BodyWeight(body) + Ladders(body) * ExprWeight(T.DefaultOf(l))
  {
    if body != [] {
      var s, rest := body[0], body[1..];
      ReplaceMetrics(rest, l, table);
      assert T.Replace(body, l, table) == [Head(s, l, table)] + T.Replace(rest, l, table);
      BodyWeightConcat([Head(s, l, table)], T.Replace(rest, l, table));
      WeightOfOne(Head(s, l, table));
      OneMore(Ladders(rest), ExprWeight(T.DefaultOf(l)));
      assert ExprWeight(Name(l.target)) == 0;
      assert StmtWeight(T.LookupStmt(l, table)) == ExprWeight(T.DefaultOf(l));
    }
  }

  lemma {:induction false} ReplaceDepth(body: seq<Stmt>, l: T.Ladder, table: string)
    ensures BodyDepth(T.Replace(body, l, table), 1) <= BodyDepth(body, 1)
  {
    if body != [] {
      var s, rest := body[0], body[1..];
      ReplaceDepth(rest, l, table);
      assert T.Replace(body, l, table) == [Head(s, l, table)] + T.Replace(rest, l, table);
      BodyDepthConcat([Head(s, l, table)], T.Replace(rest, l, table), 1);
      WeightOfOne(Head(s, l, table));
      BodyDepthAtLeast(rest, 1);
      if T.Extract(s).Some? { LadderWeighs(s); }
    }
  }

  /** The safety check rejects a dispatch rewrite exactly when the copies of the first default
      outweigh the ladders they replace. */
  lemma DispatchAcceptedIff(body: seq<Stmt>, l: T.Ladder, table: string)
    ensures Accepts(body, T.Replace(body, l, table))
       <==> Ladders(body) * ExprWeight(T.DefaultOf(l)) <= LadderWeight(body)
  {
    ReplaceMetrics(body, l, table);
    ReplaceDepth(body, l, table);
  }

  lemma {:induction false} LadderCounts(body: seq<Stmt>, i: nat, l: T.Ladder)
    requires T.FirstLadderAt(body, i, l)
    ensures Ladders(body) >= 1
    ensures LadderWeight(body) >= |l.branches| + OptWeight(l.fallback)
    decreases i
  {
    if i == 0 {
      LadderWeighs(body[0]);
    } else {
      assert forall j :: 0 <= j < i - 1 ==> body[1..][j] == body[j + 1];
      LadderCounts(body[1..], i - 1, l);
    }
  }

  /** With a single ladder, M drops by at least its number of branches. */
  lemma SingleLadderAccepted(body: seq<Stmt>, i: nat, l: T.Ladder, table: string)
    requires T.FirstLadderAt(body, i, l) && Ladders(body) == 1
    ensures Accepts(body, T.Replace(body, l, table))
    ensures Complexity(T.Replace(body, l, table)) + |l.branches| <= Complexity(body)
  {
    ReplaceMetrics(body, l, table);
    ReplaceDepth(body, l, table);
    LadderCounts(body, i, l);
    assert ExprWeight(T.DefaultOf(l)) == OptWeight(l.fallback);
  }

  function Countdown(x: string, orelse: seq<Stmt>): Stmt {
    T.ThreeRungs(x, T.Plain(1, 1), T.Plain(2, 2), T.Plain(3, 3), [], orelse)
  }

  lemma CountdownWeighs(x: string, orelse: seq<Stmt>)
    ensures StmtWeight(Countdown(x, orelse)) == 3 + BodyWeight(orelse)
  {
    var third := T.Rung(x, T.Plain(3, 3), orelse);
    var second := T.Rung(x, T.Plain(2, 2), [third]);
    assert [third] + [] == [third] && Countdown(x, orelse) == T.Rung(x, T.Plain(1, 1), [second]);
    RungWeighs(x, T.Plain(3, 3), orelse);
    RungWeighs(x, T.Plain(2, 2), [third]);
    RungWeighs(x, T.Plain(1, 1), [second]);
    WeightOfOne(third);
    WeightOfOne(second);
  }

  lemma RungWeighs(x: string, br: T.Branch, orelse: seq<Stmt>)
    requires ExprWeight(br.key) == 0 && ExprWeight(br.value) == 0
    ensures StmtWeight(T.Rung(x, br, orelse)) == 1 + BodyWeight(orelse)
  {
    assert [br.key][1..] == [];
    assert ExprsWeight([br.key]) == 0;
    WeightOfOne(Return(Some(br.value)));
    assert StmtWeight(Return(Some(br.value))) == 0;
    assert ExprWeight(Compare(Name(x), [Eq], [br.key])) == 0;
  }

  /** Two ladders of three branches, the first closed by a return of weight above six: the
      default is copied into the second lookup and the check rejects the rewrite. */
  lemma TwoLaddersCanRegress(x: string, heavy: Expr, table: string)
    requires ExprWeight(heavy) > 6
    ensures var first := Countdown(x, [Return(Some(heavy))]);
      var body := [first, Countdown(x, [])];
      T.Extract(first).Some? && !Accepts(body, T.Replace(body, T.Extract(first).value, table))
  {
    var closing := [Return(Some(heavy))];
    WeightOfOne(closing[0]);
    CountdownWeighs(x, closing);
    CountdownWeighs(x, []);
    T.ThreeRungsExtract(x, T.Plain(1, 1), T.Plain(2, 2), T.Plain(3, 3), [], closing);
    T.ThreeRungsExtract(x, T.Plain(1, 1), T.Plain(2, 2), T.Plain(3, 3), [], []);
    var first, second := Countdown(x, closing), Countdown(x, []);
    var body := [first, second];
    assert body[1..] == [second] && [second][1..] == [];
    assert Ladders([second]) == 1 && LadderWeight([second]) == 3;
    DispatchAcceptedIff(body, T.Extract(first).value, table);
  }
}
