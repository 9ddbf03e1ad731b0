/** Replacing an if/elif equality ladder by a dictionary lookup. */
module TableDispatch {
  import opened Wrappers
  import opened PySyntax
  import opened PySemantics
  import opened PyNames

  datatype Branch = Branch(key: Expr, value: Expr)
  datatype Ladder = Ladder(target: string, branches: seq<Branch>, fallback: Option<Expr>)

  const MIN_BRANCHES: nat := 3

  // ----- Recognizing a ladder -----------------------------------------------------------

  function MatchBranch(test: Expr, body: seq<Stmt>, target: string): Option<Branch> {
    if && test.Compare? && test.ops == [Eq] && test.left == Name(target) && |test.comparators| == 1
       && |body| == 1 && body[0].Return? && body[0].result.Some?
    then Some(Branch(test.comparators[0], body[0].result.value))
    else None
  }

  /** What the walk down the `orelse` chain collects: every rung and the closing return. */
  function Collect(curr: seq<Stmt>, target: string): Option<(seq<Branch>, Option<Expr>)> {
    if curr == [] then Some(([], None))
    else match curr[0]
      case If(t, b, o) =>
        (match MatchBranch(t, b, target)
         case None => None
         case Some(br) => Prepend([br], Collect(o, target)))
      case Return(r) => Some(([], r))
      case _ => None
  }

  function TargetOf(first: Stmt): Option<string> {
    if first.If? && first.test.Compare? && first.test.left.Name? then Some(first.test.left.id) else None
  }

  function Extract(s: Stmt): Option<Ladder> {
    match TargetOf(s)
    case None => None
    case Some(target) => match Collect([s], target)
      case None => None
      case Some(c) => if |c.0| < MIN_BRANCHES then None else Some(Ladder(target, c.0, c.1))
  }

  function Prepend(pre: seq<Branch>, c: Option<(seq<Branch>, Option<Expr>)>): Option<(seq<Branch>, Option<Expr>)> {
    if c.None? then None else Some((pre + c.value.0, c.value.1))
  }

  lemma PrependNothing(c: Option<(seq<Branch>, Option<Expr>)>)
    ensures Prepend([], c) == c
  {
    assert c.Some? ==> [] + c.value.0 == c.value.0;
  }

  lemma PrependOne(pre: seq<Branch>, br: Branch, c: Option<(seq<Branch>, Option<Expr>)>)
    ensures Prepend(pre, Prepend([br], c)) == Prepend(pre + [br], c)
  {
    assert c.Some? ==> pre + ([br] + c.value.0) == (pre + [br]) + c.value.0;
  }

  // ----- What a ladder looks like -------------------------------------------------------

  /** One rung as written: key and value, and the statements behind it in the same suite. */
  datatype RungText = RungText(branch: Branch, behind: seq<Stmt>)

  /** The suite that tests `x` against the rungs one after the other, each in the else of the one
      before, and ends as given. */
  function Suite(x: string, rungs: seq<RungText>, end: seq<Stmt>): seq<Stmt> {
    if rungs == [] then end
    else
      var br := rungs[0].branch;
      [If(Compare(Name(x), [Eq], [br.key]), [Return(Some(br.value))], Suite(x, rungs[1..], end))] + rungs[0].behind
  }

  /** The if/elif statement itself. */
  function Nested(x: string, rungs: seq<RungText>, end: seq<Stmt>): Stmt
    requires rungs != []
  {
    Suite(x, rungs, end)[0]
  }

  /** A chain ends with nothing, or with a return and whatever stands behind that. */
  predicate ProperEnd(end: seq<Stmt>) { end == [] || end[0].Return? }

  function Default(end: seq<Stmt>): Option<Expr>
    requires ProperEnd(end)
  {
    if end == [] then None else end[0].result
  }

  function BranchesOf(rungs: seq<RungText>): seq<Branch> {
    seq(|rungs|, i requires 0 <= i < |rungs| => rungs[i].branch)
  }

  lemma {:induction false} SuiteCollected(x: string, rungs: seq<RungText>, end: seq<Stmt>)
    requires ProperEnd(end)
    ensures Collect(Suite(x, rungs, end), x) == Some((BranchesOf(rungs), Default(end)))
  {
    if rungs != [] {
      SuiteCollected(x, rungs[1..], end);
      RungCollected(Suite(x, rungs, end), x, rungs[0], Suite(x, rungs[1..], end));
      assert BranchesOf(rungs) == [rungs[0].branch] + BranchesOf(rungs[1..]);
    } else {
      assert BranchesOf(rungs) == [];
    }
  }

  lemma RungCollected(curr: seq<Stmt>, x: string, rung: RungText, rest: seq<Stmt>)
    requires curr != []
    requires curr[0] == If(Compare(Name(x), [Eq], [rung.branch.key]), [Return(Some(rung.branch.value))], rest)
    ensures Collect(curr, x) == Prepend([rung.branch], Collect(rest, x))
  {
    assert MatchBranch(curr[0].test, curr[0].body, x) == Some(rung.branch);
  }

  /** A suite is collected only if it is written like that. */
  lemma {:induction false} CollectedSuite(curr: seq<Stmt>, x: string) returns (rungs: seq<RungText>, end: seq<Stmt>)
    requires Collect(curr, x).Some?
    ensures ProperEnd(end) && curr == Suite(x, rungs, end)
    ensures Collect(curr, x) == Some((BranchesOf(rungs), Default(end)))
    decreases curr
  {
    if curr == [] || curr[0].Return? {
      rungs, end := [], curr;
      assert BranchesOf(rungs) == [];
    } else {
      var br := MatchBranch(curr[0].test, curr[0].body, x).value;
      var more;
      more, end := CollectedSuite(curr[0].orelse, x);
      rungs := [RungText(br, curr[1..])] + more;
      assert rungs[1..] == more;
      assert curr[0] == If(Compare(Name(x), [Eq], [br.key]), [Return(Some(br.value))], curr[0].orelse);
      RungCollected(curr, x, rungs[0], curr[0].orelse);
      assert curr == [curr[0]] + curr[1..];
      assert BranchesOf(rungs) == [br] + BranchesOf(more);
    }
  }

  /** Such a statement is a ladder exactly from three rungs on, with exactly these rungs and this
      default. */
  lemma NestedIsLadder(x: string, rungs: seq<RungText>, end: seq<Stmt>)
    requires rungs != [] && ProperEnd(end)
    ensures Extract(Nested(x, rungs, end))
         == if |rungs| < 3 then None else Some(Ladder(x, BranchesOf(rungs), Default(end)))
  {
    var s := Nested(x, rungs, end);
    var plain := [RungText(rungs[0].branch, [])] + rungs[1..];
    assert plain[1..] == rungs[1..] && Suite(x, plain, end) == [s];
    SuiteCollected(x, plain, end);
    assert BranchesOf(plain) == BranchesOf(rungs);
  }

  /** And nothing else is one. */
  lemma LadderIsNested(s: Stmt) returns (rungs: seq<RungText>, end: seq<Stmt>)
    requires Extract(s).Some?
    ensures |rungs| >= 3 && ProperEnd(end) && s == Nested(Extract(s).value.target, rungs, end)
    ensures Extract(s).value.branches == BranchesOf(rungs) && Extract(s).value.fallback == Default(end)
  {
    var x := TargetOf(s).value;
    rungs, end := CollectedSuite([s], x);
  }

  method CollectBranches(first: Stmt, target: string) returns (collected: Option<(seq<Branch>, Option<Expr>)>)
    ensures collected == Collect([first], target)
  {
    var branches: seq<Branch> := [];
    var curr := [first];
    var fallback: Option<Expr> := None;
    PrependNothing(Collect(curr, target));
    while curr != []
      invariant Collect([first], target) == Prepend(branches, Collect(curr, target))
      invariant fallback == None
    {
      match curr[0] {
        case If(t, b, o) =>
          var m := MatchBranch(t, b, target);
          if m.None? { return None; }
          PrependOne(branches, m.value, Collect(o, target));
          branches := branches + [m.value];
          curr := o;
        case Return(r) =>
          fallback := r;
          break;
        case _ => return None;
      }
    }
    assert branches + [] == branches;
    return Some((branches, fallback));
  }

  method ExtractLadder(s: Stmt) returns (ladder: Option<Ladder>)
    ensures ladder == Extract(s)
  {
    var target := TargetOf(s);
    if target.None? { return None; }
    var c := CollectBranches(s, target.value);
    if c.None? || |c.value.0| < MIN_BRANCHES { return None; }
    return Some(Ladder(target.value, c.value.0, c.value.1));
  }

  /** The ladder the detector hands over is the first one among the top-level statements. */
  ghost predicate FirstLadderAt(body: seq<Stmt>, i: nat, ladder: Ladder) {
    i < |body| && Extract(body[i]) == Some(ladder) && forall j :: 0 <= j < i ==> Extract(body[j]).None?
  }

  method FindLadder(fn: FunctionNode) returns (ladder: Option<Ladder>)
    ensures match ladder
            case None => forall j :: 0 <= j < |fn.body| ==> Extract(fn.body[j]).None?
            case Some(l) => exists i: nat :: FirstLadderAt(fn.body, i, l)
  {
    var i := 0;
    while i < |fn.body|
      invariant 0 <= i <= |fn.body|
      invariant forall j :: 0 <= j < i ==> Extract(fn.body[j]).None?
    {
      ladder := ExtractLadder(fn.body[i]);
      if ladder.Some? {
        assert FirstLadderAt(fn.body, i, ladder.value);
        return;
      }
      i := i + 1;
    }
    return None;
  }

  // ----- The rewrite --------------------------------------------------------------------

  function Upper(s: string): string {
    if s == "" then ""
    else [if 'a' <= s[0] <= 'z' then (s[0] as int - 32) as char else s[0]] + Upper(s[1..])
  }

  function TableName(fn: string): string { "_" + Upper(fn) + "_DISPATCH" }

  function DefaultOf(l: Ladder): Expr {
    if l.fallback.Some? then l.fallback.value else Constant(NoneLit)
  }

  function LookupStmt(l: Ladder, table: string): Stmt {
    Return(Some(TableGet(table, Name(l.target), DefaultOf(l))))
  }

  /** Every ladder of the body becomes a lookup of the same target in the same table. */
  function Replace(body: seq<Stmt>, l: Ladder, table: string): seq<Stmt> {
    if body == [] then []
    else [if Extract(body[0]).Some? then LookupStmt(l, table) else body[0]] + Replace(body[1..], l, table)
  }

  function Entries(branches: seq<Branch>): seq<(Expr, Expr)> {
    seq(|branches|, i requires 0 <= i < |branches| => (branches[i].key, branches[i].value))
  }

  method ReplaceLadderStmts(body: seq<Stmt>, l: Ladder, table: string) returns (res: seq<Stmt>)
    ensures res == Replace(body, l, table)
  {
    res := [];
    var i := 0;
    while i < |body|
      invariant 0 <= i <= |body|
      invariant res + Replace(body[i..], l, table) == Replace(body, l, table)
    {
      var ladder := ExtractLadder(body[i]);
      assert body[i..][1..] == body[i + 1..];
      res := res + [if ladder.Some? then LookupStmt(l, table) else body[i]];
      i := i + 1;
    }
    assert Replace(body[i..], l, table) == [];
  }

  method Apply(tree: ModuleNode, fn: FunctionNode, l: Ladder)
    modifies tree, fn
    ensures fn.body == Replace(old(fn.body), l, TableName(fn.name))
    ensures InsertedBefore(old(tree.body), tree.body, fn, TableDef(TableName(fn.name), Entries(l.branches)))
  {
    var body := ReplaceLadderStmts(fn.body, l, TableName(fn.name));
    fn.body := body;
    tree.InsertBefore(fn, TableDef(TableName(fn.name), Entries(l.branches)));
  }

  // ----- The dictionary -----------------------------------------------------------------

  type Pairs = seq<(Value, Value)>

  /** Evaluating the dictionary display stores the pairs from left to right. */
  function Build(pairs: Pairs): Pairs {
    if pairs == [] then []
    else DictSet(Build(pairs[..|pairs| - 1]), pairs[|pairs| - 1].0, pairs[|pairs| - 1].1)
  }

  /** The ladder's test against a key. */
  predicate Hits(key: Value, v: Value) { PyEq(v, key) }

  function FirstMatch(pairs: Pairs, v: Value): Option<Value> {
    if pairs == [] then None
    else if Hits(pairs[0].0, v) then Some(pairs[0].1)
    else FirstMatch(pairs[1..], v)
  }

  /** The dictionary's test is looser: identity is enough. */
  function LastMatch(pairs: Pairs, v: Value): Option<Value> {
    if pairs == [] then None
    else if SameOrEq(pairs[|pairs| - 1].0, v) then Some(pairs[|pairs| - 1].1)
    else LastMatch(pairs[..|pairs| - 1], v)
  }

  lemma {:induction false} DictSetGet(d: Pairs, k: Value, x: Value, v: Value)
    ensures DictGet(DictSet(d, k, x), v) == if SameOrEq(k, v) then Some(x) else DictGet(d, v)
  {
    if d != [] {
      if SameOrEq(d[0].0, k) {
        SameKey(d[0].0, k, v);
      } else {
        DictSetGet(d[1..], k, x, v);
        if SameOrEq(d[0].0, v) && SameOrEq(k, v) {
          EqSymmetric(k, v);
          SameKey(v, k, d[0].0);
          EqSymmetric(v, d[0].0);
          EqSymmetric(k, d[0].0);
        }
      }
    }
  }

  /** A dictionary display keeps the last of several equal keys. */
  lemma {:induction false} BuiltIsLastMatch(pairs: Pairs, v: Value)
    ensures DictGet(Build(pairs), v) == LastMatch(pairs, v)
  {
    if pairs != [] {
      var n := |pairs| - 1;
      BuiltIsLastMatch(pairs[..n], v);
      DictSetGet(Build(pairs[..n]), pairs[n].0, pairs[n].1, v);
    }
  }

  predicate DistinctKeys(pairs: Pairs) {
    forall i, j :: 0 <= i < j < |pairs| ==> !SameOrEq(pairs[i].0, pairs[j].0)
  }

  lemma {:induction false} FirstMatchAt(pairs: Pairs, v: Value)
    ensures match FirstMatch(pairs, v)
            case Some(x) => exists i :: 0 <= i < |pairs| && Hits(pairs[i].0, v) && pairs[i].1 == x
            case None => forall i :: 0 <= i < |pairs| ==> !Hits(pairs[i].0, v)
    decreases |pairs|
  {
    if pairs != [] {
      FirstMatchAt(pairs[1..], v);
      assert forall i :: 1 <= i < |pairs| ==> pairs[i] == pairs[1..][i - 1];
    }
  }

  lemma {:induction false} LastMatchAt(pairs: Pairs, v: Value)
    ensures match LastMatch(pairs, v)
            case Some(x) => exists i :: 0 <= i < |pairs| && SameOrEq(pairs[i].0, v) && pairs[i].1 == x
            case None => forall i :: 0 <= i < |pairs| ==> !SameOrEq(pairs[i].0, v)
    decreases |pairs|
  {
    if pairs != [] {
      var n := |pairs| - 1;
      LastMatchAt(pairs[..n], v);
      assert forall i :: 0 <= i < n ==> pairs[i] == pairs[..n][i];
    }
  }

  /** With pairwise different keys the ladder's first match, where it has one, is what the
      dictionary finds. */
  lemma DistinctKeysAgree(pairs: Pairs, v: Value)
    requires DistinctKeys(pairs) && FirstMatch(pairs, v).Some?
    ensures FirstMatch(pairs, v) == LastMatch(pairs, v)
  {
    FirstMatchAt(pairs, v);
    LastMatchAt(pairs, v);
    var i :| 0 <= i < |pairs| && Hits(pairs[i].0, v) && pairs[i].1 == FirstMatch(pairs, v).value;
    EqSymmetric(v, pairs[i].0);
    assert LastMatch(pairs, v).Some?;
    var j :| 0 <= j < |pairs| && SameOrEq(pairs[j].0, v) && pairs[j].1 == LastMatch(pairs, v).value;
    EqSymmetric(pairs[j].0, v);
    SameKey(v, pairs[j].0, pairs[i].0);
    EqSymmetric(pairs[i].0, pairs[j].0);
  }

  /** The names a module-level expression sees. */
  const TOPLEVEL: Frame := Frame({}, map[])

  /** Evaluating the table's definition when the module is loaded; None if that raises. */
  function Define(w: World, branches: seq<Branch>): Option<Pairs> {
    if branches == [] then Some([])
    else
      var k, x := Eval(w, TOPLEVEL, branches[0].key), Eval(w, TOPLEVEL, branches[0].value);
      var more := Define(w, branches[1..]);
      if k.Ok? && Hashable(k.value) && x.Ok? && more.Some? then Some([(k.value, x.value)] + more.value) else None
  }

  // ----- Meaning of the ladder ----------------------------------------------------------

  /** The chain closes with a return, so control never leaves it at the bottom. */
  predicate HasElse(curr: seq<Stmt>) {
    curr != [] && (curr[0].Return? || (curr[0].If? && HasElse(curr[0].orelse)))
  }

  /** What runs when no rung of an open chain hits: the statements behind the innermost rung, then
      those behind the next, and so on outwards.  The walk never looks at them. */
  function Leftover(curr: seq<Stmt>): seq<Stmt> {
    if curr == [] || !curr[0].If? then [] else Leftover(curr[0].orelse) + curr[1..]
  }

  /** Trying the rungs one by one: keys and values are evaluated only as far as needed. */
  datatype Answer = Miss | Hit(result: Result)

  function Try(w: World, f: Frame, v: Value, branches: seq<Branch>): Answer {
    if branches == [] then Miss
    else match Eval(w, f, branches[0].key)
      case Raise(x) => Hit(Raise(x))
      case Ok(k) => if Hits(k, v) then Hit(Eval(w, f, branches[0].value)) else Try(w, f, v, branches[1..])
  }

  function Answered(r: Result, f: Frame): Outcome {
    match r
    case Ok(v) => Returned(v, f)
    case Raise(x) => Raised(x, f)
  }

  function ResultOf(w: World, f: Frame, e: Option<Expr>): Result {
    if e.None? then Ok(NoneV) else Eval(w, f, e.value)
  }

  function ChainOutcome(w: World, fuel: nat, f: Frame, v: Value, curr: seq<Stmt>, target: string): Outcome
    requires Collect(curr, target).Some?
  {
    match Try(w, f, v, Collect(curr, target).value.0)
    case Hit(r) => Answered(r, f)
    case Miss =>
      if HasElse(curr) then Answered(ResultOf(w, f, Collect(curr, target).value.1), f)
      else Run(w, fuel, Leftover(curr), f)
  }

  /** What a chain does to a bound target, whatever its rungs compute and whatever stands behind
      them. */
  lemma {:induction false} ChainMeaning(w: World, fuel: nat, curr: seq<Stmt>, f: Frame, target: string, v: Value)
    requires Collect(curr, target).Some? && Lookup(w, f, target) == Ok(v)
    ensures Run(w, fuel, curr, f) == ChainOutcome(w, fuel, f, v, curr, target)
    decreases curr
  {
    if curr != [] && curr[0].If? {
      var c := Collect(curr, target).value;
      var o := curr[0].orelse;
      assert c.0[1..] == Collect(o, target).value.0;
      ChainMeaning(w, fuel, o, f, target, v);
      RungMeaning(w, fuel, curr[0], f, target, c.0[0], v);
      RunConcat(w, fuel, Leftover(o), curr[1..], f);
    }
  }

  lemma RungMeaning(w: World, fuel: nat, s: Stmt, f: Frame, target: string, br: Branch, v: Value)
    requires s.If? && MatchBranch(s.test, s.body, target) == Some(br) && Lookup(w, f, target) == Ok(v)
    ensures Exec(w, fuel, s, f)
         == match Eval(w, f, br.key)
            case Raise(x) => Raised(x, f)
            case Ok(k) => if Hits(k, v) then Answered(Eval(w, f, br.value), f) else Run(w, fuel, s.orelse, f)
  {
    CompareOne(w, f, Name(target), Eq, br.key);
    assert s.test == Compare(Name(target), [Eq], [br.key]);
    assert Eval(w, f, Name(target)) == Ok(v);
    assert s.body == [Return(Some(br.value))];
    assert Exec(w, fuel, s.body[0], f) == Answered(Eval(w, f, br.value), f);
  }

  lemma UnboundTarget(w: World, fuel: nat, s: Stmt, f: Frame, l: Ladder)
    requires Extract(s) == Some(l) && Lookup(w, f, l.target).Raise?
    ensures Exec(w, fuel, s, f) == Raised(Lookup(w, f, l.target).exn, f)
  {
    assert Eval(w, f, Name(l.target)).Raise?;
    assert Eval(w, f, s.test) == Eval(w, f, s.test.left);
  }

  // ----- Meaning of the lookup ------------------------------------------------------------

  function WithTable(w: World, table: string, pairs: Pairs): World {
    w.(tables := w.tables[table := Build(pairs)])
  }

  /** The default is evaluated before anything is looked up. */
  function LookupResult(w: World, f: Frame, v: Value, pairs: Pairs, default: Expr): Result {
    match Eval(w, f, default)
    case Raise(x) => Raise(x)
    case Ok(d) =>
      if !Hashable(v) then Raise(TypeError)
      else match LastMatch(pairs, v)
        case Some(x) => Ok(x)
        case None => Ok(d)
  }

  /** What the synthesized lookup does to a bound target. */
  lemma LookupMeaning(w: World, fuel: nat, f: Frame, l: Ladder, table: string, pairs: Pairs, v: Value)
    requires table !in MentionsOpt(l.fallback) && Lookup(w, f, l.target) == Ok(v)
    ensures Exec(WithTable(w, table, pairs), fuel, LookupStmt(l, table), f)
         == Answered(LookupResult(w, f, v, pairs, DefaultOf(l)), f)
  {
    var u := WithTable(w, table, pairs);
    var default := DefaultOf(l);
    assert Agree(w, u, Mentions(default));
    EvalAgrees(w, u, f, default);
    assert Eval(u, f, Name(l.target)) == Ok(v);
    assert u.tables[table] == Build(pairs);
    BuiltIsLastMatch(pairs, v);
    assert Eval(u, f, TableGet(table, Name(l.target), default)) == LookupResult(w, f, v, pairs, default);
  }

  // ----- The theorem --------------------------------------------------------------------

  /** In the state in which the ladder is reached, with `rest` the body from the ladder on. */
  predicate SameAnswer(w: World, fuel: nat, f: Frame, l: Ladder, pairs: Pairs, rest: seq<Stmt>)
    requires Collect(rest, l.target).Some?
  {
    match Lookup(w, f, l.target)
    case Raise(_) => true
    case Ok(v) =>
      Finish(ChainOutcome(w, fuel, f, v, rest, l.target)) == Answered(LookupResult(w, f, v, pairs, DefaultOf(l)), f)
  }

  /** The walk looks at the first statement only. */
  lemma CollectFirst(body: seq<Stmt>, i: nat, l: Ladder)
    requires i < |body| && Extract(body[i]) == Some(l)
    ensures Collect(body[i..], l.target) == Some((l.branches, l.fallback))
    ensures HasElse(body[i..]) <==> HasElse([body[i]])
  {
    assert body[i..][0] == body[i] == [body[i]][0];
  }

  lemma {:induction false} ReplaceAt(body: seq<Stmt>, i: nat, l: Ladder, table: string)
    requires FirstLadderAt(body, i, l)
    ensures Replace(body, l, table) == body[..i] + [LookupStmt(l, table)] + Replace(body[i + 1..], l, table)
    decreases i
  {
    if i == 0 {
      assert body[..0] == [];
    } else {
      assert forall j :: 0 <= j < i - 1 ==> body[1..][j] == body[j + 1];
      ReplaceAt(body[1..], i - 1, l, table);
      assert body[1..][i - 1 + 1..] == body[i + 1..];
      assert body[..i] == [body[0]] + body[1..][..i - 1];
    }
  }

  /** The rewritten function returns the same value, leaves the same bindings and raises the
      same exception exactly when the ladder is not reached, its target is unbound there, or the
      lookup gives there what the ladder and everything behind it give.  Any ladder, any table. */
  lemma DispatchExact(w: World, fuel: nat, body: seq<Stmt>, f: Frame, i: nat, l: Ladder, table: string, pairs: Pairs)
    requires FirstLadderAt(body, i, l) && table !in BodyMentions(body)
    ensures Collect(body[i..], l.target).Some?
    ensures var reached := Run(w, fuel, body[..i], f);
      CallBody(WithTable(w, table, pairs), fuel, Replace(body, l, table), f) == CallBody(w, fuel, body, f)
      <==> (reached.Normal? ==> SameAnswer(w, fuel, reached.frame, l, pairs, body[i..]))
  {
    var u := WithTable(w, table, pairs);
    var pre, rest := body[..i], body[i..];
    var tail := Replace(body[i + 1..], l, table);
    CollectFirst(body, i, l);
    ReplaceAt(body, i, l, table);
    assert body == pre + rest;
    assert Replace(body, l, table) == pre + ([LookupStmt(l, table)] + tail);
    BodyMentionsConcat(pre, rest);
    assert Agree(w, u, BodyMentions(pre));
    RunAgrees(w, u, fuel, pre, f);
    RunConcat(w, fuel, pre, rest, f);
    RunConcat(u, fuel, pre, [LookupStmt(l, table)] + tail, f);
    var reached := Run(w, fuel, pre, f);
    if reached.Normal? {
      FallbackMentioned(rest, l.target);
      LookupLeaves(u, fuel, l, table, tail, reached.frame);
      ReachedLadder(w, fuel, reached.frame, l, table, pairs, rest);
    }
  }

  /** The two functions from the ladder on. */
  lemma ReachedLadder(w: World, fuel: nat, g: Frame, l: Ladder, table: string, pairs: Pairs, rest: seq<Stmt>)
    requires rest != [] && Extract(rest[0]) == Some(l) && table !in MentionsOpt(l.fallback)
    requires Collect(rest, l.target) == Some((l.branches, l.fallback))
    ensures Finish(Exec(WithTable(w, table, pairs), fuel, LookupStmt(l, table), g)) == Finish(Run(w, fuel, rest, g))
       <==> SameAnswer(w, fuel, g, l, pairs, rest)
  {
    var bound := Lookup(w, g, l.target);
    if bound.Ok? {
      LookupMeaning(w, fuel, g, l, table, pairs, bound.value);
      ChainMeaning(w, fuel, rest, g, l.target, bound.value);
    } else {
      UnboundTarget(w, fuel, rest[0], g, l);
      var u := WithTable(w, table, pairs);
      assert Eval(u, g, Name(l.target)) == bound;
      assert Eval(u, g, TableGet(table, Name(l.target), DefaultOf(l))) == bound;
    }
  }

  lemma {:induction false} FallbackMentioned(curr: seq<Stmt>, target: string)
    requires Collect(curr, target).Some?
    ensures MentionsOpt(Collect(curr, target).value.1) <= BodyMentions(curr)
    decreases curr
  {
    if curr != [] && curr[0].If? { FallbackMentioned(curr[0].orelse, target); }
  }

  /** A return is the last thing a body does. */
  lemma LookupLeaves(u: World, fuel: nat, l: Ladder, table: string, tail: seq<Stmt>, g: Frame)
    ensures Run(u, fuel, [LookupStmt(l, table)] + tail, g) == Exec(u, fuel, LookupStmt(l, table), g)
  {
    var s := LookupStmt(l, table);
    assert ([s] + tail)[0] == s;
    assert !Exec(u, fuel, s, g).Normal?;
  }

  // ----- Rungs whose values do not depend on when they are computed ---------------------------

  /** At run time every rung evaluates to what the table's definition stored, and no key is a
      not-a-number object. */
  predicate Settled(w: World, f: Frame, branches: seq<Branch>, pairs: Pairs) {
    |pairs| == |branches| && forall i :: 0 <= i < |pairs| ==>
      && Eval(w, f, branches[i].key) == Ok(pairs[i].0) && Eval(w, f, branches[i].value) == Ok(pairs[i].1)
      && Hashable(pairs[i].0) && !pairs[i].0.NanV?
  }

  lemma {:induction false} TrySettled(w: World, f: Frame, v: Value, branches: seq<Branch>, pairs: Pairs)
    requires Settled(w, f, branches, pairs)
    ensures Try(w, f, v, branches)
         == match FirstMatch(pairs, v)
            case Some(x) => Hit(Ok(x))
            case None => Miss
  {
    if branches != [] {
      assert forall i :: 0 <= i < |pairs| - 1 ==> pairs[1..][i] == pairs[i + 1] && branches[1..][i] == branches[i + 1];
      TrySettled(w, f, v, branches[1..], pairs[1..]);
    }
  }

  /** Ladder and dictionary hit the same arguments, all of them hashable. */
  lemma SettledHits(w: World, f: Frame, v: Value, branches: seq<Branch>, pairs: Pairs)
    requires Settled(w, f, branches, pairs)
    ensures FirstMatch(pairs, v).Some? <==> LastMatch(pairs, v).Some?
    ensures FirstMatch(pairs, v).Some? ==> Hashable(v)
  {
    FirstMatchAt(pairs, v);
    LastMatchAt(pairs, v);
    forall i | 0 <= i < |pairs|
      ensures Hits(pairs[i].0, v) <==> SameOrEq(pairs[i].0, v)
      ensures Hits(pairs[i].0, v) ==> Hashable(v)
    {
      EqSymmetric(v, pairs[i].0);
      SelfEquality(v);
      if Hits(pairs[i].0, v) { EqualHashable(v, pairs[i].0); }
    }
  }

  /** When the lookup answers as the ladder does, read off the state in which the ladder is
      reached.  On a hit the eagerly evaluated default must not raise and no later equal key may
      carry another value.  On a miss of a closed ladder the target must be hashable, or else the
      default raises anyway.  On a miss of an open ladder the statements that the rewrite drops,
      inside the ladder and behind it, must do what the lookup does: return None and bind nothing,
      or fail on an unhashable target. */
  predicate Faithful(w: World, fuel: nat, f: Frame, l: Ladder, pairs: Pairs, rest: seq<Stmt>) {
    Lookup(w, f, l.target).Ok? ==>
      var v := Lookup(w, f, l.target).value;
      var default := Eval(w, f, DefaultOf(l));
      if FirstMatch(pairs, v).Some? then default.Ok? && FirstMatch(pairs, v) == LastMatch(pairs, v)
      else if HasElse(rest) then default.Raise? || Hashable(v)
      else CallBody(w, fuel, Leftover(rest), f) == if Hashable(v) then Returned(NoneV, f) else Raised(TypeError, f)
  }

  lemma {:induction false} OpenChain(curr: seq<Stmt>, target: string)
    requires Collect(curr, target).Some? && !HasElse(curr)
    ensures Collect(curr, target).value.1 == None
    decreases curr
  {
    if curr != [] { OpenChain(curr[0].orelse, target); }
  }

  lemma SettledAnswer(w: World, fuel: nat, f: Frame, l: Ladder, pairs: Pairs, rest: seq<Stmt>)
    requires Collect(rest, l.target) == Some((l.branches, l.fallback)) && Settled(w, f, l.branches, pairs)
    ensures SameAnswer(w, fuel, f, l, pairs, rest) <==> Faithful(w, fuel, f, l, pairs, rest)
  {
    var bound := Lookup(w, f, l.target);
    assert Eval(w, f, Constant(NoneLit)) == Ok(NoneV);
    if bound.Ok? {
      TrySettled(w, f, bound.value, l.branches, pairs);
      SettledHits(w, f, bound.value, l.branches, pairs);
      if !HasElse(rest) { OpenChain(rest, l.target); }
    }
  }

  /** The rewrite preserves the function's result, bindings and exceptions exactly when its first
      ladder is not reached or is reached in a faithful state.  Later ladders do not matter: the
      first one's lookup returns. */
  lemma DispatchPreservesMeaning(w: World, fuel: nat, body: seq<Stmt>, f: Frame, i: nat, l: Ladder, table: string,
                                 pairs: Pairs)
    requires FirstLadderAt(body, i, l) && table !in BodyMentions(body)
    requires var reached := Run(w, fuel, body[..i], f);
      reached.Normal? ==> Settled(w, reached.frame, l.branches, pairs)
    ensures var reached := Run(w, fuel, body[..i], f);
      CallBody(WithTable(w, table, pairs), fuel, Replace(body, l, table), f) == CallBody(w, fuel, body, f)
      <==> (reached.Normal? ==> Faithful(w, fuel, reached.frame, l, pairs, body[i..]))
  {
    DispatchExact(w, fuel, body, f, i, l, table, pairs);
    CollectFirst(body, i, l);
    var reached := Run(w, fuel, body[..i], f);
    if reached.Normal? { SettledAnswer(w, fuel, reached.frame, l, pairs, body[i..]); }
  }

  predicate Literals(branches: seq<Branch>) {
    forall i :: 0 <= i < |branches| ==> branches[i].key.Constant? && branches[i].value.Constant?
  }

  function LiteralPairs(branches: seq<Branch>): Pairs
    requires Literals(branches)
  {
    seq(|branches|, i requires 0 <= i < |branches| =>
      (LiteralValue(branches[i].key.lit), LiteralValue(branches[i].value.lit)))
  }

  /** Literal rungs are settled everywhere, and their table can always be defined. */
  lemma {:induction false} LiteralsSettled(w: World, f: Frame, branches: seq<Branch>)
    requires Literals(branches)
    ensures Settled(w, f, branches, LiteralPairs(branches))
    ensures Define(w, branches) == Some(LiteralPairs(branches))
  {
    if branches != [] {
      LiteralsSettled(w, f, branches[1..]);
      assert LiteralPairs(branches)[1..] == LiteralPairs(branches[1..]);
      assert LiteralPairs(branches) == [LiteralPairs(branches)[0]] + LiteralPairs(branches[1..]);
    }
  }

  /** In a call the expression sees what it saw when the module was loaded. */
  ghost predicate SeenAlike(load: World, w: World, f: Frame, e: Expr) {
    LookAlike(load, TOPLEVEL, w, f, FreeVars(e)) && SameCallees(load, w, Mentions(e))
  }

  /** Rungs whose names mean in the call what they meant at load time are settled, whatever else
      has changed in between. */
  lemma {:induction false} GlobalRungsSettled(load: World, w: World, f: Frame, branches: seq<Branch>, pairs: Pairs)
    requires Define(load, branches) == Some(pairs)
    requires forall i :: 0 <= i < |branches| ==>
      SeenAlike(load, w, f, branches[i].key) && SeenAlike(load, w, f, branches[i].value)
    requires forall i :: 0 <= i < |pairs| ==> !pairs[i].0.NanV?
    ensures Settled(w, f, branches, pairs)
  {
    if branches != [] {
      EvalSame(load, TOPLEVEL, w, f, branches[0].key);
      EvalSame(load, TOPLEVEL, w, f, branches[0].value);
      assert forall i :: 0 <= i < |branches| - 1 ==> branches[1..][i] == branches[i + 1];
      assert Define(load, branches[1..]) == Some(pairs[1..]);
      GlobalRungsSettled(load, w, f, branches[1..], pairs[1..]);
      forall i | 1 <= i < |pairs|
        ensures pairs[i] == pairs[1..][i - 1] && branches[i] == branches[1..][i - 1]
      {
      }
    }
  }

  /** The key or the value raises at load time, or the key is not hashable. */
  predicate Unloadable(load: World, br: Branch) {
    var k, x := Eval(load, TOPLEVEL, br.key), Eval(load, TOPLEVEL, br.value);
    k.Raise? || x.Raise? || !Hashable(k.value)
  }

  /** The table's definition, and with it the module, fails exactly on an unloadable rung. */
  lemma {:induction false} DefineFailsIff(load: World, branches: seq<Branch>)
    ensures Define(load, branches) == None <==> exists i :: 0 <= i < |branches| && Unloadable(load, branches[i])
  {
    if branches != [] {
      DefineFailsIff(load, branches[1..]);
      assert forall i :: 1 <= i < |branches| ==> branches[i] == branches[1..][i - 1];
    }
  }

  /** A rung that names a local variable as its key or value, where the module has no such global. */
  lemma LocalRungBreaksLoading(load: World, branches: seq<Branch>, i: nat, x: string)
    requires i < |branches| && x !in load.globals
    requires branches[i].key == Name(x) || branches[i].value == Name(x)
    ensures Define(load, branches) == None
  {
    DefineFailsIff(load, branches);
    assert Eval(load, TOPLEVEL, Name(x)) == Raise(NameError);
    assert Unloadable(load, branches[i]);
  }

  /** A call of the rewritten function whose table holds these literal rungs. */
  function Dispatched(w: World, fuel: nat, body: seq<Stmt>, l: Ladder, table: string, f: Frame): Outcome
    requires Literals(l.branches)
  {
    CallBody(WithTable(w, table, LiteralPairs(l.branches)), fuel, Replace(body, l, table), f)
  }

  lemma SafeIsFaithful(w: World, fuel: nat, g: Frame, l: Ladder, pairs: Pairs, rest: seq<Stmt>)
    requires DistinctKeys(pairs) && (l.fallback.None? || l.fallback.value.Constant?)
    requires HasElse(rest) || Leftover(rest) == []
    requires Lookup(w, g, l.target).Ok? ==> Hashable(Lookup(w, g, l.target).value)
    ensures Faithful(w, fuel, g, l, pairs, rest)
  {
    var bound := Lookup(w, g, l.target);
    assert Eval(w, g, DefaultOf(l)).Ok?;
    assert Run(w, fuel, [], g) == Normal(g);
    if bound.Ok? && FirstMatch(pairs, bound.value).Some? { DistinctKeysAgree(pairs, bound.value); }
  }

  /** The premises a maintainer can check before rewriting: literal rungs with distinct keys,
      a default that cannot raise, a hashable argument, and an else-return or nothing left over. */
  lemma DispatchSound(w: World, fuel: nat, body: seq<Stmt>, f: Frame, i: nat, l: Ladder, table: string)
    requires FirstLadderAt(body, i, l) && Literals(l.branches) && DistinctKeys(LiteralPairs(l.branches))
    requires table !in BodyMentions(body)
    requires HasElse(body[i..]) || Leftover(body[i..]) == []
    requires l.fallback.None? || l.fallback.value.Constant?
    requires forall g, v :: Lookup(w, g, l.target) == Ok(v) && Run(w, fuel, body[..i], f) == Normal(g) ==> Hashable(v)
    ensures Dispatched(w, fuel, body, l, table, f) == CallBody(w, fuel, body, f)
  {
    var pairs := LiteralPairs(l.branches);
    var reached := Run(w, fuel, body[..i], f);
    if reached.Normal? {
      LiteralsSettled(w, reached.frame, l.branches);
      SafeIsFaithful(w, fuel, reached.frame, l, pairs, body[i..]);
    }
    DispatchPreservesMeaning(w, fuel, body, f, i, l, table, pairs);
  }

  // ----- Inputs on which the rewrite fails ------------------------------------------------------

  function Rung(x: string, br: Branch, orelse: seq<Stmt>): Stmt {
    If(Compare(Name(x), [Eq], [br.key]), [Return(Some(br.value))], orelse)
  }

  /** Three rungs, with `inner` behind the third and `orelse` in its else. */
  function ThreeRungs(x: string, a: Branch, b: Branch, c: Branch, inner: seq<Stmt>, orelse: seq<Stmt>): Stmt {
    Rung(x, a, [Rung(x, b, [Rung(x, c, orelse)] + inner)])
  }

  function Plain(k: int, v: int): Branch { Branch(Constant(IntLit(k)), Constant(IntLit(v))) }

  lemma RungCollect(x: string, br: Branch, orelse: seq<Stmt>, behind: seq<Stmt>)
    ensures Collect([Rung(x, br, orelse)] + behind, x) == Prepend([br], Collect(orelse, x))
    ensures HasElse([Rung(x, br, orelse)] + behind) <==> HasElse(orelse)
    ensures Leftover([Rung(x, br, orelse)] + behind) == Leftover(orelse) + behind
  {
    var curr := [Rung(x, br, orelse)] + behind;
    assert curr[0] == Rung(x, br, orelse) && curr[1..] == behind;
    assert MatchBranch(curr[0].test, curr[0].body, x) == Some(br);
  }

  lemma ThreeRungsExtract(x: string, a: Branch, b: Branch, c: Branch, inner: seq<Stmt>, orelse: seq<Stmt>)
    requires Collect(orelse, x).Some? && |Collect(orelse, x).value.0| == 0
    ensures Extract(ThreeRungs(x, a, b, c, inner, orelse)) == Some(Ladder(x, [a, b, c], Collect(orelse, x).value.1))
    ensures HasElse([ThreeRungs(x, a, b, c, inner, orelse)]) <==> HasElse(orelse)
    ensures Leftover([ThreeRungs(x, a, b, c, inner, orelse)]) == Leftover(orelse) + inner
  {
    var third := [Rung(x, c, orelse)] + inner;
    RungCollect(x, c, orelse, inner);
    RungCollect(x, b, third, []);
    assert [Rung(x, b, third)] + [] == [Rung(x, b, third)];
    RungCollect(x, a, [Rung(x, b, third)], []);
    var first := ThreeRungs(x, a, b, c, inner, orelse);
    assert [first] + [] == [first];
    var none := Collect(orelse, x).value.0;
    assert none == [] && [a] + ([b] + ([c] + none)) == [a, b, c];
    assert Collect([first], x) == Some(([a, b, c], Collect(orelse, x).value.1));
  }

  /** The rewritten function, when the body starts with the ladder and the target is bound. */
  lemma LookupFirst(w: World, fuel: nat, s: Stmt, post: seq<Stmt>, f: Frame, l: Ladder, table: string, pairs: Pairs,
                    v: Value)
    requires Extract(s) == Some(l) && Lookup(w, f, l.target) == Ok(v) && table !in MentionsOpt(l.fallback)
    ensures CallBody(WithTable(w, table, pairs), fuel, Replace([s] + post, l, table), f)
         == Answered(LookupResult(w, f, v, pairs, DefaultOf(l)), f)
  {
    assert ([s] + post)[0] == s && ([s] + post)[1..] == post;
    assert Replace([s] + post, l, table) == [LookupStmt(l, table)] + Replace(post, l, table);
    LookupLeaves(WithTable(w, table, pairs), fuel, l, table, Replace(post, l, table), f);
    LookupMeaning(w, fuel, f, l, table, pairs, v);
  }

  function LiteralOutcome(w: World, fuel: nat, f: Frame, v: Value, s: Stmt, l: Ladder, post: seq<Stmt>): Outcome
    requires Literals(l.branches)
  {
    match FirstMatch(LiteralPairs(l.branches), v)
    case Some(x) => Returned(x, f)
    case None =>
      if HasElse([s]) then Answered(ResultOf(w, f, l.fallback), f) else CallBody(w, fuel, Leftover([s]) + post, f)
  }

  /** The original function in the same situation. */
  lemma LadderFirst(w: World, fuel: nat, s: Stmt, post: seq<Stmt>, f: Frame, l: Ladder, v: Value)
    requires Extract(s) == Some(l) && Literals(l.branches) && Lookup(w, f, l.target) == Ok(v)
    ensures CallBody(w, fuel, [s] + post, f) == LiteralOutcome(w, fuel, f, v, s, l, post)
  {
    var body := [s] + post;
    assert body[0] == s && body[1..] == post && [s][1..] == [];
    assert Collect(body, l.target) == Some((l.branches, l.fallback));
    ChainMeaning(w, fuel, body, f, l.target, v);
    LiteralsSettled(w, f, l.branches);
    TrySettled(w, f, v, l.branches, LiteralPairs(l.branches));
    assert Leftover(body) == Leftover([s]) + post by { assert Leftover([s]) == Leftover(s.orelse) + []; }
  }

  lemma ReturnsLiteral(w: World, fuel: nat, f: Frame, answer: Literal)
    ensures CallBody(w, fuel, [Return(Some(Constant(answer)))], f) == Returned(LiteralValue(answer), f)
  {
    var last := Return(Some(Constant(answer)));
    assert Eval(w, f, Constant(answer)) == Ok(LiteralValue(answer));
    assert Exec(w, fuel, last, f) == Returned(LiteralValue(answer), f);
  }

  /** The most ordinary failure: a ladder without an else in front of a trailing return. */
  lemma TrailingReturnIsDropped(w: World, fuel: nat, f: Frame, x: string, text: string, answer: Literal, table: string)
    requires Lookup(w, f, x) == Ok(StrV(text))
    ensures var s := ThreeRungs(x, Plain(1, 1), Plain(2, 2), Plain(3, 3), [], []);
      var body := [s, Return(Some(Constant(answer)))];
      && Extract(s).Some? && Literals(Extract(s).value.branches)
      && CallBody(w, fuel, body, f) == Returned(LiteralValue(answer), f)
      && Dispatched(w, fuel, body, Extract(s).value, table, f) == Returned(NoneV, f)
  {
    var a, b, c := Plain(1, 1), Plain(2, 2), Plain(3, 3);
    ThreeRungsExtract(x, a, b, c, [], []);
    var s, l := ThreeRungs(x, a, b, c, [], []), Ladder(x, [a, b, c], None);
    var post := [Return(Some(Constant(answer)))];
    LadderFirst(w, fuel, s, post, f, l, StrV(text));
    LookupFirst(w, fuel, s, post, f, l, table, LiteralPairs(l.branches), StrV(text));
    ReturnsLiteral(w, fuel, f, answer);
    NoMatch([a, b, c], StrV(text));
    assert Leftover([s]) + post == post && [s] + post == [s, post[0]];
    assert Eval(w, f, Constant(NoneLit)) == Ok(NoneV);
  }

  /** The same for a statement behind an inner rung. */
  lemma InnerReturnIsDropped(w: World, fuel: nat, f: Frame, x: string, text: string, answer: Literal, table: string)
    requires Lookup(w, f, x) == Ok(StrV(text))
    ensures var s := ThreeRungs(x, Plain(1, 1), Plain(2, 2), Plain(3, 3), [Return(Some(Constant(answer)))], []);
      && Extract(s).Some? && Literals(Extract(s).value.branches)
      && CallBody(w, fuel, [s], f) == Returned(LiteralValue(answer), f)
      && Dispatched(w, fuel, [s], Extract(s).value, table, f) == Returned(NoneV, f)
  {
    var a, b, c := Plain(1, 1), Plain(2, 2), Plain(3, 3);
    var inner := [Return(Some(Constant(answer)))];
    ThreeRungsExtract(x, a, b, c, inner, []);
    var s, l := ThreeRungs(x, a, b, c, inner, []), Ladder(x, [a, b, c], None);
    LadderFirst(w, fuel, s, [], f, l, StrV(text));
    LookupFirst(w, fuel, s, [], f, l, table, LiteralPairs(l.branches), StrV(text));
    ReturnsLiteral(w, fuel, f, answer);
    NoMatch([a, b, c], StrV(text));
    assert Leftover([s]) + [] == inner && [s] + [] == [s];
    assert Eval(w, f, Constant(NoneLit)) == Ok(NoneV);
  }

  lemma NoMatch(branches: seq<Branch>, v: Value)
    requires Literals(branches) && |branches| == 3
    requires forall i :: 0 <= i < 3 ==> !SameOrEq(v, LiteralValue(branches[i].key.lit))
    ensures FirstMatch(LiteralPairs(branches), v) == None && LastMatch(LiteralPairs(branches), v) == None
  {
    var pairs := LiteralPairs(branches);
    FirstMatchAt(pairs, v);
    LastMatchAt(pairs, v);
    forall i | 0 <= i < 3 ensures !SameOrEq(pairs[i].0, v) { EqSymmetric(v, pairs[i].0); }
  }

  /** The default is evaluated even on a hit: an undefined name in it is an error only after the
      rewrite. */
  lemma RaisingDefaultOnHit(w: World, fuel: nat, f: Frame, x: string, y: string, table: string)
    requires Lookup(w, f, x) == Ok(IntV(1)) && Lookup(w, f, y) == Raise(NameError)
    ensures var s := ThreeRungs(x, Plain(1, 10), Plain(2, 20), Plain(3, 30), [], [Return(Some(Name(y)))]);
      && Extract(s).Some? && Literals(Extract(s).value.branches)
      && CallBody(w, fuel, [s], f) == Returned(IntV(10), f)
      && Dispatched(w, fuel, [s], Extract(s).value, table, f) == Raised(NameError, f)
  {
    var a, b, c := Plain(1, 10), Plain(2, 20), Plain(3, 30);
    var orelse := [Return(Some(Name(y)))];
    ThreeRungsExtract(x, a, b, c, [], orelse);
    var s, l := ThreeRungs(x, a, b, c, [], orelse), Ladder(x, [a, b, c], Some(Name(y)));
    LadderFirst(w, fuel, s, [], f, l, IntV(1));
    LookupFirst(w, fuel, s, [], f, l, table, LiteralPairs(l.branches), IntV(1));
    assert LiteralPairs([a, b, c])[0] == (IntV(1), IntV(10));
    assert [s] + [] == [s] && Eval(w, f, Name(y)) == Raise(NameError);
  }

  /** The keys 1 and True are one key to the dictionary, and the later value wins. */
  lemma EqualKeysDiffer(w: World, fuel: nat, f: Frame, x: string, table: string)
    requires Lookup(w, f, x) == Ok(IntV(1))
    ensures var yes := Branch(Constant(BoolLit(true)), Constant(IntLit(20)));
      var s := ThreeRungs(x, Plain(1, 10), yes, Plain(3, 30), [], []);
      && Extract(s).Some? && Literals(Extract(s).value.branches)
      && CallBody(w, fuel, [s], f) == Returned(IntV(10), f)
      && Dispatched(w, fuel, [s], Extract(s).value, table, f) == Returned(IntV(20), f)
  {
    var a, b, c := Plain(1, 10), Branch(Constant(BoolLit(true)), Constant(IntLit(20))), Plain(3, 30);
    ThreeRungsExtract(x, a, b, c, [], []);
    var s, l := ThreeRungs(x, a, b, c, [], []), Ladder(x, [a, b, c], None);
    LadderFirst(w, fuel, s, [], f, l, IntV(1));
    LookupFirst(w, fuel, s, [], f, l, table, LiteralPairs(l.branches), IntV(1));
    var pairs := LiteralPairs([a, b, c]);
    assert pairs == [(IntV(1), IntV(10)), (BoolV(true), IntV(20)), (IntV(3), IntV(30))];
    assert pairs[..2][..1] == pairs[..1];
    assert LastMatch(pairs, IntV(1)) == LastMatch(pairs[..2], IntV(1)) == Some(IntV(20));
    assert [s] + [] == [s] && Eval(w, f, Constant(NoneLit)) == Ok(NoneV);
  }

  /** A list compares with every key of the ladder, but no dictionary looks it up. */
  lemma ListArgumentRaises(w: World, fuel: nat, f: Frame, x: string, id: nat, items: seq<Value>, answer: Literal,
                           table: string)
    requires Lookup(w, f, x) == Ok(ListV(id, items))
    ensures var s := ThreeRungs(x, Plain(1, 10), Plain(2, 20), Plain(3, 30), [], [Return(Some(Constant(answer)))]);
      && Extract(s).Some? && Literals(Extract(s).value.branches)
      && CallBody(w, fuel, [s], f) == Returned(LiteralValue(answer), f)
      && Dispatched(w, fuel, [s], Extract(s).value, table, f) == Raised(TypeError, f)
  {
    var a, b, c := Plain(1, 10), Plain(2, 20), Plain(3, 30);
    var orelse := [Return(Some(Constant(answer)))];
    ThreeRungsExtract(x, a, b, c, [], orelse);
    var s, l := ThreeRungs(x, a, b, c, [], orelse), Ladder(x, [a, b, c], Some(Constant(answer)));
    LadderFirst(w, fuel, s, [], f, l, ListV(id, items));
    LookupFirst(w, fuel, s, [], f, l, table, LiteralPairs(l.branches), ListV(id, items));
    NoMatch([a, b, c], ListV(id, items));
    assert [s] + [] == [s] && Eval(w, f, Constant(answer)) == Ok(LiteralValue(answer));
  }
}
