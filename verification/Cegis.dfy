/** The counterexample-guided synthesis loop: a growing store of negative constraints, the
    audit of a trajectory against it, and the convergence verdict. */
module Cegis {
  import opened Wrappers
  import opened NameOrder

  datatype Counterexample = Counterexample(
    ruleId: string, location: string, message: string, pattern: string, hash: string, line: nat)

  datatype Constraint = Constraint(id: string, ruleId: string, hash: string, description: string, step: nat)

  /** What the verifier reports on a candidate; its rules are an arbitrary deterministic function. */
  datatype Report = Report(violations: seq<Counterexample>, complexity: nat, depth: nat)

  type Verifier = string -> Report

  datatype Step = Step(
    index: nat, source: string, astHash: string, passed: bool,
    violations: seq<Counterexample>, constraintCount: nat, complexity: nat, depth: nat)

  datatype Status = CONVERGED | CONVERGING | OSCILLATING | DEGRADED | DIVERGING | BUDGET_EXHAUSTED

  // ----- The constraint store as a value --------------------------------------------------

  function Digit(n: nat): char
    requires n < 10
  {
    "0123456789"[n]
  }

  function Decimal(n: nat): string {
    if n < 10 then [Digit(n)] else Decimal(n / 10) + [Digit(n % 10)]
  }

  /** `NC-` and the number, padded to three digits. */
  function ConstraintId(n: nat): string {
    "NC-" + (if n < 10 then "00" else if n < 100 then "0" else "") + Decimal(n)
  }

  ghost predicate Known(cs: seq<Constraint>, h: string) {
    exists i :: 0 <= i < |cs| && cs[i].hash == h
  }

  function Find(cs: seq<Constraint>, h: string): Option<Constraint> {
    if cs == [] then None else if cs[0].hash == h then Some(cs[0]) else Find(cs[1..], h)
  }

  lemma {:induction false} FindKnown(cs: seq<Constraint>, h: string)
    ensures Find(cs, h).Some? <==> Known(cs, h)
    ensures Find(cs, h).Some? ==> Find(cs, h).value in cs && Find(cs, h).value.hash == h
  {
    if cs != [] && cs[0].hash != h {
      FindKnown(cs[1..], h);
      assert forall i :: 1 <= i < |cs| ==> cs[i] == cs[1..][i - 1];
    }
  }

  function NewConstraint(count: nat, ce: Counterexample, step: nat): Constraint {
    Constraint(ConstraintId(count + 1), ce.ruleId, ce.hash,
               "Forbid " + ce.ruleId + " at " + ce.location + ": " + ce.message, step)
  }

  function Registered(cs: seq<Constraint>, ce: Counterexample, step: nat): seq<Constraint> {
    if Find(cs, ce.hash).Some? then cs else cs + [NewConstraint(|cs|, ce, step)]
  }

  function RegisteredAll(cs: seq<Constraint>, ces: seq<Counterexample>, step: nat): seq<Constraint> {
    if ces == [] then cs
    else Registered(RegisteredAll(cs, ces[..|ces| - 1], step), ces[|ces| - 1], step)
  }

  /** The finding for a violation that a stored constraint forbids.  SHA-256 is taken to be
      injective, so the digest is represented by the text it digests. */
  function Repeat(c: Constraint, v: Counterexample): Counterexample {
    Counterexample("CEGIS008", v.location,
      "Negative constraint violation " + c.id + ": repeated " + v.ruleId + " at " + v.location,
      c.id, "CEGIS008:" + c.id + ":" + v.hash, v.line)
  }

  function Repeats(cs: seq<Constraint>, violations: seq<Counterexample>): seq<Counterexample> {
    if violations == [] then []
    else
      var n := |violations| - 1;
      var c := Find(cs, violations[n].hash);
      Repeats(cs, violations[..n]) + if c.Some? then [Repeat(c.value, violations[n])] else []
  }

  predicate DistinctHashes(cs: seq<Constraint>) {
    forall i, j :: 0 <= i < j < |cs| ==> cs[i].hash != cs[j].hash
  }

  predicate Numbered(cs: seq<Constraint>) {
    forall i :: 0 <= i < |cs| ==> cs[i].id == ConstraintId(i + 1)
  }

  predicate HasHash(ces: seq<Counterexample>, h: string) {
    exists i :: 0 <= i < |ces| && ces[i].hash == h
  }

  /** Registration only appends, records new hashes once each, and stamps them with the step. */
  ghost predicate Grown(cs: seq<Constraint>, r: seq<Constraint>, ces: seq<Counterexample>, step: nat) {
    && cs <= r && DistinctHashes(r) && Numbered(r)
    && (forall i :: |cs| <= i < |r| ==> r[i].step == step && HasHash(ces, r[i].hash) && !Known(cs, r[i].hash))
    && (forall h :: Known(r, h) <==> Known(cs, h) || HasHash(ces, h))
  }

  lemma {:induction false} RegisteredAllGrows(cs: seq<Constraint>, ces: seq<Counterexample>, step: nat)
    requires DistinctHashes(cs) && Numbered(cs)
    ensures Grown(cs, RegisteredAll(cs, ces, step), ces, step)
  {
    if ces != [] {
      var n := |ces| - 1;
      RegisteredAllGrows(cs, ces[..n], step);
      assert ces == ces[..n] + [ces[n]];
      OneMoreGrows(cs, RegisteredAll(cs, ces[..n], step), ces[..n], ces[n], step);
    }
  }

  lemma OneMoreGrows(cs: seq<Constraint>, most: seq<Constraint>, ces: seq<Counterexample>, ce: Counterexample,
                     step: nat)
    requires Grown(cs, most, ces, step)
    ensures Grown(cs, Registered(most, ce, step), ces + [ce], step)
  {
    FindKnown(most, ce.hash);
    HasHashSnoc(ces, ce);
    if !Known(most, ce.hash) {
      var c := NewConstraint(|most|, ce, step);
      KnownSnoc(most, c);
      assert forall i :: 0 <= i < |most| ==> most[i].hash != c.hash;
    }
  }

  lemma HasHashSnoc(ces: seq<Counterexample>, ce: Counterexample)
    ensures forall h :: HasHash(ces + [ce], h) <==> HasHash(ces, h) || ce.hash == h
  {
    forall h | HasHash(ces, h) ensures HasHash(ces + [ce], h) {
      var i :| 0 <= i < |ces| && ces[i].hash == h;
      assert (ces + [ce])[i].hash == h;
    }
    assert (ces + [ce])[|ces|] == ce;
  }

  lemma KnownSnoc(cs: seq<Constraint>, c: Constraint)
    ensures forall h :: Known(cs + [c], h) <==> Known(cs, h) || c.hash == h
  {
    forall h | Known(cs, h) ensures Known(cs + [c], h) {
      var i :| 0 <= i < |cs| && cs[i].hash == h;
      assert (cs + [c])[i].hash == h;
    }
    assert (cs + [c])[|cs|] == c;
  }

  /** The accumulator: an insertion-ordered dictionary from hash to constraint. */
  class NegativeConstraintAccumulator {
    var byHash: map<string, Constraint>
    var constraints: seq<Constraint>

    ghost predicate Valid()
      reads this
    {
      && DistinctHashes(constraints) && Numbered(constraints)
      && (forall h :: h in byHash <==> Known(constraints, h))
      && (forall h :: h in byHash ==> Find(constraints, h) == Some(byHash[h]))
    }

    constructor ()
      ensures Valid() && constraints == []
    {
      byHash, constraints := map[], [];
    }

    method RegisterCounterexample(ce: Counterexample, step: nat) returns (nc: Constraint)
      requires Valid()
      modifies this
      ensures Valid() && constraints == Registered(old(constraints), ce, step)
      ensures nc in constraints && nc.hash == ce.hash
    {
      FindKnown(constraints, ce.hash);
      if ce.hash in byHash { return byHash[ce.hash]; }
      nc := NewConstraint(|constraints|, ce, step);
      KnownSnoc(constraints, nc);
      FindSnoc(constraints, nc);
      constraints := constraints + [nc];
      byHash := byHash[ce.hash := nc];
    }

    method RegisterAll(ces: seq<Counterexample>, step: nat)
      requires Valid()
      modifies this
      ensures Valid() && constraints == RegisteredAll(old(constraints), ces, step)
    {
      for i := 0 to |ces|
        invariant Valid() && constraints == RegisteredAll(old(constraints), ces[..i], step)
      {
        assert ces[..i + 1][..i] == ces[..i];
        var _ := RegisterCounterexample(ces[i], step);
      }
      assert ces[..|ces|] == ces;
    }

    method CheckForRepeatViolation(violations: seq<Counterexample>) returns (repeats: seq<Counterexample>)
      requires Valid()
      ensures repeats == Repeats(constraints, violations)
    {
      repeats := [];
      for i := 0 to |violations|
        invariant repeats == Repeats(constraints, violations[..i])
      {
        var v := violations[i];
        assert violations[..i + 1][..i] == violations[..i];
        FindKnown(constraints, v.hash);
        if v.hash in byHash {
          repeats := repeats + [Repeat(byHash[v.hash], v)];
        }
      }
      assert violations[..|violations|] == violations;
    }
  }

  lemma {:induction false} FindSnoc(cs: seq<Constraint>, c: Constraint)
    requires !Known(cs, c.hash)
    ensures forall h :: Find(cs + [c], h) == if h == c.hash then Some(c) else Find(cs, h)
  {
    if cs != [] {
      assert (cs + [c])[1..] == cs[1..] + [c];
      assert cs[0].hash != c.hash;
      assert !Known(cs[1..], c.hash) by {
        assert forall i :: 1 <= i < |cs| ==> cs[i] == cs[1..][i - 1];
      }
      FindSnoc(cs[1..], c);
    } else {
      assert (cs + [c])[1..] == [];
    }
  }

  // ----- Trajectories ---------------------------------------------------------------------

  /** The store after a step that found these violations, and the step's record. */
  function Effective(cs: seq<Constraint>, violations: seq<Counterexample>): seq<Counterexample> {
    violations + Repeats(cs, violations)
  }

  function StepOf(verify: Verifier, astHash: string -> string, cs: seq<Constraint>, source: string, index: nat): Step {
    var r := verify(source);
    var found := Effective(cs, r.violations);
    Step(index, source, astHash(source), found == [], found, |RegisteredAll(cs, found, index)|, r.complexity, r.depth)
  }

  /** The constraint store after auditing a trajectory. */
  function StoreAfter(verify: Verifier, sources: seq<string>): seq<Constraint> {
    if sources == [] then []
    else
      var n := |sources| - 1;
      var cs := StoreAfter(verify, sources[..n]);
      RegisteredAll(cs, Effective(cs, verify(sources[n]).violations), n)
  }

  function Audit(verify: Verifier, astHash: string -> string, sources: seq<string>): (steps: seq<Step>)
    ensures |steps| == |sources|
  {
    if sources == [] then []
    else
      var n := |sources| - 1;
      Audit(verify, astHash, sources[..n]) + [StepOf(verify, astHash, StoreAfter(verify, sources[..n]), sources[n], n)]
  }

  predicate SeenBefore(steps: seq<Step>, n: nat, h: string)
    requires n <= |steps|
  {
    exists i :: 0 <= i < n && HasHash(steps[i].violations, h)
  }

  lemma {:induction false} AuditPrefix(verify: Verifier, astHash: string -> string, sources: seq<string>, n: nat)
    requires n <= |sources|
    ensures Audit(verify, astHash, sources)[..n] == Audit(verify, astHash, sources[..n])
    decreases |sources|
  {
    if n < |sources| {
      var m := |sources| - 1;
      AuditPrefix(verify, astHash, sources[..m], n);
      assert sources[..m][..n] == sources[..n];
      assert Audit(verify, astHash, sources)[..n] == Audit(verify, astHash, sources[..m])[..n];
    } else {
      assert sources[..n] == sources;
    }
  }

  function StepAt(verify: Verifier, astHash: string -> string, sources: seq<string>, n: nat): Step
    requires n < |sources|
  {
    StepOf(verify, astHash, StoreAfter(verify, sources[..n]), sources[n], n)
  }

  lemma StepAtPrefix(verify: Verifier, astHash: string -> string, sources: seq<string>, m: nat, n: nat)
    requires n < m <= |sources|
    ensures StepAt(verify, astHash, sources[..m], n) == StepAt(verify, astHash, sources, n)
  {
    assert sources[..m][..n] == sources[..n] && sources[..m][n] == sources[n];
  }

  lemma {:induction false} AuditAt(verify: Verifier, astHash: string -> string, sources: seq<string>, n: nat)
    requires n < |sources|
    ensures Audit(verify, astHash, sources)[n] == StepAt(verify, astHash, sources, n)
    decreases |sources|
  {
    var m := |sources| - 1;
    if n < m {
      AuditAt(verify, astHash, sources[..m], n);
      StepAtPrefix(verify, astHash, sources, m, n);
    }
  }

  /** What the store holds: every hash some step has shown, once, stamped with the first such
      step. */
  ghost predicate Faithful(cs: seq<Constraint>, steps: seq<Step>) {
    && DistinctHashes(cs) && Numbered(cs)
    && (forall h :: Known(cs, h) <==> SeenBefore(steps, |steps|, h))
    && (forall i :: 0 <= i < |cs| ==> FirstShown(steps, cs[i]))
  }

  /** The constraint is stamped with the first step that shows its hash. */
  ghost predicate FirstShown(steps: seq<Step>, c: Constraint) {
    c.step < |steps| && HasHash(steps[c.step].violations, c.hash) && !SeenBefore(steps, c.step, c.hash)
  }

  lemma SeenSnoc(steps: seq<Step>, s: Step)
    ensures var longer, n := steps + [s], |steps|;
      forall h :: SeenBefore(longer, n + 1, h) <==> SeenBefore(steps, n, h) || HasHash(s.violations, h)
    ensures forall n: nat, h :: n <= |steps| ==> (SeenBefore(steps + [s], n, h) <==> SeenBefore(steps, n, h))
  {
    var longer := steps + [s];
    forall n: nat, h | n <= |steps| && SeenBefore(steps, n, h)
      ensures SeenBefore(longer, n, h)
    {
      var i :| 0 <= i < n && HasHash(steps[i].violations, h);
      assert longer[i] == steps[i];
    }
    forall h | SeenBefore(steps, |steps|, h)
      ensures SeenBefore(longer, |steps| + 1, h)
    {
      var i :| 0 <= i < |steps| && HasHash(steps[i].violations, h);
      assert longer[i] == steps[i];
    }
    assert longer[|steps|] == s;
  }

  /** The store only grows, names each shown hash once, and records its first step. */
  lemma {:induction false} StoreFaithful(verify: Verifier, astHash: string -> string, sources: seq<string>)
    ensures Faithful(StoreAfter(verify, sources), Audit(verify, astHash, sources))
    decreases |sources|
  {
    if sources != [] {
      var n := |sources| - 1;
      StoreFaithful(verify, astHash, sources[..n]);
      var cs, steps := StoreAfter(verify, sources[..n]), Audit(verify, astHash, sources[..n]);
      var s := StepOf(verify, astHash, cs, sources[n], n);
      RegisteredAllGrows(cs, s.violations, n);
      SeenSnoc(steps, s);
      FaithfulStep(cs, steps, s, RegisteredAll(cs, s.violations, n));
    }
  }

  lemma FaithfulStep(cs: seq<Constraint>, steps: seq<Step>, s: Step, next: seq<Constraint>)
    requires Faithful(cs, steps) && Grown(cs, next, s.violations, |steps|)
    ensures Faithful(next, steps + [s])
  {
    SeenSnoc(steps, s);
    var longer := steps + [s];
    forall i | 0 <= i < |next|
      ensures FirstShown(longer, next[i])
    {
      if i < |cs| {
        assert next[i] == cs[i] && FirstShown(steps, cs[i]);
        assert longer[cs[i].step] == steps[cs[i].step];
      }
    }
  }

  lemma {:induction false} StoreGrows(verify: Verifier, sources: seq<string>, m: nat)
    requires m <= |sources|
    ensures StoreAfter(verify, sources[..m]) <= StoreAfter(verify, sources)
    decreases |sources|
  {
    if m < |sources| {
      var n := |sources| - 1;
      StoreGrows(verify, sources[..n], m);
      assert sources[..n][..m] == sources[..m];
      StoreFaithful(verify, _ => "", sources[..n]);
      var cs := StoreAfter(verify, sources[..n]);
      RegisteredAllGrows(cs, Effective(cs, verify(sources[n]).violations), n);
    } else {
      assert sources[..m] == sources;
    }
  }

  /** The repeat findings of a step, one per violation whose hash was shown before, in order. */
  ghost predicate RepeatsExactly(steps: seq<Step>, n: nat, violations: seq<Counterexample>,
                                 repeats: seq<Counterexample>)
    requires n <= |steps|
    decreases |violations|
  {
    if violations == [] then repeats == []
    else
      var m := |violations| - 1;
      var v := violations[m];
      if SeenBefore(steps, n, v.hash) then
        && repeats != [] && IsRepeatOf(repeats[|repeats| - 1], v)
        && RepeatsExactly(steps, n, violations[..m], repeats[..|repeats| - 1])
      else RepeatsExactly(steps, n, violations[..m], repeats)
  }

  predicate IsRepeatOf(r: Counterexample, v: Counterexample) {
    r.ruleId == "CEGIS008" && r.location == v.location && r.line == v.line
  }

  lemma {:induction false} RepeatsAreSeen(cs: seq<Constraint>, steps: seq<Step>, violations: seq<Counterexample>)
    requires forall h :: Known(cs, h) <==> SeenBefore(steps, |steps|, h)
    ensures RepeatsExactly(steps, |steps|, violations, Repeats(cs, violations))
    decreases |violations|
  {
    if violations != [] {
      var m := |violations| - 1;
      RepeatsAreSeen(cs, steps, violations[..m]);
      FindKnown(cs, violations[m].hash);
      var r := Repeats(cs, violations);
      if Find(cs, violations[m].hash).Some? {
        assert r[..|r| - 1] == Repeats(cs, violations[..m]);
      } else {
        assert r == Repeats(cs, violations[..m]);
      }
    }
  }

  lemma StepParts(verify: Verifier, astHash: string -> string, cs: seq<Constraint>, source: string, index: nat)
    ensures var s := StepOf(verify, astHash, cs, source, index); var found := verify(source).violations;
      && s.violations == found + Repeats(cs, found)
      && s.violations[|found|..] == Repeats(cs, found)
      && (s.passed <==> found == [])
  {
  }

  /** CEGIS008 is raised at a step exactly for the violations whose hash an earlier step showed,
      and a step passes exactly when the verifier finds nothing. */
  lemma AuditRaisesRepeats(verify: Verifier, astHash: string -> string, sources: seq<string>, n: nat)
    requires n < |sources|
    ensures var steps := Audit(verify, astHash, sources); var found := verify(sources[n]).violations;
      && found <= steps[n].violations
      && RepeatsExactly(steps[..n], n, found, steps[n].violations[|found|..])
      && (steps[n].passed <==> found == [])
  {
    var cs := StoreAfter(verify, sources[..n]);
    AuditAt(verify, astHash, sources, n);
    AuditPrefix(verify, astHash, sources, n);
    StoreFaithful(verify, astHash, sources[..n]);
    RepeatsAreSeen(cs, Audit(verify, astHash, sources[..n]), verify(sources[n]).violations);
    StepParts(verify, astHash, cs, sources[n], n);
  }

  /** The count recorded with a step is the size of the store once its findings are registered. */
  lemma AuditCounts(verify: Verifier, astHash: string -> string, sources: seq<string>, n: nat)
    requires n < |sources|
    ensures Audit(verify, astHash, sources)[n].constraintCount == |StoreAfter(verify, sources[..n + 1])|
  {
    AuditAt(verify, astHash, sources, n);
    assert sources[..n + 1][..n] == sources[..n];
  }

  // ----- Convergence ----------------------------------------------------------------------

  function FirstWith(steps: seq<Step>, h: string): (i: nat)
    ensures i <= |steps| && (i < |steps| ==> steps[i].astHash == h)
    ensures forall j :: 0 <= j < i ==> steps[j].astHash != h
  {
    if steps == [] || steps[0].astHash == h then 0 else 1 + FirstWith(steps[1..], h)
  }

  /** For every step that returns to an earlier syntax tree: the recorded indices of the first step
      showing it, and of this one. */
  function Cycles(steps: seq<Step>): seq<(nat, nat)> {
    if steps == [] then [] else Cycles(steps[..|steps| - 1]) + CycleAt(steps, |steps| - 1)
  }

  function CycleAt(steps: seq<Step>, n: nat): seq<(nat, nat)>
    requires n < |steps|
  {
    var first := FirstWith(steps[..n], steps[n].astHash);
    if first < n then [(steps[first].index, steps[n].index)] else []
  }

  lemma CyclesNext(steps: seq<Step>, n: nat)
    requires n < |steps|
    ensures Cycles(steps[..n + 1]) == Cycles(steps[..n]) + CycleAt(steps, n)
  {
    assert steps[..n + 1][..n] == steps[..n];
  }

  lemma FirstWithIs(steps: seq<Step>, h: string, i: nat)
    requires i < |steps| && steps[i].astHash == h && forall j :: 0 <= j < i ==> steps[j].astHash != h
    ensures FirstWith(steps, h) == i
  {
  }

  /** The dictionary maps every hash shown so far to the recorded index of its first step. */
  ghost predicate FirstIndices(seen: map<string, nat>, steps: seq<Step>, n: nat)
    requires n <= |steps|
  {
    forall h :: var first := FirstWith(steps[..n], h);
      (h in seen <==> first < n) && (first < n && h in seen ==> seen[h] == steps[first].index)
  }

  lemma FirstIndicesMore(seen: map<string, nat>, steps: seq<Step>, n: nat)
    requires n < |steps| && FirstIndices(seen, steps, n)
    ensures var h := steps[n].astHash;
      FirstIndices(if h in seen then seen else seen[h := steps[n].index], steps, n + 1)
  {
    FirstWithMore(steps, n);
  }

  lemma SeenCycle(seen: map<string, nat>, steps: seq<Step>, n: nat)
    requires n < |steps| && FirstIndices(seen, steps, n)
    ensures var h := steps[n].astHash;
      CycleAt(steps, n) == if h in seen then [(seen[h], steps[n].index)] else []
  {
  }

  method DetectCycles(steps: seq<Step>) returns (cycles: seq<(nat, nat)>)
    ensures cycles == Cycles(steps)
  {
    var seen: map<string, nat> := map[];
    cycles := [];
    for i := 0 to |steps|
      invariant cycles == Cycles(steps[..i]) && FirstIndices(seen, steps, i)
    {
      var step := steps[i];
      CyclesNext(steps, i);
      SeenCycle(seen, steps, i);
      FirstIndicesMore(seen, steps, i);
      if step.astHash in seen {
        cycles := cycles + [(seen[step.astHash], step.index)];
      } else {
        seen := seen[step.astHash := step.index];
      }
    }
    assert steps[..|steps|] == steps;
  }

  function FirstAfter(steps: seq<Step>, n: nat, h: string): nat
    requires n < |steps|
  {
    var i := FirstWith(steps[..n], h);
    if i < n then i else if steps[n].astHash == h then n else n + 1
  }

  lemma FirstWithMore(steps: seq<Step>, n: nat)
    requires n < |steps|
    ensures forall h :: FirstWith(steps[..n + 1], h) == FirstAfter(steps, n, h)
  {
    forall h
      ensures FirstWith(steps[..n + 1], h) == FirstAfter(steps, n, h)
    {
      var i := FirstWith(steps[..n], h);
      assert forall j :: 0 <= j < n ==> steps[..n + 1][j] == steps[..n][j];
      if i < n || steps[n].astHash == h { FirstWithIs(steps[..n + 1], h, i); }
    }
  }

  predicate SameTree(steps: seq<Step>, i: int, j: int) {
    0 <= i < j < |steps| && steps[i].astHash == steps[j].astHash
  }

  ghost predicate Returns(steps: seq<Step>) { exists i, j :: SameTree(steps, i, j) }

  lemma ReturnsNext(steps: seq<Step>, n: nat)
    requires n + 1 == |steps|
    ensures Returns(steps) <==> Returns(steps[..n]) || CycleAt(steps, n) != []
  {
    forall i, j | j < n ensures SameTree(steps[..n], i, j) <==> SameTree(steps, i, j) {}
    var first := FirstWith(steps[..n], steps[n].astHash);
    if first < n { assert SameTree(steps, first, n); }
    forall i | SameTree(steps, i, n) ensures first < n { assert steps[..n][i] == steps[i]; }
  }

  /** A trajectory oscillates exactly when two steps share a syntax tree. */
  lemma {:induction false} CyclesIffRepeat(steps: seq<Step>)
    ensures Cycles(steps) != [] <==> Returns(steps)
    decreases |steps|
  {
    if steps != [] {
      var n := |steps| - 1;
      CyclesIffRepeat(steps[..n]);
      ReturnsNext(steps, n);
      assert |Cycles(steps)| == |Cycles(steps[..n])| + |CycleAt(steps, n)|;
    }
  }

  function Rules(ces: seq<Counterexample>): set<string> {
    set i | 0 <= i < |ces| :: ces[i].ruleId
  }

  function StepRegressions(prev: Step, curr: Step): set<string> {
    if prev.violations == [] then {} else Rules(curr.violations) - Rules(prev.violations)
  }

  predicate HasRegressions(steps: seq<Step>) {
    exists i :: 0 < i < |steps| && StepRegressions(steps[i - 1], steps[i]) != {}
  }

  /** The regressions of every step against the one before, each step's rules in ascending order. */
  ghost function Regressions(steps: seq<Step>): seq<string> {
    if |steps| < 2 then []
    else
      var n := |steps| - 1;
      Regressions(steps[..n]) + InOrder(StepRegressions(steps[n - 1], steps[n]))
  }

  method DetectLatentRegressions(steps: seq<Step>) returns (regressions: seq<string>)
    ensures regressions == Regressions(steps)
  {
    regressions := [];
    if |steps| < 2 { return; }
    for i := 1 to |steps|
      invariant regressions == Regressions(steps[..i])
    {
      RegressionsNext(steps, i);
      var found := Sorted(StepRegressions(steps[i - 1], steps[i]));
      regressions := regressions + found;
    }
    assert steps[..|steps|] == steps;
  }

  lemma RegressionsNext(steps: seq<Step>, i: nat)
    requires 1 <= i < |steps|
    ensures Regressions(steps[..i + 1]) == Regressions(steps[..i]) + InOrder(StepRegressions(steps[i - 1], steps[i]))
  {
    assert steps[..i + 1][..i] == steps[..i];
  }

  predicate Breaks(step: Step, rule: string) {
    exists i :: 0 <= i < |step.violations| && step.violations[i].ruleId == rule
  }

  /** The step breaks a rule that the step before kept, which was not clean itself. */
  predicate RegressesAt(steps: seq<Step>, i: int, rule: string) {
    0 < i < |steps| && steps[i - 1].violations != [] && Breaks(steps[i], rule) && !Breaks(steps[i - 1], rule)
  }

  lemma RegressesAtIs(steps: seq<Step>, i: int, rule: string)
    ensures RegressesAt(steps, i, rule) <==> 0 < i < |steps| && rule in StepRegressions(steps[i - 1], steps[i])
  {
  }

  predicate Regresses(steps: seq<Step>, rule: string) {
    exists i :: 0 < i < |steps| && RegressesAt(steps, i, rule)
  }

  lemma RegressesNext(steps: seq<Step>, n: nat, rule: string)
    requires n + 1 == |steps| && n >= 1
    ensures Regresses(steps, rule) <==> Regresses(steps[..n], rule) || rule in StepRegressions(steps[n - 1], steps[n])
  {
    forall i | 0 < i < n ensures RegressesAt(steps[..n], i, rule) <==> RegressesAt(steps, i, rule) {
      assert steps[..n][i] == steps[i] && steps[..n][i - 1] == steps[i - 1];
    }
    RegressesAtIs(steps, n, rule);
  }

  /** A rule is reported exactly if some step breaks it although the step before, not clean itself,
      kept it. */
  lemma RegressionsAre(steps: seq<Step>)
    ensures forall rule :: rule in Regressions(steps) <==> Regresses(steps, rule)
  {
    forall rule ensures rule in Regressions(steps) <==> Regresses(steps, rule) {
      Reported(steps, rule);
    }
  }

  lemma {:induction false} Reported(steps: seq<Step>, rule: string)
    ensures rule in Regressions(steps) <==> Regresses(steps, rule)
    decreases |steps|
  {
    if |steps| >= 2 {
      var n := |steps| - 1;
      Reported(steps[..n], rule);
      ReportedNext(steps, n, rule);
      RegressesNext(steps, n, rule);
    } else {
      assert !Regresses(steps, rule);
    }
  }

  lemma ReportedNext(steps: seq<Step>, n: nat, rule: string)
    requires n + 1 == |steps| && n >= 1
    ensures rule in Regressions(steps)
       <==> rule in Regressions(steps[..n]) || rule in StepRegressions(steps[n - 1], steps[n])
  {
    var found := StepRegressions(steps[n - 1], steps[n]);
    InOrderHolds(found, rule);
    InJoined(Regressions(steps[..n]), InOrder(found), rule);
  }

  lemma InOrderHolds(names: set<string>, name: string)
    ensures name in InOrder(names) <==> name in names
  {
    InOrderIs(names);
  }

  lemma InJoined(a: seq<string>, b: seq<string>, x: string)
    ensures x in a + b <==> x in a || x in b
  {
  }

  /** The list is empty exactly if no step regresses. */
  lemma RegressionsEmptyIff(steps: seq<Step>)
    ensures Regressions(steps) == [] <==> !HasRegressions(steps)
  {
    RegressionsAre(steps);
    if Regressions(steps) != [] {
      var rule := Regressions(steps)[0];
      assert rule in Regressions(steps) && Regresses(steps, rule);
    }
    if HasRegressions(steps) {
      var i :| 0 < i < |steps| && StepRegressions(steps[i - 1], steps[i]) != {};
      var rule :| rule in StepRegressions(steps[i - 1], steps[i]);
      RegressesAtIs(steps, i, rule);
    }
  }

  predicate Diverging(steps: seq<Step>) {
    var n := |steps|;
    n >= 3 && |steps[n - 3].violations| < |steps[n - 2].violations| < |steps[n - 1].violations|
  }

  function Evaluate(steps: seq<Step>, maxIterations: int): Status {
    if steps == [] then BUDGET_EXHAUSTED
    else if steps[|steps| - 1].passed then CONVERGED
    else if Cycles(steps) != [] then OSCILLATING
    else if HasRegressions(steps) && |steps[|steps| - 1].violations| >= |steps[0].violations| then DEGRADED
    else if |steps| >= maxIterations then BUDGET_EXHAUSTED
    else if Diverging(steps) then DIVERGING
    else CONVERGING
  }

  /** The status of an audited trajectory, read off the trajectory itself. */
  ghost predicate StatusFits(status: Status, steps: seq<Step>, maxIterations: int) {
    var n := |steps|;
    var unclean := n > 0 && steps[n - 1].violations != [];
    var straight := unclean && !Returns(steps);
    var degraded := SomethingRegresses(steps) && n > 0 && |steps[n - 1].violations| >= |steps[0].violations|;
    var rising := n >= 3 && |steps[n - 3].violations| < |steps[n - 2].violations| < |steps[n - 1].violations|;
    && (status == CONVERGED <==> n > 0 && !unclean)
    && (status == OSCILLATING <==> unclean && !straight)
    && (status == DEGRADED <==> straight && degraded)
    && (status == BUDGET_EXHAUSTED <==> n == 0 || (straight && !degraded && n >= maxIterations))
    && (status == DIVERGING <==> straight && !degraded && n < maxIterations && rising)
    && (status == CONVERGING <==> straight && !degraded && n < maxIterations && !rising)
  }

  lemma StatusExact(verify: Verifier, astHash: string -> string, sources: seq<string>, maxIterations: int)
    ensures var steps := Audit(verify, astHash, sources);
      StatusFits(Evaluate(steps, maxIterations), steps, maxIterations)
  {
    if sources != [] { AuditAt(verify, astHash, sources, |sources| - 1); }
    EvaluateFits(Audit(verify, astHash, sources), maxIterations);
  }

  lemma EvaluateFits(steps: seq<Step>, maxIterations: int)
    requires steps != [] ==> (steps[|steps| - 1].passed <==> steps[|steps| - 1].violations == [])
    ensures StatusFits(Evaluate(steps, maxIterations), steps, maxIterations)
  {
    CyclesIffRepeat(steps);
    RegressesIff(steps);
  }

  ghost predicate SomethingRegresses(steps: seq<Step>) { exists i, rule :: RegressesAt(steps, i, rule) }

  lemma RegressesIff(steps: seq<Step>)
    ensures HasRegressions(steps) <==> SomethingRegresses(steps)
  {
    forall i, rule | RegressesAt(steps, i, rule) ensures HasRegressions(steps) { RegressesAtIs(steps, i, rule); }
    if HasRegressions(steps) {
      var i :| 0 < i < |steps| && StepRegressions(steps[i - 1], steps[i]) != {};
      var rule :| rule in StepRegressions(steps[i - 1], steps[i]);
      RegressesAtIs(steps, i, rule);
    }
  }

  datatype Result = Result(
    status: Status, iterations: nat, final: Option<string>, trajectory: seq<Step>, constraints: seq<Constraint>,
    cycles: seq<(nat, nat)>, regressions: seq<string>, findings: seq<Counterexample>)

  function AllFindings(steps: seq<Step>): seq<Counterexample> {
    if steps == [] then [] else AllFindings(steps[..|steps| - 1]) + steps[|steps| - 1].violations
  }

  method AuditTrajectory(verify: Verifier, astHash: string -> string, sources: seq<string>, maxIterations: int)
    returns (r: Result)
    ensures r.trajectory == Audit(verify, astHash, sources)
    ensures r.constraints == StoreAfter(verify, sources)
    ensures r.cycles == Cycles(r.trajectory) && r.findings == AllFindings(r.trajectory)
    ensures r.regressions == Regressions(r.trajectory) && r.iterations == |sources|
    ensures r.final == if sources == [] then None else Some(sources[|sources| - 1])
    ensures r.status == Evaluate(r.trajectory, maxIterations) && StatusFits(r.status, r.trajectory, maxIterations)
  {
    var steps: seq<Step> := [];
    var accumulator := new NegativeConstraintAccumulator();
    var findings: seq<Counterexample> := [];
    for i := 0 to |sources|
      invariant fresh(accumulator) && accumulator.Valid()
      invariant steps == Audit(verify, astHash, sources[..i])
      invariant accumulator.constraints == StoreAfter(verify, sources[..i])
      invariant findings == AllFindings(steps)
    {
      var src := sources[i];
      var report := verify(src);
      assert sources[..i + 1][..i] == sources[..i];
      var repeats := accumulator.CheckForRepeatViolation(report.violations);
      var effective := report.violations + repeats;
      accumulator.RegisterAll(effective, i);
      var step := Step(i, src, astHash(src), effective == [], effective, |accumulator.constraints|,
          report.complexity, report.depth);
      steps := steps + [step];
      assert steps[..|steps| - 1] == Audit(verify, astHash, sources[..i]);
      findings := findings + effective;
    }
    assert sources[..|sources|] == sources;
    var cycles := DetectCycles(steps);
    var regressions := DetectLatentRegressions(steps);
    var final := if sources == [] then None else Some(sources[|sources| - 1]);
    StatusExact(verify, astHash, sources, maxIterations);
    r := Result(Evaluate(steps, maxIterations), |steps|, final, steps, accumulator.constraints, cycles, regressions,
                findings);
  }

  // ----- The synthesis loop -----------------------------------------------------------------

  type Synthesizer = (string, seq<Constraint>) -> string

  /** The loop's own store: the violations of every candidate so far, without repeat findings. */
  function LoopStore(verify: Verifier, sources: seq<string>): seq<Constraint> {
    if sources == [] then []
    else
      var n := |sources| - 1;
      RegisteredAll(LoopStore(verify, sources[..n]), verify(sources[n]).violations, n)
  }

  /** How the visited candidates arise: each violates an invariant and its successor is what
      the synthesizer answers to it and to everything learned so far. */
  ghost predicate Synthesized(verify: Verifier, synthesize: Synthesizer, sources: seq<string>) {
    forall k :: 0 <= k < |sources| - 1 ==>
      && verify(sources[k]).violations != []
      && sources[k + 1] == synthesize(sources[k], LoopStore(verify, sources[..k + 1]))
  }

  /** At most `maxIterations` + 1 candidates are visited, all but the last violate an invariant,
      the run stops early only on a clean candidate, and it has converged exactly when its last
      candidate is clean. */
  method RunSynthesisLoop(verify: Verifier, astHash: string -> string, synthesize: Synthesizer, initial: string,
                          maxIterations: int)
    returns (r: Result, sources: seq<string>)
    ensures sources != [] && sources[0] == initial
    ensures |sources| <= (if maxIterations < 0 then 0 else maxIterations) + 1
    ensures Synthesized(verify, synthesize, sources)
    ensures |sources| <= maxIterations ==> verify(sources[|sources| - 1]).violations == []
    ensures r.trajectory == Audit(verify, astHash, sources) && r.constraints == StoreAfter(verify, sources)
    ensures r.status == CONVERGED <==> verify(sources[|sources| - 1]).violations == []
    ensures r.status != CONVERGED ==> r.status in {OSCILLATING, DEGRADED, BUDGET_EXHAUSTED}
  {
    sources := VisitCandidates(verify, synthesize, initial, maxIterations);
    r := AuditTrajectory(verify, astHash, sources, maxIterations);
    LoopVerdict(verify, astHash, sources, maxIterations);
  }

  /** The loop itself, before its candidates are audited. */
  method VisitCandidates(verify: Verifier, synthesize: Synthesizer, initial: string, maxIterations: int)
    returns (sources: seq<string>)
    ensures sources != [] && sources[0] == initial
    ensures |sources| <= (if maxIterations < 0 then 0 else maxIterations) + 1
    ensures Synthesized(verify, synthesize, sources)
    ensures |sources| <= maxIterations ==> verify(sources[|sources| - 1]).violations == []
  {
    sources := [initial];
    var current := initial;
    var accumulator := new NegativeConstraintAccumulator();
    var k: nat := 0;
    while k < maxIterations
      invariant |sources| == k + 1 && sources[0] == initial && current == sources[k]
      invariant k <= if maxIterations < 0 then 0 else maxIterations
      invariant fresh(accumulator) && accumulator.Valid()
      invariant accumulator.constraints == LoopStore(verify, sources[..k])
      invariant Synthesized(verify, synthesize, sources)
    {
      var violations := verify(current).violations;
      if violations == [] { break; }
      accumulator.RegisterAll(violations, |sources| - 1);
      assert sources[..k + 1] == sources && sources[..k + 1][..k] == sources[..k];
      var next := synthesize(current, accumulator.constraints);
      SynthesizedMore(verify, synthesize, sources, next);
      assert (sources + [next])[..k + 1] == sources;
      sources := sources + [next];
      current := next;
      k := k + 1;
    }
  }

  /** The verdict on a run that stopped either at its budget or on a clean candidate. */
  lemma LoopVerdict(verify: Verifier, astHash: string -> string, sources: seq<string>, maxIterations: int)
    requires sources != []
    requires |sources| <= maxIterations ==> verify(sources[|sources| - 1]).violations == []
    ensures var status := Evaluate(Audit(verify, astHash, sources), maxIterations);
      && (status == CONVERGED <==> verify(sources[|sources| - 1]).violations == [])
      && (status != CONVERGED ==> status in {OSCILLATING, DEGRADED, BUDGET_EXHAUSTED})
  {
    AuditRaisesRepeats(verify, astHash, sources, |sources| - 1);
  }

  lemma SynthesizedMore(verify: Verifier, synthesize: Synthesizer, sources: seq<string>, next: string)
    requires sources != [] && Synthesized(verify, synthesize, sources)
    requires verify(sources[|sources| - 1]).violations != []
    requires next == synthesize(sources[|sources| - 1], LoopStore(verify, sources))
    ensures Synthesized(verify, synthesize, sources + [next])
  {
    var longer := sources + [next];
    forall k | 0 <= k < |longer| - 1
      ensures verify(longer[k]).violations != []
      ensures longer[k + 1] == synthesize(longer[k], LoopStore(verify, longer[..k + 1]))
    {
      assert longer[..k + 1] == sources[..k + 1];
      if k == |sources| - 1 { assert sources[..k + 1] == sources; }
    }
  }
}
