/** Well-nested sequences of opening and closing tokens, and the stack that recognises them. */
module Nesting {
  import opened Wrappers

  datatype Token<K> = Open(kind: K) | Close(kind: K) | Plain

  /** The grammar: nothing, a plain token and the rest, or a pair around an inner part and the rest. */
  datatype Tree<K> = Empty | Text(rest: Tree<K>) | Nested(kind: K, inner: Tree<K>, rest: Tree<K>)

  function Yield<K>(t: Tree<K>): seq<Token<K>> {
    match t
    case Empty => []
    case Text(rest) => [Plain] + Yield(rest)
    case Nested(kind, inner, rest) => [Open(kind)] + Yield(inner) + [Close(kind)] + Yield(rest)
  }

  ghost predicate WellNested<K(!new)>(ts: seq<Token<K>>) {
    exists t: Tree<K> :: Yield(t) == ts
  }

  /** Some continuation is well nested. */
  ghost predicate Viable<K(!new)>(ts: seq<Token<K>>) {
    exists more: seq<Token<K>> :: WellNested(ts + more)
  }

  /** The stack after a token, or None if the token closes something else than the top. */
  function Push<K(==)>(t: Token<K>, stack: seq<K>): Option<seq<K>> {
    match t
    case Plain => Some(stack)
    case Open(k) => Some(stack + [k])
    case Close(k) => if stack != [] && stack[|stack| - 1] == k then Some(stack[..|stack| - 1]) else None
  }

  function Run<K(==)>(ts: seq<Token<K>>, stack: seq<K>): Option<seq<K>> {
    if ts == [] then Some(stack)
    else
      var next := Push(ts[0], stack);
      if next.None? then None else Run(ts[1..], next.value)
  }

  lemma {:induction false} RunConcat<K>(a: seq<Token<K>>, b: seq<Token<K>>, stack: seq<K>)
    ensures Run(a + b, stack) == if Run(a, stack).None? then None else Run(b, Run(a, stack).value)
  {
    if a == [] {
      assert a + b == b;
    } else {
      assert (a + b)[1..] == a[1..] + b;
      var next := Push(a[0], stack);
      if next.Some? { RunConcat(a[1..], b, next.value); }
    }
  }

  lemma RunSnoc<K>(a: seq<Token<K>>, t: Token<K>, stack: seq<K>)
    ensures Run(a + [t], stack) == if Run(a, stack).None? then None else Push(t, Run(a, stack).value)
  {
    RunConcat(a, [t], stack);
    if Run(a, stack).Some? {
      var next := Push(t, Run(a, stack).value);
      assert [t][1..] == [];
      if next.Some? { assert Run([t][1..], next.value) == next; }
    }
  }

  /** A well-nested sequence leaves any stack as it found it. */
  lemma {:induction false} RunYield<K>(t: Tree<K>, stack: seq<K>)
    ensures Run(Yield(t), stack) == Some(stack)
  {
    match t
    case Empty =>
    case Text(rest) =>
      RunYield(rest, stack);
      assert Yield(t)[1..] == Yield(rest);
    case Nested(kind, inner, rest) =>
      var grown := stack + [kind];
      RunYield(inner, grown);
      RunYield(rest, stack);
      RunConcat([Open(kind)] + Yield(inner) + [Close(kind)], Yield(rest), stack);
      RunSnoc([Open(kind)] + Yield(inner), Close(kind), stack);
      RunSnoc([], Open(kind), stack);
      RunConcat([Open(kind)], Yield(inner), stack);
      assert [] + [Open(kind)] == [Open(kind)] && grown[..|stack|] == stack;
  }

  /** Trees around the closers of everything still open, innermost first. */
  function Weave<K>(trees: seq<Tree<K>>, stack: seq<K>): seq<Token<K>>
    requires |trees| == |stack| + 1
    decreases |stack|
  {
    if stack == [] then Yield(trees[0])
    else Yield(trees[0]) + [Close(stack[|stack| - 1])] + Weave(trees[1..], stack[..|stack| - 1])
  }

  /** Whatever empties the stack has this shape. */
  lemma {:induction false} Derive<K>(ts: seq<Token<K>>, stack: seq<K>) returns (trees: seq<Tree<K>>)
    requires Run(ts, stack) == Some([])
    ensures |trees| == |stack| + 1 && Weave(trees, stack) == ts
    decreases |ts|
  {
    if ts == [] { return [Empty]; }
    var next := Push(ts[0], stack).value;
    var more := Derive(ts[1..], next);
    match ts[0]
    case Plain =>
      trees := [Text(more[0])] + more[1..];
      assert trees[1..] == more[1..];
    case Open(k) =>
      trees := [Nested(k, more[0], more[1])] + more[2..];
      assert next[..|stack|] == stack && trees[1..] == more[1..][1..];
    case Close(k) =>
      trees := [Empty] + more;
      assert trees[1..] == more;
  }

  /** The stack recognises exactly the grammar. */
  lemma RecognisesGrammar<K(!new)>(ts: seq<Token<K>>)
    ensures WellNested(ts) <==> Run(ts, []) == Some([])
  {
    if WellNested(ts) {
      var t: Tree<K> :| Yield(t) == ts;
      RunYield(t, []);
    }
    if Run(ts, []) == Some([]) {
      var trees := Derive(ts, []);
      assert Yield(trees[0]) == ts;
    }
  }

  /** The closers that empty a stack. */
  function Closers<K>(stack: seq<K>): seq<Token<K>> {
    if stack == [] then [] else [Close(stack[|stack| - 1])] + Closers(stack[..|stack| - 1])
  }

  lemma {:induction false} ClosersEmpty<K>(stack: seq<K>)
    ensures Run(Closers(stack), stack) == Some([])
  {
    if stack != [] {
      ClosersEmpty(stack[..|stack| - 1]);
      assert Closers(stack)[1..] == Closers(stack[..|stack| - 1]);
    }
  }

  /** The stack survives exactly as long as some continuation is still well nested. */
  lemma SurvivesIffViable<K(!new)>(ts: seq<Token<K>>)
    ensures Viable(ts) <==> Run(ts, []).Some?
  {
    if Viable(ts) {
      var more: seq<Token<K>> :| WellNested(ts + more);
      RecognisesGrammar(ts + more);
      RunConcat(ts, more, []);
    }
    if Run(ts, []).Some? {
      var stack := Run(ts, []).value;
      ClosersEmpty(stack);
      RunConcat(ts, Closers(stack), []);
      RecognisesGrammar(ts + Closers(stack));
    }
  }
}
