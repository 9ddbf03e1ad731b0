/** Shared failure-free wrappers. */
module Wrappers {
  datatype Option<+T> = None | Some(value: T)
}

/** The fragment of Python's abstract syntax the refactorer rewrites, and the two metrics it
    measures on it.  Only the node kinds that matter to a rewrite or to a metric are kept. */
module PySyntax {
  import opened Wrappers

  datatype Literal = NoneLit | BoolLit(flag: bool) | IntLit(num: int) | StrLit(text: string)

  datatype CmpOp = Eq | NotEq | Lt | LtE | Gt | GtE | Is | IsNot | In | NotIn

  datatype BoolKind = And | Or

  datatype Expr =
    | Constant(lit: Literal)
    | Name(id: string)
    | Not(operand: Expr)
    | Compare(left: Expr, ops: seq<CmpOp>, comparators: seq<Expr>)
    | BoolOp(kind: BoolKind, values: seq<Expr>)
    | IfExp(test: Expr, body: Expr, orelse: Expr)
    | Tuple(elts: seq<Expr>)
    | Call(fn: string, args: seq<Expr>)
    | TableGet(table: string, key: Expr, default: Expr)  // `table.get(key, default)`

  datatype Stmt =
    | Assign(target: string, value: Expr)
    | Evaluate(value: Expr)
    | Return(result: Option<Expr>)
    | Assert(test: Expr, msg: Option<Expr>)
    | If(test: Expr, body: seq<Stmt>, orelse: seq<Stmt>)
    | While(test: Expr, body: seq<Stmt>)

  /** A function definition: the node whose `body` the transformers reassign. */
  class FunctionNode {
    const name: string
    const args: seq<string>    // positional parameters, in order
    const others: seq<string>  // positional-only, keyword-only and variadic parameters
    var body: seq<Stmt>

    constructor (name: string, args: seq<string>, others: seq<string>, body: seq<Stmt>)
      ensures this.name == name && this.args == args && this.others == others && this.body == body
    {
      this.name, this.args, this.others, this.body := name, args, others, body;
    }
  }

  /** A module-level item: a function, the synthesized dispatch table, or the synthesized helper. */
  datatype Item =
    | Def(node: FunctionNode)
    | TableDef(table: string, entries: seq<(Expr, Expr)>)
    | HelperDef(helper: string, params: seq<string>, test: Expr)
    | Other(stmt: Stmt)

  class ModuleNode {
    var body: seq<Item>

    constructor (body: seq<Item>)
      ensures this.body == body
    {
      this.body := body;
    }

    /** Both synthesized definitions go directly in front of the function they serve, or at the
        very front of the module when that function is nested in another item. */
    method InsertBefore(fn: FunctionNode, item: Item)
      modifies this
      ensures InsertedBefore(old(body), body, fn, item)
    {
      var idx := 0;
      var i := 0;
      while i < |body|
        invariant 0 <= i <= |body|
        invariant idx == 0 && Def(fn) !in body[..i]
      {
        if body[i] == Def(fn) {
          idx := i;
          break;
        }
        i := i + 1;
      }
      assert Def(fn) in body ==> body[idx] == Def(fn);
      body := body[..idx] + [item] + body[idx..];
      assert InsertedAt(old(body), body, idx, item);
    }
  }

  ghost predicate InsertedAt(before: seq<Item>, after: seq<Item>, slot: nat, item: Item) {
    slot <= |before| && after == before[..slot] + [item] + before[slot..]
  }

  ghost predicate InsertedBefore(before: seq<Item>, after: seq<Item>, fn: FunctionNode, item: Item) {
    exists slot: nat :: InsertedAt(before, after, slot, item)
      && (if Def(fn) in before
          then slot < |before| && before[slot] == Def(fn) && Def(fn) !in before[..slot]
          else slot == 0)
  }

  // ----- Cyclomatic complexity --------------------------------------------------------

  function OptWeight(e: Option<Expr>): nat {
    if e.Some? then ExprWeight(e.value) else 0
  }

  /** The sum of node weights over an expression tree: 1 for a conditional expression, one
      less than the operand count for a boolean operator. */
  function ExprWeight(e: Expr): nat
    decreases e, 1
  {
    match e
    case Constant(_) => 0
    case Name(_) => 0
    case Not(x) => ExprWeight(x)
    case Compare(l, _, cs) => ExprWeight(l) + ExprsWeight(cs)
    case BoolOp(_, vs) => (if |vs| == 0 then 0 else |vs| - 1) + ExprsWeight(vs)
    case IfExp(t, b, o) => 1 + ExprWeight(t) + ExprWeight(b) + ExprWeight(o)
    case Tuple(es) => ExprsWeight(es)
    case Call(_, args) => ExprsWeight(args)
    case TableGet(_, k, d) => ExprWeight(k) + ExprWeight(d)
  }

  function ExprsWeight(es: seq<Expr>): nat
    decreases es, 0
  {
    if es == [] then 0 else ExprWeight(es[0]) + ExprsWeight(es[1..])
  }

  function StmtWeight(s: Stmt): nat
    decreases s, 1
  {
    match s
    case Assign(_, v) => ExprWeight(v)
    case Evaluate(v) => ExprWeight(v)
    case Return(r) => OptWeight(r)
    case Assert(t, m) => 1 + ExprWeight(t) + OptWeight(m)
    case If(t, b, o) => 1 + ExprWeight(t) + BodyWeight(b) + BodyWeight(o)
    case While(t, b) => 1 + ExprWeight(t) + BodyWeight(b)
  }

  function BodyWeight(ss: seq<Stmt>): nat
    decreases ss, 0
  {
    if ss == [] then 0 else StmtWeight(ss[0]) + BodyWeight(ss[1..])
  }

  /** McCabe's M of a function: one plus the weight of every node below it. */
  function Complexity(body: seq<Stmt>): nat { 1 + BodyWeight(body) }

  lemma {:induction false} BodyWeightConcat(a: seq<Stmt>, b: seq<Stmt>)
    ensures BodyWeight(a + b) == BodyWeight(a) + BodyWeight(b)
  {
    if a == [] {
      assert a + b == b;
    } else {
      assert (a + b)[1..] == a[1..] + b;
      BodyWeightConcat(a[1..], b);
    }
  }

  lemma {:induction false} ExprsWeightConcat(a: seq<Expr>, b: seq<Expr>)
    ensures ExprsWeight(a + b) == ExprsWeight(a) + ExprsWeight(b)
  {
    if a == [] {
      assert a + b == b;
    } else {
      assert (a + b)[1..] == a[1..] + b;
      ExprsWeightConcat(a[1..], b);
    }
  }

  // ----- Nesting depth ----------------------------------------------------------------

  function Max(a: nat, b: nat): nat { if a < b then b else a }

  function WalkDepth(s: Stmt, depth: nat): nat
    decreases s, 1
  {
    match s
    case If(_, b, o) => Max(BodyDepth(b, depth + 1), BodyDepth(o, depth + 1))
    case While(_, b) => BodyDepth(b, depth + 1)
    case _ => depth
  }

  /** The deepest level reached below a block standing at `depth`. */
  function BodyDepth(ss: seq<Stmt>, depth: nat): nat
    decreases ss, 0
  {
    if ss == [] then depth else Max(WalkDepth(ss[0], depth), BodyDepth(ss[1..], depth))
  }

  function NestingDepth(body: seq<Stmt>): nat { BodyDepth(body, 1) }

  lemma {:induction false} BodyDepthConcat(a: seq<Stmt>, b: seq<Stmt>, depth: nat)
    ensures BodyDepth(a + b, depth) == Max(BodyDepth(a, depth), BodyDepth(b, depth))
  {
    BodyDepthAtLeast(b, depth);
    if a == [] {
      assert a + b == b;
    } else {
      assert (a + b)[1..] == a[1..] + b;
      BodyDepthConcat(a[1..], b, depth);
    }
  }

  lemma {:induction false} BodyDepthAtLeast(ss: seq<Stmt>, depth: nat)
    ensures depth <= BodyDepth(ss, depth)
  {
    if ss != [] { BodyDepthAtLeast(ss[1..], depth); }
  }

  /** Moving a block one level out never makes it deeper. */
  lemma {:induction false} DepthMonotone(ss: seq<Stmt>, d: nat, e: nat)
    requires d <= e
    ensures BodyDepth(ss, d) <= BodyDepth(ss, e)
    decreases ss
  {
    if ss != [] {
      match ss[0] {
        case If(_, b, o) =>
          DepthMonotone(b, d + 1, e + 1);
          DepthMonotone(o, d + 1, e + 1);
        case While(_, b) => DepthMonotone(b, d + 1, e + 1);
        case _ =>
      }
      DepthMonotone(ss[1..], d, e);
    }
  }
}
