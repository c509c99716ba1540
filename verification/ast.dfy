/**
 * The abstract syntax tree: immediate values, variables and operation nodes;
 * applying an operation to evaluated arguments; evaluation with variable
 * bindings; the canonical text rendering; argument access.
 */
module Ast {
  import opened Wrappers
  import opened Operations
  import opened Values
  import Builtins
  import GcdLcm

  datatype Node =
    | Imm(value: real)
    | Var(name: string)
    | Apply(op: Operation, args: seq<Node>)

  /** The rewrite measure: one per leaf, two plus the children's weights per operation node. */
  function Weight(n: Node): (w: nat)
    ensures w >= 1
    ensures n.Apply? ==> w >= 2
    decreases n, 1
  {
    match n
    case Apply(_, args) => 2 + WeightSum(args)
    case _ => 1
  }

  function WeightSum(ns: seq<Node>): nat
    decreases ns, 0
  {
    if |ns| == 0 then 0 else Weight(ns[0]) + WeightSum(ns[1..])
  }

  /** Every child weighs less than its parent. */
  lemma {:induction false} WeightSumBounds(ns: seq<Node>, i: nat)
    requires i < |ns|
    ensures Weight(ns[i]) <= WeightSum(ns)
    decreases |ns|
  {
    if i > 0 {
      WeightSumBounds(ns[1..], i - 1);
    }
  }

  /** Replacing one child by a lighter one lowers the sum. */
  lemma {:induction false} WeightSumReplace(ns: seq<Node>, i: nat, x: Node)
    requires i < |ns|
    ensures WeightSum(ns[i := x]) == WeightSum(ns) - Weight(ns[i]) + Weight(x)
    decreases |ns|
  {
    if i > 0 {
      assert ns[i := x][1..] == ns[1..][i - 1 := x];
      WeightSumReplace(ns[1..], i - 1, x);
    } else {
      assert ns[i := x][1..] == ns[1..];
    }
  }

  // ------------------------------------------------------------ operations

  /** How many evaluated arguments each built-in kind reads. */
  function Needed(k: Kind): nat {
    match k
    case Add => 2 case Sub => 2 case Mul => 2 case Div => 2 case Pow => 2
    case And => 2 case Or => 2 case Nand => 2 case Nor => 2 case Xor => 2
    case LessEq => 2 case Equal => 2
    case Indicator => 3 case ArithmeticSeq => 3 case GeometricSeq => 3
    case Polynomial => 0 case Other => 0
    case _ => 1
  }

  function FromResult(r: Result<real, EvalError>): OpResult {
    match r
    case Success(v) => Value(v)
    case Failure(e) => Raised(e)
  }

  /** `x` is a natural number, the exponents `Math.pow` agrees with `RealPow` on. */
  predicate IsNatural(x: real) {
    x == x.Floor as real && x >= 0.0
  }

  /**
   * `operation.evaluate(args)`. Kinds outside this model, division by zero and
   * powers with a non-natural exponent are answered by `foreign`; too few
   * arguments is the array index crash.
   */
  function EvalOp(op: Operation, args: seq<real>, foreign: Foreign): (r: OpResult)
    ensures |args| < Needed(op.kind) ==> r == Raised(Malformed(op.name))
    ensures op.kind == Other ==> r == foreign(op, args)
  {
    if |args| < Needed(op.kind) then Raised(Malformed(op.name))
    else
      match op.kind
      case Add => Value(args[0] + args[1])
      case Sub => Value(args[0] - args[1])
      case Negate => Value(-args[0])
      case Mul => Value(args[0] * args[1])
      case Div => if args[1] == 0.0 then foreign(op, args) else Value(args[0] / args[1])
      case Pow => if IsNatural(args[1]) then Value(RealPow(args[0], args[1].Floor)) else foreign(op, args)
      case And => Value(Builtins.And(args[0], args[1]))
      case Or => Value(Builtins.Or(args[0], args[1]))
      case Nand => Value(Builtins.Nand(args[0], args[1]))
      case Nor => Value(Builtins.Nor(args[0], args[1]))
      case Xor => Value(Builtins.Xor(args[0], args[1]))
      case Not => Value(Builtins.Not(args[0]))
      case LessEq => Value(Builtins.LessEq(args[0], args[1]))
      case Equal => Value(Builtins.Equal(args[0], args[1]))
      case ToLogical => Value(Builtins.ToLogical(args))
      case Abs => Value(Builtins.Abs(args))
      case Indicator => Value(Builtins.Indicator(args))
      case Minimum => Value(Builtins.Minimum(args))
      case Polynomial => Value(Builtins.Polynomial(args))
      case Gcd => FromResult(GcdLcm.Gcd(args))
      case Lcm => FromResult(GcdLcm.Lcm(args))
      case Fibonacci => FromResult(Builtins.Fibonacci(args))
      case Factorial => FromResult(Builtins.Factorial(args))
      case ArithmeticSeq => FromResult(Builtins.ArithmeticSeq(args))
      case GeometricSeq => FromResult(Builtins.GeometricSeq(args))
      case Other => foreign(op, args)
  }

  /** Built-in kinds never yield `null`; only the foreign oracle can. */
  lemma BuiltinsNeverNull(op: Operation, args: seq<real>, foreign: Foreign)
    requires EvalOp(op, args, foreign) == NoResult
    ensures op.kind in {Other, Div, Pow}
  {
  }

  // ------------------------------------------------------------- evaluation

  /**
   * `evaluate(substitutions)`: every argument in index order, the first failure
   * propagating, then the operation; a `null` result is an error naming the operation.
   */
  function Evaluate(n: Node, bindings: map<string, real>, foreign: Foreign): Result<real, EvalError>
    decreases n, 1
  {
    match n
    case Imm(v) => Success(v)
    case Var(x) => if x in bindings then Success(bindings[x]) else Failure(UnboundVariable(x))
    case Apply(op, args) =>
      var vs :- EvalArgs(args, bindings, foreign);
      match EvalOp(op, vs, foreign)
      case Value(v) => Success(v)
      case NoResult => Failure(NoValue(op.name))
      case Raised(e) => Failure(e)
  }

  function EvalArgs(ns: seq<Node>, bindings: map<string, real>, foreign: Foreign): Result<seq<real>, EvalError>
    decreases ns, 0
  {
    if |ns| == 0 then Success([])
    else
      var v :- Evaluate(ns[0], bindings, foreign);
      var vs :- EvalArgs(ns[1..], bindings, foreign);
      Success([v] + vs)
  }

  /**
   * The arguments evaluate exactly when each one does, to their values in order;
   * a failure is the failure of the first argument that fails.
   */
  lemma {:induction false} EvalArgsInOrder(ns: seq<Node>, bindings: map<string, real>, foreign: Foreign)
    ensures var r := EvalArgs(ns, bindings, foreign);
      && (r.Success? <==> forall i :: 0 <= i < |ns| ==> Evaluate(ns[i], bindings, foreign).Success?)
      && (r.Success? ==> |r.value| == |ns| && forall i :: 0 <= i < |ns| ==> r.value[i] == Evaluate(ns[i], bindings, foreign).value)
      && (r.Failure? ==> exists i :: 0 <= i < |ns| && Evaluate(ns[i], bindings, foreign).Failure?
                          && r.error == Evaluate(ns[i], bindings, foreign).error
                          && forall j :: 0 <= j < i ==> Evaluate(ns[j], bindings, foreign).Success?)
    decreases |ns|
  {
    if |ns| > 0 {
      EvalArgsInOrder(ns[1..], bindings, foreign);
      var r := EvalArgs(ns, bindings, foreign);
      var first := Evaluate(ns[0], bindings, foreign);
      if first.Success? {
        var rest := EvalArgs(ns[1..], bindings, foreign);
        if rest.Failure? {
          var k :| 0 <= k < |ns[1..]| && Evaluate(ns[1..][k], bindings, foreign).Failure?
                   && rest.error == Evaluate(ns[1..][k], bindings, foreign).error
                   && forall j :: 0 <= j < k ==> Evaluate(ns[1..][j], bindings, foreign).Success?;
          assert r.error == Evaluate(ns[k + 1], bindings, foreign).error;
          forall j | 0 <= j < k + 1
            ensures Evaluate(ns[j], bindings, foreign).Success?
          {
            if j > 0 {
              assert ns[j] == ns[1..][j - 1];
            }
          }
        } else {
          forall i | 0 <= i < |ns|
            ensures Evaluate(ns[i], bindings, foreign).Success?
          {
            if i > 0 {
              assert ns[i] == ns[1..][i - 1];
            }
          }
        }
      }
    }
  }

  /** The variables a tree reads. */
  function Vars(n: Node): set<string>
    decreases n, 1
  {
    match n
    case Imm(_) => {}
    case Var(x) => {x}
    case Apply(_, args) => VarsOf(args)
  }

  function VarsOf(ns: seq<Node>): set<string>
    decreases ns, 0
  {
    if |ns| == 0 then {} else Vars(ns[0]) + VarsOf(ns[1..])
  }

  /** Two binding maps that agree on the variables of the tree. */
  predicate AgreeOn(vars: set<string>, b1: map<string, real>, b2: map<string, real>) {
    forall x :: x in vars ==> (x in b1 <==> x in b2) && (x in b1 ==> b1[x] == b2[x])
  }

  /** Evaluation reads only the bindings of the tree's own variables. */
  lemma {:induction false} EvaluateReadsOnlyItsVariables(n: Node, b1: map<string, real>, b2: map<string, real>, foreign: Foreign)
    requires AgreeOn(Vars(n), b1, b2)
    ensures Evaluate(n, b1, foreign) == Evaluate(n, b2, foreign)
    decreases n, 1
  {
    match n
    case Imm(_) =>
    case Var(x) =>
    case Apply(op, args) =>
      EvalArgsReadOnlyTheirVariables(args, b1, b2, foreign);
  }

  lemma {:induction false} EvalArgsReadOnlyTheirVariables(ns: seq<Node>, b1: map<string, real>, b2: map<string, real>, foreign: Foreign)
    requires AgreeOn(VarsOf(ns), b1, b2)
    ensures EvalArgs(ns, b1, foreign) == EvalArgs(ns, b2, foreign)
    decreases ns, 0
  {
    if |ns| > 0 {
      EvaluateReadsOnlyItsVariables(ns[0], b1, b2, foreign);
      EvalArgsReadOnlyTheirVariables(ns[1..], b1, b2, foreign);
    }
  }

  /** An unbound variable, alone or under negation, is reported by name. */
  lemma UnboundVariableReported(x: string, bindings: map<string, real>, foreign: Foreign)
    requires x !in bindings
    ensures Evaluate(Var(x), bindings, foreign) == Failure(UnboundVariable(x))
    ensures Evaluate(Apply(NegateOperation, [Var(x)]), bindings, foreign) == Failure(UnboundVariable(x))
  {
    assert [Var(x)][1..] == [];
  }

  /** Evaluation fails whenever some variable of the tree has no binding. */
  lemma {:induction false} UnboundVariableFails(n: Node, x: string, bindings: map<string, real>, foreign: Foreign)
    requires x in Vars(n) && x !in bindings
    ensures Evaluate(n, bindings, foreign).Failure?
    decreases n, 1
  {
    match n
    case Var(_) =>
    case Apply(_, args) =>
      UnboundArgumentFails(args, x, bindings, foreign);
  }

  lemma {:induction false} UnboundArgumentFails(ns: seq<Node>, x: string, bindings: map<string, real>, foreign: Foreign)
    requires x in VarsOf(ns) && x !in bindings
    ensures EvalArgs(ns, bindings, foreign).Failure?
    decreases ns, 0
  {
    if x in Vars(ns[0]) {
      UnboundVariableFails(ns[0], x, bindings, foreign);
    } else {
      UnboundArgumentFails(ns[1..], x, bindings, foreign);
    }
  }

  /** The same, for the set of variables: evaluation needs a binding for every one of them. */
  lemma UnsetVariablesFail(n: Node, bindings: map<string, real>, foreign: Foreign)
    ensures !(Vars(n) <= bindings.Keys) ==> Evaluate(n, bindings, foreign).Failure?
  {
    if !(Vars(n) <= bindings.Keys) {
      var x :| x in Vars(n) && x !in bindings.Keys;
      UnboundVariableFails(n, x, bindings, foreign);
    }
  }

  /** The oracle never claims a variable is unbound: it sees only numbers. */
  ghost predicate ReportsNoVariables(foreign: Foreign) {
    forall op: Operation, vs: seq<real> :: !(foreign(op, vs).Raised? && foreign(op, vs).error.UnboundVariable?)
  }

  /** Only an unbound variable of the tree can be reported as unbound. */
  lemma {:induction false} UnboundReportIsGenuine(n: Node, x: string, bindings: map<string, real>, foreign: Foreign)
    requires ReportsNoVariables(foreign)
    requires Evaluate(n, bindings, foreign) == Failure(UnboundVariable(x))
    ensures x in Vars(n) && x !in bindings
    decreases n, 1
  {
    match n
    case Var(_) =>
    case Apply(op, args) =>
      var vs := EvalArgs(args, bindings, foreign);
      if vs.Failure? {
        UnboundArgumentReportIsGenuine(args, x, bindings, foreign);
      } else {
        EvalOpReportsNoVariables(op, vs.value, foreign);
      }
  }

  lemma {:induction false} UnboundArgumentReportIsGenuine(ns: seq<Node>, x: string, bindings: map<string, real>, foreign: Foreign)
    requires ReportsNoVariables(foreign)
    requires EvalArgs(ns, bindings, foreign) == Failure(UnboundVariable(x))
    ensures x in VarsOf(ns) && x !in bindings
    decreases ns, 0
  {
    if Evaluate(ns[0], bindings, foreign).Failure? {
      UnboundReportIsGenuine(ns[0], x, bindings, foreign);
    } else {
      UnboundArgumentReportIsGenuine(ns[1..], x, bindings, foreign);
    }
  }

  /** No built-in reports an unbound variable. */
  lemma EvalOpReportsNoVariables(op: Operation, vs: seq<real>, foreign: Foreign)
    requires ReportsNoVariables(foreign)
    ensures !(EvalOp(op, vs, foreign).Raised? && EvalOp(op, vs, foreign).error.UnboundVariable?)
  {
  }

  /** A `null` from the operation becomes an error naming it. */
  lemma NullResultReported(op: Operation, args: seq<Node>, bindings: map<string, real>, foreign: Foreign)
    requires EvalArgs(args, bindings, foreign).Success?
    requires EvalOp(op, EvalArgs(args, bindings, foreign).value, foreign) == NoResult
    ensures Evaluate(Apply(op, args), bindings, foreign) == Failure(NoValue(op.name))
  {
  }

  // -------------------------------------------------------------- rendering

  /** The tag in front of an operation node's name. */
  function Tag(op: Operation): string {
    match op
    case Fn(_, _) => "[Function] "
    case Op(_, _, Infix) => "[BinaryOperator] "
    case Op(_, _, _) => "[UnaryOperator] "
  }

  lemma TagSingleLine(op: Operation)
    ensures Count('\n', Tag(op)) == 0
  {
    CountAbsent('\n', Tag(op));
  }

  /** `replaceAll("\n", "\n   ")`. */
  function Indent(s: string): string {
    if |s| == 0 then []
    else (if s[0] == '\n' then "\n   " else [s[0]]) + Indent(s[1..])
  }

  function Count(c: char, s: string): nat {
    if |s| == 0 then 0 else (if s[0] == c then 1 else 0) + Count(c, s[1..])
  }

  lemma {:induction false} CountAppend(c: char, a: string, b: string)
    ensures Count(c, a + b) == Count(c, a) + Count(c, b)
  {
    if |a| > 0 {
      assert (a + b)[1..] == a[1..] + b;
      CountAppend(c, a[1..], b);
    } else {
      assert a + b == b;
    }
  }

  /** Indenting adds no line breaks. */
  lemma {:induction false} IndentCount(s: string)
    ensures Count('\n', Indent(s)) == Count('\n', s)
  {
    if |s| > 0 {
      IndentCount(s[1..]);
      if s[0] == '\n' {
        CountAppend('\n', "\n   ", Indent(s[1..]));
        assert "\n   "[1..] == "   ";
        CountAbsent('\n', "   ");
      } else {
        CountAppend('\n', [s[0]], Indent(s[1..]));
      }
    }
  }

  lemma {:induction false} CountAbsent(c: char, s: string)
    requires forall k :: 0 <= k < |s| ==> s[k] != c
    ensures Count(c, s) == 0
  {
    if |s| > 0 {
      CountAbsent(c, s[1..]);
    }
  }

  /** Indenting distributes over concatenation, so every child line gets the same three spaces. */
  lemma {:induction false} IndentAppend(a: string, b: string)
    ensures Indent(a + b) == Indent(a) + Indent(b)
  {
    if |a| > 0 {
      assert (a + b)[1..] == a[1..] + b;
      IndentAppend(a[1..], b);
    } else {
      assert a + b == b;
    }
  }

  /**
   * `toString()`: the tag, the operation's name, then every child on a line of
   * its own, each of its lines indented by three spaces. Leaves are rendered by
   * `leaf` (their classes are not part of this model).
   */
  function Render(n: Node, leaf: Node -> string): string
    decreases n, 1
  {
    match n
    case Apply(op, args) => Tag(op) + op.name + Indent(RenderChildren(args, leaf))
    case _ => leaf(n)
  }

  /** `"\n" + child` for every child, in order. */
  function RenderChildren(ns: seq<Node>, leaf: Node -> string): string
    decreases ns, 0
  {
    if |ns| == 0 then [] else "\n" + Render(ns[0], leaf) + RenderChildren(ns[1..], leaf)
  }

  /** The number of nodes. */
  function Size(n: Node): nat
    decreases n, 1
  {
    match n
    case Apply(_, args) => 1 + SizeOf(args)
    case _ => 1
  }

  function SizeOf(ns: seq<Node>): nat
    decreases ns, 0
  {
    if |ns| == 0 then 0 else Size(ns[0]) + SizeOf(ns[1..])
  }

  /** Names and leaf texts are single lines. */
  ghost predicate SingleLines(n: Node, leaf: Node -> string)
    decreases n, 1
  {
    match n
    case Apply(op, args) => Count('\n', op.name) == 0 && forall i :: 0 <= i < |args| ==> SingleLines(args[i], leaf)
    case _ => Count('\n', leaf(n)) == 0
  }

  /** The rendering puts every node on a line of its own: one line break fewer than nodes. */
  lemma {:induction false} RenderLines(n: Node, leaf: Node -> string)
    requires SingleLines(n, leaf)
    ensures Count('\n', Render(n, leaf)) == Size(n) - 1
    decreases n, 1
  {
    match n
    case Apply(op, args) =>
      RenderChildrenLines(args, leaf);
      IndentCount(RenderChildren(args, leaf));
      CountAppend('\n', Tag(op), op.name);
      CountAppend('\n', Tag(op) + op.name, Indent(RenderChildren(args, leaf)));
      TagSingleLine(op);
    case _ =>
  }

  lemma {:induction false} RenderChildrenLines(ns: seq<Node>, leaf: Node -> string)
    requires forall i :: 0 <= i < |ns| ==> SingleLines(ns[i], leaf)
    ensures Count('\n', RenderChildren(ns, leaf)) == SizeOf(ns)
    decreases ns, 0
  {
    if |ns| > 0 {
      RenderLines(ns[0], leaf);
      RenderChildrenLines(ns[1..], leaf);
      CountAppend('\n', "\n", Render(ns[0], leaf));
      CountAppend('\n', "\n" + Render(ns[0], leaf), RenderChildren(ns[1..], leaf));
    }
  }

  // ------------------------------------------------------- argument access

  /** `getArgument(i)`: `null` outside `0 <= i < count`. */
  function GetArgument(args: seq<Node>, i: int): (r: Option<Node>)
    ensures r.None? <==> i < 0 || i >= |args|
  {
    if 0 <= i < |args| then Some(args[i]) else None
  }

  /** `setArgument(i, x)`: a no-op outside the range, otherwise slot `i` is replaced. */
  function SetArgument(args: seq<Node>, i: int, x: Node): (r: seq<Node>)
    ensures |r| == |args|
  {
    if 0 <= i < |args| then args[i := x] else args
  }

  /** Reading back a slot after writing it: the written node there, every other slot unchanged. */
  lemma SetThenGet(args: seq<Node>, i: int, x: Node, j: int)
    ensures 0 <= i < |args| ==> GetArgument(SetArgument(args, i, x), i) == Some(x)
    ensures j != i || !(0 <= i < |args|) ==> GetArgument(SetArgument(args, i, x), j) == GetArgument(args, j)
  {
  }
}
