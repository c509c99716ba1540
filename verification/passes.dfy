/**
 * The two built-in optimization passes. A pass looks at one node and answers
 * either a replacement or `None` (the source's `null`, "no change"):
 * binary-operator simplification, which rewrites a two-operand operator with a
 * literal operand, and constant folding, which evaluates an operation whose
 * operands are all literals.
 */
module Passes {
  import opened Wrappers
  import opened Operations
  import opened Values
  import opened Ast

  // -------------------------------------------------------------- helpers

  /** The value of a literal operand, `None` for anything else. */
  function Literal(n: Node): Option<real> {
    if n.Imm? then Some(n.value) else None
  }

  /** `isTrue`: a literal of at least one. */
  predicate IsTrue(v: Option<real>) {
    v.Some? && v.value >= 1.0
  }

  /** `isFalse`: a literal below one. */
  predicate IsFalse(v: Option<real>) {
    v.Some? && v.value < 1.0
  }

  /** `isEqual`: a literal equal to `c`. */
  predicate IsEqual(v: Option<real>, c: real) {
    v.Some? && v.value == c
  }

  function ToLogicalOf(x: Node): Node { Apply(ToLogicalOperation, [x]) }
  function NotOf(x: Node): Node { Apply(NotOperation, [x]) }
  function NegationOf(x: Node): Node { Apply(NegateOperation, [x]) }

  /** The node an operation `Value`, `null` or exception becomes under evaluation. */
  function Lift(op: Operation, o: OpResult): Result<real, EvalError> {
    match o
    case Value(v) => Success(v)
    case NoResult => Failure(NoValue(op.name))
    case Raised(e) => Failure(e)
  }

  lemma PairWeight(op: Operation, l: Node, r: Node)
    ensures Weight(Apply(op, [l, r])) == 2 + Weight(l) + Weight(r)
  {
    assert [l, r][1..] == [r];
    assert [r][1..] == [];
    assert WeightSum([r]) == Weight(r) + WeightSum([]);
    assert WeightSum([l, r]) == Weight(l) + WeightSum([r]);
  }

  lemma SingleWeight(op: Operation, x: Node)
    ensures Weight(Apply(op, [x])) == 2 + Weight(x)
  {
    assert [x][1..] == [];
    assert WeightSum([x]) == Weight(x) + WeightSum([]);
  }

  /** Evaluating a two-operand node: left first, then right, then the operation. */
  lemma EvalPair(op: Operation, l: Node, r: Node, b: map<string, real>, f: Foreign)
    ensures Evaluate(l, b, f).Failure? ==> Evaluate(Apply(op, [l, r]), b, f) == Failure(Evaluate(l, b, f).error)
    ensures Evaluate(l, b, f).Success? && Evaluate(r, b, f).Failure? ==>
      Evaluate(Apply(op, [l, r]), b, f) == Failure(Evaluate(r, b, f).error)
    ensures Evaluate(l, b, f).Success? && Evaluate(r, b, f).Success? ==>
      Evaluate(Apply(op, [l, r]), b, f) == Lift(op, EvalOp(op, [Evaluate(l, b, f).value, Evaluate(r, b, f).value], f))
  {
    assert [l, r][1..] == [r];
    assert [r][1..] == [];
    var el, er := Evaluate(l, b, f), Evaluate(r, b, f);
    if el.Success? && er.Success? {
      assert [er.value] + [] == [er.value];
      assert EvalArgs([r], b, f) == Success([er.value]);
      assert [l, r][0] == l;
      assert EvalArgs([l, r], b, f) == Success([el.value] + [er.value]);
      assert [el.value] + [er.value] == [el.value, er.value];
    } else if el.Success? {
      assert EvalArgs([r], b, f) == Failure(er.error);
      assert EvalArgs([l, r], b, f) == Failure(er.error);
    }
  }

  /** Evaluating a one-operand node. */
  lemma EvalSingle(op: Operation, x: Node, b: map<string, real>, f: Foreign)
    ensures Evaluate(x, b, f).Failure? ==> Evaluate(Apply(op, [x]), b, f) == Failure(Evaluate(x, b, f).error)
    ensures Evaluate(x, b, f).Success? ==>
      Evaluate(Apply(op, [x]), b, f) == Lift(op, EvalOp(op, [Evaluate(x, b, f).value], f))
  {
    assert [x][1..] == [];
    var ex := Evaluate(x, b, f);
    if ex.Success? {
      assert EvalArgs([x], b, f) == Success([ex.value] + []);
      assert [ex.value] + [] == [ex.value];
    }
  }

  // ------------------------------------------------ operator simplification

  /**
   * The guard of the simplification pass: an operator (not a function) node
   * with exactly two operands, at least one of them a literal.
   */
  predicate Guarded(n: Node) {
    n.Apply? && n.op.Op? && |n.args| == 2 && (n.args[0].Imm? || n.args[1].Imm?)
  }

  /** What a rewrite may produce from operands `l` and `r`. */
  predicate Reduced(l: Node, r: Node, m: Node) {
    || m == l || m == r
    || m == Imm(0.0) || m == Imm(1.0)
    || m == ToLogicalOf(l) || m == ToLogicalOf(r)
    || m == NotOf(l) || m == NotOf(r)
    || m == NegationOf(r)
  }

  /** The per-operator rules, tried in the source's order; `None` when no rule matches. */
  function Rewrite(kind: Kind, l: Node, r: Node): (res: Option<Node>)
    ensures res.Some? ==> Reduced(l, r, res.value)
  {
    var lv, rv := Literal(l), Literal(r);
    match kind
    case Add =>
      if IsEqual(lv, 0.0) then Some(r)
      else if IsEqual(rv, 0.0) then Some(l)
      else None
    case And =>
      if IsTrue(lv) then Some(ToLogicalOf(r))
      else if IsTrue(rv) then Some(ToLogicalOf(l))
      else if IsFalse(lv) || IsFalse(rv) then Some(Imm(0.0))
      else None
    case Div =>
      if IsEqual(rv, 1.0) then Some(l) else None
    case Mul =>
      if IsEqual(lv, 0.0) || IsEqual(rv, 0.0) then Some(Imm(0.0))
      else if IsEqual(lv, 1.0) then Some(r)
      else if IsEqual(rv, 1.0) then Some(l)
      else None
    case Nand =>
      if IsTrue(lv) then Some(NotOf(r))
      else if IsTrue(rv) then Some(NotOf(l))
      else if IsFalse(lv) || IsFalse(rv) then Some(Imm(1.0))
      else None
    case Nor =>
      if IsTrue(lv) || IsTrue(rv) then Some(Imm(0.0))
      else if IsFalse(lv) then Some(NotOf(r))
      else if IsFalse(rv) then Some(NotOf(l))
      else None
    case Or =>
      if IsTrue(lv) || IsTrue(rv) then Some(Imm(1.0))
      else if IsFalse(lv) then Some(ToLogicalOf(r))
      else if IsFalse(rv) then Some(ToLogicalOf(l))
      else None
    case Pow =>
      if IsEqual(rv, 0.0) then Some(Imm(1.0))
      else if IsEqual(rv, 1.0) then Some(l)
      else if IsEqual(lv, 0.0) then Some(Imm(0.0))
      else if IsEqual(lv, 1.0) then Some(Imm(1.0))
      else None
    case Sub =>
      if IsEqual(lv, 0.0) then Some(NegationOf(r))
      else if IsEqual(rv, 0.0) then Some(l)
      else None
    case Xor =>
      if IsFalse(lv) then Some(ToLogicalOf(r))
      else if IsFalse(rv) then Some(ToLogicalOf(l))
      else if IsTrue(lv) then Some(NotOf(r))
      else if IsTrue(rv) then Some(NotOf(l))
      else None
    case _ => None
  }

  /**
   * `BinaryOperatorSimplifying.run`: declines outside the guard; otherwise the
   * rule of the operator's kind decides. Every rewrite is an operand, the
   * literal 0 or 1, or a one-operand wrapper around an operand.
   */
  function Simplify(n: Node): (r: Option<Node>)
    ensures r.Some? ==> Guarded(n)
    ensures r.Some? ==> Reduced(n.args[0], n.args[1], r.value)
  {
    if Guarded(n) then Rewrite(n.op.kind, n.args[0], n.args[1]) else None
  }

  /** Every rewrite of the simplification pass weighs strictly less than the node it replaces. */
  lemma SimplifyShrinks(n: Node)
    requires Simplify(n).Some?
    ensures Weight(Simplify(n).value) < Weight(n)
  {
    var l, r := n.args[0], n.args[1];
    assert n == Apply(n.op, [l, r]);
    PairWeight(n.op, l, r);
    SingleWeight(ToLogicalOperation, l);
    SingleWeight(ToLogicalOperation, r);
    SingleWeight(NotOperation, l);
    SingleWeight(NotOperation, r);
    SingleWeight(NegateOperation, r);
  }

  /** A logical operator with a literal operand is always rewritten: the literal is either true or false. */
  lemma LogicAlwaysRewrites(n: Node)
    requires Guarded(n) && n.op.kind in {And, Or, Nand, Nor, Xor}
    ensures Simplify(n).Some?
  {
  }

  /** Arithmetic rewrites keep the value of every expression that evaluates. */
  lemma {:induction false} ArithmeticRewritesSound(n: Node, b: map<string, real>, f: Foreign)
    requires Simplify(n).Some? && n.op.kind in {Add, Sub, Mul, Div}
    requires Evaluate(n, b, f).Success?
    ensures Evaluate(Simplify(n).value, b, f) == Evaluate(n, b, f)
  {
    var l, r := n.args[0], n.args[1];
    assert n == Apply(n.op, [l, r]);
    EvalPair(n.op, l, r, b, f);
    EvalSingle(NegateOperation, r, b, f);
  }

  /** Logical rewrites keep the value of every expression that evaluates. */
  lemma LogicRewritesSound(n: Node, b: map<string, real>, f: Foreign)
    requires Simplify(n).Some? && n.op.kind in {And, Or, Nand, Nor, Xor}
    requires Evaluate(n, b, f).Success?
    ensures Evaluate(Simplify(n).value, b, f) == Evaluate(n, b, f)
  {
    if n.op.kind in {And, Or} {
      ToLogicalRewritesSound(n, b, f);
    } else if n.op.kind == Xor {
      XorRewritesSound(n, b, f);
    } else {
      NegatingRewritesSound(n, b, f);
    }
  }

  lemma ToLogicalRewritesSound(n: Node, b: map<string, real>, f: Foreign)
    requires Simplify(n).Some? && n.op.kind in {And, Or}
    requires Evaluate(n, b, f).Success?
    ensures Evaluate(Simplify(n).value, b, f) == Evaluate(n, b, f)
  {
    var l, r := n.args[0], n.args[1];
    assert n == Apply(n.op, [l, r]);
    EvalPair(n.op, l, r, b, f);
    var m := Simplify(n).value;
    if m == ToLogicalOf(r) {
      EvalSingle(ToLogicalOperation, r, b, f);
    } else if m == ToLogicalOf(l) {
      EvalSingle(ToLogicalOperation, l, b, f);
    }
  }

  lemma NegatingRewritesSound(n: Node, b: map<string, real>, f: Foreign)
    requires Simplify(n).Some? && n.op.kind in {Nand, Nor}
    requires Evaluate(n, b, f).Success?
    ensures Evaluate(Simplify(n).value, b, f) == Evaluate(n, b, f)
  {
    var l, r := n.args[0], n.args[1];
    assert n == Apply(n.op, [l, r]);
    EvalPair(n.op, l, r, b, f);
    var m := Simplify(n).value;
    if m == NotOf(r) {
      EvalSingle(NotOperation, r, b, f);
    } else if m == NotOf(l) {
      EvalSingle(NotOperation, l, b, f);
    }
  }

  lemma XorRewritesSound(n: Node, b: map<string, real>, f: Foreign)
    requires Simplify(n).Some? && n.op.kind == Xor
    requires Evaluate(n, b, f).Success?
    ensures Evaluate(Simplify(n).value, b, f) == Evaluate(n, b, f)
  {
    var l, r := n.args[0], n.args[1];
    assert n == Apply(n.op, [l, r]);
    EvalPair(n.op, l, r, b, f);
    var lv, rv := Literal(l), Literal(r);
    if IsFalse(lv) {
      EvalSingle(ToLogicalOperation, r, b, f);
    } else if IsFalse(rv) {
      EvalSingle(ToLogicalOperation, l, b, f);
    } else if IsTrue(lv) {
      EvalSingle(NotOperation, r, b, f);
    } else {
      EvalSingle(NotOperation, l, b, f);
    }
  }

  lemma {:induction false} PowerOfOne(k: nat)
    ensures RealPow(1.0, k) == 1.0
  {
    if k > 0 {
      PowerOfOne(k - 1);
    }
  }

  /** The rule `0^x -> 0` is the one taken: a literal zero base, an exponent that is not a literal 0 or 1. */
  predicate ZeroBaseRule(n: Node) {
    && n.Apply? && |n.args| == 2
    && IsEqual(Literal(n.args[0]), 0.0)
    && !IsEqual(Literal(n.args[1]), 0.0) && !IsEqual(Literal(n.args[1]), 1.0)
  }

  /**
   * The power rules `x^0 -> 1`, `x^1 -> x` and `1^x -> 1` keep the value when
   * the exponent evaluates to a natural number (other exponents are answered
   * by the floating-point routine this model does not contain).
   */
  lemma PowerRewritesSound(n: Node, b: map<string, real>, f: Foreign)
    requires Simplify(n).Some? && n.op.kind == Pow && !ZeroBaseRule(n)
    requires Evaluate(n, b, f).Success?
    requires Evaluate(n.args[1], b, f).Success? && IsNatural(Evaluate(n.args[1], b, f).value)
    ensures Evaluate(Simplify(n).value, b, f) == Evaluate(n, b, f)
  {
    var l, r := n.args[0], n.args[1];
    assert n == Apply(n.op, [l, r]);
    EvalPair(n.op, l, r, b, f);
    var x, k := Evaluate(l, b, f).value, Evaluate(r, b, f).value.Floor;
    if IsEqual(Literal(r), 1.0) {
      assert k == 1;
      assert RealPow(x, 1) == x * RealPow(x, 0);
    } else if IsEqual(Literal(l), 1.0) && !IsEqual(Literal(r), 0.0) {
      PowerOfOne(k);
    }
  }

  /**
   * Every simplification other than `0^x -> 0` keeps the value of an
   * expression that evaluates, powers taken with natural exponents.
   */
  lemma SimplifySound(n: Node, b: map<string, real>, f: Foreign)
    requires Simplify(n).Some? && !ZeroBaseRule(n)
    requires Evaluate(n, b, f).Success?
    requires n.op.kind == Pow ==> Evaluate(n.args[1], b, f).Success? && IsNatural(Evaluate(n.args[1], b, f).value)
    ensures Evaluate(Simplify(n).value, b, f) == Evaluate(n, b, f)
  {
    if n.op.kind in {Add, Sub, Mul, Div} {
      ArithmeticRewritesSound(n, b, f);
    } else if n.op.kind == Pow {
      PowerRewritesSound(n, b, f);
    } else {
      LogicRewritesSound(n, b, f);
    }
  }

  /**
   * The rule `0^x -> 0` keeps the value of a natural exponent exactly when the
   * exponent is not zero: `0^0` is one, yet the rewrite answers zero.
   */
  lemma ZeroPowerRule(name: string, x: Node, b: map<string, real>, f: Foreign)
    requires !IsEqual(Literal(x), 0.0) && !IsEqual(Literal(x), 1.0)
    requires Evaluate(x, b, f).Success? && IsNatural(Evaluate(x, b, f).value)
    ensures var n := Apply(Op(Pow, name, Infix), [Imm(0.0), x]);
      && ZeroBaseRule(n)
      && Simplify(n) == Some(Imm(0.0))
      && (Evaluate(Simplify(n).value, b, f) == Evaluate(n, b, f) <==> Evaluate(x, b, f).value != 0.0)
  {
    var op := Op(Pow, name, Infix);
    EvalPair(op, Imm(0.0), x, b, f);
    var k := Evaluate(x, b, f).value.Floor;
    if k > 0 {
      assert RealPow(0.0, k) == 0.0 * RealPow(0.0, k - 1);
    }
  }

  /** A concrete witness: `0 ^ y` with `y` bound to 0 evaluates to 1, its rewrite to 0. */
  lemma ZeroPowerChangesValue(f: Foreign)
    ensures var n := Apply(Op(Pow, "^", Infix), [Imm(0.0), Var("y")]);
      && Simplify(n) == Some(Imm(0.0))
      && Evaluate(n, map["y" := 0.0], f) == Success(1.0)
  {
    ZeroPowerRule("^", Var("y"), map["y" := 0.0], f);
    EvalPair(Op(Pow, "^", Infix), Imm(0.0), Var("y"), map["y" := 0.0], f);
  }

  /** Rewrites may also drop an operand that cannot be evaluated: `0 * y` with `y` unbound fails, its rewrite is 0. */
  lemma RewriteDropsFailure(f: Foreign)
    ensures var n := Apply(Op(Mul, "*", Infix), [Imm(0.0), Var("y")]);
      && Simplify(n) == Some(Imm(0.0))
      && Evaluate(n, map[], f) == Failure(UnboundVariable("y"))
  {
    EvalPair(Op(Mul, "*", Infix), Imm(0.0), Var("y"), map[], f);
  }

  /** The test suite's `+` cases: `x + 0` and `0 + x` become `x`. */
  lemma AddExamples()
    ensures var x := Var("x");
      && Simplify(Apply(Op(Add, "+", Infix), [x, Imm(0.0)])) == Some(x)
      && Simplify(Apply(Op(Add, "+", Infix), [Imm(0.0), x])) == Some(x)
  {
  }

  /** The test suite's `and` cases: `x and true` becomes `to_logical(x)`, `x and false` becomes 0, either way round. */
  lemma AndExamples()
    ensures var x := Var("x");
      && Simplify(Apply(Op(And, "and", Infix), [x, Imm(1.0)])) == Some(ToLogicalOf(x))
      && Simplify(Apply(Op(And, "and", Infix), [Imm(1.0), x])) == Some(ToLogicalOf(x))
      && Simplify(Apply(Op(And, "and", Infix), [x, Imm(0.0)])) == Some(Imm(0.0))
      && Simplify(Apply(Op(And, "and", Infix), [Imm(0.0), x])) == Some(Imm(0.0))
  {
  }

  /** The test suite's `/` cases: `x / 1` becomes `x`. */
  lemma DivExamples()
    ensures var x := Var("x");
      && Simplify(Apply(Op(Div, "/", Infix), [x, Imm(1.0)])) == Some(x)
  {
  }

  /** The test suite's `*` cases: `x * 0` becomes 0 and `x * 1` becomes `x`, either way round. */
  lemma MulExamples()
    ensures var x := Var("x");
      && Simplify(Apply(Op(Mul, "*", Infix), [x, Imm(0.0)])) == Some(Imm(0.0))
      && Simplify(Apply(Op(Mul, "*", Infix), [x, Imm(1.0)])) == Some(x)
      && Simplify(Apply(Op(Mul, "*", Infix), [Imm(0.0), x])) == Some(Imm(0.0))
      && Simplify(Apply(Op(Mul, "*", Infix), [Imm(1.0), x])) == Some(x)
  {
  }

  /** The test suite's `nand` cases: `x nand true` becomes `not(x)`, `x nand false` becomes 1, either way round. */
  lemma NandExamples()
    ensures var x := Var("x");
      && Simplify(Apply(Op(Nand, "nand", Infix), [x, Imm(1.0)])) == Some(NotOf(x))
      && Simplify(Apply(Op(Nand, "nand", Infix), [Imm(1.0), x])) == Some(NotOf(x))
      && Simplify(Apply(Op(Nand, "nand", Infix), [x, Imm(0.0)])) == Some(Imm(1.0))
      && Simplify(Apply(Op(Nand, "nand", Infix), [Imm(0.0), x])) == Some(Imm(1.0))
  {
  }

  /** The test suite's `nor` cases: `x nor true` becomes 0, `x nor false` becomes `not(x)`, either way round. */
  lemma NorExamples()
    ensures var x := Var("x");
      && Simplify(Apply(Op(Nor, "nor", Infix), [x, Imm(1.0)])) == Some(Imm(0.0))
      && Simplify(Apply(Op(Nor, "nor", Infix), [Imm(1.0), x])) == Some(Imm(0.0))
      && Simplify(Apply(Op(Nor, "nor", Infix), [x, Imm(0.0)])) == Some(NotOf(x))
      && Simplify(Apply(Op(Nor, "nor", Infix), [Imm(0.0), x])) == Some(NotOf(x))
  {
  }

  /** The test suite's `or` cases: `x or true` becomes 1, `x or false` becomes `to_logical(x)`, either way round. */
  lemma OrExamples()
    ensures var x := Var("x");
      && Simplify(Apply(Op(Or, "or", Infix), [x, Imm(1.0)])) == Some(Imm(1.0))
      && Simplify(Apply(Op(Or, "or", Infix), [Imm(1.0), x])) == Some(Imm(1.0))
      && Simplify(Apply(Op(Or, "or", Infix), [x, Imm(0.0)])) == Some(ToLogicalOf(x))
      && Simplify(Apply(Op(Or, "or", Infix), [Imm(0.0), x])) == Some(ToLogicalOf(x))
  {
  }

  /** The test suite's `^` cases: `x ^ 0` becomes 1, `x ^ 1` becomes `x`, `0 ^ x` becomes 0 and `1 ^ x` becomes 1. */
  lemma PowExamples()
    ensures var x := Var("x");
      && Simplify(Apply(Op(Pow, "^", Infix), [x, Imm(0.0)])) == Some(Imm(1.0))
      && Simplify(Apply(Op(Pow, "^", Infix), [x, Imm(1.0)])) == Some(x)
      && Simplify(Apply(Op(Pow, "^", Infix), [Imm(0.0), x])) == Some(Imm(0.0))
      && Simplify(Apply(Op(Pow, "^", Infix), [Imm(1.0), x])) == Some(Imm(1.0))
  {
  }

  /** The test suite's `-` cases: `x - 0` becomes `x` and `0 - x` becomes `-x`. */
  lemma SubExamples()
    ensures var x := Var("x");
      && Simplify(Apply(Op(Sub, "-", Infix), [x, Imm(0.0)])) == Some(x)
      && Simplify(Apply(Op(Sub, "-", Infix), [Imm(0.0), x])) == Some(NegationOf(x))
  {
  }

  /** The test suite's `xor` cases: `x xor true` becomes `not(x)`, `x xor false` becomes `to_logical(x)`, either way round. */
  lemma XorExamples()
    ensures var x := Var("x");
      && Simplify(Apply(Op(Xor, "xor", Infix), [x, Imm(1.0)])) == Some(NotOf(x))
      && Simplify(Apply(Op(Xor, "xor", Infix), [Imm(1.0), x])) == Some(NotOf(x))
      && Simplify(Apply(Op(Xor, "xor", Infix), [x, Imm(0.0)])) == Some(ToLogicalOf(x))
      && Simplify(Apply(Op(Xor, "xor", Infix), [Imm(0.0), x])) == Some(ToLogicalOf(x))
  {
  }

  /** Declines: two variables, and a function (not an operator) named `+`. */
  lemma DeclineExamples()
    ensures var x := Var("x");
      && Simplify(Apply(Op(Add, "+", Infix), [x, Var("y")])) == None
      && Simplify(Apply(Fn(Add, "+"), [x, Imm(0.0)])) == None
  {
  }

  // ------------------------------------------------------ constant folding

  /** Every operand is a literal (vacuously so for none). */
  predicate AllLiterals(ns: seq<Node>) {
    forall i :: 0 <= i < |ns| ==> ns[i].Imm?
  }

  /**
   * `ConstantFolding.run`: leaves and operations with a non-literal operand
   * are declined; otherwise the node is evaluated with no bindings, a value
   * becoming a literal and an evaluation error a decline.
   */
  function Fold(n: Node, f: Foreign): (r: Option<Node>)
    ensures r.Some? ==> n.Apply? && AllLiterals(n.args) && r.value.Imm?
    ensures n.Apply? && AllLiterals(n.args) ==> (r.Some? <==> Evaluate(n, map[], f).Success?)
  {
    match n
    case Apply(_, args) =>
      if AllLiterals(args) then
        match Evaluate(n, map[], f)
        case Success(v) => Some(Imm(v))
        case Failure(_) => None
      else None
    case _ => None
  }

  lemma {:induction false} LiteralsHaveNoVariables(ns: seq<Node>)
    requires AllLiterals(ns)
    ensures VarsOf(ns) == {}
  {
    if |ns| > 0 {
      LiteralsHaveNoVariables(ns[1..]);
    }
  }

  /** A folded literal has the value the node has under any bindings. */
  lemma FoldSound(n: Node, b: map<string, real>, f: Foreign)
    requires Fold(n, f).Some?
    ensures Evaluate(Fold(n, f).value, b, f) == Evaluate(n, b, f)
  {
    LiteralsHaveNoVariables(n.args);
    EvaluateReadsOnlyItsVariables(n, map[], b, f);
  }

  /** A folded literal weighs less than the operation it replaces. */
  lemma FoldShrinks(n: Node, f: Foreign)
    requires Fold(n, f).Some?
    ensures Weight(Fold(n, f).value) < Weight(n)
  {
  }

  /** The folding cases of the test suite: `2 + 3` becomes 5; `x + 2`, `x` and `1` are kept. */
  lemma FoldExamples(f: Foreign)
    ensures Fold(Apply(Op(Add, "+", Infix), [Imm(2.0), Imm(3.0)]), f) == Some(Imm(5.0))
    ensures Fold(Apply(Op(Add, "+", Infix), [Var("x"), Imm(2.0)]), f) == None
    ensures Fold(Var("x"), f) == None
    ensures Fold(Imm(1.0), f) == None
  {
    var plus := Op(Add, "+", Infix);
    EvalPair(plus, Imm(2.0), Imm(3.0), map[], f);
    assert !AllLiterals([Var("x"), Imm(2.0)]) by {
      assert !([Var("x"), Imm(2.0)][0].Imm?);
    }
  }
}
