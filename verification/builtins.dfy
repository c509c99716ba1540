/**
 * The built-in functions and operators whose behaviour is exact arithmetic:
 * logic and comparison helpers, abs, indicator, min, poly, fib, factorial and
 * the two sequences. Each takes the evaluated argument array; a precondition
 * on its length states how many entries the source indexes.
 */
module Builtins {
  import opened Wrappers
  import opened Values

  // ---------------------------------------------------------------- logic

  /** `to_logical(x)`: 0 below one, 1 from one on. */
  function ToLogical(args: seq<real>): (r: real)
    requires |args| >= 1
    ensures r == 0.0 || r == 1.0
    ensures r == 1.0 <==> Truth(args[0])
  {
    if args[0] < 1.0 then 0.0 else 1.0
  }

  lemma ToLogicalIdempotent(x: real)
    ensures ToLogical([ToLogical([x])]) == ToLogical([x])
  {
  }

  /** `x and y`: 1 exactly when both sides are true. */
  function And(a: real, b: real): (r: real)
    ensures r == 0.0 || r == 1.0
    ensures r == 1.0 <==> Truth(a) && Truth(b)
  {
    if a >= 1.0 && b >= 1.0 then 1.0 else 0.0
  }

  /** `and` is commutative, and with one true side it is `to_logical` of the other side. */
  lemma AndLaws(a: real, b: real)
    ensures And(a, b) == And(b, a)
    ensures Truth(a) ==> And(a, b) == ToLogical([b])
    ensures Truth(b) ==> And(a, b) == ToLogical([a])
    ensures !Truth(a) || !Truth(b) ==> And(a, b) == 0.0
  {
  }

  /** `x <= y`. */
  function LessEq(a: real, b: real): (r: real)
    ensures r == 0.0 || r == 1.0
    ensures r == 1.0 <==> a <= b
  {
    if a <= b then 1.0 else 0.0
  }

  /** `<=` is reflexive and total: of `a <= b` and `b <= a` at least one holds. */
  lemma LessEqLaws(a: real, b: real)
    ensures LessEq(a, a) == 1.0
    ensures LessEq(a, b) == 1.0 || LessEq(b, a) == 1.0
    ensures LessEq(a, b) == 1.0 && LessEq(b, a) == 1.0 ==> a == b
  {
  }

  /** `x = y` (`Double.equals`, modelled as equality of reals). */
  function Equal(a: real, b: real): (r: real)
    ensures r == 0.0 || r == 1.0
    ensures r == 1.0 <==> a == b
  {
    if a == b then 1.0 else 0.0
  }

  lemma EqualLaws(a: real, b: real)
    ensures Equal(a, a) == 1.0
    ensures Equal(a, b) == Equal(b, a)
    ensures Equal(a, b) == LessEq(a, b) * LessEq(b, a)
  {
  }

  // The remaining logical operators are not part of this model's sources; they
  // follow the convention of `and`: a value is true when it is at least one.

  function Or(a: real, b: real): (r: real)
    ensures Truth(r) <==> Truth(a) || Truth(b)
  {
    FromBool(Truth(a) || Truth(b))
  }

  function Nand(a: real, b: real): (r: real)
    ensures Truth(r) <==> !(Truth(a) && Truth(b))
  {
    FromBool(!(Truth(a) && Truth(b)))
  }

  function Nor(a: real, b: real): (r: real)
    ensures Truth(r) <==> !(Truth(a) || Truth(b))
  {
    FromBool(!(Truth(a) || Truth(b)))
  }

  function Xor(a: real, b: real): (r: real)
    ensures Truth(r) <==> Truth(a) != Truth(b)
  {
    FromBool(Truth(a) != Truth(b))
  }

  function Not(a: real): (r: real)
    ensures Truth(r) <==> !Truth(a)
  {
    FromBool(!Truth(a))
  }

  // ------------------------------------------------------------- numeric

  /** `abs(x)`. */
  function Abs(args: seq<real>): (r: real)
    requires |args| >= 1
    ensures r >= 0.0
    ensures r == args[0] || r == -args[0]
  {
    if args[0] < 0.0 then -args[0] else args[0]
  }

  lemma AbsLaws(x: real)
    ensures Abs([-x]) == Abs([x])
    ensures Abs([Abs([x])]) == Abs([x])
    ensures Abs([x]) == 0.0 <==> x == 0.0
  {
  }

  /** `indicator(x, a, b)`: 1 exactly when `a <= x <= b`, both ends included. */
  function Indicator(args: seq<real>): (r: real)
    requires |args| >= 3
    ensures r == 0.0 || r == 1.0
    ensures r == 1.0 <==> args[1] <= args[0] <= args[2]
  {
    if args[1] <= args[0] && args[0] <= args[2] then 1.0 else 0.0
  }

  /** An empty interval contains nothing; a degenerate one contains its point. */
  lemma IndicatorLaws(x: real, a: real, b: real)
    ensures a > b ==> Indicator([x, a, b]) == 0.0
    ensures Indicator([a, a, a]) == 1.0
  {
  }

  /** The `for (Double arg : args) result = (result < arg ? result : arg);` loop, from `result`. */
  function MinFold(result: real, rest: seq<real>): (r: real)
    decreases |rest|
    ensures r == result || r in rest
    ensures r <= result
    ensures forall i :: 0 <= i < |rest| ==> r <= rest[i]
  {
    if |rest| == 0 then result
    else MinFold(if result < rest[0] then result else rest[0], rest[1..])
  }

  /** `min(a, ...)`: starts from the first argument and folds over all of them. */
  function Minimum(args: seq<real>): (r: real)
    requires |args| >= 1
    ensures r in args
    ensures forall i :: 0 <= i < |args| ==> r <= args[i]
    ensures |args| == 1 ==> r == args[0]
  {
    MinFold(args[0], args)
  }

  /** Σ cs[i]·x^(k+i): the terms of a power sum starting at exponent `k`. */
  function Terms(x: real, cs: seq<real>, k: nat): real {
    if |cs| == 0 then 0.0 else cs[0] * RealPow(x, k) + Terms(x, cs[1..], k + 1)
  }

  /** Σ cs[i]·x^i. */
  function PowerSum(x: real, cs: seq<real>): real {
    Terms(x, cs, 0)
  }

  /** Horner's scheme: the value the loop `result = result * x + args[i]` builds, last coefficient first. */
  function Horner(x: real, cs: seq<real>): real {
    if |cs| == 0 then 0.0 else cs[0] + x * Horner(x, cs[1..])
  }

  /** Raising every exponent by one multiplies the sum by `x`. */
  lemma {:induction false} TermsShift(x: real, cs: seq<real>, k: nat)
    ensures Terms(x, cs, k + 1) == x * Terms(x, cs, k)
  {
    if |cs| > 0 {
      TermsShift(x, cs[1..], k + 1);
      Factor(x, cs[0], RealPow(x, k), Terms(x, cs[1..], k + 1));
    }
  }

  lemma Factor(x: real, c: real, p: real, t: real)
    ensures c * (x * p) + x * t == x * (c * p + t)
  {
  }

  lemma PowerSumShift(x: real, cs: seq<real>)
    requires |cs| >= 1
    ensures PowerSum(x, cs) == cs[0] + x * PowerSum(x, cs[1..])
  {
    TermsShift(x, cs[1..], 0);
  }

  /** Horner's scheme computes the power sum. */
  lemma {:induction false} HornerIsPowerSum(x: real, cs: seq<real>)
    ensures Horner(x, cs) == PowerSum(x, cs)
  {
    if |cs| > 0 {
      HornerIsPowerSum(x, cs[1..]);
      PowerSumShift(x, cs);
    }
  }

  /** `poly(x, a0, a1, ...)`: never raises; with fewer than two arguments the loop does not run. */
  function Polynomial(args: seq<real>): (r: real)
    ensures |args| >= 2 ==> r == PowerSum(args[0], args[1..])
    ensures |args| >= 2 && (args[0] == 0.0 || |args| == 2) ==> r == args[1]
  {
    if |args| <= 1 then 0.0
    else
      HornerIsPowerSum(args[0], args[1..]);
      assert args[1..][1..] == args[2..];
      Horner(args[0], args[1..])
  }

  /** The Fibonacci numbers, F(0) = 0, F(1) = 1. */
  function Fib(n: nat): nat {
    if n < 2 then n else Fib(n - 1) + Fib(n - 2)
  }

  const IndexDomain := "{0, 1, 2, ...}"

  /** `fib(n)`: a domain error (argument 1) unless `n` is an index, otherwise F(n). */
  function Fibonacci(args: seq<real>): (r: Result<real, EvalError>)
    requires |args| >= 1
    ensures r.Failure? <==> !IsIndex(args[0])
    ensures r.Failure? ==> r.error == OutsideDomain("fib", 1, args[0], IndexDomain)
    ensures r.Success? ==> args[0] == args[0].Floor as real && r.value == Fib(args[0].Floor) as real
  {
    var n := ToInt(args[0]);
    if n as real != args[0] || n < 0 then Failure(OutsideDomain("fib", 1, args[0], IndexDomain))
    else Success(Fib(n) as real)
  }

  /** n! as the product 2·3·…·n. */
  function Fact(n: nat): (r: nat)
    ensures r >= 1
  {
    if n < 2 then 1 else n * Fact(n - 1)
  }

  /** `factorial(n)`: a domain error (argument 1) unless `n` is an index, otherwise n!. */
  function Factorial(args: seq<real>): (r: Result<real, EvalError>)
    requires |args| >= 1
    ensures r.Failure? <==> !IsIndex(args[0])
    ensures r.Failure? ==> r.error == OutsideDomain("factorial", 1, args[0], IndexDomain)
    ensures r.Success? ==> args[0] == args[0].Floor as real && r.value == Fact(args[0].Floor) as real
  {
    var n := ToInt(args[0]);
    if n as real != args[0] || n < 0 then Failure(OutsideDomain("factorial", 1, args[0], IndexDomain))
    else Success(Fact(n) as real)
  }

  /**
   * `aseq(a0, r, n)`: the n-th term a0 + r·n. The domain check is on `n`, but the
   * error names argument 1 and carries `a0`.
   */
  function ArithmeticSeq(args: seq<real>): (r: Result<real, EvalError>)
    requires |args| >= 3
    ensures r.Failure? <==> !IsIndex(args[2])
    ensures r.Failure? ==> r.error == OutsideDomain("aseq", 1, args[0], IndexDomain)
  {
    var n := ToInt(args[2]);
    if n as real != args[2] || n < 0 then Failure(OutsideDomain("aseq", 1, args[0], IndexDomain))
    else Success(args[0] + args[1] * n as real)
  }

  /** `gseq(a0, q, n)`: the n-th term a0·qⁿ, with the same domain check as `aseq`. */
  function GeometricSeq(args: seq<real>): (r: Result<real, EvalError>)
    requires |args| >= 3
    ensures r.Failure? <==> !IsIndex(args[2])
    ensures r.Failure? ==> r.error == OutsideDomain("gseq", 1, args[0], IndexDomain)
  {
    var n := ToInt(args[2]);
    if n as real != args[2] || n < 0 then Failure(OutsideDomain("gseq", 1, args[0], IndexDomain))
    else Success(args[0] * RealPow(args[1], n))
  }

  /** Term 0 is the start, and consecutive terms differ by the step `r`. */
  lemma ArithmeticSeqTerms(a0: real, r: real, n: nat)
    requires n < IntMax
    ensures ArithmeticSeq([a0, r, 0.0]) == Success(a0)
    ensures ArithmeticSeq([a0, r, (n + 1) as real]).Success?
    ensures ArithmeticSeq([a0, r, (n + 1) as real]).value == ArithmeticSeq([a0, r, n as real]).value + r
  {
  }

  /** Term 0 is the start, and each term is `q` times the previous one. */
  lemma GeometricSeqTerms(a0: real, q: real, n: nat)
    requires n < IntMax
    ensures GeometricSeq([a0, q, 0.0]) == Success(a0)
    ensures GeometricSeq([a0, q, (n + 1) as real]).Success?
    ensures GeometricSeq([a0, q, (n + 1) as real]).value == GeometricSeq([a0, q, n as real]).value * q
  {
    assert ToInt((n + 1) as real) == n + 1;
    assert ToInt(n as real) == n;
    assert RealPow(q, n + 1) == q * RealPow(q, n);
  }
}
