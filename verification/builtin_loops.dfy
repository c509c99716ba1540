/**
 * The loops of the built-ins, step for step: Euclid's gcd with its early exit,
 * the Fibonacci look-up table and its extension past 100, the memoised
 * factorial, Horner's scheme and the minimum scan. Each is proved to compute
 * the functional definition of the same built-in.
 */
module BuiltinLoops {
  import opened Wrappers
  import opened Values
  import opened Euclid
  import opened Builtins
  import opened GcdLcm

  /** The two nested loops of `gcd`, with the domain loop that reads `args[0]` each time. */
  method GcdLoop(args: seq<real>) returns (r: Result<real, EvalError>)
    requires |args| >= 1
    ensures r == Gcd(args)
    ensures r.Failure? <==> !IsPositiveInt(args[0])
  {
    var i := 0;
    while i < |args|
      invariant 0 <= i <= |args|
      invariant i > 0 ==> IsPositiveInt(args[0])
    {
      var arg := args[0];
      if ToInt(arg) as real != arg || arg < 1.0 {
        return Failure(OutsideDomain("gcd", i + 1, args[i], PositiveDomain));
      }
      i := i + 1;
    }
    var a := ToInt(args[0]);
    i := 1;
    while i < |args|
      invariant 1 <= i <= |args|
      invariant GcdFold(a, args[i..]) == GcdFold(ToInt(args[0]), args[1..])
    {
      var prev := a;
      var b := ToLong(args[i]);
      var c := a;
      a := Max(c, b);
      b := Min(c, b);
      while b != 0
        invariant EuclidLoop(a, b) == GcdStep(prev, ToLong(args[i]))
        decreases Euclid.Abs(b)
      {
        c := JavaRem(a, b);
        a := b;
        b := c;
      }
      assert args[i..][1..] == args[i + 1..];
      if a == 1 {
        break;
      }
      i := i + 1;
    }
    if i == |args| {
      assert args[i..] == [];
    }
    return Success(a as real);
  }

  /** The table holds F(0) … F(99). */
  predicate FibTableValid(lut: seq<real>) {
    |lut| == 100 && forall i :: 0 <= i < 100 ==> lut[i] == Fib(i) as real
  }

  /** The constructor's table: `lut[0] = 0`, `lut[1] = 1`, then each entry the sum of the two before. */
  method FibTable() returns (lut: seq<real>)
    ensures |lut| == 100 && lut[0] == 0.0 && lut[1] == 1.0
    ensures forall i :: 2 <= i < 100 ==> lut[i] == lut[i - 1] + lut[i - 2]
    ensures FibTableValid(lut)
  {
    lut := [0.0, 1.0];
    while |lut| < 100
      invariant 2 <= |lut| <= 100
      invariant forall i :: 0 <= i < |lut| ==> lut[i] == Fib(i) as real
    {
      var n := |lut|;
      assert Fib(n) == Fib(n - 1) + Fib(n - 2);
      lut := lut + [lut[n - 1] + lut[n - 2]];
    }
    forall i | 2 <= i < 100
      ensures lut[i] == lut[i - 1] + lut[i - 2]
    {
      assert Fib(i) == Fib(i - 1) + Fib(i - 2);
    }
  }

  /** `fib(x)`: the table below 100, otherwise the loop that continues the recurrence from F(98), F(99). */
  method FibEvaluate(lut: seq<real>, x: real) returns (r: Result<real, EvalError>)
    requires FibTableValid(lut)
    ensures r == Fibonacci([x])
    ensures r.Success? ==> r.value == Fib(x.Floor) as real
  {
    var n := ToInt(x);
    if n as real != x || n < 0 {
      return Failure(OutsideDomain("fib", 1, x, IndexDomain));
    }
    if n < 100 {
      return Success(lut[n]);
    }
    var a := lut[98];
    var b := lut[99];
    var c := 0.0;
    var i := 100;
    while i <= n
      invariant 100 <= i <= n + 1
      invariant a == Fib(i - 2) as real && b == Fib(i - 1) as real
      invariant i > 100 ==> c == b
    {
      c := a + b;
      a := b;
      b := c;
      i := i + 1;
    }
    return Success(c);
  }

  /** Every cached entry is the factorial of its key. */
  predicate CacheValid(cache: map<int, real>) {
    forall k :: k in cache ==> k >= 0 && cache[k] == Fact(k) as real
  }

  /**
   * `factorial(x)` with its memo table: a hit returns the cached value, a miss
   * computes 2·3·…·n and records it under n; nothing else is ever added.
   */
  method FactorialEvaluate(cache: map<int, real>, x: real) returns (r: Result<real, EvalError>, cache': map<int, real>)
    requires CacheValid(cache)
    ensures r == Factorial([x])
    ensures CacheValid(cache')
    ensures r.Failure? ==> cache' == cache
    ensures r.Success? ==> cache' == cache[x.Floor := r.value]
  {
    var n := ToInt(x);
    if n as real != x || n < 0 {
      return Failure(OutsideDomain("factorial", 1, x, IndexDomain)), cache;
    }
    if n in cache {
      return Success(cache[n]), cache;
    }
    var result := 1.0;
    var i := 2;
    while i <= n
      invariant 2 <= i <= if n < 2 then 2 else n + 1
      invariant result == Fact(i - 1) as real
    {
      result := result * i as real;
      i := i + 1;
    }
    return Success(result), cache[n := result];
  }

  /** `poly`: `result = result * x + args[i]` from the last argument down to the second. */
  method PolynomialLoop(args: seq<real>) returns (r: real)
    ensures r == Polynomial(args)
    ensures |args| >= 2 ==> r == PowerSum(args[0], args[1..])
  {
    r := 0.0;
    var i := |args| - 1;
    while i >= 1
      invariant |args| < 2 ==> r == 0.0 && i < 1
      invariant |args| >= 2 ==> 0 <= i < |args| && r == Horner(args[0], args[i + 1..])
    {
      assert args[i..][1..] == args[i + 1..];
      r := r * args[0] + args[i];
      i := i - 1;
    }
  }

  /** `min`: the running minimum over every argument, starting from the first. */
  method MinimumLoop(args: seq<real>) returns (r: real)
    requires |args| >= 1
    ensures r == Minimum(args)
    ensures r in args && forall i :: 0 <= i < |args| ==> r <= args[i]
  {
    r := args[0];
    var i := 0;
    while i < |args|
      invariant 0 <= i <= |args|
      invariant MinFold(r, args[i..]) == MinFold(args[0], args)
    {
      assert args[i..][1..] == args[i + 1..];
      r := if r < args[i] then r else args[i];
      i := i + 1;
    }
    assert args[i..] == [];
  }
}
