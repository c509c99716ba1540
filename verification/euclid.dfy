/**
 * Integer arithmetic behind `gcd` and `lcm`: Java's truncating remainder, the
 * Euclid loop exactly as written (it also runs on the unchecked, possibly
 * negative, later arguments), and the divisibility facts about it.
 */
module Euclid {

  function Abs(x: int): nat { if x < 0 then -x else x }
  function Max(a: int, b: int): int { if a < b then b else a }
  function Min(a: int, b: int): int { if a < b then a else b }

  /** Java's `a / b` on longs: the quotient of the magnitudes, negated when the signs differ. */
  function JavaDiv(a: int, b: int): int
    requires b != 0
  {
    if (a >= 0) == (b > 0) then Abs(a) / Abs(b) else -(Abs(a) / Abs(b))
  }

  /**
   * Java's `a % b` on longs: what is left of `a` after the truncated quotient's
   * multiple of `b`, smaller than `b` in magnitude, with the sign of the dividend.
   */
  function JavaRem(a: int, b: int): (r: int)
    requires b != 0
    ensures JavaDiv(a, b) * b + r == a
    ensures Abs(r) < Abs(b)
    ensures a >= 0 ==> r >= 0
    ensures a <= 0 ==> r <= 0
  {
    DivisionIdentity(a, b);
    if a >= 0 then a % Abs(b) else -((-a) % Abs(b))
  }

  lemma DivisionIdentity(a: int, b: int)
    requires b != 0
    ensures a >= 0 ==> JavaDiv(a, b) * b + a % Abs(b) == a
    ensures a < 0 ==> JavaDiv(a, b) * b - (-a) % Abs(b) == a
  {
    var m := Abs(b);
    var q := Abs(a) / m;
    assert Abs(a) == q * m + Abs(a) % m;
    if b > 0 {
      assert m == b;
    } else {
      assert m == -b;
      assert -q * b == q * m;
    }
  }

  /**
   * The remainder ignores the divisor's sign, flips with the dividend's, and on
   * non-negative operands is the ordinary remainder.
   */
  lemma JavaRemSigns(a: int, b: int)
    requires b != 0
    ensures JavaRem(a, -b) == JavaRem(a, b)
    ensures JavaRem(-a, b) == -JavaRem(a, b)
    ensures a >= 0 && b > 0 ==> JavaRem(a, b) == a % b
  {
  }

  /** The inner `while (B != 0) { C = A % B; A = B; B = C; }` loop, returning the final A. */
  function EuclidLoop(a: int, b: int): int
    decreases Abs(b)
  {
    if b == 0 then a else EuclidLoop(b, JavaRem(a, b))
  }

  /** One outer iteration: `A = max(C, B); B = min(C, B);` and the Euclid loop. */
  function GcdStep(c: int, b: int): int {
    EuclidLoop(Max(c, b), Min(c, b))
  }

  lemma {:induction false} EuclidLoopNonZero(a: int, b: int)
    requires a != 0 || b != 0
    ensures EuclidLoop(a, b) != 0
    decreases Abs(b)
  {
    if b != 0 {
      EuclidLoopNonZero(b, JavaRem(a, b));
    }
  }

  lemma GcdStepNonZero(c: int, b: int)
    requires c != 0
    ensures GcdStep(c, b) != 0
  {
    EuclidLoopNonZero(Max(c, b), Min(c, b));
  }

  /** `d` divides `x`. */
  ghost predicate Divides(d: int, x: int) {
    exists k :: x == d * k
  }

  ghost predicate CommonDivisor(d: int, xs: seq<int>) {
    forall i :: 0 <= i < |xs| ==> Divides(d, xs[i])
  }

  /** `g` is the greatest common divisor of `xs`: positive, a common divisor, and a multiple of every positive common divisor. */
  ghost predicate IsGcd(g: int, xs: seq<int>) {
    && g > 0
    && CommonDivisor(g, xs)
    && forall d :: d > 0 && CommonDivisor(d, xs) ==> Divides(d, g)
  }

  lemma DividesRemainder(d: int, a: int, b: int)
    requires a >= 0 && b > 0
    requires Divides(d, b)
    ensures Divides(d, a) <==> Divides(d, a % b)
  {
    var q := a / b;
    assert a == b * q + a % b;
    var kb :| b == d * kb;
    if Divides(d, a) {
      var ka :| a == d * ka;
      assert a % b == d * (ka - kb * q);
    }
    if Divides(d, a % b) {
      var kr :| a % b == d * kr;
      assert a == d * (kb * q + kr);
    }
  }

  /** For positive `a` and non-negative `b` the loop computes the greatest common divisor. */
  lemma {:induction false} EuclidLoopIsGcd(a: int, b: int)
    requires a > 0 && b >= 0
    ensures IsGcd(EuclidLoop(a, b), [a, b])
    decreases b
  {
    var g := EuclidLoop(a, b);
    if b == 0 {
      assert a == a * 1 && 0 == a * 0;
      assert Divides(a, a) && Divides(a, 0);
      forall d | d > 0 && CommonDivisor(d, [a, b])
        ensures Divides(d, g)
      {
        assert Divides(d, [a, b][0]);
      }
    } else {
      var r := a % b;
      assert JavaRem(a, b) == r;
      EuclidLoopIsGcd(b, r);
      assert Divides(g, [b, r][0]) && Divides(g, [b, r][1]);
      DividesRemainder(g, a, b);
      assert CommonDivisor(g, [a, b]);
      forall d | d > 0 && CommonDivisor(d, [a, b])
        ensures Divides(d, g)
      {
        assert Divides(d, [a, b][0]) && Divides(d, [a, b][1]);
        DividesRemainder(d, a, b);
        assert CommonDivisor(d, [b, r]);
      }
    }
  }

  /** The outer step is symmetric in its two inputs when both are positive. */
  lemma GcdStepIsGcd(c: int, b: int)
    requires c > 0 && b > 0
    ensures IsGcd(GcdStep(c, b), [c, b])
  {
    EuclidLoopIsGcd(Max(c, b), Min(c, b));
    var g := GcdStep(c, b);
    if c < b {
      assert [Max(c, b), Min(c, b)] == [b, c];
      assert Divides(g, [b, c][0]) && Divides(g, [b, c][1]);
      assert CommonDivisor(g, [c, b]);
      forall d | d > 0 && CommonDivisor(d, [c, b])
        ensures Divides(d, g)
      {
        assert Divides(d, [c, b][0]) && Divides(d, [c, b][1]);
        assert CommonDivisor(d, [b, c]);
      }
    } else {
      assert [Max(c, b), Min(c, b)] == [c, b];
    }
  }

  lemma DividesTransitive(a: int, b: int, c: int)
    requires Divides(a, b) && Divides(b, c)
    ensures Divides(a, c)
  {
    var k1 :| b == a * k1;
    var k2 :| c == b * k2;
    assert c == a * (k1 * k2);
  }

  lemma OneDividesAll(x: int)
    ensures Divides(1, x)
  {
    assert x == 1 * x;
  }

  /** Extending a gcd by one more number: gcd(g, x) is the gcd of xs + [x] when g is the gcd of xs. */
  lemma GcdExtend(g: int, xs: seq<int>, x: int)
    requires IsGcd(g, xs) && x > 0
    ensures IsGcd(GcdStep(g, x), xs + [x])
  {
    var h := GcdStep(g, x);
    GcdStepIsGcd(g, x);
    assert Divides(h, [g, x][0]) && Divides(h, [g, x][1]);
    forall i | 0 <= i < |xs + [x]|
      ensures Divides(h, (xs + [x])[i])
    {
      if i < |xs| {
        assert Divides(g, xs[i]);
        DividesTransitive(h, g, xs[i]);
      }
    }
    forall d | d > 0 && CommonDivisor(d, xs + [x])
      ensures Divides(d, h)
    {
      assert CommonDivisor(d, xs) by {
        forall i | 0 <= i < |xs| ensures Divides(d, xs[i]) {
          assert (xs + [x])[i] == xs[i];
        }
      }
      assert Divides(d, (xs + [x])[|xs|]);
      assert CommonDivisor(d, [g, x]);
    }
  }

  /** Once the running gcd is 1, adding more positive numbers keeps it 1. */
  lemma GcdOneStaysOne(xs: seq<int>, ys: seq<int>)
    requires IsGcd(1, xs)
    ensures IsGcd(1, xs + ys)
  {
    forall i | 0 <= i < |xs + ys|
      ensures Divides(1, (xs + ys)[i])
    {
      OneDividesAll((xs + ys)[i]);
    }
    forall d | d > 0 && CommonDivisor(d, xs + ys)
      ensures Divides(d, 1)
    {
      assert CommonDivisor(d, xs) by {
        forall i | 0 <= i < |xs| ensures Divides(d, xs[i]) {
          assert (xs + ys)[i] == xs[i];
        }
      }
    }
  }
}
