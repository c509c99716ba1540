/**
 * `gcd(a, ...)` and `lcm(a, ...)` as written, and corrected versions that check
 * every argument's domain and build the lcm pairwise.
 */
module GcdLcm {
  import opened Wrappers
  import opened Values
  import opened Euclid

  const PositiveDomain := "{1, 2, ...}"

  /** The integer parts of the arguments. */
  function Floors(xs: seq<real>): (r: seq<int>)
    ensures |r| == |xs|
    ensures forall i :: 0 <= i < |xs| ==> r[i] == xs[i].Floor
  {
    seq(|xs|, i requires 0 <= i < |xs| => xs[i].Floor)
  }

  /** Every argument passes the domain check `{1, 2, ...}`. */
  predicate AllPositiveInts(xs: seq<real>) {
    forall i :: 0 <= i < |xs| ==> IsPositiveInt(xs[i])
  }

  // ----------------------------------------------------------------- gcd

  /**
   * The outer loop of `gcd` from the running value `a`: each later argument is
   * cast with `(long)Math.floor`, combined by one Euclid step, and the loop
   * stops early once the running value is 1.
   */
  function GcdFold(a: int, rest: seq<real>): int
    decreases |rest|
  {
    if |rest| == 0 then a
    else
      var g := GcdStep(a, ToLong(rest[0]));
      if g == 1 then 1 else GcdFold(g, rest[1..])
  }

  /** The same loop without the early exit. */
  function GcdFoldPlain(a: int, rest: seq<real>): int
    decreases |rest|
  {
    if |rest| == 0 then a else GcdFoldPlain(GcdStep(a, ToLong(rest[0])), rest[1..])
  }

  lemma {:induction false} GcdFoldNonZero(a: int, rest: seq<real>)
    requires a != 0
    ensures GcdFold(a, rest) != 0
    decreases |rest|
  {
    if |rest| > 0 {
      GcdStepNonZero(a, ToLong(rest[0]));
      GcdFoldNonZero(GcdStep(a, ToLong(rest[0])), rest[1..]);
    }
  }

  /**
   * `gcd` as written: the domain loop re-reads `args[0]` on every iteration, so
   * only the first argument is validated and the error always names argument 1.
   */
  function Gcd(args: seq<real>): (r: Result<real, EvalError>)
    requires |args| >= 1
    ensures r.Failure? <==> !IsPositiveInt(args[0])
    ensures r.Failure? ==> r.error == OutsideDomain("gcd", 1, args[0], PositiveDomain)
    ensures r.Success? ==> r.value != 0.0 && r.value == r.value.Floor as real
  {
    if !IsPositiveInt(args[0]) then Failure(OutsideDomain("gcd", 1, args[0], PositiveDomain))
    else
      GcdFoldNonZero(ToInt(args[0]), args[1..]);
      Success(GcdFold(ToInt(args[0]), args[1..]) as real)
  }

  /** A single valid argument is its own gcd. */
  lemma GcdSingle(a: real)
    requires IsPositiveInt(a)
    ensures Gcd([a]) == Success(a)
  {
  }

  lemma GcdOfSingleton(a: int)
    requires a > 0
    ensures IsGcd(a, [a])
  {
    assert a == a * 1;
    assert Divides(a, [a][0]);
    forall d | d > 0 && CommonDivisor(d, [a])
      ensures Divides(d, a)
    {
      assert Divides(d, [a][0]);
    }
  }

  lemma PositiveCasts(x: real)
    requires IsPositiveInt(x)
    ensures ToLong(x) == x.Floor == ToInt(x) && x.Floor >= 1
  {
  }

  /** The running value of the outer loop stays the gcd of the arguments read so far. */
  lemma {:induction false} GcdFoldIsGcd(a: int, xs: seq<int>, rest: seq<real>)
    requires IsGcd(a, xs) && AllPositiveInts(rest)
    ensures IsGcd(GcdFold(a, rest), xs + Floors(rest))
    decreases |rest|
  {
    if |rest| == 0 {
      assert xs + Floors(rest) == xs;
    } else {
      var b := rest[0].Floor;
      assert IsPositiveInt(rest[0]);
      PositiveCasts(rest[0]);
      var g := GcdStep(a, b);
      GcdExtend(a, xs, b);
      assert (xs + [b]) + Floors(rest[1..]) == xs + Floors(rest);
      if g == 1 {
        GcdOneStaysOne(xs + [b], Floors(rest[1..]));
      } else {
        assert AllPositiveInts(rest[1..]) by {
          forall i | 0 <= i < |rest[1..]| ensures IsPositiveInt(rest[1..][i]) {
            assert rest[1..][i] == rest[i + 1];
          }
        }
        GcdFoldIsGcd(g, xs + [b], rest[1..]);
      }
    }
  }

  /** For arguments in `{1, 2, ...}` the result is their greatest common divisor. */
  lemma GcdIsGreatestCommonDivisor(args: seq<real>)
    requires |args| >= 1 && AllPositiveInts(args)
    ensures Gcd(args).Success?
    ensures IsGcd(Gcd(args).value.Floor, Floors(args))
  {
    assert IsPositiveInt(args[0]);
    var a := ToInt(args[0]);
    GcdOfSingleton(a);
    assert AllPositiveInts(args[1..]) by {
      forall i | 0 <= i < |args[1..]| ensures IsPositiveInt(args[1..][i]) {
        assert args[1..][i] == args[i + 1];
      }
    }
    GcdFoldIsGcd(a, [a], args[1..]);
    assert [a] + Floors(args[1..]) == Floors(args);
  }

  lemma {:induction false} PlainFromOne(rest: seq<real>)
    requires AllPositiveInts(rest)
    ensures GcdFoldPlain(1, rest) == 1
    decreases |rest|
  {
    if |rest| > 0 {
      assert IsPositiveInt(rest[0]);
      var b := ToLong(rest[0]);
      assert EuclidLoop(b, 1) == EuclidLoop(1, 0) == 1;
      assert GcdStep(1, b) == 1;
      assert AllPositiveInts(rest[1..]) by {
        forall i | 0 <= i < |rest[1..]| ensures IsPositiveInt(rest[1..][i]) {
          assert rest[1..][i] == rest[i + 1];
        }
      }
      PlainFromOne(rest[1..]);
    }
  }

  /** The early exit at a running value of 1 does not change the result on valid arguments. */
  lemma {:induction false} EarlyExitHarmless(a: int, rest: seq<real>)
    requires AllPositiveInts(rest)
    ensures GcdFold(a, rest) == GcdFoldPlain(a, rest)
    decreases |rest|
  {
    if |rest| > 0 {
      var g := GcdStep(a, ToLong(rest[0]));
      assert AllPositiveInts(rest[1..]) by {
        forall i | 0 <= i < |rest[1..]| ensures IsPositiveInt(rest[1..][i]) {
          assert rest[1..][i] == rest[i + 1];
        }
      }
      if g == 1 {
        PlainFromOne(rest[1..]);
      } else {
        EarlyExitHarmless(g, rest[1..]);
      }
    }
  }

  /**
   * Only the first argument is validated: `gcd(4, 2.5)` is accepted and
   * `gcd(4, -6)` even returns -2.
   */
  lemma GcdLaterArgumentsUnchecked()
    ensures Gcd([4.0, 2.5]) == Success(2.0)
    ensures Gcd([4.0, -6.0]) == Success(-2.0)
  {
    assert ToLong(2.5) == 2;
    assert GcdStep(4, 2) == EuclidLoop(4, 2) == EuclidLoop(2, 0) == 2;
    assert ToLong(-6.0) == -6;
    assert JavaRem(4, -6) == 4 && JavaRem(-6, 4) == -2 && JavaRem(4, -2) == 0;
    assert GcdStep(4, -6) == EuclidLoop(4, -6) == EuclidLoop(-6, 4) == EuclidLoop(4, -2) == EuclidLoop(-2, 0) == -2;
  }

  /** The index of the first argument outside `{1, 2, ...}`, if any. */
  function FirstInvalid(xs: seq<real>, from: nat): (r: Option<nat>)
    requires from <= |xs|
    ensures r.None? <==> forall i :: from <= i < |xs| ==> IsPositiveInt(xs[i])
    ensures r.Some? ==> from <= r.value < |xs| && !IsPositiveInt(xs[r.value])
    ensures r.Some? ==> forall i :: from <= i < r.value ==> IsPositiveInt(xs[i])
    decreases |xs| - from
  {
    if from == |xs| then None
    else if !IsPositiveInt(xs[from]) then Some(from)
    else FirstInvalid(xs, from + 1)
  }

  /** `gcd` with the domain loop reading `args[i]`: every argument is validated. */
  function GcdChecked(args: seq<real>): (r: Result<real, EvalError>)
    requires |args| >= 1
    ensures r.Failure? <==> !AllPositiveInts(args)
    ensures r.Failure? ==> exists i :: 0 <= i < |args| && r.error == OutsideDomain("gcd", i + 1, args[i], PositiveDomain)
                                       && !IsPositiveInt(args[i])
    ensures r.Success? ==> IsGcd(r.value.Floor, Floors(args))
  {
    match FirstInvalid(args, 0)
    case Some(i) => Failure(OutsideDomain("gcd", i + 1, args[i], PositiveDomain))
    case None =>
      GcdIsGreatestCommonDivisor(args);
      Gcd(args)
  }

  // ----------------------------------------------------------------- lcm

  /** `result = gdc; for (...) result *= args[i] / gdc;` over the arguments so far. */
  function LcmProduct(g: real, xs: seq<real>): real
    requires g != 0.0
  {
    if |xs| == 0 then g else LcmProduct(g, xs[..|xs| - 1]) * (xs[|xs| - 1] / g)
  }

  /** `lcm` as written: the same first-argument-only check, then g·∏(aᵢ/g) with g the gcd. */
  function Lcm(args: seq<real>): (r: Result<real, EvalError>)
    requires |args| >= 1
    ensures r.Failure? <==> !IsPositiveInt(args[0])
    ensures r.Failure? ==> r.error == OutsideDomain("lcm", 1, args[0], PositiveDomain)
  {
    if !IsPositiveInt(args[0]) then Failure(OutsideDomain("lcm", 1, args[0], PositiveDomain))
    else
      var g := Gcd(args).value;
      Success(LcmProduct(g, args))
  }

  function Times(d: real, k: int): real { d * k as real }

  /** `v` is an integer multiple of `d`. */
  ghost predicate MultipleOf(v: real, d: real) {
    exists k: int :: v == Times(d, k)
  }

  lemma MultipleOfStep(v: real, d: real, w: real, g: real, k: int)
    requires g != 0.0 && MultipleOf(v, d) && w == Times(g, k)
    ensures MultipleOf(v * (w / g), d)
  {
    var j: int :| v == Times(d, j);
    assert w / g == k as real;
    assert v * (w / g) == Times(d, j * k);
  }

  /** With every argument a multiple of g, the product is a multiple of g and of every argument. */
  lemma {:induction false} LcmProductMultiples(g: real, xs: seq<real>)
    requires g != 0.0
    requires forall j :: 0 <= j < |xs| ==> MultipleOf(xs[j], g)
    ensures MultipleOf(LcmProduct(g, xs), g)
    ensures forall i :: 0 <= i < |xs| ==> MultipleOf(LcmProduct(g, xs), xs[i])
  {
    if |xs| > 0 {
      var n := |xs|;
      var front, last := xs[..n - 1], xs[n - 1];
      LcmProductMultiples(g, front);
      var p := LcmProduct(g, front);
      assert MultipleOf(last, g);
      var k: int :| last == Times(g, k);
      MultipleOfStep(p, g, last, g, k);
      forall i | 0 <= i < n
        ensures MultipleOf(LcmProduct(g, xs), xs[i])
      {
        if i < n - 1 {
          assert front[i] == xs[i];
          MultipleOfStep(p, xs[i], last, g, k);
        } else {
          var m: int :| p == Times(g, m);
          assert p * (last / g) == Times(last, m);
        }
      }
    } else {
      assert g == Times(g, 1);
    }
  }

  /** Every argument is a multiple of the gcd `gi`. */
  lemma ArgumentsAreMultiples(args: seq<real>, gi: int)
    requires AllPositiveInts(args) && CommonDivisor(gi, Floors(args))
    ensures forall j :: 0 <= j < |args| ==> MultipleOf(args[j], gi as real)
  {
    forall j | 0 <= j < |args|
      ensures MultipleOf(args[j], gi as real)
    {
      assert IsPositiveInt(args[j]);
      assert Divides(gi, Floors(args)[j]);
      var k :| Floors(args)[j] == gi * k;
      assert args[j] == Times(gi as real, k);
    }
  }

  /** For arguments in `{1, 2, ...}` the result is a common multiple of all of them. */
  lemma LcmIsCommonMultiple(args: seq<real>)
    requires |args| >= 1 && AllPositiveInts(args)
    ensures Lcm(args).Success?
    ensures forall i :: 0 <= i < |args| ==> MultipleOf(Lcm(args).value, args[i])
  {
    GcdIsGreatestCommonDivisor(args);
    var g := Gcd(args).value;
    var gi := g.Floor;
    ArgumentsAreMultiples(args, gi);
    LcmProductMultiples(g, args);
  }

  /** For one argument the result is that argument; for two, L·gcd = a·b. */
  lemma LcmOfOne(a: real)
    requires IsPositiveInt(a)
    ensures Lcm([a]) == Success(a)
  {
    var g1 := Gcd([a]).value;
    assert g1 == a;
    assert [a][..0] == [];
    assert LcmProduct(g1, [a]) == g1 * (a / g1) == a;
  }

  lemma LcmOfTwo(a: real, b: real)
    requires IsPositiveInt(a) && IsPositiveInt(b)
    ensures Lcm([a, b]).Success? && Lcm([a, b]).value * Gcd([a, b]).value == a * b
  {
    var g := Gcd([a, b]).value;
    assert g != 0.0;
    LcmProductTwo(g, a, b);
    CancelDivision(a, b, g);
  }

  lemma LcmProductTwo(g: real, a: real, b: real)
    requires g != 0.0
    ensures LcmProduct(g, [a, b]) == a * (b / g)
  {
    assert [a, b][..1] == [a] && [a][..0] == [];
    assert LcmProduct(g, [a]) == g * (a / g);
    assert g * (a / g) == a;
  }

  lemma CancelDivision(a: real, b: real, g: real)
    requires g != 0.0
    ensures a * (b / g) * g == a * b
  {
    assert (b / g) * g == b;
  }

  /** `lcm(2, 3, 4)` is 24, although 12 is already a common multiple. */
  lemma LcmOfThreeNotLeast()
    ensures Lcm([2.0, 3.0, 4.0]) == Success(24.0)
    ensures MultipleOf(12.0, 2.0) && MultipleOf(12.0, 3.0) && MultipleOf(12.0, 4.0)
  {
    assert GcdStep(2, 3) == EuclidLoop(3, 2) == EuclidLoop(2, 1) == EuclidLoop(1, 0) == 1;
    assert Gcd([2.0, 3.0, 4.0]).value == 1.0;
    var xs := [2.0, 3.0, 4.0];
    assert xs[..2] == [2.0, 3.0] && [2.0, 3.0][..1] == [2.0] && [2.0][..0] == [];
    assert LcmProduct(1.0, xs) == 24.0;
    assert 12.0 == Times(2.0, 6) && 12.0 == Times(3.0, 4) && 12.0 == Times(4.0, 3);
  }

  /**
   * `lcm` shares the first-argument-only domain check: `lcm(4, 2.5)` is
   * accepted and yields 5, a value that is not an integer multiple of 4.
   */
  lemma LcmLaterArgumentsUnchecked()
    ensures Lcm([4.0, 2.5]) == Success(5.0)
    ensures !MultipleOf(5.0, 4.0)
  {
    assert ToLong(2.5) == 2;
    assert GcdStep(4, 2) == EuclidLoop(4, 2) == EuclidLoop(2, 0) == 2;
    assert Gcd([4.0, 2.5]).value == 2.0;
    var xs := [4.0, 2.5];
    assert xs[..1] == [4.0] && [4.0][..0] == [];
    assert LcmProduct(2.0, xs) == 5.0;
  }

  // ---------------------------------------------------- corrected lcm

  /** `m` is a multiple of every number in `xs`. */
  ghost predicate CommonMultiple(m: int, xs: seq<int>) {
    forall i :: 0 <= i < |xs| ==> Divides(xs[i], m)
  }

  /** `l` is the least common multiple of `xs`: positive, a common multiple, and a divisor of every positive common multiple. */
  ghost predicate IsLcm(l: int, xs: seq<int>) {
    && l > 0
    && CommonMultiple(l, xs)
    && forall m :: m > 0 && CommonMultiple(m, xs) ==> Divides(l, m)
  }

  /** The Euclid loop's result is an integer combination of its inputs. */
  lemma {:induction false} EuclidBezout(a: int, b: int) returns (x: int, y: int)
    requires a > 0 && b >= 0
    ensures EuclidLoop(a, b) == a * x + b * y
    decreases b
  {
    if b == 0 {
      x, y := 1, 0;
    } else {
      var q, r := JavaDiv(a, b), JavaRem(a, b);
      var x1, y1 := EuclidBezout(b, r);
      BezoutStep(a, b, q, r, x1, y1);
      x, y := y1, x1 - q * y1;
    }
  }

  lemma BezoutStep(a: int, b: int, q: int, r: int, x1: int, y1: int)
    requires a == q * b + r
    ensures b * x1 + r * y1 == a * y1 + b * (x1 - q * y1)
  {
    assert r * y1 == a * y1 - b * (q * y1);
  }

  lemma StepBezout(a: int, b: int) returns (x: int, y: int)
    requires a > 0 && b > 0
    ensures GcdStep(a, b) == a * x + b * y
  {
    if a < b {
      var u, v := EuclidBezout(b, a);
      x, y := v, u;
    } else {
      x, y := EuclidBezout(a, b);
    }
  }

  /** The lcm of two positive numbers: a·(b / gcd(a, b)). */
  function Lcm2(a: int, b: int): int
    requires a > 0 && b > 0
  {
    GcdStepIsGcd(a, b);
    a * (b / GcdStep(a, b))
  }

  lemma Lcm2IsLcm(a: int, b: int)
    requires a > 0 && b > 0
    ensures IsLcm(Lcm2(a, b), [a, b])
  {
    GcdStepIsGcd(a, b);
    var g := GcdStep(a, b);
    assert Divides(g, [a, b][0]) && Divides(g, [a, b][1]);
    var a1 :| a == g * a1;
    var b1 :| b == g * b1;
    Cofactors(a, b, g, a1, b1);
    var l := a * b1;
    assert l == Lcm2(a, b);
    assert Divides(a, l) && Divides(b, l);
    assert CommonMultiple(l, [a, b]);
    forall m | m > 0 && CommonMultiple(m, [a, b])
      ensures Divides(l, m)
    {
      assert Divides([a, b][0], m) && Divides([a, b][1], m);
      var x, y := StepBezout(a, b);
      Lcm2Least(a, b, g, b1, x, y, m);
    }
  }

  lemma PositiveFactor(g: int, k: int)
    requires g > 0 && g * k > 0
    ensures k > 0
  {
  }

  lemma Cofactors(a: int, b: int, g: int, a1: int, b1: int)
    requires a > 0 && b > 0 && g > 0 && a == g * a1 && b == g * b1
    ensures b / g == b1 && a1 > 0 && b1 > 0
    ensures a * b1 == b * a1 && a * b1 > 0
  {
    PositiveFactor(g, a1);
    PositiveFactor(g, b1);
    ExactQuotient(b, g, b1);
    Rearrange(g, a1, 1, b1);
    assert a * b1 == b * a1;
    PositiveProduct(a, b1);
  }

  lemma ExactQuotient(b: int, g: int, q: int)
    requires g > 0 && b == g * q
    ensures b / g == q
  {
    var d, r := b / g, b % g;
    assert g * q == g * d + r;
    assert g * (q - d) == r;
    SmallMultiple(g, q - d, r);
  }

  lemma SmallMultiple(g: int, k: int, r: int)
    requires g > 0 && 0 <= r < g && g * k == r
    ensures k == 0
  {
  }

  lemma PositiveProduct(a: int, b: int)
    requires a > 0 && b > 0
    ensures a * b > 0
  {
  }

  lemma Distribute(m: int, u: int, v: int)
    ensures m * (u + v) == m * u + m * v
  {
  }

  lemma Rearrange(p: int, q: int, r: int, s: int)
    ensures (p * q) * (r * s) == (r * p) * (q * s)
  {
  }

  lemma Cancel(u: int, v: int, g: int)
    requires g > 0 && u * g == v * g
    ensures u == v
  {
  }

  /** With g = a·x + b·y and b = g·b1, every common multiple m of a and b is a multiple of a·b1. */
  lemma Lcm2Least(a: int, b: int, g: int, b1: int, x: int, y: int, m: int)
    requires g > 0 && b == g * b1 && g == a * x + b * y
    requires Divides(a, m) && Divides(b, m)
    ensures Divides(a * b1, m)
  {
    var k1 :| m == a * k1;
    var k2 :| m == b * k2;
    var l := a * b1;
    var c := k2 * x + k1 * y;
    Distribute(m, a * x, b * y);
    assert m * g == m * (a * x) + m * (b * y);
    Rearrange(b, k2, a, x);
    assert m * (a * x) == (a * b) * (k2 * x);
    Rearrange(a, k1, b, y);
    assert (a * k1) * (b * y) == (b * a) * (k1 * y);
    assert m * (b * y) == (a * b) * (k1 * y);
    Distribute(a * b, k2 * x, k1 * y);
    assert m * g == (a * b) * c;
    assert a * b == a * (g * b1) == l * g;
    assert (l * g) * c == (l * c) * g;
    Cancel(m, l * c, g);
  }

  /** The pairwise fold: lcm(lcm(lcm(a0, a1), a2), ...). */
  function LcmFold(l: int, rest: seq<int>): int
    requires l > 0 && forall i :: 0 <= i < |rest| ==> rest[i] > 0
    decreases |rest|
  {
    if |rest| == 0 then l
    else
      Lcm2IsLcm(l, rest[0]);
      LcmFold(Lcm2(l, rest[0]), rest[1..])
  }

  lemma LcmExtend(l: int, xs: seq<int>, x: int)
    requires IsLcm(l, xs) && x > 0
    ensures IsLcm(Lcm2(l, x), xs + [x])
  {
    Lcm2IsLcm(l, x);
    var n := Lcm2(l, x);
    assert Divides([l, x][0], n) && Divides([l, x][1], n);
    forall i | 0 <= i < |xs + [x]|
      ensures Divides((xs + [x])[i], n)
    {
      if i < |xs| {
        assert Divides(xs[i], l);
        DividesTransitive(xs[i], l, n);
      }
    }
    forall m | m > 0 && CommonMultiple(m, xs + [x])
      ensures Divides(n, m)
    {
      assert CommonMultiple(m, xs) by {
        forall i | 0 <= i < |xs| ensures Divides(xs[i], m) {
          assert (xs + [x])[i] == xs[i];
        }
      }
      assert Divides((xs + [x])[|xs|], m);
      assert CommonMultiple(m, [l, x]);
    }
  }

  lemma {:induction false} LcmFoldIsLcm(l: int, xs: seq<int>, rest: seq<int>)
    requires IsLcm(l, xs) && forall i :: 0 <= i < |rest| ==> rest[i] > 0
    ensures IsLcm(LcmFold(l, rest), xs + rest)
    decreases |rest|
  {
    if |rest| == 0 {
      assert xs + rest == xs;
    } else {
      LcmExtend(l, xs, rest[0]);
      assert (xs + [rest[0]]) + rest[1..] == xs + rest;
      LcmFoldIsLcm(Lcm2(l, rest[0]), xs + [rest[0]], rest[1..]);
    }
  }

  lemma LcmOfSingleton(a: int)
    requires a > 0
    ensures IsLcm(a, [a])
  {
    assert a == a * 1;
    assert Divides([a][0], a);
    forall m | m > 0 && CommonMultiple(m, [a])
      ensures Divides(a, m)
    {
      assert Divides([a][0], m);
    }
  }

  /** `lcm` with every argument validated and the lcm built pairwise. */
  function LcmChecked(args: seq<real>): (r: Result<real, EvalError>)
    requires |args| >= 1
    ensures r.Failure? <==> !AllPositiveInts(args)
    ensures r.Failure? ==> exists i :: 0 <= i < |args| && r.error == OutsideDomain("lcm", i + 1, args[i], PositiveDomain)
                                       && !IsPositiveInt(args[i])
    ensures r.Success? ==> IsLcm(r.value.Floor, Floors(args))
  {
    match FirstInvalid(args, 0)
    case Some(i) => Failure(OutsideDomain("lcm", i + 1, args[i], PositiveDomain))
    case None =>
      var xs := Floors(args);
      assert forall i :: 0 <= i < |xs| ==> xs[i] > 0 by {
        forall i | 0 <= i < |xs| ensures xs[i] > 0 {
          assert IsPositiveInt(args[i]);
        }
      }
      LcmOfSingleton(xs[0]);
      LcmFoldIsLcm(xs[0], [xs[0]], xs[1..]);
      assert [xs[0]] + xs[1..] == xs;
      Success(LcmFold(xs[0], xs[1..]) as real)
  }
}
