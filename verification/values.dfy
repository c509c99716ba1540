/**
 * Values, evaluation errors and the Java conversions the built-ins depend on.
 * Doubles are modelled as exact reals.
 */
module Values {
  import opened Operations

  /** The ways an evaluation can fail (`EvaluationException` and its subclasses). */
  datatype EvalError =
    | UnboundVariable(name: string)
    /** `OutsideDomainException(operation, argument index, value, domain text)`. */
    | OutsideDomain(operation: string, argument: nat, value: real, domain: string)
    /** The operation returned `null`. */
    | NoValue(operation: string)
    /** The operation was applied to too few arguments (an array index crash in the source). */
    | Malformed(operation: string)

  /** What one application of an operation yields: a value, `null`, or an exception. */
  datatype OpResult = Value(value: real) | NoResult | Raised(error: EvalError)

  /**
   * Evaluation of everything whose value comes from code outside this model:
   * `Kind.Other` operations, division by zero and powers with a non-natural exponent.
   */
  type Foreign = (Operation, seq<real>) -> OpResult

  const IntMin: int := -0x8000_0000
  const IntMax: int := 0x7FFF_FFFF
  const LongMin: int := -0x8000_0000_0000_0000
  const LongMax: int := 0x7FFF_FFFF_FFFF_FFFF

  function Clamp(n: int, lo: int, hi: int): int
    requires lo <= hi
  {
    if n < lo then lo else if n > hi then hi else n
  }

  /** `(int)Math.floor(x)`: Java's narrowing conversion saturates at the 32-bit bounds. */
  function ToInt(x: real): (n: int)
    ensures IntMin <= n <= IntMax
    ensures IntMin <= x.Floor <= IntMax ==> n == x.Floor
    ensures x.Floor < IntMin ==> n == IntMin
    ensures x.Floor > IntMax ==> n == IntMax
  {
    Clamp(x.Floor, IntMin, IntMax)
  }

  /** `(long)Math.floor(x)`: saturates at the 64-bit bounds. */
  function ToLong(x: real): (n: int)
    ensures LongMin <= n <= LongMax
    ensures LongMin <= x.Floor <= LongMax ==> n == x.Floor
    ensures x.Floor < LongMin ==> n == LongMin
    ensures x.Floor > LongMax ==> n == LongMax
  {
    Clamp(x.Floor, LongMin, LongMax)
  }

  /** The check `n != args[k] || n < 0` with `n = (int)Math.floor(args[k])`, negated. */
  predicate IsIndex(x: real) {
    ToInt(x) as real == x && ToInt(x) >= 0
  }

  /** The check `(int)Math.floor(arg) != arg || arg < 1`, negated. */
  predicate IsPositiveInt(x: real) {
    ToInt(x) as real == x && x >= 1.0
  }

  /** The checks accept exactly the integers of `{0, ..., 2^31 - 1}` and of `{1, ..., 2^31 - 1}`. */
  lemma DomainChecks(x: real)
    ensures IsIndex(x) <==> x == x.Floor as real && 0 <= x.Floor <= IntMax
    ensures IsPositiveInt(x) <==> x == x.Floor as real && 1 <= x.Floor <= IntMax
  {
  }

  /** The logical reading of a value used by every logical operator: at least one means true. */
  predicate Truth(x: real) { x >= 1.0 }

  function FromBool(b: bool): (r: real)
    ensures Truth(r) == b
  {
    if b then 1.0 else 0.0
  }

  /** `x` to a natural power; `0^0 = 1` as in `Math.pow`. */
  function RealPow(x: real, n: nat): real {
    if n == 0 then 1.0 else x * RealPow(x, n - 1)
  }
}
