/** Character-level helpers: lower-casing, the space character and non-negative numerals. */
module Text {

  /** The only separator the parser knows is the plain space (Parser.java compares with ' '). */
  predicate IsSpace(c: char) { c == ' ' }

  predicate NoSpaces(s: string) {
    forall k :: 0 <= k < |s| ==> !IsSpace(s[k])
  }

  predicate AllSpaces(s: string) {
    forall k :: 0 <= k < |s| ==> IsSpace(s[k])
  }

  /**
   * The string with every space dropped. A single character is kept exactly
   * when it is not a space; with `RemoveSpacesAppend` this fixes the result as
   * the non-space characters of `s` in their original order.
   */
  function RemoveSpaces(s: string): (r: string)
    ensures NoSpaces(r)
    ensures |r| <= |s|
    ensures |s| == 1 ==> (r == [] <==> IsSpace(s[0])) && (r != [] ==> r == s)
  {
    if |s| == 0 then []
    else if IsSpace(s[0]) then RemoveSpaces(s[1..])
    else [s[0]] + RemoveSpaces(s[1..])
  }

  lemma {:induction false} RemoveSpacesAppend(a: string, b: string)
    ensures RemoveSpaces(a + b) == RemoveSpaces(a) + RemoveSpaces(b)
  {
    if |a| == 0 {
      assert a + b == b;
    } else {
      assert (a + b)[1..] == a[1..] + b;
      RemoveSpacesAppend(a[1..], b);
    }
  }

  /** Every non-space character occurs in the result as often as in the input. */
  lemma {:induction false} RemoveSpacesKeepsCharacters(s: string)
    ensures forall c :: !IsSpace(c) ==> multiset(RemoveSpaces(s))[c] == multiset(s)[c]
  {
    if |s| > 0 {
      RemoveSpacesKeepsCharacters(s[1..]);
      assert s == [s[0]] + s[1..];
      assert multiset(s) == multiset([s[0]]) + multiset(s[1..]);
      if !IsSpace(s[0]) {
        assert multiset(RemoveSpaces(s)) == multiset([s[0]]) + multiset(RemoveSpaces(s[1..]));
      }
    }
  }

  /** Removing spaces from `s[j..]` works piecewise around any cut `m`. */
  lemma RemoveSpacesCut(s: string, j: nat, m: nat)
    requires j <= m <= |s|
    ensures RemoveSpaces(s[j..]) == RemoveSpaces(s[j..m]) + RemoveSpaces(s[m..])
  {
    assert s[j..] == s[j..m] + s[m..];
    RemoveSpacesAppend(s[j..m], s[m..]);
  }

  lemma {:induction false} RemoveSpacesOfAllSpaces(s: string)
    requires AllSpaces(s)
    ensures RemoveSpaces(s) == []
  {
    if |s| > 0 {
      RemoveSpacesOfAllSpaces(s[1..]);
    }
  }

  lemma {:induction false} RemoveSpacesOfNoSpaces(s: string)
    requires NoSpaces(s)
    ensures RemoveSpaces(s) == s
  {
    if |s| > 0 {
      RemoveSpacesOfNoSpaces(s[1..]);
    }
  }

  predicate IsUpper(c: char) { 'A' <= c <= 'Z' }

  /** Lower-casing of ASCII letters; every other character is kept. */
  function LowerChar(c: char): char {
    if IsUpper(c) then (c as int + 32) as char else c
  }

  /**
   * `toLowerCase()`, restricted to ASCII: the length is kept, no upper-case
   * letter survives, every upper-case letter becomes the lower-case letter at
   * the same place in the alphabet, and every other character is kept.
   */
  function ToLower(s: string): (r: string)
    ensures |r| == |s|
    ensures forall k :: 0 <= k < |r| ==> !IsUpper(r[k])
    ensures forall k :: 0 <= k < |s| && IsUpper(s[k]) ==> 'a' <= r[k] <= 'z' && r[k] as int - 'a' as int == s[k] as int - 'A' as int
    ensures forall k :: 0 <= k < |s| && !IsUpper(s[k]) ==> r[k] == s[k]
  {
    seq(|s|, k requires 0 <= k < |s| => LowerChar(s[k]))
  }

  /** Lower-casing twice is lower-casing once. */
  lemma ToLowerIdempotent(s: string)
    ensures ToLower(ToLower(s)) == ToLower(s)
  {
  }

  /** `a` and `b` are the same character, or the same letter in the two cases. */
  predicate SameUpToCase(a: char, b: char) {
    || a == b
    || (IsUpper(a) && 'a' <= b <= 'z' && b as int - 'a' as int == a as int - 'A' as int)
    || (IsUpper(b) && 'a' <= a <= 'z' && a as int - 'a' as int == b as int - 'A' as int)
  }

  /** Two strings lower-case alike exactly when they agree up to the case of their letters. */
  lemma {:induction false} ToLowerCaseBlind(s: string, t: string)
    requires |s| == |t|
    ensures ToLower(s) == ToLower(t) <==> forall k :: 0 <= k < |s| ==> SameUpToCase(s[k], t[k])
  {
    if ToLower(s) == ToLower(t) {
      forall k | 0 <= k < |s| ensures SameUpToCase(s[k], t[k]) {
        assert ToLower(s)[k] == ToLower(t)[k];
      }
    }
    if forall k :: 0 <= k < |s| ==> SameUpToCase(s[k], t[k]) {
      forall k | 0 <= k < |s| ensures ToLower(s)[k] == ToLower(t)[k] {
        assert SameUpToCase(s[k], t[k]);
      }
    }
  }

  predicate IsDigit(c: char) { '0' <= c <= '9' }

  function DigitValue(c: char): nat
    requires IsDigit(c)
  {
    c as int - '0' as int
  }

  predicate AllDigits(s: string) {
    forall k :: 0 <= k < |s| ==> IsDigit(s[k])
  }

  /**
   * A non-negative decimal numeral: digits with at most one decimal point and at
   * least one digit ("12", "1.5", "1.", ".5").
   */
  predicate IsNumeral(s: string) {
    exists p :: 0 <= p <= |s| && NumeralSplit(s, p)
  }

  /** `p` is the position of the decimal point, or `|s|` when there is none. */
  predicate NumeralSplit(s: string, p: nat) {
    && p <= |s|
    && AllDigits(s[..p])
    && (p < |s| ==> s[p] == '.' && AllDigits(s[p + 1..]))
    && |s| > 0
    && (p > 0 || |s| > 1)
  }

  /** The position of the first decimal point, or `|s|`. */
  function PointIndex(s: string): (p: nat)
    ensures p <= |s|
    ensures p < |s| ==> s[p] == '.'
    ensures forall k :: 0 <= k < p ==> s[k] != '.'
  {
    if |s| == 0 then 0
    else if s[0] == '.' then 0
    else 1 + PointIndex(s[1..])
  }

  /** A numeral has only one split: the position of its first decimal point. */
  lemma NumeralSplitUnique(s: string, q: nat)
    requires NumeralSplit(s, q)
    ensures q == PointIndex(s)
  {
    var p := PointIndex(s);
    if q != p {
      assert false;
    }
  }

  /** Numeral recognition as a computable test: it agrees with `IsNumeral`. */
  function NumeralCheck(s: string): (b: bool)
    ensures b <==> IsNumeral(s)
  {
    var p := PointIndex(s);
    if NumeralSplit(s, p) then true
    else
      assert forall q :: 0 <= q <= |s| && NumeralSplit(s, q) ==> q == p by {
        forall q | 0 <= q <= |s| && NumeralSplit(s, q)
          ensures q == p
        {
          NumeralSplitUnique(s, q);
        }
      }
      false
  }

  function DigitsValue(s: string): nat
    requires AllDigits(s)
  {
    if |s| == 0 then 0
    else 10 * DigitsValue(s[..|s| - 1]) + DigitValue(s[|s| - 1])
  }

  function Pow10(n: nat): (r: nat)
    ensures r >= 1
  {
    if n == 0 then 1 else 10 * Pow10(n - 1)
  }

  /** The value of a numeral: whole part plus fractional part. */
  function NumeralValue(s: string): (v: real)
    requires IsNumeral(s)
    ensures v >= 0.0
  {
    var p := PointIndex(s);
    assert NumeralSplit(s, p) by { assert NumeralCheck(s); }
    var frac := if p < |s| then s[p + 1..] else [];
    DigitsValue(s[..p]) as real + DigitsValue(frac) as real / Pow10(|frac|) as real
  }
}
