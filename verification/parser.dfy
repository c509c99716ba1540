/**
 * `parse`: an empty text is no expression; otherwise the parentheses must
 * balance, the text is lower-cased, split into tokens by the resolver and
 * built into a tree by the shunting-yard pass.
 */
module Parsing {
  import opened Wrappers
  import opened Text
  import opened Grammar
  import opened SymbolTable
  import opened Resolver
  import opened Builder
  import opened Expressions

  /** What one character does to the open-parenthesis count. */
  function ParenStep(c: char): int {
    if c == '(' then 1 else if c == ')' then -1 else 0
  }

  /** Opened minus closed parentheses in `s`. */
  function Depth(s: string): int
    decreases |s|
  {
    if |s| == 0 then 0 else Depth(s[..|s| - 1]) + ParenStep(s[|s| - 1])
  }

  /** No prefix closes more parentheses than it opened, and the whole text closes all it opened. */
  predicate WellNested(s: string) {
    (forall k :: 0 <= k <= |s| ==> Depth(s[..k]) >= 0) && Depth(s) == 0
  }

  /** The counting loop of `areParenthesesBalanced` from position `i`, the count so far being `p`. */
  function BalanceFrom(s: string, i: nat, p: int): bool
    requires i <= |s|
    decreases |s| - i
  {
    if i == |s| then p == 0
    else
      var q := p + ParenStep(s[i]);
      if q < 0 then false else BalanceFrom(s, i + 1, q)
  }

  lemma {:induction false} BalanceFromCorrect(s: string, i: nat, p: int)
    requires i <= |s| && p == Depth(s[..i])
    ensures BalanceFrom(s, i, p) <==> (forall k :: i < k <= |s| ==> Depth(s[..k]) >= 0) && Depth(s) == 0
    decreases |s| - i
  {
    if i == |s| {
      assert s[..i] == s;
    } else {
      assert s[..i + 1][..i] == s[..i];
      var q := p + ParenStep(s[i]);
      assert Depth(s[..i + 1]) == q;
      if q >= 0 {
        BalanceFromCorrect(s, i + 1, q);
      }
    }
  }

  /** `areParenthesesBalanced`: the running count never drops below zero and ends at zero. */
  function Balanced(s: string): (b: bool)
    ensures b <==> WellNested(s)
  {
    assert s[..0] == [];
    BalanceFromCorrect(s, 0, 0);
    BalanceFrom(s, 0, 0)
  }

  /**
   * `parse(text)`. The errors come in the source's order: unbalanced
   * parentheses first, then the resolver's verdict on the lower-cased text,
   * then the builder's.
   */
  function Parse(reg: Registry, s: string): (r: Result<Option<Expression>, ParseError>)
    ensures r == Success(None) <==> |s| == 0
    ensures r == Failure(ImbalancedParentheses) <==> |s| > 0 && !WellNested(s)
    ensures |s| > 0 && WellNested(s) && !HasReading(reg, ToLower(s), 0, Begin) ==> r == Failure(CannotBeResolved)
    ensures |s| > 0 && WellNested(s) && HasTwoReadings(reg, ToLower(s), 0, Begin) ==> r == Failure(IsAmbiguous)
    ensures r.Success? && r.value.Some? ==>
      && WellNested(s)
      && Tokenize(reg, ToLower(s)).Success?
      && Build(reg, Tokenize(reg, ToLower(s)).value) == Success(r.value.value.ast)
      && Shaped(r.value.value.ast)
      && r.value.value.bindings == map[]
  {
    if |s| == 0 then Success(None)
    else if !Balanced(s) then Failure(ImbalancedParentheses)
    else
      var tokens :- Tokenize(reg, ToLower(s));
      var ast :- Build(reg, tokens);
      Success(Some(New(ast)))
  }

  /** A text ending in a space is never parsed: the resolver cannot place the last space. */
  lemma TrailingSpaceRejected(reg: Registry, s: string)
    requires |s| > 0 && IsSpace(s[|s| - 1]) && WellNested(s)
    ensures Parse(reg, s) == Failure(CannotBeResolved)
  {
    TrailingSpaceUnresolvable(reg, ToLower(s));
  }

  /** The tokens of a parsed text spell it out, lower-cased and without spaces, in a grammatical order. */
  lemma ParsedTokens(reg: Registry, s: string)
    requires Parse(reg, s).Success? && Parse(reg, s).value.Some?
    ensures Tokenize(reg, ToLower(s)).Success?
    ensures Joined(Tokenize(reg, ToLower(s)).value) == RemoveSpaces(ToLower(s))
    ensures Chained(Begin, Tokenize(reg, ToLower(s)).value)
  {
    TokenizeTokens(reg, ToLower(s));
  }
}
