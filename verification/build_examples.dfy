/**
 * The builder on small token lists, with an operator table of this model's
 * own: `^` (right-associative) binds tighter than `*`, which binds tighter
 * than `+` (a lower priority number binds tighter); `-` is prefix; `f` has a
 * one- and a two-argument overload. The step lemmas unfold one token each.
 */
module BuildExamples {
  import opened Wrappers
  import opened Operations
  import opened Grammar
  import opened SymbolTable
  import opened Ast
  import opened Builder
  import opened Chains

  const Plus := OperatorDef(Add, "+", Infix, 4, Left)
  const Times := OperatorDef(Mul, "*", Infix, 3, Left)
  const Power := OperatorDef(Pow, "^", Infix, 2, Right)
  const Minus := OperatorDef(Negate, "-", Prefix, 1, Right)

  const Pair := FunctionDef(Other, "f", Exactly(2))
  const Single := FunctionDef(Other, "f", Exactly(1))

  const Reg := Registry(map[], map["a" := "a", "b" := "b", "c" := "c"],
    map["+" := [Plus], "*" := [Times], "^" := [Power], "-" := [Minus]], map["f" := [Pair, Single]])

  function V(x: string): Token { Token(x, Variable) }
  function I(x: string): Token { Token(x, OperatorInfix) }
  const Open := Token("(", ParenLeft)
  const Close := Token(")", ParenRight)
  const Sep := Token(",", Comma)
  const Neg := Token("-", OperatorPrefix)
  const F := Token("f", Function)

  lemma VariableStep(reg: Registry, t: seq<Token>, i: nat, st: State, st': State)
    requires i < |t| && t[i].kind == Variable && t[i].text in reg.variables && ItemsShaped(st.out)
    requires st' == Emit(st, Var(reg.variables[t[i].text]))
    ensures Loop(reg, t, i, st) == Loop(reg, t, i + 1, st')
  {
  }

  lemma OpenStep(reg: Registry, t: seq<Token>, i: nat, st: State, st': State)
    requires i < |t| && t[i].kind == ParenLeft && ItemsShaped(st.out)
    requires st' == st.(parens := st.parens + [|st.ops|])
    ensures ItemsShaped(st'.out)
    ensures Loop(reg, t, i, st) == Loop(reg, t, i + 1, st')
  {
  }

  lemma PlusLookup()
    ensures OperatorAt(Reg, "+", Infix) == [Plus]
  {
  }

  lemma TimesLookup()
    ensures OperatorAt(Reg, "*", Infix) == [Times]
  {
  }

  lemma PowerLookup()
    ensures OperatorAt(Reg, "^", Infix) == [Power]
  {
  }

  lemma MinusLookup()
    ensures OperatorAt(Reg, "-", Prefix) == [Minus]
  {
  }

  lemma CloseStep(reg: Registry, t: seq<Token>, i: nat, st: State, st': State)
    requires i < |t| && t[i].kind == ParenRight && ItemsShaped(st.out) && |st.parens| > 0
    requires var limit := st.parens[|st.parens| - 1];
      limit <= |st.ops| && st' == State(st.ops[..limit], st.out + Drained(st.ops[limit..]), st.parens[..|st.parens| - 1])
    ensures ItemsShaped(st'.out)
    ensures Loop(reg, t, i, st) == Loop(reg, t, i + 1, st')
  {
    CloseThenCloses(reg, t, i, st);
    assert Closed(st) == st';
  }

  const A := Done(Var("a"))
  const B := Done(Var("b"))
  const C := Done(Var("c"))

  // a+b*c
  const Sum := [V("a"), I("+"), V("b"), I("*"), V("c")]

  /** `a+b*c`: the tighter `*` is applied first, so it sits below `+`. */
  lemma Precedence()
    ensures Build(Reg, Sum)
         == Success(Apply(Plus.AsOperation(), [Var("a"), Apply(Times.AsOperation(), [Var("b"), Var("c")])]))
  {
    PlusLookup();
    TimesLookup();
    ChainOfTwo(Reg, V("a"), I("+"), V("b"), I("*"), V("c"), Plus, Times);
  }

  // (a+b)*c
  const Grouped := [Open, V("a"), I("+"), V("b"), Close, I("*"), V("c")]

  lemma GroupedLoopOpen()
    ensures Loop(Reg, Grouped, 0, Start) == Loop(Reg, Grouped, 2, State([], [A], [0]))
  {
    var s1 := State([], [], [0]);
    OpenStep(Reg, Grouped, 0, Start, s1);
    VariableStep(Reg, Grouped, 1, s1, State([], [A], [0]));
  }

  lemma GroupedLoopHead()
    ensures Loop(Reg, Grouped, 0, Start) == Loop(Reg, Grouped, 3, State([Plus], [A], [0]))
  {
    PlusLookup();
    GroupedLoopOpen();
    PushStep(Reg, Grouped, 2, State([], [A], [0]), Plus, State([Plus], [A], [0]));
  }

  lemma GroupedLoopMiddle()
    ensures Loop(Reg, Grouped, 3, State([Plus], [A], [0])) == Loop(Reg, Grouped, 5, State([], [A, B, Waiting(Plus)], []))
  {
    var s4 := State([Plus], [A, B], [0]);
    VariableStep(Reg, Grouped, 3, State([Plus], [A], [0]), s4);
    CloseStep(Reg, Grouped, 4, s4, State([], [A, B, Waiting(Plus)], []));
  }

  lemma GroupedLoopTail()
    ensures Loop(Reg, Grouped, 5, State([], [A, B, Waiting(Plus)], [])) == Success(State([Times], [A, B, Waiting(Plus), C], []))
  {
    var s5 := State([], [A, B, Waiting(Plus)], []);
    var s6 := State([Times], [A, B, Waiting(Plus)], []);
    TimesLookup();
    PushStep(Reg, Grouped, 5, s5, Times, s6);
    VariableStep(Reg, Grouped, 6, s6, State([Times], [A, B, Waiting(Plus), C], []));
  }

  /** `(a+b)*c`: the parenthesis drains `+` before `*` arrives, so `+` sits below `*`. */
  lemma Parenthesised()
    ensures Build(Reg, Grouped)
         == Success(Apply(Times.AsOperation(), [Apply(Plus.AsOperation(), [Var("a"), Var("b")]), Var("c")]))
  {
    GroupedLoopHead();
    GroupedLoopMiddle();
    GroupedLoopTail();
    BuildFromLoop(Reg, Grouped, State([Times], [A, B, Waiting(Plus), C], []));
    var n := Apply(Times.AsOperation(), [Apply(Plus.AsOperation(), [Var("a"), Var("b")]), Var("c")]);
    assert [A, B, Waiting(Plus), C] + Drained([Times]) == PostfixItems(n);
    AssembleInvertsPostfix(n);
  }

  // a^b^c and a+b+c
  const Powers := [V("a"), I("^"), V("b"), I("^"), V("c")]
  const Sums := [V("a"), I("+"), V("b"), I("+"), V("c")]

  /** `a^b^c` with a right-associative `^` nests to the right: `a^(b^c)`. */
  lemma RightAssociative()
    ensures Build(Reg, Powers)
         == Success(Apply(Power.AsOperation(), [Var("a"), Apply(Power.AsOperation(), [Var("b"), Var("c")])]))
  {
    PowerLookup();
    ChainOfTwo(Reg, V("a"), I("^"), V("b"), I("^"), V("c"), Power, Power);
  }

  /** `a+b+c` with a left-associative `+` nests to the left: `(a+b)+c`. */
  lemma LeftAssociative()
    ensures Build(Reg, Sums)
         == Success(Apply(Plus.AsOperation(), [Apply(Plus.AsOperation(), [Var("a"), Var("b")]), Var("c")]))
  {
    PlusLookup();
    ChainOfTwo(Reg, V("a"), I("+"), V("b"), I("+"), V("c"), Plus, Plus);
  }

  // --a
  const Negs := [Neg, Neg, V("a")]

  lemma NegsLoopHead()
    ensures Loop(Reg, Negs, 0, Start) == Loop(Reg, Negs, 2, State([Minus, Minus], [], []))
  {
    var s1 := State([Minus], [], []);
    MinusLookup();
    PrefixStep(Reg, Negs, 0, Start, Minus, s1);
    PrefixStep(Reg, Negs, 1, s1, Minus, State([Minus, Minus], [], []));
  }

  lemma NegsLoop()
    ensures Loop(Reg, Negs, 0, Start) == Success(State([Minus, Minus], [A], []))
  {
    NegsLoopHead();
    VariableStep(Reg, Negs, 2, State([Minus, Minus], [], []), State([Minus, Minus], [A], []));
  }

  /** Stacked prefix operators apply innermost first: `-(-a)`. */
  lemma StackedPrefix()
    ensures Build(Reg, Negs) == Success(Apply(Minus.AsOperation(), [Apply(Minus.AsOperation(), [Var("a")])]))
  {
    NegsLoop();
    BuildFromLoop(Reg, Negs, State([Minus, Minus], [A], []));
    var n := Apply(Minus.AsOperation(), [Apply(Minus.AsOperation(), [Var("a")])]);
    assert [A] + Drained([Minus, Minus]) == PostfixItems(n);
    AssembleInvertsPostfix(n);
  }

  // calls: f(a,b), f(a,), f(,a)

  /** A lone variable token is that variable. */
  lemma SingleVariable(x: string)
    requires x in Reg.variables
    ensures Build(Reg, [V(x)]) == Success(Var(Reg.variables[x]))
  {
    var n := Var(Reg.variables[x]);
    VariableStep(Reg, [V(x)], 0, Start, State([], [Done(n)], []));
    assert [Done(n)] + Drained([]) == PostfixItems(n);
    AssembleInvertsPostfix(n);
  }

  const CallTwo := [F, Open, V("a"), Sep, V("b"), Close]
  const CallTrailing := [F, Open, V("a"), Sep, Close]
  const CallLeading := [F, Open, Sep, V("a"), Close]

  lemma CallTwoFirst()
    ensures Arguments(Reg, CallTwo, 2, 0, 2, []) == Arguments(Reg, CallTwo, 4, 0, 4, [Var("a")])
  {
    assert CallTwo[2..3] == [V("a")];
    SingleVariable("a");
    assert Reg.variables["a"] == "a";
    assert [] + [Var("a")] == [Var("a")];
    assert Arguments(Reg, CallTwo, 2, 0, 2, []) == Arguments(Reg, CallTwo, 3, 0, 2, []);
  }

  lemma CallTwoArguments()
    ensures Arguments(Reg, CallTwo, 2, 0, 2, []) == Success(([Var("a"), Var("b")], 5))
  {
    CallTwoFirst();
    assert CallTwo[4..5] == [V("b")];
    SingleVariable("b");
    assert Reg.variables["b"] == "b";
    assert [Var("a")] + [Var("b")] == [Var("a"), Var("b")];
    assert Arguments(Reg, CallTwo, 4, 0, 4, [Var("a")]) == Arguments(Reg, CallTwo, 5, 0, 4, [Var("a")]);
  }

  /** `f(a,b)` picks the two-argument overload. */
  lemma CallPicksOverload()
    ensures Build(Reg, CallTwo) == Success(Apply(Pair.AsOperation(), [Var("a"), Var("b")]))
  {
    CallTwoArguments();
    assert Overload([Pair, Single], 2) == Success(Pair) by {
      assert TwoAccept([Pair, Single], 2) ==> false;
    }
    var n := Apply(Pair.AsOperation(), [Var("a"), Var("b")]);
    CallThenCalls(Reg, CallTwo, 0, Start);
    CalledQueues(Reg, CallTwo, 0, Start, [Pair, Single], [Var("a"), Var("b")], 5, Pair);
    assert Loop(Reg, CallTwo, 0, Start) == Loop(Reg, CallTwo, 6, Emit(Start, n));
    assert [Done(n)] + Drained([]) == PostfixItems(n);
    AssembleInvertsPostfix(n);
  }

  lemma TrailingArguments()
    ensures Arguments(Reg, CallTrailing, 2, 0, 2, []) == Success(([Var("a")], 4))
  {
    assert CallTrailing[2..3] == [V("a")];
    SingleVariable("a");
    assert Reg.variables["a"] == "a";
    assert [] + [Var("a")] == [Var("a")];
    assert Arguments(Reg, CallTrailing, 2, 0, 2, []) == Arguments(Reg, CallTrailing, 3, 0, 2, []);
    assert Arguments(Reg, CallTrailing, 3, 0, 2, []) == Arguments(Reg, CallTrailing, 4, 0, 4, [Var("a")]);
  }

  /** `f(a,)`: the empty argument after the last comma is dropped, so the one-argument overload is taken. */
  lemma TrailingCommaDropped()
    ensures Build(Reg, CallTrailing) == Success(Apply(Single.AsOperation(), [Var("a")]))
  {
    TrailingArguments();
    assert Overload([Pair, Single], 1) == Success(Single) by {
      assert TwoAccept([Pair, Single], 1) ==> false;
    }
    var n := Apply(Single.AsOperation(), [Var("a")]);
    CallThenCalls(Reg, CallTrailing, 0, Start);
    CalledQueues(Reg, CallTrailing, 0, Start, [Pair, Single], [Var("a")], 4, Single);
    assert Loop(Reg, CallTrailing, 0, Start) == Loop(Reg, CallTrailing, 5, Emit(Start, n));
    assert [Done(n)] + Drained([]) == PostfixItems(n);
    AssembleInvertsPostfix(n);
  }

  /** `f(,a)`: an empty argument before a comma is built on its own and cannot become a tree. */
  lemma LeadingCommaFails()
    ensures Build(Reg, CallLeading) == Failure(CannotCreateAst)
  {
    assert CallLeading[2..2] == [];
    assert Arguments(Reg, CallLeading, 2, 0, 2, []) == Failure(CannotCreateAst);
    assert CallThen(Reg, CallLeading, 0, Start) == Failure(CannotCreateAst);
  }
}
