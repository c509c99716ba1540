/**
 * Which tree the builder makes of a chain of operands and operators, for
 * every registry and every choice of operand and operator tokens: one
 * operator between two operands, one prefix or postfix operator on an
 * operand, and two infix operators, where precedence and associativity
 * decide which of the two becomes the root. The step lemmas unfold one token
 * of the builder's loop each.
 */
module Chains {
  import opened Wrappers
  import opened Operations
  import opened Grammar
  import opened SymbolTable
  import opened Ast
  import opened Text
  import opened Builder

  /** A token the loop turns into one tree on its own: a numeral, a known constant, a known variable. */
  predicate IsOperand(reg: Registry, t: Token)
  {
    match t.kind
    case ImmediateValue => NumeralCheck(t.text)
    case Constant => t.text in reg.constants
    case Variable => t.text in reg.variables
    case _ => false
  }

  /** The tree an operand token stands for. */
  function Operand(reg: Registry, t: Token): (n: Node)
    requires IsOperand(reg, t)
    ensures !n.Apply?
    ensures t.kind == Variable ==> n == Var(reg.variables[t.text])
  {
    match t.kind
    case ImmediateValue => Imm(NumeralValue(t.text))
    case Constant => Imm(reg.constants[t.text])
    case Variable => Var(reg.variables[t.text])
  }

  /** `t` names an operator at `position`, and `op` is the entry the loop takes for it. */
  predicate Denotes(reg: Registry, t: Token, position: Position, op: OperatorDef)
  {
    |OperatorAt(reg, t.text, position)| > 0 && OperatorAt(reg, t.text, position)[0] == op
  }

  /**
   * With `p` on the stack and the infix `q` arriving, `p` stays below `q`,
   * so `q` is applied first: `p` binds less tightly, or `q` is
   * right-associative and meets itself.
   */
  predicate StaysBelow(p: OperatorDef, q: OperatorDef)
  {
    p.priority > q.priority || (q.assoc == Right && p.priority == q.priority && p.name == q.name)
  }

  /** The entry an operator token denotes sits at the position asked for. */
  lemma DenotedPosition(reg: Registry, t: Token, position: Position, op: OperatorDef)
    requires Denotes(reg, t, position, op)
    ensures op.position == position
  {
    assert OperatorAt(reg, t.text, position)[0] in OperatorAt(reg, t.text, position);
  }

  /** With one infix operator stacked and no parenthesis open, the arriving `q` keeps it exactly when it stays below. */
  lemma KeptOfOne(p: OperatorDef, q: OperatorDef)
    requires p.position == Infix && q.position == Infix
    ensures StaysBelow(p, q) ==> KeptHeight([p], [], q) == 1
    ensures !StaysBelow(p, q) ==> KeptHeight([] + [p], [], q) == 0
  {
    assert [] + [p] == [p];
    assert Stops([p], [], q) <==> StaysBelow(p, q);
  }

  lemma OperandStep(reg: Registry, t: seq<Token>, i: nat, st: State)
    requires i < |t| && IsOperand(reg, t[i]) && ItemsShaped(st.out)
    ensures ItemsShaped(Emit(st, Operand(reg, t[i])).out)
    ensures Loop(reg, t, i, st) == Loop(reg, t, i + 1, Emit(st, Operand(reg, t[i])))
  {
  }

  /** An operator token goes to the placement of the entry it denotes. */
  lemma OperatorStep(reg: Registry, t: seq<Token>, i: nat, st: State, position: Position, op: OperatorDef)
    requires i < |t| && ItemsShaped(st.out) && Denotes(reg, t[i], position, op)
    requires t[i].kind == (match position case Prefix => OperatorPrefix case Infix => OperatorInfix case Postfix => OperatorPostfix)
    ensures op.position == position
    ensures Loop(reg, t, i, st) == Loop(reg, t, i + 1, Placed(st, op))
  {
    DenotedPosition(reg, t[i], position, op);
    PlaceThenPlaces(reg, t, i, st, position);
  }

  /** Placing an operator that pops nothing only pushes it. */
  lemma PlacedOnTop(st: State, op: OperatorDef)
    requires ItemsShaped(st.out) && KeptHeight(st.ops, st.parens, op) == |st.ops|
    ensures Placed(st, op) == st.(ops := st.ops + [op])
  {
    assert st.ops[..|st.ops|] == st.ops && st.ops[|st.ops|..] == [];
  }

  /** An operator token, at the position its kind gives, that pops nothing. */
  lemma PushStep(reg: Registry, t: seq<Token>, i: nat, st: State, op: OperatorDef, st': State)
    requires i < |t| && t[i].kind == OperatorInfix && Denotes(reg, t[i], Infix, op) && ItemsShaped(st.out)
    requires KeptHeight(st.ops, st.parens, op) == |st.ops|
    requires st' == st.(ops := st.ops + [op])
    ensures ItemsShaped(st'.out)
    ensures Loop(reg, t, i, st) == Loop(reg, t, i + 1, st')
  {
    OperatorStep(reg, t, i, st, Infix, op);
    PlacedOnTop(st, op);
  }

  /** An infix operator that pops exactly the top operator. */
  lemma PopOneStep(reg: Registry, t: seq<Token>, i: nat, below: seq<OperatorDef>, top: OperatorDef, out: seq<Item>, parens: seq<nat>, op: OperatorDef)
    requires i < |t| && t[i].kind == OperatorInfix && Denotes(reg, t[i], Infix, op) && ItemsShaped(out)
    requires KeptHeight(below + [top], parens, op) == |below|
    ensures ItemsShaped(out + [Waiting(top)])
    ensures Loop(reg, t, i, State(below + [top], out, parens)) == Loop(reg, t, i + 1, State(below + [op], out + [Waiting(top)], parens))
  {
    OperatorStep(reg, t, i, State(below + [top], out, parens), Infix, op);
    PlacedPopsOne(below, top, out, parens, op);
  }

  /** Placing an operator that pops exactly the top one queues that one. */
  lemma PlacedPopsOne(below: seq<OperatorDef>, top: OperatorDef, out: seq<Item>, parens: seq<nat>, op: OperatorDef)
    requires ItemsShaped(out) && KeptHeight(below + [top], parens, op) == |below|
    ensures ItemsShaped(out + [Waiting(top)])
    ensures Placed(State(below + [top], out, parens), op) == State(below + [op], out + [Waiting(top)], parens)
  {
    var ops := below + [top];
    assert ops[..|below|] == below && ops[|below|..] == [top];
    assert Drained([top]) == [Waiting(top)];
  }

  lemma PrefixStep(reg: Registry, t: seq<Token>, i: nat, st: State, op: OperatorDef, st': State)
    requires i < |t| && t[i].kind == OperatorPrefix && Denotes(reg, t[i], Prefix, op) && ItemsShaped(st.out)
    requires st' == st.(ops := st.ops + [op])
    ensures ItemsShaped(st'.out)
    ensures Loop(reg, t, i, st) == Loop(reg, t, i + 1, st')
  {
    PrefixKeepsStack(st.ops, st.parens, op);
    OperatorStep(reg, t, i, st, Prefix, op);
    PlacedOnTop(st, op);
  }

  lemma PostfixStep(reg: Registry, t: seq<Token>, i: nat, st: State, op: OperatorDef)
    requires i < |t| && t[i].kind == OperatorPostfix && Denotes(reg, t[i], Postfix, op) && ItemsShaped(st.out)
    requires st.ops == []
    ensures Loop(reg, t, i, st) == Loop(reg, t, i + 1, st.(ops := [op]))
  {
    OperatorStep(reg, t, i, st, Postfix, op);
    PlacedOnTop(st, op);
  }

  /** One operator on two leaves is queued as the leaves, then the operator. */
  lemma PairItems(op: OperatorDef, X: Node, Y: Node)
    requires op.position == Infix && !X.Apply? && !Y.Apply?
    ensures Shaped(Apply(op.AsOperation(), [X, Y]))
    ensures [Done(X), Done(Y)] + Drained([op]) == PostfixItems(Apply(op.AsOperation(), [X, Y]))
  {
  }

  /** `X p (Y q Z)` is queued as the three leaves, then `q`, then `p`. */
  lemma RaisedItems(p: OperatorDef, q: OperatorDef, X: Node, Y: Node, Z: Node)
    requires p.position == Infix && q.position == Infix && !X.Apply? && !Y.Apply? && !Z.Apply?
    ensures Shaped(Apply(p.AsOperation(), [X, Apply(q.AsOperation(), [Y, Z])]))
    ensures ([Done(X), Done(Y)] + [Done(Z)]) + Drained([p, q])
         == PostfixItems(Apply(p.AsOperation(), [X, Apply(q.AsOperation(), [Y, Z])]))
  {
    var inner := Apply(q.AsOperation(), [Y, Z]);
    assert PostfixItems(inner) == [Done(Y), Done(Z), Waiting(q)];
    assert PostfixItems(X) == [Done(X)];
    assert Drained([p, q]) == [Waiting(q), Waiting(p)];
    assert [Done(X), Done(Y)] + [Done(Z)] == [Done(X), Done(Y), Done(Z)];
  }

  /** `(X p Y) q Z` is queued as `X`, `Y`, `p`, `Z`, `q`. */
  lemma PoppedItems(p: OperatorDef, q: OperatorDef, X: Node, Y: Node, Z: Node)
    requires p.position == Infix && q.position == Infix && !X.Apply? && !Y.Apply? && !Z.Apply?
    ensures Shaped(Apply(q.AsOperation(), [Apply(p.AsOperation(), [X, Y]), Z]))
    ensures ([Done(X), Done(Y)] + [Waiting(p), Done(Z)]) + Drained([q])
         == PostfixItems(Apply(q.AsOperation(), [Apply(p.AsOperation(), [X, Y]), Z]))
  {
    var inner := Apply(p.AsOperation(), [X, Y]);
    assert PostfixItems(inner) == [Done(X), Done(Y), Waiting(p)];
    assert PostfixItems(Z) == [Done(Z)];
    assert Drained([q]) == [Waiting(q)];
    assert [Done(X), Done(Y)] + [Waiting(p), Done(Z)] == [Done(X), Done(Y), Waiting(p), Done(Z)];
  }

  /** A prefix or postfix operator on a leaf is queued as the leaf, then the operator. */
  lemma UnaryItems(op: OperatorDef, X: Node)
    requires op.position != Infix && !X.Apply?
    ensures Shaped(Apply(op.AsOperation(), [X]))
    ensures [Done(X)] + Drained([op]) == PostfixItems(Apply(op.AsOperation(), [X]))
  {
  }

  /** The end of the tokens: the stack drains onto the queue and the queue is assembled. */
  lemma Finish(reg: Registry, t: seq<Token>, st: State, n: Node)
    requires Loop(reg, t, 0, Start) == Success(st)
    requires Shaped(n) && st.out + Drained(st.ops) == PostfixItems(n)
    ensures Build(reg, t) == Success(n)
  {
    BuildFromLoop(reg, t, st);
    AssembleInvertsPostfix(n);
  }

  /** The last token, an operand, ends the loop. */
  lemma LastOperand(reg: Registry, t: seq<Token>, st: State)
    requires |t| > 0 && IsOperand(reg, t[|t| - 1]) && ItemsShaped(st.out)
    ensures Loop(reg, t, |t| - 1, st) == Success(st.(out := st.out + [Done(Operand(reg, t[|t| - 1]))]))
  {
    OperandStep(reg, t, |t| - 1, st);
  }

  /** The loop over `x o` and the first operand's state, for any continuation. */
  lemma ChainStart(reg: Registry, t: seq<Token>, op: OperatorDef)
    requires 2 <= |t| && IsOperand(reg, t[0])
    requires t[1].kind == OperatorInfix && Denotes(reg, t[1], Infix, op)
    ensures op.position == Infix
    ensures ItemsShaped([Done(Operand(reg, t[0]))])
    ensures Loop(reg, t, 0, Start) == Loop(reg, t, 2, State([op], [Done(Operand(reg, t[0]))], []))
  {
    DenotedPosition(reg, t[1], Infix, op);
    var X := Operand(reg, t[0]);
    OperandStep(reg, t, 0, Start);
    assert [] + [op] == [op] && [] + [Done(X)] == [Done(X)];
    PushStep(reg, t, 1, State([], [Done(X)], []), op, State([op], [Done(X)], []));
  }

  /** `x o y` builds `o` applied to `x` and `y`. */
  lemma Binary(reg: Registry, x: Token, o: Token, y: Token, op: OperatorDef)
    requires IsOperand(reg, x) && IsOperand(reg, y)
    requires o.kind == OperatorInfix && Denotes(reg, o, Infix, op)
    ensures Build(reg, [x, o, y]) == Success(Apply(op.AsOperation(), [Operand(reg, x), Operand(reg, y)]))
  {
    var t := [x, o, y];
    var X, Y := Operand(reg, x), Operand(reg, y);
    ChainStart(reg, t, op);
    LastOperand(reg, t, State([op], [Done(X)], []));
    PairItems(op, X, Y);
    assert [Done(X)] + [Done(Y)] == [Done(X), Done(Y)];
    Finish(reg, t, State([op], [Done(X), Done(Y)], []), Apply(op.AsOperation(), [X, Y]));
  }

  /** A prefix operator on one operand builds the operator applied to it. */
  lemma PrefixOnOperand(reg: Registry, o: Token, x: Token, op: OperatorDef)
    requires IsOperand(reg, x)
    requires o.kind == OperatorPrefix && Denotes(reg, o, Prefix, op)
    ensures Build(reg, [o, x]) == Success(Apply(op.AsOperation(), [Operand(reg, x)]))
  {
    var t := [o, x];
    var X := Operand(reg, x);
    DenotedPosition(reg, o, Prefix, op);
    assert [] + [op] == [op] && [] + [Done(X)] == [Done(X)];
    PrefixStep(reg, t, 0, Start, op, State([op], [], []));
    LastOperand(reg, t, State([op], [], []));
    UnaryItems(op, X);
    Finish(reg, t, State([op], [Done(X)], []), Apply(op.AsOperation(), [X]));
  }

  /** A postfix operator after one operand builds the operator applied to it. */
  lemma PostfixOnOperand(reg: Registry, x: Token, o: Token, op: OperatorDef)
    requires IsOperand(reg, x)
    requires o.kind == OperatorPostfix && Denotes(reg, o, Postfix, op)
    ensures Build(reg, [x, o]) == Success(Apply(op.AsOperation(), [Operand(reg, x)]))
  {
    var t := [x, o];
    var X := Operand(reg, x);
    PostfixLoop(reg, t, op);
    UnaryItems(op, X);
    Finish(reg, t, State([op], [Done(X)], []), Apply(op.AsOperation(), [X]));
  }

  lemma PostfixLoop(reg: Registry, t: seq<Token>, op: OperatorDef)
    requires |t| == 2 && IsOperand(reg, t[0])
    requires t[1].kind == OperatorPostfix && Denotes(reg, t[1], Postfix, op)
    ensures op.position == Postfix
    ensures Loop(reg, t, 0, Start) == Success(State([op], [Done(Operand(reg, t[0]))], []))
  {
    DenotedPosition(reg, t[1], Postfix, op);
    OperandStep(reg, t, 0, Start);
    var s1 := Emit(Start, Operand(reg, t[0]));
    assert s1 == State([], [Done(Operand(reg, t[0]))], []);
    PostfixStep(reg, t, 1, s1, op);
  }

  /**
   * `x o1 y o2 z`: when `o1` stays below `o2`, the tree is `x o1 (y o2 z)`;
   * otherwise `o2` pops `o1` and the tree is `(x o1 y) o2 z`.
   */
  lemma ChainOfTwo(reg: Registry, x: Token, o1: Token, y: Token, o2: Token, z: Token, p: OperatorDef, q: OperatorDef)
    requires IsOperand(reg, x) && IsOperand(reg, y) && IsOperand(reg, z)
    requires o1.kind == OperatorInfix && Denotes(reg, o1, Infix, p)
    requires o2.kind == OperatorInfix && Denotes(reg, o2, Infix, q)
    ensures var X, Y, Z := Operand(reg, x), Operand(reg, y), Operand(reg, z);
      Build(reg, [x, o1, y, o2, z]) == Success(
        if StaysBelow(p, q) then Apply(p.AsOperation(), [X, Apply(q.AsOperation(), [Y, Z])])
        else Apply(q.AsOperation(), [Apply(p.AsOperation(), [X, Y]), Z]))
  {
    var t := [x, o1, y, o2, z];
    if StaysBelow(p, q) {
      ChainRaises(reg, t, p, q);
    } else {
      ChainPops(reg, t, p, q);
    }
  }

  lemma ChainRaises(reg: Registry, t: seq<Token>, p: OperatorDef, q: OperatorDef)
    requires |t| == 5 && IsOperand(reg, t[0]) && IsOperand(reg, t[2]) && IsOperand(reg, t[4])
    requires t[1].kind == OperatorInfix && Denotes(reg, t[1], Infix, p)
    requires t[3].kind == OperatorInfix && Denotes(reg, t[3], Infix, q)
    requires StaysBelow(p, q)
    ensures var X, Y, Z := Operand(reg, t[0]), Operand(reg, t[2]), Operand(reg, t[4]);
      Build(reg, t) == Success(Apply(p.AsOperation(), [X, Apply(q.AsOperation(), [Y, Z])]))
  {
    var X, Y, Z := Operand(reg, t[0]), Operand(reg, t[2]), Operand(reg, t[4]);
    ChainStart(reg, t, p);
    RaisesLoop(reg, t, p, q);
    RaisedItems(p, q, X, Y, Z);
    Finish(reg, t, State([p, q], [Done(X), Done(Y)] + [Done(Z)], []), Apply(p.AsOperation(), [X, Apply(q.AsOperation(), [Y, Z])]));
  }

  /** The last three tokens when the stacked operator stays: the second one is pushed too. */
  lemma RaisesLoop(reg: Registry, t: seq<Token>, p: OperatorDef, q: OperatorDef)
    requires |t| == 5 && IsOperand(reg, t[0]) && IsOperand(reg, t[2]) && IsOperand(reg, t[4])
    requires t[3].kind == OperatorInfix && Denotes(reg, t[3], Infix, q)
    requires p.position == Infix && StaysBelow(p, q)
    ensures q.position == Infix
    ensures var X, Y, Z := Operand(reg, t[0]), Operand(reg, t[2]), Operand(reg, t[4]);
      Loop(reg, t, 2, State([p], [Done(X)], [])) == Success(State([p, q], [Done(X), Done(Y)] + [Done(Z)], []))
  {
    RaisesPush(reg, t, p, q);
    LastOperand(reg, t, State([p, q], [Done(Operand(reg, t[0])), Done(Operand(reg, t[2]))], []));
  }

  lemma RaisesPush(reg: Registry, t: seq<Token>, p: OperatorDef, q: OperatorDef)
    requires |t| == 5 && IsOperand(reg, t[0]) && IsOperand(reg, t[2])
    requires t[3].kind == OperatorInfix && Denotes(reg, t[3], Infix, q)
    requires p.position == Infix && StaysBelow(p, q)
    ensures q.position == Infix
    ensures var X, Y := Operand(reg, t[0]), Operand(reg, t[2]);
      Loop(reg, t, 2, State([p], [Done(X)], [])) == Loop(reg, t, 4, State([p, q], [Done(X), Done(Y)], []))
  {
    var X, Y := Operand(reg, t[0]), Operand(reg, t[2]);
    DenotedPosition(reg, t[3], Infix, q);
    KeptOfOne(p, q);
    OperandStep(reg, t, 2, State([p], [Done(X)], []));
    assert [p] + [q] == [p, q] && [Done(X)] + [Done(Y)] == [Done(X), Done(Y)];
    PushStep(reg, t, 3, State([p], [Done(X), Done(Y)], []), q, State([p, q], [Done(X), Done(Y)], []));
  }

  lemma ChainPops(reg: Registry, t: seq<Token>, p: OperatorDef, q: OperatorDef)
    requires |t| == 5 && IsOperand(reg, t[0]) && IsOperand(reg, t[2]) && IsOperand(reg, t[4])
    requires t[1].kind == OperatorInfix && Denotes(reg, t[1], Infix, p)
    requires t[3].kind == OperatorInfix && Denotes(reg, t[3], Infix, q)
    requires !StaysBelow(p, q)
    ensures var X, Y, Z := Operand(reg, t[0]), Operand(reg, t[2]), Operand(reg, t[4]);
      Build(reg, t) == Success(Apply(q.AsOperation(), [Apply(p.AsOperation(), [X, Y]), Z]))
  {
    var X, Y, Z := Operand(reg, t[0]), Operand(reg, t[2]), Operand(reg, t[4]);
    ChainStart(reg, t, p);
    PopsLoop(reg, t, p, q);
    PoppedItems(p, q, X, Y, Z);
    Finish(reg, t, State([q], [Done(X), Done(Y)] + [Waiting(p), Done(Z)], []), Apply(q.AsOperation(), [Apply(p.AsOperation(), [X, Y]), Z]));
  }

  /** The last three tokens when the second operator pops the first. */
  lemma PopsLoop(reg: Registry, t: seq<Token>, p: OperatorDef, q: OperatorDef)
    requires |t| == 5 && IsOperand(reg, t[0]) && IsOperand(reg, t[2]) && IsOperand(reg, t[4])
    requires t[3].kind == OperatorInfix && Denotes(reg, t[3], Infix, q)
    requires p.position == Infix && !StaysBelow(p, q)
    ensures q.position == Infix
    ensures var X, Y, Z := Operand(reg, t[0]), Operand(reg, t[2]), Operand(reg, t[4]);
      Loop(reg, t, 2, State([p], [Done(X)], [])) == Success(State([q], [Done(X), Done(Y)] + [Waiting(p), Done(Z)], []))
  {
    var X, Y, Z := Operand(reg, t[0]), Operand(reg, t[2]), Operand(reg, t[4]);
    PopsPop(reg, t, p, q);
    LastOperand(reg, t, State([q], [Done(X), Done(Y)] + [Waiting(p)], []));
    assert [Done(X), Done(Y)] + [Waiting(p)] + [Done(Z)] == [Done(X), Done(Y)] + [Waiting(p), Done(Z)];
  }

  lemma PopsPop(reg: Registry, t: seq<Token>, p: OperatorDef, q: OperatorDef)
    requires |t| == 5 && IsOperand(reg, t[0]) && IsOperand(reg, t[2])
    requires t[3].kind == OperatorInfix && Denotes(reg, t[3], Infix, q)
    requires p.position == Infix && !StaysBelow(p, q)
    ensures q.position == Infix
    ensures var X, Y := Operand(reg, t[0]), Operand(reg, t[2]);
      && ItemsShaped([Done(X), Done(Y)] + [Waiting(p)])
      && Loop(reg, t, 2, State([p], [Done(X)], [])) == Loop(reg, t, 4, State([q], [Done(X), Done(Y)] + [Waiting(p)], []))
  {
    var X, Y := Operand(reg, t[0]), Operand(reg, t[2]);
    DenotedPosition(reg, t[3], Infix, q);
    KeptOfOne(p, q);
    OperandStep(reg, t, 2, State([p], [Done(X)], []));
    assert [] + [p] == [p] && [] + [q] == [q] && [Done(X)] + [Done(Y)] == [Done(X), Done(Y)];
    PopOneStep(reg, t, 3, [], p, [Done(X), Done(Y)], [], q);
  }
}
