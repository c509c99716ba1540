/**
 * `createAST`: the shunting-yard pass that turns a resolved token list into a
 * tree. Operators wait on a stack `ops` (top = last element), finished trees
 * and operators ready to apply go to the output queue `out`, and `parens`
 * records the stack height at each open parenthesis. A function call is built
 * on the spot: its arguments are cut at top-level commas and each is built by
 * a recursive call. The queue is finally read as postfix notation.
 */
module Builder {
  import opened Wrappers
  import opened Text
  import opened Operations
  import opened Grammar
  import opened SymbolTable
  import opened Ast

  /** An entry of the output queue: a finished tree, or an operator still waiting for its operands. */
  datatype Item =
    | Done(node: Node)
    | Pending(kind: Kind, name: string, position: Position)

  datatype State = State(ops: seq<OperatorDef>, out: seq<Item>, parens: seq<nat>)

  const Start := State([], [], [])

  function Waiting(o: OperatorDef): Item {
    Pending(o.kind, o.name, o.position)
  }

  /** The operators of `ops` as they leave the stack: top first. */
  function Drained(ops: seq<OperatorDef>): (r: seq<Item>)
    ensures |r| == |ops|
    ensures forall i :: 0 <= i < |r| ==> r[i] == Waiting(ops[|ops| - 1 - i])
    decreases |ops|
  {
    if |ops| == 0 then [] else [Waiting(ops[|ops| - 1])] + Drained(ops[..|ops| - 1])
  }

  /** Draining a stack is draining the part above any height, then the part below it. */
  lemma {:induction false} DrainedSplit(ops: seq<OperatorDef>, h: nat)
    requires h <= |ops|
    ensures Drained(ops) == Drained(ops[h..]) + Drained(ops[..h])
    decreases |ops|
  {
    if h == |ops| {
      assert ops[h..] == [] && ops[..h] == ops;
    } else {
      var below := ops[..|ops| - 1];
      DrainedSplit(below, h);
      assert ops[h..][..|ops[h..]| - 1] == below[h..];
      assert below[..h] == ops[..h];
    }
  }

  // ------------------------------------------------------- operator placement

  /**
   * The stop rules of the popping loop for an incoming `op`, looking at the top
   * of `ops`: an open parenthesis at this height, a prefix operator (which
   * never pops), a tighter-bound top that is not postfix (a lower priority
   * number binds tighter), or — for a right-associative infix operator — the
   * same operator at the same priority on top.
   */
  predicate Stops(ops: seq<OperatorDef>, parens: seq<nat>, op: OperatorDef)
    requires |ops| > 0
  {
    var top := ops[|ops| - 1];
    || (|parens| > 0 && |ops| == parens[|parens| - 1])
    || op.position == Prefix
    || (op.position == Infix
        && ((top.position != Postfix && top.priority > op.priority)
            || (op.assoc == Right && top.priority == op.priority && top.name == op.name)))
    || (op.position == Postfix && top.position != Postfix && top.priority > op.priority)
  }

  /**
   * How many operators stay on the stack when `op` arrives: the loop pops from
   * the top until a stop rule holds or the stack is empty, so the height kept
   * is the highest one at which a rule stops it, and no height above it does.
   */
  function KeptHeight(ops: seq<OperatorDef>, parens: seq<nat>, op: OperatorDef): (h: nat)
    ensures h <= |ops|
    ensures h == 0 || Stops(ops[..h], parens, op)
    ensures forall k :: h < k <= |ops| ==> !Stops(ops[..k], parens, op)
    decreases |ops|
  {
    if |ops| == 0 || Stops(ops, parens, op) then |ops|
    else
      var below := ops[..|ops| - 1];
      var h := KeptHeight(below, parens, op);
      assert forall k :: 0 <= k <= |below| ==> below[..k] == ops[..k];
      assert ops[..|ops|] == ops;
      h
  }

  /**
   * The state once `op` has arrived: the operators above the kept height have
   * left for the queue, top first, and `op` sits on top of the rest. Nothing
   * is lost: draining the new state below `op` gives the old drained queue.
   */
  function Placed(st: State, op: OperatorDef): (r: State)
    requires ItemsShaped(st.out)
    ensures ItemsShaped(r.out)
    ensures r.parens == st.parens
    ensures r.ops == st.ops[..KeptHeight(st.ops, st.parens, op)] + [op]
    ensures st.out <= r.out
    ensures r.out + Drained(r.ops[..|r.ops| - 1]) == st.out + Drained(st.ops)
  {
    var h := KeptHeight(st.ops, st.parens, op);
    DrainedSplit(st.ops, h);
    var r := State(st.ops[..h] + [op], st.out + Drained(st.ops[h..]), st.parens);
    assert r.ops[..|r.ops| - 1] == st.ops[..h];
    r
  }

  /**
   * The state after a closing parenthesis: the operators above the innermost
   * mark (all of them if the stack is lower) leave for the queue, top first,
   * and the mark is dropped. Nothing is lost.
   */
  function Closed(st: State): (r: State)
    requires |st.parens| > 0 && ItemsShaped(st.out)
    ensures ItemsShaped(r.out)
    ensures r.parens == st.parens[..|st.parens| - 1]
    ensures var mark := st.parens[|st.parens| - 1];
      && (mark <= |st.ops| ==> |r.ops| == mark)
      && (|st.ops| <= mark ==> r.ops == st.ops)
    ensures r.ops == st.ops[..|r.ops|]
    ensures st.out <= r.out
    ensures r.out + Drained(r.ops) == st.out + Drained(st.ops)
  {
    var mark := st.parens[|st.parens| - 1];
    var h := if mark < |st.ops| then mark else |st.ops|;
    DrainedSplit(st.ops, h);
    State(st.ops[..h], st.out + Drained(st.ops[h..]), st.parens[..|st.parens| - 1])
  }

  /** A prefix operator never pops anything. */
  lemma PrefixKeepsStack(ops: seq<OperatorDef>, parens: seq<nat>, op: OperatorDef)
    requires op.position == Prefix
    ensures KeptHeight(ops, parens, op) == |ops|
  {
  }

  /** Operators below the innermost open parenthesis are never popped by an operator inside it. */
  lemma ParenthesisShields(ops: seq<OperatorDef>, parens: seq<nat>, op: OperatorDef)
    requires |parens| > 0 && parens[|parens| - 1] <= |ops|
    ensures KeptHeight(ops, parens, op) >= parens[|parens| - 1]
  {
    var limit := parens[|parens| - 1];
    if limit > 0 {
      assert Stops(ops[..limit], parens, op);
    }
  }

  /**
   * A right-associative infix operator does not pop its own kind at the same
   * priority, so `a ^ b ^ c` nests to the right; a left-associative one does,
   * and so does one associative both ways (the loop looks only for `Right`).
   */
  lemma Associativity(ops: seq<OperatorDef>, op: OperatorDef)
    requires |ops| > 0 && op.position == Infix && ops[|ops| - 1] == op
    ensures op.assoc == Right ==> KeptHeight(ops, [], op) == |ops|
    ensures op.assoc == Left ==> KeptHeight(ops, [], op) < |ops|
    ensures op.assoc == Both ==> KeptHeight(ops, [], op) < |ops|
  {
  }

  // ------------------------------------------------------------ function calls

  /** The overloads of `fs` that accept `n` arguments, in order. */
  function Matching(fs: seq<FunctionDef>, n: nat): (r: seq<FunctionDef>)
    ensures forall f :: f in r <==> f in fs && f.arity.Accepts(n)
    decreases |fs|
  {
    if |fs| == 0 then []
    else (if fs[0].arity.Accepts(n) then [fs[0]] else []) + Matching(fs[1..], n)
  }

  /** Two different positions of `fs` accept `n` arguments. */
  predicate TwoAccept(fs: seq<FunctionDef>, n: nat) {
    exists i, j :: 0 <= i < j < |fs| && fs[i].arity.Accepts(n) && fs[j].arity.Accepts(n)
  }

  lemma {:induction false} TwoAcceptMatching(fs: seq<FunctionDef>, n: nat)
    requires TwoAccept(fs, n)
    ensures |Matching(fs, n)| >= 2
    decreases |fs|
  {
    var rest := fs[1..];
    var i, j :| 0 <= i < j < |fs| && fs[i].arity.Accepts(n) && fs[j].arity.Accepts(n);
    if i > 0 {
      assert rest[i - 1] == fs[i] && rest[j - 1] == fs[j];
      TwoAcceptMatching(rest, n);
    } else {
      assert rest[j - 1] == fs[j];
      assert fs[j] in Matching(rest, n);
    }
  }

  /** Some position of a non-empty match list's source accepts the count. */
  lemma {:induction false} MatchingOneAccept(fs: seq<FunctionDef>, n: nat)
    requires |Matching(fs, n)| >= 1
    ensures exists j :: 0 <= j < |fs| && fs[j].arity.Accepts(n)
    decreases |fs|
  {
    if !fs[0].arity.Accepts(n) {
      MatchingOneAccept(fs[1..], n);
      var j :| 0 <= j < |fs[1..]| && fs[1..][j].arity.Accepts(n);
      assert fs[j + 1] == fs[1..][j];
    }
  }

  lemma {:induction false} MatchingTwoAccept(fs: seq<FunctionDef>, n: nat)
    requires |Matching(fs, n)| >= 2
    ensures TwoAccept(fs, n)
    decreases |fs|
  {
    var rest := fs[1..];
    if fs[0].arity.Accepts(n) {
      assert Matching(fs, n) == [fs[0]] + Matching(rest, n);
      MatchingOneAccept(rest, n);
      var j :| 0 <= j < |rest| && rest[j].arity.Accepts(n);
      assert fs[j + 1] == rest[j];
      assert 0 <= 0 < j + 1 < |fs| && fs[0].arity.Accepts(n) && fs[j + 1].arity.Accepts(n);
    } else {
      assert Matching(fs, n) == Matching(rest, n);
      MatchingTwoAccept(rest, n);
      var i, j :| 0 <= i < j < |rest| && rest[i].arity.Accepts(n) && rest[j].arity.Accepts(n);
      assert fs[i + 1] == rest[i] && fs[j + 1] == rest[j];
      assert 0 <= i + 1 < j + 1 < |fs| && fs[i + 1].arity.Accepts(n) && fs[j + 1].arity.Accepts(n);
    }
  }

  lemma MatchingTwo(fs: seq<FunctionDef>, n: nat)
    ensures |Matching(fs, n)| >= 2 <==> TwoAccept(fs, n)
  {
    if TwoAccept(fs, n) {
      TwoAcceptMatching(fs, n);
    }
    if |Matching(fs, n)| >= 2 {
      MatchingTwoAccept(fs, n);
    }
  }

  /**
   * Overload selection for `n` arguments: the one overload that accepts the
   * count; none is "cannot be resolved", two or more is "ambiguous".
   */
  function Overload(fs: seq<FunctionDef>, n: nat): (r: Result<FunctionDef, ParseError>)
    ensures r.Success? ==> r.value in fs && r.value.arity.Accepts(n) && !TwoAccept(fs, n)
    ensures r == Failure(CannotBeResolved) <==> forall f :: f in fs ==> !f.arity.Accepts(n)
    ensures r == Failure(IsAmbiguous) <==> TwoAccept(fs, n)
    ensures r.Success? || r == Failure(CannotBeResolved) || r == Failure(IsAmbiguous)
  {
    var m := Matching(fs, n);
    MatchingTwo(fs, n);
    if |m| == 0 then Failure(CannotBeResolved)
    else if |m| >= 2 then Failure(IsAmbiguous)
    else
      assert m[0] in m;
      Success(m[0])
  }

  // ---------------------------------------------------------------- the pass

  /** Every operator node has as many operands as its position demands, all the way down. */
  predicate Shaped(n: Node)
    decreases n
  {
    match n
    case Apply(op, args) =>
      && (op.Op? ==> |args| == OperandCount(op.position))
      && forall i :: 0 <= i < |args| ==> Shaped(args[i])
    case _ => true
  }

  predicate AllShaped(ns: seq<Node>) {
    forall i :: 0 <= i < |ns| ==> Shaped(ns[i])
  }

  predicate ItemsShaped(items: seq<Item>) {
    forall i :: 0 <= i < |items| && items[i].Done? ==> Shaped(items[i].node)
  }

  /**
   * `createAST(tokens)`. Errors: a token kind the pass does not handle
   * (decimal point, a comma outside a call) is "unknown type of token", an
   * overload problem is reported as by `Overload`, a queue that does not reduce
   * to one tree is "cannot create AST", and every unchecked exception of the
   * source (empty stack popped, token list read past its end, missing table
   * entry) is `Crashed`.
   */
  function Build(reg: Registry, tokens: seq<Token>): (r: Result<Node, ParseError>)
    ensures r.Success? ==> Shaped(r.value)
    ensures r.Failure? ==> r.error != ImbalancedParentheses
    ensures |tokens| == 0 ==> r == Failure(CannotCreateAst)
    decreases |tokens|, 2
  {
    var st :- Loop(reg, tokens, 0, Start);
    Assemble(st.out + Drained(st.ops), [])
  }

  /** Once the loop has run, the tree is what the drained queue assembles to. */
  lemma BuildFromLoop(reg: Registry, tokens: seq<Token>, st: State)
    requires Loop(reg, tokens, 0, Start) == Success(st)
    ensures ItemsShaped(st.out + Drained(st.ops))
    ensures Build(reg, tokens) == Assemble(st.out + Drained(st.ops), [])
  {
  }

  /** The main loop from token `i` on. */
  function Loop(reg: Registry, tokens: seq<Token>, i: nat, st: State): (r: Result<State, ParseError>)
    requires i <= |tokens|
    requires ItemsShaped(st.out)
    ensures r.Success? ==> ItemsShaped(r.value.out)
    ensures r.Failure? ==> r.error != ImbalancedParentheses
    ensures i == |tokens| ==> r == Success(st)
    decreases |tokens|, 1, |tokens| - i, 2
  {
    if i == |tokens| then Success(st)
    else
      var t := tokens[i];
      match t.kind
      case ImmediateValue =>
        if NumeralCheck(t.text) then Loop(reg, tokens, i + 1, Emit(st, Imm(NumeralValue(t.text))))
        else Failure(Crashed)
      case Constant =>
        if t.text in reg.constants then Loop(reg, tokens, i + 1, Emit(st, Imm(reg.constants[t.text])))
        else Failure(Crashed)
      case Variable =>
        if t.text in reg.variables then Loop(reg, tokens, i + 1, Emit(st, Var(reg.variables[t.text])))
        else Failure(Crashed)
      case OperatorPrefix => PlaceThen(reg, tokens, i, st, Prefix)
      case OperatorInfix => PlaceThen(reg, tokens, i, st, Infix)
      case OperatorPostfix => PlaceThen(reg, tokens, i, st, Postfix)
      case Function => CallThen(reg, tokens, i, st)
      case ParenLeft =>
        Loop(reg, tokens, i + 1, st.(parens := st.parens + [|st.ops|]))
      case ParenRight => CloseThen(reg, tokens, i, st)
      case _ => Failure(UnknownTokenType)
  }

  /** A finished tree joins the queue; the stacks are untouched. */
  function Emit(st: State, n: Node): (r: State)
    requires ItemsShaped(st.out) && Shaped(n)
    ensures ItemsShaped(r.out)
    ensures r.out == st.out + [Done(n)] && r.ops == st.ops && r.parens == st.parens
  {
    st.(out := st.out + [Done(n)])
  }

  /**
   * An operator token: the first operator of its name in the token's
   * position (a missing one is `Crashed`), then the popping loop, then the push.
   */
  function PlaceThen(reg: Registry, tokens: seq<Token>, i: nat, st: State, position: Position): (r: Result<State, ParseError>)
    requires i < |tokens|
    requires ItemsShaped(st.out)
    ensures r.Success? ==> ItemsShaped(r.value.out)
    ensures r.Failure? ==> r.error != ImbalancedParentheses
    ensures |OperatorAt(reg, tokens[i].text, position)| == 0 ==> r == Failure(Crashed)
    decreases |tokens|, 1, |tokens| - i, 1
  {
    var found := OperatorAt(reg, tokens[i].text, position);
    if |found| == 0 then Failure(Crashed)
    else Loop(reg, tokens, i + 1, Placed(st, found[0]))
  }

  /** An operator found at its position is placed, and the loop goes on with the next token. */
  lemma PlaceThenPlaces(reg: Registry, tokens: seq<Token>, i: nat, st: State, position: Position)
    requires i < |tokens| && ItemsShaped(st.out)
    requires |OperatorAt(reg, tokens[i].text, position)| > 0
    ensures PlaceThen(reg, tokens, i, st, position)
         == Loop(reg, tokens, i + 1, Placed(st, OperatorAt(reg, tokens[i].text, position)[0]))
  {
  }

  /**
   * A function token: the argument scan from the token after its opening
   * parenthesis, then the name's overloads; an unknown name is `Crashed`.
   */
  function CallThen(reg: Registry, tokens: seq<Token>, i: nat, st: State): (r: Result<State, ParseError>)
    requires i < |tokens|
    requires ItemsShaped(st.out)
    ensures r.Success? ==> ItemsShaped(r.value.out)
    ensures r.Failure? ==> r.error != ImbalancedParentheses
    ensures var a := Arguments(reg, tokens, i + 2, 0, i + 2, []);
      && (a.Failure? ==> r == Failure(a.error))
      && (a.Success? && tokens[i].text !in reg.functions ==> r == Failure(Crashed))
    decreases |tokens|, 1, |tokens| - i, 1
  {
    var a := Arguments(reg, tokens, i + 2, 0, i + 2, []);
    if a.Failure? then Failure(a.error)
    else if tokens[i].text !in reg.functions then Failure(Crashed)
    else Called(reg, tokens, i, st, reg.functions[tokens[i].text], a.value.0, a.value.1)
  }

  /** A call whose arguments are built and whose name is known goes on with the overload selection. */
  lemma CallThenCalls(reg: Registry, tokens: seq<Token>, i: nat, st: State)
    requires i < |tokens| && ItemsShaped(st.out)
    requires Arguments(reg, tokens, i + 2, 0, i + 2, []).Success? && tokens[i].text in reg.functions
    ensures var a := Arguments(reg, tokens, i + 2, 0, i + 2, []);
      CallThen(reg, tokens, i, st) == Called(reg, tokens, i, st, reg.functions[tokens[i].text], a.value.0, a.value.1)
  {
  }

  /**
   * The end of a call whose arguments are built and whose closing parenthesis
   * is at `close`: an overload problem ends the pass; otherwise the call's tree
   * joins the queue and the loop resumes after the parenthesis.
   */
  function Called(reg: Registry, tokens: seq<Token>, i: nat, st: State, fs: seq<FunctionDef>, args: seq<Node>, close: nat)
    : (r: Result<State, ParseError>)
    requires i + 2 <= close < |tokens|
    requires ItemsShaped(st.out) && AllShaped(args)
    ensures r.Success? ==> ItemsShaped(r.value.out)
    ensures r.Failure? ==> r.error != ImbalancedParentheses
    ensures Overload(fs, |args|).Failure? ==> r == Failure(Overload(fs, |args|).error)
    decreases |tokens|, 1, |tokens| - i, 0
  {
    var f := Overload(fs, |args|);
    if f.Failure? then Failure(f.error)
    else Loop(reg, tokens, close + 1, Emit(st, Apply(f.value.AsOperation(), args)))
  }

  /** With an overload found, exactly one tree joins the queue: that overload applied to the arguments. */
  lemma CalledQueues(reg: Registry, tokens: seq<Token>, i: nat, st: State, fs: seq<FunctionDef>, args: seq<Node>, close: nat, f: FunctionDef)
    requires i + 2 <= close < |tokens| && ItemsShaped(st.out) && AllShaped(args)
    requires Overload(fs, |args|) == Success(f)
    ensures Called(reg, tokens, i, st, fs, args, close) == Loop(reg, tokens, close + 1, Emit(st, Apply(f.AsOperation(), args)))
  {
  }

  /**
   * A closing parenthesis: the operators above the innermost open mark go to
   * the queue and the mark is dropped; with no mark open it is `Crashed`.
   */
  function CloseThen(reg: Registry, tokens: seq<Token>, i: nat, st: State): (r: Result<State, ParseError>)
    requires i < |tokens|
    requires ItemsShaped(st.out)
    ensures r.Success? ==> ItemsShaped(r.value.out)
    ensures r.Failure? ==> r.error != ImbalancedParentheses
    ensures |st.parens| == 0 ==> r == Failure(Crashed)
    decreases |tokens|, 1, |tokens| - i, 1
  {
    if |st.parens| == 0 then Failure(Crashed)
    else Loop(reg, tokens, i + 1, Closed(st))
  }

  /** A closing parenthesis with a mark open closes it, and the loop goes on with the next token. */
  lemma CloseThenCloses(reg: Registry, tokens: seq<Token>, i: nat, st: State)
    requires i < |tokens| && ItemsShaped(st.out) && |st.parens| > 0
    ensures CloseThen(reg, tokens, i, st) == Loop(reg, tokens, i + 1, Closed(st))
  {
  }

  /**
   * The argument scan of a call, from token `i`, `inner` parentheses deep,
   * the current argument starting at `start`: a top-level comma closes an
   * argument (even an empty one, which then cannot be built), the matching
   * closing parenthesis ends the call and closes a non-empty last argument.
   * Yields the built arguments and the index of that parenthesis.
   */
  function Arguments(reg: Registry, tokens: seq<Token>, i: nat, inner: nat, start: nat, args: seq<Node>)
    : (r: Result<(seq<Node>, nat), ParseError>)
    requires 1 <= start <= i
    requires AllShaped(args)
    ensures r.Success? ==> i <= r.value.1 < |tokens| && AllShaped(r.value.0)
    ensures r.Failure? ==> r.error != ImbalancedParentheses
    decreases |tokens|, 0, |tokens| - i
  {
    if i >= |tokens| then Failure(Crashed)
    else
      match tokens[i].kind
      case ParenLeft => Arguments(reg, tokens, i + 1, inner + 1, start, args)
      case ParenRight =>
        if inner != 0 then Arguments(reg, tokens, i + 1, inner - 1, start, args)
        else if i == start then Success((args, i))
        else
          var last :- Build(reg, tokens[start..i]);
          Success((args + [last], i))
      case Comma =>
        if inner != 0 then Arguments(reg, tokens, i + 1, inner, start, args)
        else
          var a :- Build(reg, tokens[start..i]);
          Arguments(reg, tokens, i + 1, inner, i + 1, args + [a])
      case _ => Arguments(reg, tokens, i + 1, inner, start, args)
  }

  /** How a token changes the parenthesis depth. */
  function Nest(t: Token): int
  {
    match t.kind
    case ParenLeft => 1
    case ParenRight => -1
    case _ => 0
  }

  /** The depth change over `tokens[i..j]`. */
  function Depth(tokens: seq<Token>, i: nat, j: nat): int
    requires i <= j <= |tokens|
    decreases j - i
  {
    if i == j then 0 else Nest(tokens[i]) + Depth(tokens, i + 1, j)
  }

  /**
   * The scan ends at the parenthesis matching the call's own: a `)` that
   * brings the depth from `inner` back to zero without it ever going below
   * zero on the way, so every parenthesis in between is matched. The
   * arguments already collected stay in front.
   */
  lemma {:induction false} ArgumentsEndAtMatchingClose(reg: Registry, tokens: seq<Token>, i: nat, inner: nat, start: nat, args: seq<Node>)
    requires 1 <= start <= i
    requires AllShaped(args)
    ensures var r := Arguments(reg, tokens, i, inner, start, args);
      r.Success? ==>
        && tokens[r.value.1].kind == ParenRight
        && inner + Depth(tokens, i, r.value.1) == 0
        && (forall k :: i <= k <= r.value.1 ==> inner + Depth(tokens, i, k) >= 0)
        && args <= r.value.0
    decreases |tokens| - i
  {
    var r := Arguments(reg, tokens, i, inner, start, args);
    if i < |tokens| && r.Success? && !(tokens[i].kind == ParenRight && inner == 0) {
      var inner', start', args' := ArgumentsNext(reg, tokens, i, inner, start, args);
      ArgumentsEndAtMatchingClose(reg, tokens, i + 1, inner', start', args');
      DepthStep(tokens, i, r.value.1);
    }
  }

  /** One step of the scan that does not end it: the next depth, argument start and arguments. */
  lemma ArgumentsNext(reg: Registry, tokens: seq<Token>, i: nat, inner: nat, start: nat, args: seq<Node>)
    returns (inner': nat, start': nat, args': seq<Node>)
    requires 1 <= start <= i < |tokens|
    requires AllShaped(args)
    requires Arguments(reg, tokens, i, inner, start, args).Success?
    requires !(tokens[i].kind == ParenRight && inner == 0)
    ensures 1 <= start' <= i + 1 && AllShaped(args') && args <= args'
    ensures inner' == inner + Nest(tokens[i])
    ensures Arguments(reg, tokens, i, inner, start, args) == Arguments(reg, tokens, i + 1, inner', start', args')
  {
    inner', start', args' := inner, start, args;
    match tokens[i].kind
    case ParenLeft =>
      inner' := inner + 1;
    case ParenRight =>
      inner' := inner - 1;
    case Comma =>
      if inner == 0 {
        start', args' := i + 1, args + [Build(reg, tokens[start..i]).value];
      }
    case _ =>
  }

  /** The depth over `tokens[i..k]` is the first token's change plus the rest. */
  lemma DepthStep(tokens: seq<Token>, i: nat, c: nat)
    requires i < c <= |tokens|
    ensures forall k :: i + 1 <= k <= c ==> Depth(tokens, i, k) == Nest(tokens[i]) + Depth(tokens, i + 1, k)
  {
  }

  /**
   * Reading the queue as postfix notation: a tree is pushed; an infix operator
   * takes the two topmost trees (the upper one on its right), any other
   * operator the topmost one. Exactly one tree must remain.
   */
  function Assemble(items: seq<Item>, stack: seq<Node>): (r: Result<Node, ParseError>)
    requires ItemsShaped(items) && AllShaped(stack)
    ensures r.Success? ==> Shaped(r.value)
    ensures r.Failure? ==> r.error == CannotCreateAst || r.error == Crashed
    decreases |items|
  {
    if |items| == 0 then
      if |stack| == 1 then Success(stack[0]) else Failure(CannotCreateAst)
    else
      match items[0]
      case Done(n) =>
        Assemble(items[1..], stack + [n])
      case Pending(kind, name, position) =>
        var need := OperandCount(position);
        if |stack| < need then Failure(Crashed)
        else
          var rest := stack[..|stack| - need];
          var node := Apply(Op(kind, name, position), stack[|stack| - need..]);
          Assemble(items[1..], rest + [node])
  }

  // ------------------------------------------------------ postfix round trip

  /** The queue a shaped operator tree is read back from: operands first, the operator last. */
  function PostfixItems(n: Node): (r: seq<Item>)
    decreases n
  {
    match n
    case Apply(Op(kind, name, position), args) =>
      if |args| != OperandCount(position) then [Done(n)]
      else if position == Infix then PostfixItems(args[0]) + PostfixItems(args[1]) + [Pending(kind, name, position)]
      else PostfixItems(args[0]) + [Pending(kind, name, position)]
    case _ => [Done(n)]
  }

  lemma {:induction false} PostfixShaped(n: Node)
    requires Shaped(n)
    ensures ItemsShaped(PostfixItems(n))
    decreases n
  {
    match n
    case Apply(Op(kind, name, position), args) =>
      if |args| == OperandCount(position) {
        PostfixShaped(args[0]);
        if position == Infix {
          PostfixShaped(args[1]);
        }
      }
    case _ =>
  }

  /** One operator item applied to the trees it needs on top of the stack. */
  lemma AssembleStep(p: Item, args: seq<Node>, rest: seq<Item>, stack: seq<Node>)
    requires p.Pending? && |args| == OperandCount(p.position)
    requires ItemsShaped(rest) && AllShaped(stack) && AllShaped(args)
    ensures ItemsShaped([p] + rest) && AllShaped(stack + args)
    ensures Assemble([p] + rest, stack + args) == Assemble(rest, stack + [Apply(Op(p.kind, p.name, p.position), args)])
  {
    var s := stack + args;
    assert s[..|s| - |args|] == stack && s[|s| - |args|..] == args;
    assert ([p] + rest)[1..] == rest;
  }

  /** Reading a tree's postfix items pushes exactly that tree. */
  lemma {:induction false} AssemblePostfix(n: Node, rest: seq<Item>, stack: seq<Node>)
    requires Shaped(n) && ItemsShaped(rest) && AllShaped(stack)
    ensures ItemsShaped(PostfixItems(n) + rest)
    ensures Assemble(PostfixItems(n) + rest, stack) == Assemble(rest, stack + [n])
    decreases n
  {
    PostfixShaped(n);
    match n
    case Apply(Op(kind, name, position), args) =>
      var p := Pending(kind, name, position);
      if position == Infix {
        PostfixInfix(n, rest, stack);
      } else {
        var x := args[0];
        assert PostfixItems(n) + rest == PostfixItems(x) + ([p] + rest);
        AssemblePostfix(x, [p] + rest, stack);
        assert [x] == args;
        AssembleStep(p, args, rest, stack);
      }
    case _ =>
      assert (PostfixItems(n) + rest)[1..] == rest;
  }

  lemma {:induction false} PostfixInfix(n: Node, rest: seq<Item>, stack: seq<Node>)
    requires Shaped(n) && ItemsShaped(rest) && AllShaped(stack)
    requires n.Apply? && n.op.Op? && n.op.position == Infix && |n.args| == 2
    ensures ItemsShaped(PostfixItems(n) + rest)
    ensures Assemble(PostfixItems(n) + rest, stack) == Assemble(rest, stack + [n])
    decreases n, 0
  {
    var p := Pending(n.op.kind, n.op.name, Infix);
    var l, r := n.args[0], n.args[1];
    var a, b, tail := PostfixItems(l), PostfixItems(r), [p] + rest;
    PostfixShaped(n);
    InfixItems(n, rest);
    AssembleStep(p, n.args, rest, stack);
    AssemblePostfix(r, tail, stack + [l]);
    AssemblePostfix(l, b + tail, stack);
    assert stack + [l] + [r] == stack + n.args;
  }

  lemma InfixItems(n: Node, rest: seq<Item>)
    requires n.Apply? && n.op.Op? && n.op.position == Infix && |n.args| == 2
    ensures PostfixItems(n) + rest
      == PostfixItems(n.args[0]) + (PostfixItems(n.args[1]) + ([Pending(n.op.kind, n.op.name, Infix)] + rest))
  {
    var a, b, c := PostfixItems(n.args[0]), PostfixItems(n.args[1]), [Pending(n.op.kind, n.op.name, Infix)];
    assert PostfixItems(n) == a + b + c;
    assert a + b + c + rest == a + (b + (c + rest));
  }

  /** Every shaped tree is rebuilt from its postfix queue: the reading is a left inverse of the flattening. */
  lemma AssembleInvertsPostfix(n: Node)
    requires Shaped(n)
    ensures ItemsShaped(PostfixItems(n))
    ensures Assemble(PostfixItems(n), []) == Success(n)
  {
    AssemblePostfix(n, [], []);
    assert PostfixItems(n) + [] == PostfixItems(n);
  }
}
