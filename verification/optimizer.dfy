/**
 * The rewrite engine: one pass applied bottom-up over a tree (`applyRec`,
 * `apply`), and the fixed-point loop over a list of passes (`optimize`). A pass
 * is any function from a node to a replacement or `None` ("no change").
 * Arbitrary passes need not terminate under the loop, so the functional model
 * carries a sweep budget; for passes whose rewrites always weigh less, a
 * budget of the tree's weight always suffices.
 */
module Optimizer {
  import opened Wrappers
  import opened Values
  import opened Ast
  import opened Expressions
  import Operations
  import Passes

  type Pass = Node -> Option<Node>

  // ------------------------------------------------------------- one pass

  /** The arguments after one rewrite each: a rewritten argument replaced, a declined one kept as it was. */
  function Merge(args: seq<Node>, results: seq<Option<Node>>): (m: seq<Node>)
    requires |results| == |args|
    ensures |m| == |args|
    ensures forall i :: 0 <= i < |args| ==> m[i] == (if results[i].Some? then results[i].value else args[i])
  {
    seq(|args|, i requires 0 <= i < |args| => if results[i].Some? then results[i].value else args[i])
  }

  /** No argument was rewritten. */
  predicate NoneChanged(results: seq<Option<Node>>) {
    forall i :: 0 <= i < |results| ==> results[i].None?
  }

  /**
   * `applyRec`: a leaf gets the pass's answer; an operation first rewrites its
   * arguments; when none changed it gets the pass's answer on itself, otherwise
   * it is rebuilt with the same operation around the new arguments and the
   * pass's answer on the rebuilt node is taken, the rebuilt node itself when
   * the pass declines.
   */
  function ApplyRec(n: Node, pass: Pass): (r: Option<Node>)
    ensures !n.Apply? ==> r == pass(n)
    decreases n, 1
  {
    match n
    case Apply(op, args) =>
      var results := ApplyAll(args, pass);
      if NoneChanged(results) then pass(n)
      else
        var rebuilt := Apply(op, Merge(args, results));
        if pass(rebuilt).Some? then pass(rebuilt) else Some(rebuilt)
    case _ => pass(n)
  }

  /** `applyRec` on every argument, in index order. */
  function ApplyAll(ns: seq<Node>, pass: Pass): (r: seq<Option<Node>>)
    ensures |r| == |ns|
    decreases ns, 0
  {
    if |ns| == 0 then [] else [ApplyRec(ns[0], pass)] + ApplyAll(ns[1..], pass)
  }

  /** Slot `i` of the argument results is `applyRec` of argument `i`. */
  lemma {:induction false} ApplyAllAt(ns: seq<Node>, pass: Pass, i: nat)
    requires i < |ns|
    ensures ApplyAll(ns, pass)[i] == ApplyRec(ns[i], pass)
    decreases |ns|
  {
    if i > 0 {
      ApplyAllAt(ns[1..], pass, i - 1);
    }
  }

  /**
   * The three cases of `applyRec` on an operation: the pass's answer on the
   * node itself when no argument changed; otherwise a result is always given,
   * the pass's answer on the rebuilt node, or the rebuilt node when it declines.
   * A declined argument stays the very subtree it was.
   */
  lemma ApplyRecCases(n: Node, pass: Pass)
    requires n.Apply?
    ensures var results := ApplyAll(n.args, pass);
      && (NoneChanged(results) ==> ApplyRec(n, pass) == pass(n))
      && (!NoneChanged(results) ==>
            var rebuilt := Apply(n.op, Merge(n.args, results));
            && ApplyRec(n, pass).Some?
            && (pass(rebuilt).None? ==> ApplyRec(n, pass) == Some(rebuilt))
            && (pass(rebuilt).Some? ==> ApplyRec(n, pass) == pass(rebuilt))
            && forall i :: 0 <= i < |n.args| && ApplyRec(n.args[i], pass).None? ==> rebuilt.args[i] == n.args[i])
  {
    var results := ApplyAll(n.args, pass);
    forall i | 0 <= i < |n.args|
      ensures results[i] == ApplyRec(n.args[i], pass)
    {
      ApplyAllAt(n.args, pass, i);
    }
  }

  /** The pass declines on the node and on every node below it. */
  predicate Untouched(n: Node, pass: Pass)
    decreases n
  {
    && pass(n).None?
    && (n.Apply? ==> forall i :: 0 <= i < |n.args| ==> Untouched(n.args[i], pass))
  }

  /** `applyRec` answers "no change" exactly when the pass declines on every subtree. */
  lemma {:induction false} ApplyRecDeclines(n: Node, pass: Pass)
    ensures ApplyRec(n, pass).None? <==> Untouched(n, pass)
    decreases n
  {
    match n
    case Apply(op, args) =>
      forall i | 0 <= i < |args|
        ensures ApplyAll(args, pass)[i].None? <==> Untouched(args[i], pass)
      {
        ApplyAllAt(args, pass, i);
        ApplyRecDeclines(args[i], pass);
      }
    case _ =>
  }

  /** Every rewrite of the pass weighs strictly less than the node it replaces. */
  ghost predicate Shrinks(pass: Pass) {
    forall n: Node :: pass(n).Some? ==> Weight(pass(n).value) < Weight(n)
  }

  lemma {:induction false} MergeWeight(args: seq<Node>, results: seq<Option<Node>>)
    requires |results| == |args|
    requires forall i :: 0 <= i < |args| && results[i].Some? ==> Weight(results[i].value) < Weight(args[i])
    ensures WeightSum(Merge(args, results)) <= WeightSum(args)
    ensures !NoneChanged(results) ==> WeightSum(Merge(args, results)) < WeightSum(args)
    decreases |args|
  {
    if |args| > 0 {
      var m := Merge(args, results);
      assert m[1..] == Merge(args[1..], results[1..]);
      MergeWeight(args[1..], results[1..]);
      if !NoneChanged(results) && results[0].None? {
        var i :| 0 <= i < |results| && results[i].Some?;
        assert results[1..][i - 1].Some?;
      }
    }
  }

  /** With a shrinking pass, whatever `applyRec` returns weighs less than the tree it was given. */
  lemma {:induction false} ApplyRecShrinks(n: Node, pass: Pass)
    requires Shrinks(pass)
    requires ApplyRec(n, pass).Some?
    ensures Weight(ApplyRec(n, pass).value) < Weight(n)
    decreases n
  {
    if n.Apply? {
      var results := ApplyAll(n.args, pass);
      if !NoneChanged(results) {
        forall i | 0 <= i < |n.args| && results[i].Some?
          ensures Weight(results[i].value) < Weight(n.args[i])
        {
          ApplyAllAt(n.args, pass, i);
          ApplyRecShrinks(n.args[i], pass);
        }
        MergeWeight(n.args, results);
      }
    }
  }

  /**
   * `apply`: a missing pass, or a tree on which the pass changes nothing,
   * gives back the very same expression; otherwise a new expression, without
   * bindings, around the rewritten tree.
   */
  function ApplyPass(e: Expression, pass: Option<Pass>): (r: Expression)
    ensures pass.None? ==> r == e
    ensures pass.Some? && Untouched(e.ast, pass.value) ==> r == e
    ensures pass.Some? && !Untouched(e.ast, pass.value) ==>
      r.bindings == map[] && ApplyRec(e.ast, pass.value) == Some(r.ast)
  {
    if pass.None? then e
    else
      ApplyRecDeclines(e.ast, pass.value);
      match ApplyRec(e.ast, pass.value)
      case None => e
      case Some(m) => New(m)
  }

  // ------------------------------------------------------- the pass loop

  /** Every pass declines everywhere on `n`: the loop's exit condition. */
  predicate FixedPoint(n: Node, passes: seq<Pass>) {
    forall i :: 0 <= i < |passes| ==> ApplyRec(n, passes[i]).None?
  }

  /**
   * One sweep of `optimize`'s inner loop: the passes in list order, each on the
   * tree the previous ones left; the flag records whether any pass changed it.
   */
  function Sweep(n: Node, passes: seq<Pass>): (r: (Node, bool))
    ensures r.1 <==> !FixedPoint(n, passes)
    ensures !r.1 ==> r.0 == n
    decreases |passes|
  {
    if |passes| == 0 then (n, false)
    else
      match ApplyRec(n, passes[0])
      case None =>
        var rest := Sweep(n, passes[1..]);
        assert forall i :: 1 <= i < |passes| ==> passes[i] == passes[1..][i - 1];
        rest
      case Some(m) => (Sweep(m, passes[1..]).0, true)
  }

  /** A sweep over one more pass: the extra pass runs on the tree the others left. */
  lemma {:induction false} SweepSnoc(n: Node, passes: seq<Pass>, p: Pass)
    ensures var (m, changed) := Sweep(n, passes);
      Sweep(n, passes + [p]) ==
        (match ApplyRec(m, p) case None => (m, changed) case Some(m') => (m', true))
    decreases |passes|
  {
    if |passes| > 0 {
      assert (passes + [p])[1..] == passes[1..] + [p];
      match ApplyRec(n, passes[0])
      case None => SweepSnoc(n, passes[1..], p);
      case Some(m) => SweepSnoc(m, passes[1..], p);
    } else {
      assert passes + [p] == [p];
      assert [p][1..] == [];
    }
  }

  ghost predicate AllShrink(passes: seq<Pass>) {
    forall i :: 0 <= i < |passes| ==> Shrinks(passes[i])
  }

  /** With shrinking passes a sweep that changes the tree makes it lighter. */
  lemma {:induction false} SweepShrinks(n: Node, passes: seq<Pass>)
    requires AllShrink(passes)
    ensures Weight(Sweep(n, passes).0) <= Weight(n)
    ensures Sweep(n, passes).1 ==> Weight(Sweep(n, passes).0) < Weight(n)
    decreases |passes|
  {
    if |passes| > 0 {
      assert AllShrink(passes[1..]) by {
        assert forall i :: 1 <= i < |passes| ==> passes[i] == passes[1..][i - 1];
      }
      match ApplyRec(n, passes[0])
      case None => SweepShrinks(n, passes[1..]);
      case Some(m) =>
        ApplyRecShrinks(n, passes[0]);
        SweepShrinks(m, passes[1..]);
    }
  }

  /**
   * `optimize`'s outer loop with a budget of `fuel` sweeps: sweeps repeat until
   * one changes nothing, and that tree is the answer; `None` when the budget
   * runs out first.
   */
  function Settle(n: Node, passes: seq<Pass>, fuel: nat): (r: Option<Node>)
    ensures r.Some? ==> FixedPoint(r.value, passes)
    decreases fuel
  {
    if fuel == 0 then None
    else
      var s := Sweep(n, passes);
      if s.1 then Settle(s.0, passes, fuel - 1) else Some(n)
  }

  /** `optimize`: the settled tree in a new expression without bindings. */
  function Optimize(e: Expression, passes: seq<Pass>, fuel: nat): (r: Option<Expression>)
    ensures r.Some? ==> r.value.bindings == map[] && FixedPoint(r.value.ast, passes)
    ensures r.Some? <==> Settle(e.ast, passes, fuel).Some?
  {
    match Settle(e.ast, passes, fuel)
    case None => None
    case Some(m) => Some(New(m))
  }

  /** A tree no pass changes is answered at once, unchanged. */
  lemma SettleFixedPoint(n: Node, passes: seq<Pass>, fuel: nat)
    requires FixedPoint(n, passes) && fuel >= 1
    ensures Settle(n, passes, fuel) == Some(n)
  {
  }

  /** Settling twice is settling once: the answer is itself settled. */
  lemma SettleIdempotent(n: Node, passes: seq<Pass>, fuel: nat, fuel': nat)
    requires Settle(n, passes, fuel).Some? && fuel' >= 1
    ensures Settle(Settle(n, passes, fuel).value, passes, fuel') == Settle(n, passes, fuel)
  {
    SettleFixedPoint(Settle(n, passes, fuel).value, passes, fuel');
  }

  /** With shrinking passes a budget of the tree's weight always suffices, and the answer weighs no more. */
  lemma {:induction false} SettleTerminates(n: Node, passes: seq<Pass>, fuel: nat)
    requires AllShrink(passes) && fuel >= Weight(n)
    ensures Settle(n, passes, fuel).Some?
    ensures Weight(Settle(n, passes, fuel).value) <= Weight(n)
    decreases fuel
  {
    var s := Sweep(n, passes);
    if s.1 {
      SweepShrinks(n, passes);
      SettleTerminates(s.0, passes, fuel - 1);
    }
  }

  /** A larger budget never changes an answer already reached. */
  lemma {:induction false} SettleMore(n: Node, passes: seq<Pass>, fuel: nat)
    requires Settle(n, passes, fuel).Some?
    ensures Settle(n, passes, fuel + 1) == Settle(n, passes, fuel)
    decreases fuel
  {
    var s := Sweep(n, passes);
    if s.1 {
      SettleMore(s.0, passes, fuel - 1);
    }
  }

  /** Once a budget suffices, every larger budget gives the same answer. */
  lemma {:induction false} SettleBudget(n: Node, passes: seq<Pass>, base: nat, fuel: nat)
    requires Settle(n, passes, base).Some? && fuel >= base
    ensures Settle(n, passes, fuel) == Settle(n, passes, base)
    decreases fuel
  {
    if fuel > base {
      SettleBudget(n, passes, base, fuel - 1);
      SettleMore(n, passes, fuel - 1);
    }
  }

  /** A sweep that changed the tree hands settling on to the changed tree, with a budget of its own weight. */
  lemma SettleStep(n: Node, passes: seq<Pass>)
    requires AllShrink(passes) && Sweep(n, passes).1
    ensures var m := Sweep(n, passes).0;
      Settle(n, passes, Weight(n)) == Settle(m, passes, Weight(m))
  {
    var m := Sweep(n, passes).0;
    SettleUnfold(n, passes, Weight(n));
    SweepShrinks(n, passes);
    SettleTerminates(m, passes, Weight(m));
    SettleBudget(m, passes, Weight(m), Weight(n) - 1);
  }

  lemma SettleUnfold(n: Node, passes: seq<Pass>, fuel: nat)
    requires fuel >= 1
    ensures var s := Sweep(n, passes);
      Settle(n, passes, fuel) == (if s.1 then Settle(s.0, passes, fuel - 1) else Some(n))
  {
  }

  /** The inner loop of `optimize`: every pass in list order, recording whether any changed the tree. */
  method SweepLoop(start: Node, passes: seq<Pass>) returns (result: Node, changed: bool)
    ensures (result, changed) == Sweep(start, passes)
    ensures changed <==> !FixedPoint(start, passes)
  {
    result, changed := start, false;
    var i := 0;
    while i < |passes|
      invariant 0 <= i <= |passes|
      invariant (result, changed) == Sweep(start, passes[..i])
    {
      SweepSnoc(start, passes[..i], passes[i]);
      assert passes[..i + 1] == passes[..i] + [passes[i]];
      var temp := ApplyRec(result, passes[i]);
      if temp.Some? {
        changed := true;
        result := temp.value;
      }
      i := i + 1;
    }
    assert passes[..|passes|] == passes;
  }

  /**
   * `optimize` as the source writes it: an outer loop of sweeps that stops
   * after a sweep in which every pass declined. For shrinking passes it ends,
   * with the answer of the budgeted model.
   */
  method OptimizeLoop(e: Expression, passes: seq<Pass>) returns (r: Expression)
    requires AllShrink(passes)
    ensures r.bindings == map[] && FixedPoint(r.ast, passes)
    ensures Settle(e.ast, passes, Weight(e.ast)) == Some(r.ast)
    ensures Weight(r.ast) <= Weight(e.ast)
  {
    var result := e.ast;
    var end := false;
    while !end
      invariant Weight(result) <= Weight(e.ast)
      invariant !end ==> Settle(e.ast, passes, Weight(e.ast)) == Settle(result, passes, Weight(result))
      invariant end ==> Settle(e.ast, passes, Weight(e.ast)) == Some(result) && FixedPoint(result, passes)
      decreases Weight(result), if end then 0 else 1
    {
      var start := result;
      var changed;
      result, changed := SweepLoop(start, passes);
      if changed {
        SettleStep(start, passes);
        SweepShrinks(start, passes);
      } else {
        SettleFixedPoint(start, passes, Weight(start));
      }
      end := !changed;
    }
    r := New(result);
  }

  // ---------------------------------------------------------- pass lists

  /** The simplification pass as a pass value. */
  const SimplifyPass: Pass := n => Passes.Simplify(n)

  /** The folding pass; folding evaluates, so it takes the foreign evaluator. */
  function FoldPass(f: Foreign): Pass {
    n => Passes.Fold(n, f)
  }

  /** The current `Default` optimizer: simplification, then folding. */
  function DefaultPasses(f: Foreign): (ps: seq<Pass>)
    ensures AllShrink(ps)
  {
    var ps := [SimplifyPass, FoldPass(f)];
    assert Shrinks(SimplifyPass) by {
      forall n: Node | SimplifyPass(n).Some?
        ensures Weight(SimplifyPass(n).value) < Weight(n)
      {
        Passes.SimplifyShrinks(n);
      }
    }
    assert Shrinks(FoldPass(f)) by {
      forall n: Node | FoldPass(f)(n).Some?
        ensures Weight(FoldPass(f)(n).value) < Weight(n)
      {
        Passes.FoldShrinks(n, f);
      }
    }
    ps
  }

  /** The legacy `Default` optimizer, and the `Empty` one: no passes at all. */
  const LegacyDefaultPasses: seq<Pass> := []

  /** Without passes `optimize` returns the same tree in a new expression without bindings. */
  lemma NoPassesKeepTree(e: Expression, fuel: nat)
    requires fuel >= 1
    ensures Optimize(e, LegacyDefaultPasses, fuel) == Some(New(e.ast))
  {
  }

  /** The default optimizer always settles within the tree's weight in sweeps. */
  lemma DefaultSettles(e: Expression, f: Foreign)
    ensures Optimize(e, DefaultPasses(f), Weight(e.ast)).Some?
  {
    SettleTerminates(e.ast, DefaultPasses(f), Weight(e.ast));
  }

  /** `x + 0` under the simplification pass alone becomes `x`, in a new expression. */
  lemma ApplyExample(b: map<string, real>)
    ensures var plus := Operations.Op(Operations.Add, "+", Operations.Infix);
      ApplyPass(Expression(Apply(plus, [Var("x"), Imm(0.0)]), b), Some(SimplifyPass)) == New(Var("x"))
  {
    var plus := Operations.Op(Operations.Add, "+", Operations.Infix);
    var n := Apply(plus, [Var("x"), Imm(0.0)]);
    assert ApplyAll(n.args, SimplifyPass) == [None, None] by {
      assert n.args[1..] == [Imm(0.0)];
      assert n.args[1..][1..] == [];
    }
    assert NoneChanged(ApplyAll(n.args, SimplifyPass));
    ApplyRecDeclines(n, SimplifyPass);
  }

  /**
   * Folding `(2 + 3) * x`: the inner sum becomes 5, the product is rebuilt
   * around it and kept, since folding declines on a product with a variable.
   */
  lemma RebuildExample(f: Foreign)
    ensures var plus := Operations.Op(Operations.Add, "+", Operations.Infix);
      var times := Operations.Op(Operations.Mul, "*", Operations.Infix);
      ApplyRec(Apply(times, [Apply(plus, [Imm(2.0), Imm(3.0)]), Var("x")]), FoldPass(f))
        == Some(Apply(times, [Imm(5.0), Var("x")]))
  {
    var plus := Operations.Op(Operations.Add, "+", Operations.Infix);
    var times := Operations.Op(Operations.Mul, "*", Operations.Infix);
    var sum := Apply(plus, [Imm(2.0), Imm(3.0)]);
    var n := Apply(times, [sum, Var("x")]);
    Passes.FoldExamples(f);
    assert ApplyAll(sum.args, FoldPass(f)) == [None, None] by {
      assert sum.args[1..] == [Imm(3.0)];
      assert sum.args[1..][1..] == [];
    }
    assert NoneChanged(ApplyAll(sum.args, FoldPass(f)));
    assert ApplyRec(sum, FoldPass(f)) == Some(Imm(5.0));
    assert ApplyAll(n.args, FoldPass(f)) == [Some(Imm(5.0)), None] by {
      assert n.args[1..] == [Var("x")];
      assert n.args[1..][1..] == [];
    }
    var rebuilt := Apply(times, [Imm(5.0), Var("x")]);
    assert Merge(n.args, [Some(Imm(5.0)), None]) == [Imm(5.0), Var("x")];
    assert !Passes.AllLiterals(rebuilt.args) by {
      assert !rebuilt.args[1].Imm?;
    }
  }
}
