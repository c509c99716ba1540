/** A parsed expression: its tree and the current variable bindings. */
module Expressions {
  import opened Wrappers
  import opened Values
  import opened Ast

  datatype Expression = Expression(ast: Node, bindings: map<string, real>)

  /** A new expression starts with no bindings. */
  function New(ast: Node): (e: Expression)
    ensures e.ast == ast && |e.bindings| == 0
  {
    Expression(ast, map[])
  }

  /**
   * `setVariable(name, value)`: inserts or overwrites exactly one binding; the
   * name need not occur in the tree.
   */
  function SetVariable(e: Expression, name: string, value: real): (r: Expression)
    ensures r.ast == e.ast
    ensures r.bindings.Keys == e.bindings.Keys + {name}
    ensures r.bindings[name] == value
    ensures forall x :: x in e.bindings && x != name ==> r.bindings[x] == e.bindings[x]
  {
    Expression(e.ast, e.bindings[name := value])
  }

  /** The entries of `m` whose keys are not in `pending`. */
  function Done(m: map<string, real>, pending: set<string>): map<string, real> {
    map k | k in m && k !in pending :: m[k]
  }

  lemma DoneNothingPending(m: map<string, real>)
    ensures Done(m, {}) == m
  {
    assert Done(m, {}).Keys == m.Keys;
  }

  lemma DoneStep(b: map<string, real>, m: map<string, real>, pending: set<string>, name: string)
    requires name in pending && pending <= m.Keys
    ensures (b + Done(m, pending))[name := m[name]] == b + Done(m, pending - {name})
  {
    var lhs := (b + Done(m, pending))[name := m[name]];
    var rhs := b + Done(m, pending - {name});
    assert lhs.Keys == rhs.Keys;
    forall k | k in lhs.Keys
      ensures lhs[k] == rhs[k]
    {
    }
  }

  /**
   * `setVariables(substitutions)`: `null` is a no-op; otherwise `setVariable`
   * for each entry, in the map's own iteration order, keeping every other binding.
   */
  method SetVariables(e: Expression, m: Option<map<string, real>>) returns (r: Expression)
    ensures m.None? ==> r == e
    ensures m.Some? ==> r.ast == e.ast && r.bindings == e.bindings + m.value
  {
    if m.None? {
      return e;
    }
    var subs := m.value;
    var pending := subs.Keys;
    r := e;
    while pending != {}
      invariant pending <= subs.Keys
      invariant r.ast == e.ast
      invariant r.bindings == e.bindings + Done(subs, pending)
      decreases |pending|
    {
      var name :| name in pending;
      var next := SetVariable(r, name, subs[name]);
      assert next.bindings == r.bindings[name := subs[name]];
      DoneStep(e.bindings, subs, pending, name);
      r, pending := next, pending - {name};
    }
    DoneNothingPending(subs);
  }

  /**
   * `evaluate()`: the tree under the current bindings; the bindings are not
   * changed, so it can be repeated. It fails when any variable of the tree is unset.
   */
  function Evaluate(e: Expression, foreign: Foreign): (r: Result<real, EvalError>)
    ensures e.ast.Var? ==> (r.Failure? <==> e.ast.name !in e.bindings)
    ensures !(Vars(e.ast) <= e.bindings.Keys) ==> r.Failure?
  {
    UnsetVariablesFail(e.ast, e.bindings, foreign);
    Ast.Evaluate(e.ast, e.bindings, foreign)
  }

  /** Binding a variable the tree does not read leaves the value unchanged; binding one it reads is seen. */
  lemma SetVariableEffect(e: Expression, name: string, value: real, foreign: Foreign)
    ensures name !in Vars(e.ast) ==> Evaluate(SetVariable(e, name, value), foreign) == Evaluate(e, foreign)
    ensures Evaluate(SetVariable(New(Var(name)), name, value), foreign) == Success(value)
  {
    if name !in Vars(e.ast) {
      EvaluateReadsOnlyItsVariables(e.ast, e.bindings, SetVariable(e, name, value).bindings, foreign);
    }
  }

  /** `toString()`: the tree's rendering. */
  function ToString(e: Expression, leaf: Node -> string): (s: string)
    ensures e.ast.Apply? ==> |s| >= |e.ast.op.name|
  {
    Render(e.ast, leaf)
  }
}
