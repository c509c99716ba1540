/**
 * The parser's four symbol tables (constants, variables, operators, functions),
 * keyed by lower-cased name, and the classification of a token text into the
 * token kinds it could have.
 */
module SymbolTable {
  import opened Text
  import opened Operations
  import opened Grammar

  datatype Registry = Registry(
    constants: map<string, real>,
    variables: map<string, string>,
    operators: map<string, seq<OperatorDef>>,
    functions: map<string, seq<FunctionDef>>)

  const Empty := Registry(map[], map[], map[], map[])

  /** `name` is a key of one of the four tables. */
  predicate Known(reg: Registry, name: string) {
    name in reg.constants || name in reg.variables || name in reg.operators || name in reg.functions
  }

  /** The operators registered under one name have pairwise different positions. */
  predicate DistinctPositions(ops: seq<OperatorDef>) {
    forall i, j :: 0 <= i < j < |ops| ==> ops[i].position != ops[j].position
  }

  /**
   * What every sequence of successful and failed `add*` calls keeps: every key
   * lower-case, a variable's declared name filed under its lower-cased form, each
   * name in at most one table, non-empty lists filed under their lower-cased name,
   * and no two operators of one name in the same position.
   */
  predicate Valid(reg: Registry) {
    && (forall k :: k in reg.constants ==> ToLower(k) == k)
    && (forall k :: k in reg.variables ==> ToLower(k) == k && ToLower(reg.variables[k]) == k)
    && (forall k :: k in reg.constants ==> k !in reg.variables && k !in reg.operators && k !in reg.functions)
    && (forall k :: k in reg.variables ==> k !in reg.operators && k !in reg.functions)
    && (forall k :: k in reg.operators ==> k !in reg.functions)
    && (forall k :: k in reg.operators ==>
          && |reg.operators[k]| > 0
          && DistinctPositions(reg.operators[k])
          && forall o :: o in reg.operators[k] ==> ToLower(o.name) == k)
    && (forall k :: k in reg.functions ==>
          && |reg.functions[k]| > 0
          && forall f :: f in reg.functions[k] ==> ToLower(f.name) == k)
  }

  /** In a valid registry every known name is lower-case, whichever table holds it. */
  lemma ValidKeysLowerCase(reg: Registry, k: string)
    requires Valid(reg) && Known(reg, k)
    ensures ToLower(k) == k
  {
    if k in reg.operators {
      var o := reg.operators[k][0];
      assert o in reg.operators[k];
      ToLowerIdempotent(o.name);
    } else if k in reg.functions {
      var f := reg.functions[k][0];
      assert f in reg.functions[k];
      ToLowerIdempotent(f.name);
    }
  }

  lemma EmptyValid()
    ensures Valid(Empty) && !Known(Empty, "x")
  {
  }

  /** `addConstant`: refused when the lower-cased name is known in any table. */
  function AddConstant(reg: Registry, name: string, value: real): (res: (bool, Registry))
    ensures res.0 <==> !Known(reg, ToLower(name))
    ensures !res.0 ==> res.1 == reg
    ensures res.0 ==> res.1 == reg.(constants := reg.constants[ToLower(name) := value])
  {
    var key := ToLower(name);
    if Known(reg, key) then (false, reg)
    else (true, reg.(constants := reg.constants[key := value]))
  }

  /**
   * `addVariable`: refused when the lower-cased name is known in any table;
   * the table keeps the name as declared, which is what the tree's variable reads.
   */
  function AddVariable(reg: Registry, name: string): (res: (bool, Registry))
    ensures res.0 <==> !Known(reg, ToLower(name))
    ensures !res.0 ==> res.1 == reg
    ensures res.0 ==> res.1 == reg.(variables := reg.variables[ToLower(name) := name])
  {
    var key := ToLower(name);
    if Known(reg, key) then (false, reg)
    else (true, reg.(variables := reg.variables[key := name]))
  }

  /**
   * `addOperator`: refused on a constant, variable or function name, and on a
   * second operator of the same position under one name; otherwise appended.
   */
  function AddOperator(reg: Registry, op: OperatorDef): (res: (bool, Registry))
    ensures var key := ToLower(op.name);
      res.0 <==> key !in reg.constants && key !in reg.variables && key !in reg.functions
                 && (key in reg.operators ==> forall o :: o in reg.operators[key] ==> o.position != op.position)
    ensures !res.0 ==> res.1 == reg
    ensures res.0 ==> var key := ToLower(op.name);
      res.1 == reg.(operators := reg.operators[key := (if key in reg.operators then reg.operators[key] else []) + [op]])
  {
    var key := ToLower(op.name);
    var existing := if key in reg.operators then reg.operators[key] else [];
    if key in reg.constants || key in reg.variables || key in reg.functions then (false, reg)
    else if exists i :: 0 <= i < |existing| && existing[i].position == op.position then (false, reg)
    else (true, reg.(operators := reg.operators[key := existing + [op]]))
  }

  /** `addFunction`: refused on a constant, variable or operator name; several functions may share a name. */
  function AddFunction(reg: Registry, f: FunctionDef): (res: (bool, Registry))
    ensures var key := ToLower(f.name);
      res.0 <==> key !in reg.constants && key !in reg.variables && key !in reg.operators
    ensures !res.0 ==> res.1 == reg
    ensures res.0 ==> var key := ToLower(f.name);
      res.1 == reg.(functions := reg.functions[key := (if key in reg.functions then reg.functions[key] else []) + [f]])
  {
    var key := ToLower(f.name);
    var existing := if key in reg.functions then reg.functions[key] else [];
    if key in reg.constants || key in reg.variables || key in reg.operators then (false, reg)
    else (true, reg.(functions := reg.functions[key := existing + [f]]))
  }

  lemma AddConstantValid(reg: Registry, name: string, value: real)
    requires Valid(reg)
    ensures Valid(AddConstant(reg, name, value).1)
  {
    ToLowerIdempotent(name);
  }

  lemma AddVariableValid(reg: Registry, name: string)
    requires Valid(reg)
    ensures Valid(AddVariable(reg, name).1)
  {
    ToLowerIdempotent(name);
  }

  lemma AddOperatorValid(reg: Registry, op: OperatorDef)
    requires Valid(reg)
    ensures Valid(AddOperator(reg, op).1)
  {
    var key := ToLower(op.name);
    var (ok, r) := AddOperator(reg, op);
    if ok && key in reg.operators {
      var ops := reg.operators[key] + [op];
      assert r.operators[key] == ops;
      forall i, j | 0 <= i < j < |ops|
        ensures ops[i].position != ops[j].position
      {
        if j == |ops| - 1 {
          assert reg.operators[key][i] in reg.operators[key];
        }
      }
    }
  }

  lemma AddFunctionValid(reg: Registry, f: FunctionDef)
    requires Valid(reg)
    ensures Valid(AddFunction(reg, f).1)
  {
  }

  /** In a valid registry a name lives in at most one table. */
  lemma AtMostOneTable(reg: Registry, name: string)
    requires Valid(reg)
    ensures (if name in reg.constants then 1 else 0) + (if name in reg.variables then 1 else 0)
          + (if name in reg.operators then 1 else 0) + (if name in reg.functions then 1 else 0) <= 1
  {
  }

  /** The operator registered under `name` in `position`, if any. */
  function OperatorAt(reg: Registry, name: string, position: Position): (r: seq<OperatorDef>)
    ensures forall o :: o in r ==> o.position == position
    ensures Valid(reg) ==> |r| <= 1
  {
    if name !in reg.operators then []
    else
      var ops := reg.operators[name];
      var found := Filter(ops, position);
      assert Valid(reg) ==> |found| <= 1 by {
        if Valid(reg) {
          FilterDistinct(ops, position);
        }
      }
      found
  }

  function Filter(ops: seq<OperatorDef>, position: Position): (r: seq<OperatorDef>)
    ensures forall o :: o in r ==> o in ops && o.position == position
    ensures (exists i :: 0 <= i < |ops| && ops[i].position == position) ==> |r| > 0
    ensures (forall o :: o in ops ==> o.position != position) ==> r == []
  {
    if |ops| == 0 then []
    else (if ops[0].position == position then [ops[0]] else []) + Filter(ops[1..], position)
  }

  lemma {:induction false} FilterDistinct(ops: seq<OperatorDef>, position: Position)
    requires DistinctPositions(ops)
    ensures |Filter(ops, position)| <= 1
  {
    if |ops| > 0 {
      FilterDistinct(ops[1..], position);
      if ops[0].position == position {
        assert forall o :: o in ops[1..] ==> o.position != position;
      }
    }
  }

  // --------------------------------------------------- token classification

  /** Whether some operator under `name` stands in `position`. */
  predicate HasPosition(reg: Registry, name: string, position: Position) {
    name in reg.operators && exists i :: 0 <= i < |reg.operators[name]| && reg.operators[name][i].position == position
  }

  /** The order in which `getPossibleTokenTypes` tries the kinds. */
  const Order: seq<TokenType> :=
    [ImmediateValue, Constant, OperatorPrefix, OperatorInfix, OperatorPostfix, Function, Variable,
     ParenLeft, ParenRight, DecimalPoint, Comma]

  /** The reading of each kind, independent of the list order. */
  predicate TypeFits(reg: Registry, token: string, t: TokenType) {
    match t
    case ImmediateValue => NumeralCheck(token)
    case Constant => token in reg.constants
    case OperatorPrefix => HasPosition(reg, token, Prefix)
    case OperatorInfix => HasPosition(reg, token, Infix)
    case OperatorPostfix => HasPosition(reg, token, Postfix)
    case Function => token in reg.functions
    case Variable => token in reg.variables
    case ParenLeft => token == "("
    case ParenRight => token == ")"
    case DecimalPoint => token == "."
    case Comma => token == ","
    case _ => false
  }

  predicate NoDuplicates<T(==)>(xs: seq<T>) {
    forall i, j :: 0 <= i < j < |xs| ==> xs[i] != xs[j]
  }

  /** The kinds of `kinds` that fit `token`, in list order. */
  function Fitting(reg: Registry, token: string, kinds: seq<TokenType>): (r: seq<TokenType>)
    ensures forall t :: t in r <==> t in kinds && TypeFits(reg, token, t)
    ensures NoDuplicates(kinds) ==> NoDuplicates(r)
  {
    if |kinds| == 0 then []
    else
      var rest := Fitting(reg, token, kinds[1..]);
      assert NoDuplicates(kinds) ==> kinds[0] !in kinds[1..];
      (if TypeFits(reg, token, kinds[0]) then [kinds[0]] else []) + rest
  }

  /**
   * `getPossibleTokenTypes(token)`: every kind the text can be read as, each
   * once, in the source's order (the test `Double.parseDouble(token) >= 0` is
   * modelled by `IsNumeral`). `Begin` and `End` are never produced.
   */
  function PossibleTypes(reg: Registry, token: string): (r: seq<TokenType>)
    ensures forall t :: t in r <==> TypeFits(reg, token, t)
    ensures NoDuplicates(r)
    ensures Begin !in r && End !in r
  {
    Fitting(reg, token, Order)
  }
}
