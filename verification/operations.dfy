/**
 * Operators and functions as data. The source's `Operation`/`Operator`/`Function`
 * interfaces become records: an AST node keeps what evaluation and rendering need
 * (kind, name, position), the registry keeps the parse-time metadata (priority,
 * associativity, accepted argument counts).
 */
module Operations {

  /** Where an operator stands relative to its operands ("Left/Middle/Right" in the source). */
  datatype Position = Prefix | Infix | Postfix

  datatype Assoc = Left | Right | Both

  /**
   * Which built-in behaviour an operation has. `Other` covers every operation whose
   * value comes from code outside this model (trigonometry, logarithms, user classes).
   */
  datatype Kind =
    | Add | Sub | Negate | Mul | Div | Pow
    | And | Or | Nand | Nor | Xor | Not
    | LessEq | Equal
    | ToLogical | Abs | Indicator | Minimum | Polynomial
    | Gcd | Lcm | Fibonacci | Factorial | ArithmeticSeq | GeometricSeq
    | Other

  /** The operation an AST node applies. */
  datatype Operation =
    | Op(kind: Kind, name: string, position: Position)
    | Fn(kind: Kind, name: string)

  /** The number of operands an operator takes: two in the middle, one otherwise. */
  function OperandCount(p: Position): nat {
    if p == Infix then 2 else 1
  }

  /** A registered operator with its parse-time metadata; a lower priority binds tighter. */
  datatype OperatorDef = OperatorDef(kind: Kind, name: string, position: Position, priority: int, assoc: Assoc) {
    function AsOperation(): Operation {
      Op(kind, name, position)
    }
  }

  /** The argument counts a function accepts (`checkNumberOfArguments`). */
  datatype Arity = Exactly(count: nat) | AtLeast(least: nat) {
    predicate Accepts(n: nat) {
      match this
      case Exactly(c) => n == c
      case AtLeast(l) => n >= l
    }
  }

  datatype FunctionDef = FunctionDef(kind: Kind, name: string, arity: Arity) {
    function AsOperation(): Operation {
      Fn(kind, name)
    }
  }

  /** Logical and: infix, priority 8, associative both ways. */
  const AndOperator := OperatorDef(And, "and", Infix, 8, Both)

  /** Less-than-or-equal: infix, priority 7, left-associative. */
  const LessEqOperator := OperatorDef(LessEq, "<=", Infix, 7, Left)

  /** Equality: infix, priority 7, left-associative. */
  const EqualOperator := OperatorDef(Equal, "=", Infix, 7, Left)

  /** The nodes the simplification pass builds: prefix `not`, prefix negation, `to_logical`. */
  const NotOperation := Op(Not, "not", Prefix)
  const NegateOperation := Op(Negate, "-", Prefix)
  const ToLogicalOperation := Fn(ToLogical, "to_logical")

  /** Argument counts of the built-in functions of this model. */
  function BuiltinArity(k: Kind): Arity {
    match k
    case Gcd => AtLeast(1)
    case Lcm => AtLeast(1)
    case Minimum => AtLeast(1)
    case Polynomial => AtLeast(2)
    case Indicator => Exactly(3)
    case ArithmeticSeq => Exactly(3)
    case GeometricSeq => Exactly(3)
    case _ => Exactly(1)
  }

  function AbsFunction(): FunctionDef { FunctionDef(Abs, "abs", BuiltinArity(Abs)) }
  function ToLogicalFunction(): FunctionDef { FunctionDef(ToLogical, "to_logical", BuiltinArity(ToLogical)) }
  function IndicatorFunction(): FunctionDef { FunctionDef(Indicator, "indicator", BuiltinArity(Indicator)) }
  function MinimumFunction(): FunctionDef { FunctionDef(Minimum, "min", BuiltinArity(Minimum)) }
  function PolynomialFunction(): FunctionDef { FunctionDef(Polynomial, "poly", BuiltinArity(Polynomial)) }
  function GcdFunction(): FunctionDef { FunctionDef(Gcd, "gcd", BuiltinArity(Gcd)) }
  function LcmFunction(): FunctionDef { FunctionDef(Lcm, "lcm", BuiltinArity(Lcm)) }
  function FibonacciFunction(): FunctionDef { FunctionDef(Fibonacci, "fib", BuiltinArity(Fibonacci)) }
  function FactorialFunction(): FunctionDef { FunctionDef(Factorial, "factorial", BuiltinArity(Factorial)) }
  function ArithmeticSeqFunction(): FunctionDef { FunctionDef(ArithmeticSeq, "aseq", BuiltinArity(ArithmeticSeq)) }
  function GeometricSeqFunction(): FunctionDef { FunctionDef(GeometricSeq, "gseq", BuiltinArity(GeometricSeq)) }
}
