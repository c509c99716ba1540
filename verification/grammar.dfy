/**
 * The fixed token grammar: thirteen token kinds and, for each kind, the kinds
 * that may stand immediately before it.
 */
module Grammar {

  datatype TokenType =
    | Begin
    | End
    | ImmediateValue
    | Constant
    | Variable
    | OperatorPrefix   // "OperatorLeft" in the source: before its operand
    | OperatorInfix    // "OperatorMiddle": between its operands
    | OperatorPostfix  // "OperatorRight": after its operand
    | Function
    | ParenLeft
    | ParenRight
    | DecimalPoint
    | Comma

  /** A token: its text (lower-cased, without spaces) and its resolved kind. */
  datatype Token = Token(text: string, kind: TokenType)

  /**
   * Why parsing fails: the four messages the parser raises, and `Crashed` for
   * the unchecked runtime exceptions (an empty stack popped, a token list read
   * past its end) that escape it.
   */
  datatype ParseError =
    | ImbalancedParentheses
    | CannotBeResolved
    | IsAmbiguous
    | UnknownTokenType
    | CannotCreateAst
    | Crashed

  /** The precedents table: the kinds allowed immediately before `t`. */
  function Precedents(t: TokenType): seq<TokenType> {
    match t
    case Begin => []
    case End => [Begin, ImmediateValue, Constant, Variable, OperatorPostfix, ParenRight]
    case ImmediateValue => [Begin, OperatorPrefix, OperatorInfix, ParenLeft, Comma]
    case Constant => [Begin, OperatorPrefix, OperatorInfix, ParenLeft, Comma]
    case Variable => [Begin, OperatorPrefix, OperatorInfix, ParenLeft, Comma]
    case OperatorPrefix => [Begin, OperatorPrefix, OperatorInfix, ParenLeft, Comma]
    case OperatorInfix => [ImmediateValue, Constant, Variable, OperatorPostfix, ParenRight]
    case OperatorPostfix => [ImmediateValue, Constant, Variable, OperatorPostfix, ParenRight]
    case Function => [Begin, OperatorPrefix, OperatorInfix, ParenLeft, Comma]
    case ParenLeft => [Begin, OperatorPrefix, OperatorInfix, Function, ParenLeft, Comma]
    case ParenRight => [ImmediateValue, Constant, Variable, OperatorPostfix, ParenLeft, ParenRight]
    case DecimalPoint => []
    case Comma => [ImmediateValue, Constant, Variable, OperatorPostfix, ParenRight]
  }

  /** `pred` may stand immediately before `t`. */
  predicate Precedes(pred: TokenType, t: TokenType) {
    pred in Precedents(t)
  }

  /** Kinds after which an operand is complete: exactly the kinds that may precede an infix operator. */
  predicate ClosesOperand(t: TokenType) {
    t in {ImmediateValue, Constant, Variable, OperatorPostfix, ParenRight}
  }

  /** A function name is always followed by "(", and nothing comes after the end or before a decimal point. */
  lemma FunctionShape(t: TokenType)
    ensures Precedes(Function, t) <==> t == ParenLeft
    ensures !Precedes(End, t) && !Precedes(DecimalPoint, t)
  {
  }

  /** An expression ends exactly after a complete operand, or is empty. */
  lemma EndShape(pred: TokenType)
    ensures Precedes(pred, End) <==> pred == Begin || ClosesOperand(pred)
    ensures !Precedes(pred, Begin) && !Precedes(pred, DecimalPoint)
  {
  }

  /** Infix and postfix operators, commas and ")" always follow a complete operand. */
  lemma AfterOperandShape(pred: TokenType)
    ensures Precedes(pred, OperatorInfix) <==> ClosesOperand(pred)
    ensures Precedes(pred, OperatorPostfix) <==> ClosesOperand(pred)
    ensures Precedes(pred, Comma) <==> ClosesOperand(pred)
    ensures Precedes(pred, ParenRight) <==> pred == ParenLeft || ClosesOperand(pred)
  {
  }
}
