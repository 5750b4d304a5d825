/** CppOperator: the operators of C preprocessor #if expressions, with their source
    symbol, precedence (higher binds tighter) and arity. */
module CppOperators {

  datatype CppOperator =
    | BoolAnd | BoolOr | BoolNot
    | IntAdd | IntAddUnary | IntSub | IntSubUnary | IntMul | IntDiv | IntMod | IntInc | IntDec
    | CmpEq | CmpNe | CmpLt | CmpLe | CmpGt | CmpGe
    | BinAnd | BinOr | BinXor | BinShr | BinShl | BinInv

  /** The unary operators: !, unary + and -, ++, -- and ~. */
  predicate IsUnary(op: CppOperator) {
    op == BoolNot || op == IntAddUnary || op == IntSubUnary || op == IntInc || op == IntDec || op == BinInv
  }

  /** isBinary is defined as the negation of isUnary. */
  predicate IsBinary(op: CppOperator) {
    !IsUnary(op)
  }

  /** The precedence table: || lowest, then &&, |, ^, &, equality, relational, shifts,
      additive, multiplicative, and every unary operator highest. */
  function Precedence(op: CppOperator): (p: int)
    ensures 1 <= p <= 11
    ensures p == 11 <==> IsUnary(op)
    ensures p == 1 <==> op == BoolOr
    ensures p == 2 <==> op == BoolAnd
  {
    match op
    case BoolOr => 1
    case BoolAnd => 2
    case BinOr => 3
    case BinXor => 4
    case BinAnd => 5
    case CmpEq => 6
    case CmpNe => 6
    case CmpLt => 7
    case CmpLe => 7
    case CmpGt => 7
    case CmpGe => 7
    case BinShr => 8
    case BinShl => 8
    case IntAdd => 9
    case IntSub => 9
    case IntMul => 10
    case IntDiv => 10
    case IntMod => 10
    case _ => 11
  }

  /** The symbol table as written: INT_MOD carries the symbol "&" of BIN_AND. */
  function SymbolAsWritten(op: CppOperator): (s: string)
    ensures op != IntMod ==> s == Symbol(op)
    ensures |s| == |Symbol(op)|
  {
    if op == IntMod then "&" else Symbol(op)
  }

  /** The symbol table with INT_MOD spelled "%", the character the lexer reads for it. */
  function Symbol(op: CppOperator): (s: string)
    ensures 1 <= |s| <= 2
  {
    match op
    case BoolAnd => "&&"
    case BoolOr => "||"
    case BoolNot => "!"
    case IntAdd => "+"
    case IntAddUnary => "+"
    case IntSub => "-"
    case IntSubUnary => "-"
    case IntMul => "*"
    case IntDiv => "/"
    case IntMod => "%"
    case IntInc => "++"
    case IntDec => "--"
    case CmpEq => "=="
    case CmpNe => "!="
    case CmpLt => "<"
    case CmpLe => "<="
    case CmpGt => ">"
    case CmpGe => ">="
    case BinAnd => "&"
    case BinOr => "|"
    case BinXor => "^"
    case BinShr => ">>"
    case BinShl => "<<"
    case BinInv => "~"
  }

  /** The binary operator the lexer produces for the symbol of op: unary + and - are
      only introduced later, from the binary ones. */
  function LexedForm(op: CppOperator): CppOperator {
    if op == IntAddUnary then IntAdd else if op == IntSubUnary then IntSub else op
  }
}
