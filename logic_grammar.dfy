/** CStyleBooleanGrammar: the operators "!", "&&" and "||", the character classes of
    the C-style formula syntax, and the construction of formulas from parsed parts. */
module BooleanGrammar {
  import opened Wrappers
  import opened Formulas

  /** A grammar operator: its symbol, whether it is binary, and its precedence number
      (the parser makes the operator with the highest number the root). */
  datatype Operator = Operator(symbol: string, binary: bool, precedence: int)

  const AND := Operator("&&", true, 2)
  const OR := Operator("||", true, 2)
  const NOT := Operator("!", false, 1)

  predicate IsGrammarOperator(op: Operator) {
    op == AND || op == OR || op == NOT
  }

  /** getOperator(str, it) as written: the second character of "&&" and "||" is read
      without a bounds check, so a '&' or '|' in the last position throws. */
  function GetOperatorAsWritten(str: string, it: nat): (r: Result<Option<Operator>>)
    requires it < |str|
    ensures r.Fail? <==> (str[it] == '&' || str[it] == '|') && it + 1 == |str|
  {
    if (str[it] == '&' || str[it] == '|') && it + 1 == |str| then Fail(ArrayIndexOutOfBoundsException)
    else Ok(GetOperator(str, it))
  }

  /** A trailing '&' makes getOperator throw ArrayIndexOutOfBoundsException instead of
      reporting "no operator". */
  lemma TrailingAmpersandThrows(prefix: string)
    ensures GetOperatorAsWritten(prefix + "&", |prefix|) == Fail(ArrayIndexOutOfBoundsException)
    ensures GetOperator(prefix + "&", |prefix|) == None
  {
    assert (prefix + "&")[|prefix|] == '&';
  }

  /** getOperator(str, it) with the bounds check the code evidently intends: the
      operator whose symbol starts at position it, if any. */
  function GetOperator(str: string, it: nat): (r: Option<Operator>)
    requires it < |str|
    ensures r.Some? ==> IsGrammarOperator(r.value)
    ensures r.Some? ==> it + |r.value.symbol| <= |str| && str[it..it + |r.value.symbol|] == r.value.symbol
    ensures r == Some(NOT) <==> str[it] == '!'
    ensures r.None? <==> str[it] != '!' && !(it + 1 < |str| && str[it] == str[it + 1] && (str[it] == '&' || str[it] == '|'))
  {
    if str[it] == '!' then Some(NOT)
    else if str[it] == '&' && it + 1 < |str| && str[it + 1] == '&' then Some(AND)
    else if str[it] == '|' && it + 1 < |str| && str[it + 1] == '|' then Some(OR)
    else None
  }

  /** Only the space character is whitespace. */
  predicate IsWhitespaceChar(c: char) { c == ' ' }

  predicate IsOpeningBracketChar(c: char) { c == '(' }

  predicate IsClosingBracketChar(c: char) { c == ')' }

  /** Identifier characters are exactly [A-Za-z0-9_]. */
  predicate IsIdentifierChar(c: char) {
    ('a' <= c <= 'z') || ('A' <= c <= 'Z') || ('0' <= c <= '9') || c == '_'
  }

  /** No character belongs to two classes, and no operator starts with an identifier,
      bracket or whitespace character. */
  lemma ClassesDisjoint(c: char)
    ensures IsIdentifierChar(c) ==> !IsWhitespaceChar(c) && !IsOpeningBracketChar(c) && !IsClosingBracketChar(c)
    ensures IsIdentifierChar(c) || IsWhitespaceChar(c) || IsOpeningBracketChar(c) || IsClosingBracketChar(c)
            ==> c != '!' && c != '&' && c != '|'
  {
  }

  /** makeUnaryFormula: only NOT is known. */
  function MakeUnaryFormula(op: Operator, child: Formula): (r: Result<Formula>)
    ensures r.Ok? <==> op == NOT
    ensures r.Ok? ==> r.value == Not(child)
    ensures r.Fail? ==> r.exc == ExpressionFormatException
  {
    if op == NOT then Ok(Not(child)) else Fail(ExpressionFormatException)
  }

  /** makeBinaryFormula: AND builds a Conjunction and OR a Disjunction. */
  function MakeBinaryFormula(op: Operator, left: Formula, right: Formula): (r: Result<Formula>)
    ensures r.Ok? <==> op == AND || op == OR
    ensures op == AND ==> r == Ok(And(left, right))
    ensures op == OR ==> r == Ok(Or(left, right))
    ensures r.Fail? ==> r.exc == ExpressionFormatException
  {
    if op == AND then Ok(And(left, right))
    else if op == OR then Ok(Or(left, right))
    else Fail(ExpressionFormatException)
  }

  /** makeIdentifierFormula: "1" is True, "0" is False, anything else a variable;
      printing the result gives the identifier back. */
  function MakeIdentifierFormula(identifier: string): (r: Formula)
    ensures r.True? <==> identifier == "1"
    ensures r.False? <==> identifier == "0"
    ensures !r.Not? && !r.And? && !r.Or?
    ensures ToString(r) == identifier
  {
    if identifier == "1" then True
    else if identifier == "0" then False
    else Var(identifier)
  }
}
