/** CppParser.parse: the expression text is lexed, nested by its brackets, and passed
    through the literal finder, the call translator, the unary operator finder and the
    operator resolver, in this order. */
module CppParsing {
  import opened Wrappers
  import opened JavaText
  import opened NumberUtils
  import opened CppLexing
  import opened CppAst
  import opened CppNesting
  import opened CppVisitors
  import opened CppResolution

  /** The expression tree of a C preprocessor condition; any failing stage fails the
      parse with its exception. */
  function Parse(expression: string, parseDouble: string -> Option<Double>, g: Grouping): Result<CppExpr> {
    var tokens :- Lexed(expression);
    var nested :- Bracketed(tokens);
    var literals :- FindLiterals(nested, parseDouble);
    var calls :- TranslateCalls(literals);
    Resolve(FindUnary(calls), g)
  }

  method ParseExpression(expression: string, parseDouble: string -> Option<Double>, g: Grouping)
    returns (r: Result<CppExpr>)
    ensures r == Parse(expression, parseDouble, g)
  {
    var tokens := Lex(expression);
    if tokens.Fail? {
      return Fail(tokens.exc);
    }
    var nested := NestBrackets(tokens.value);
    if nested.Fail? {
      return Fail(nested.exc);
    }
    var literals := VisitLiterals(nested.value, parseDouble);
    if literals.Fail? {
      return Fail(literals.exc);
    }
    var calls := VisitCalls(literals.value);
    if calls.Fail? {
      return Fail(calls.exc);
    }
    var unary := VisitUnary(calls.value);
    r := VisitResolve(unary, g);
  }

  /** An empty expression leaves an empty list, which has no variable. */
  lemma ParseEmpty(parseDouble: string -> Option<Double>, g: Grouping)
    ensures Parse("", parseDouble, g) == Fail(ExpressionFormatException)
  {
    assert Nest([], [[]]) == Ok([[]]);
    assert FindLiterals(ExpressionList([]), parseDouble) == Ok(ExpressionList([]));
    assert TranslateCalls(ExpressionList([])) == Ok(ExpressionList([]));
  }
}
