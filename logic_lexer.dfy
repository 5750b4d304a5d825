/** The lexer of the formula parser: it turns an expression over the C-style Boolean
    grammar into operator, bracket and identifier tokens. */
module FormulaLexing {
  import opened Wrappers
  import opened Formulas
  import opened BooleanGrammar

  datatype Token = OpToken(op: Operator) | Bracket(closing: bool) | Ident(name: string)

  // ---------------------------------------------------------------------------
  // Lexing

  /** The length of the run of identifier characters at the start of s. */
  function IdentRun(s: string): (n: nat)
    ensures n <= |s|
    ensures forall k :: 0 <= k < n ==> IsIdentifierChar(s[k])
    ensures n < |s| ==> !IsIdentifierChar(s[n])
  {
    if s != [] && IsIdentifierChar(s[0]) then 1 + IdentRun(s[1..]) else 0
  }

  /** What the lexer makes of the first character(s) of s: a token or nothing
      (whitespace), and how many characters it consumes. */
  function LexStep(s: string): (r: Result<(Option<Token>, nat)>)
    requires s != []
    ensures r.Ok? ==> 1 <= r.value.1 <= |s|
    ensures r.Fail? ==> r.exc == ExpressionFormatException
  {
    if IsWhitespaceChar(s[0]) then Ok((None, 1))
    else if IsOpeningBracketChar(s[0]) then Ok((Some(Bracket(false)), 1))
    else if IsClosingBracketChar(s[0]) then Ok((Some(Bracket(true)), 1))
    else if GetOperator(s, 0).Some? then
      var op := GetOperator(s, 0).value;
      Ok((Some(OpToken(op)), |op.symbol|))
    else if IsIdentifierChar(s[0]) then
      var n := IdentRun(s);
      Ok((Some(Ident(s[..n])), n))
    else Fail(ExpressionFormatException)
  }

  function OptionToSeq(t: Option<Token>): seq<Token> {
    if t.Some? then [t.value] else []
  }

  /** The tokens of s: whitespace separates, every maximal run of identifier
      characters is one identifier, and any other character is an error. */
  function Lexed(s: string): (r: Result<seq<Token>>)
    ensures r.Fail? ==> r.exc == ExpressionFormatException
    decreases |s|
  {
    if s == [] then Ok([])
    else
      var step :- LexStep(s);
      var rest :- Lexed(s[step.1..]);
      Ok(OptionToSeq(step.0) + rest)
  }

  /** The tokens still to come when the lexer has produced done and stands before
      rest; when an identifier is open, the identifier characters at the start of
      rest extend it. */
  function Continue(done: seq<Token>, open: bool, rest: string): Result<seq<Token>>
    requires open ==> |done| > 0 && done[|done| - 1].Ident?
  {
    var n := if open then IdentRun(rest) else 0;
    var tail :- Lexed(rest[n..]);
    if n == 0 then Ok(done + tail)
    else Ok(done[..|done| - 1] + [Ident(done[|done| - 1].name + rest[..n])] + tail)
  }

  lemma ContinueClosed(done: seq<Token>, open: bool, rest: string)
    requires open ==> |done| > 0 && done[|done| - 1].Ident?
    requires rest == [] || !IsIdentifierChar(rest[0])
    ensures Continue(done, open, rest) == Continue(done, false, rest)
  {
  }

  /** A character that is not part of an identifier: the lexer appends its token (if
      any) and closes the open identifier. */
  lemma ContinueSingle(done: seq<Token>, rest: string)
    requires rest != [] && LexStep(rest).Ok?
    ensures Continue(done, false, rest)
         == Continue(done + OptionToSeq(LexStep(rest).value.0), false, rest[LexStep(rest).value.1..])
  {
    var step := LexStep(rest).value;
    var tail := Lexed(rest[step.1..]);
    if tail.Ok? {
      assert done + (OptionToSeq(step.0) + tail.value) == done + OptionToSeq(step.0) + tail.value;
    }
  }

  /** A whitespace, bracket or operator character closes the open identifier and
      adds its token, if any. */
  lemma ContinueToken(done: seq<Token>, open: bool, rest: string)
    requires open ==> |done| > 0 && done[|done| - 1].Ident?
    requires rest != [] && LexStep(rest).Ok? && !IsIdentifierChar(rest[0])
    ensures Continue(done, open, rest)
         == Continue(done + OptionToSeq(LexStep(rest).value.0), false, rest[LexStep(rest).value.1..])
  {
    ContinueClosed(done, open, rest);
    ContinueSingle(done, rest);
  }

  /** An identifier character starts an identifier token covering the whole run. */
  lemma LexedIdentifier(rest: string)
    requires rest != [] && IsIdentifierChar(rest[0])
    ensures Lexed(rest).Ok? <==> Lexed(rest[IdentRun(rest)..]).Ok?
    ensures Lexed(rest).Ok? ==>
      Lexed(rest).value == [Ident(rest[..IdentRun(rest)])] + Lexed(rest[IdentRun(rest)..]).value
  {
    var n := IdentRun(rest);
    assert LexStep(rest) == Ok((Some(Ident(rest[..n])), n));
  }

  /** lex as written: getOperator is asked first at every position the loop visits,
      so a '&' or '|' in the last visited position throws
      ArrayIndexOutOfBoundsException before any other check. */
  function LexedAsWritten(s: string): (r: Result<seq<Token>>)
    decreases |s|
  {
    if s == [] then Ok([])
    else
      var _ :- GetOperatorAsWritten(s, 0);
      var step :- LexStep(s);
      var rest :- LexedAsWritten(s[step.1..]);
      Ok(OptionToSeq(step.0) + rest)
  }

  /** The as-written lexer produces the same tokens as the corrected one, except that
      where the corrected one reports an ExpressionFormatException for a trailing
      '&' or '|', it throws ArrayIndexOutOfBoundsException. */
  lemma {:induction false} AsWrittenLexAgrees(s: string)
    ensures LexedAsWritten(s) == Lexed(s)
      || (LexedAsWritten(s) == Fail(ArrayIndexOutOfBoundsException) && Lexed(s) == Fail(ExpressionFormatException))
    decreases |s|
  {
    if s != [] {
      if GetOperatorAsWritten(s, 0).Fail? {
        assert GetOperator(s, 0).None? && !IsIdentifierChar(s[0]);
        assert LexStep(s) == Fail(ExpressionFormatException);
      } else if LexStep(s).Ok? {
        AsWrittenLexAgrees(s[LexStep(s).value.1..]);
      }
    }
  }

  /** "A &": the as-written lexer throws ArrayIndexOutOfBoundsException, which is not
      the ExpressionFormatException the parser promises for malformed input. */
  lemma TrailingAmpersandLexed()
    ensures LexedAsWritten("A &") == Fail(ArrayIndexOutOfBoundsException)
    ensures Lexed("A &") == Fail(ExpressionFormatException)
  {
    var s := "A &";
    assert IsIdentifierChar(s[0]) && !IsIdentifierChar(s[1]);
    assert IdentRun(s[1..]) == 0;
    assert IdentRun(s) == 1 && s[..1] == "A";
    assert GetOperator(s, 0).None?;
    assert LexStep(s) == Ok((Some(Ident("A")), 1));
    assert s[1..] == " &";
    assert LexStep(" &") == Ok((None, 1));
    assert " &"[1..] == "&";
    assert LexStep("&") == Fail(ExpressionFormatException);
    assert GetOperatorAsWritten(s, 0).Ok? && GetOperatorAsWritten(" &", 0).Ok?;
  }

  /** The characters the lexer knows: whitespace, brackets, operator characters and
      identifier characters. */
  predicate Lexable(c: char) {
    IsWhitespaceChar(c) || IsOpeningBracketChar(c) || IsClosingBracketChar(c)
    || c == '!' || c == '&' || c == '|' || IsIdentifierChar(c)
  }

  /** Any character outside the known classes makes lexing fail with an
      ExpressionFormatException. */
  lemma {:induction false} UnknownCharacterRejected(s: string, i: nat)
    requires i < |s| && !Lexable(s[i])
    ensures Lexed(s) == Fail(ExpressionFormatException)
    decreases |s|
  {
    var step := LexStep(s);
    if step.Ok? {
      var n := step.value.1;
      if i >= n {
        assert s[n..][i - n] == s[i];
        UnknownCharacterRejected(s[n..], i - n);
      }
    }
  }

  lemma Associative(a: seq<Token>, b: seq<Token>, c: seq<Token>)
    ensures a + b + c == a + (b + c)
  {
  }

  /** An identifier character opens a new identifier. */
  lemma ContinueOpen(done: seq<Token>, rest: string)
    requires rest != [] && IsIdentifierChar(rest[0])
    ensures Continue(done, false, rest) == Continue(done + [Ident([rest[0]])], true, rest[1..])
  {
    var n := IdentRun(rest);
    assert n == 1 + IdentRun(rest[1..]);
    assert rest[1..][IdentRun(rest[1..])..] == rest[n..];
    assert rest[0..] == rest;
    LexedIdentifier(rest);
    var tail := Lexed(rest[n..]);
    var done' := done + [Ident([rest[0]])];
    assert done'[..|done'| - 1] == done;
    if tail.Fail? {
      assert Continue(done, false, rest) == Fail(tail.exc);
      assert Continue(done', true, rest[1..]) == Fail(tail.exc);
    } else {
      assert Continue(done, false, rest) == Ok(done + ([Ident(rest[..n])] + tail.value));
      Associative(done, [Ident(rest[..n])], tail.value);
      if n == 1 {
        assert rest[..n] == [rest[0]];
        assert Continue(done', true, rest[1..]) == Ok(done' + tail.value);
      } else {
        assert [rest[0]] + rest[1..][..n - 1] == rest[..n];
        assert Continue(done', true, rest[1..]) == Ok(done + [Ident(rest[..n])] + tail.value);
      }
    }
  }

  /** An identifier character extends the open identifier. */
  lemma ContinueExtend(done: seq<Token>, rest: string)
    requires |done| > 0 && done[|done| - 1].Ident?
    requires rest != [] && IsIdentifierChar(rest[0])
    ensures Continue(done, true, rest)
         == Continue(done[..|done| - 1] + [Ident(done[|done| - 1].name + [rest[0]])], true, rest[1..])
  {
    var n := IdentRun(rest);
    assert rest[1..][IdentRun(rest[1..])..] == rest[n..];
    var tail := Lexed(rest[n..]);
    if tail.Ok? {
      var last := done[|done| - 1].name;
      var done' := done[..|done| - 1] + [Ident(last + [rest[0]])];
      assert done'[..|done'| - 1] == done[..|done| - 1];
      if n == 1 {
        assert rest[..n] == [rest[0]];
      } else {
        assert last + [rest[0]] + rest[1..][..n - 1] == last + rest[..n];
      }
    }
  }

  /** One pass of lex's loop at a whitespace, bracket or operator character: the open
      identifier ends, the bracket or operator token is appended, and the position
      moves past the character(s). */
  method LexSymbol(expression: string, i: nat, tokens: seq<Token>, open: bool, op: Option<Operator>)
    returns (tokens': seq<Token>, i': nat)
    requires i < |expression| && op == GetOperator(expression, i)
    requires IsWhitespaceChar(expression[i]) || IsOpeningBracketChar(expression[i])
          || IsClosingBracketChar(expression[i]) || op.Some?
    requires open ==> |tokens| > 0 && tokens[|tokens| - 1].Ident?
    ensures i < i' <= |expression|
    ensures Continue(tokens', false, expression[i'..]) == Continue(tokens, open, expression[i..])
  {
    var rest := expression[i..];
    assert op == GetOperator(rest, 0);
    ContinueToken(tokens, open, rest);
    ghost var step := LexStep(rest).value;
    if IsWhitespaceChar(expression[i]) {
      assert step == (None, 1);
      tokens', i' := tokens, i + 1;
    } else if IsOpeningBracketChar(expression[i]) {
      assert step == (Some(Bracket(false)), 1);
      tokens', i' := tokens + [Bracket(false)], i + 1;
    } else if IsClosingBracketChar(expression[i]) {
      assert step == (Some(Bracket(true)), 1);
      tokens', i' := tokens + [Bracket(true)], i + 1;
    } else {
      assert step == (Some(OpToken(op.value)), |op.value.symbol|);
      tokens', i' := tokens + [OpToken(op.value)], i + |op.value.symbol|;
    }
    assert rest[step.1..] == expression[i'..];
    assert tokens' == tokens + OptionToSeq(step.0);
  }

  /** One pass of lex's loop at an identifier character: it opens a new identifier or
      extends the open one. */
  method LexIdentifierChar(expression: string, i: nat, tokens: seq<Token>, open: bool)
    returns (tokens': seq<Token>)
    requires i < |expression| && IsIdentifierChar(expression[i])
    requires open ==> |tokens| > 0 && tokens[|tokens| - 1].Ident?
    ensures |tokens'| > 0 && tokens'[|tokens'| - 1].Ident?
    ensures Continue(tokens', true, expression[i + 1..]) == Continue(tokens, open, expression[i..])
  {
    var rest := expression[i..];
    assert rest[1..] == expression[i + 1..];
    if !open {
      ContinueOpen(tokens, rest);
      tokens' := tokens + [Ident([expression[i]])];
    } else {
      ContinueExtend(tokens, rest);
      tokens' := tokens[..|tokens| - 1] + [Ident(tokens[|tokens| - 1].name + [expression[i]])];
    }
  }

  /** lex(expression): walks the characters once, appending to the current identifier
      while identifier characters follow each other. */
  method Lex(expression: string) returns (r: Result<seq<Token>>)
    ensures r == Lexed(expression)
  {
    var tokens: seq<Token> := [];
    var open := false;
    var i := 0;
    assert Continue(tokens, open, expression[i..]) == Lexed(expression) by {
      assert expression[0..] == expression;
      assert expression[0..][0..] == expression;
      if Lexed(expression).Ok? {
        assert [] + Lexed(expression).value == Lexed(expression).value;
      }
    }
    while i < |expression|
      invariant 0 <= i <= |expression|
      invariant open ==> |tokens| > 0 && tokens[|tokens| - 1].Ident?
      invariant Continue(tokens, open, expression[i..]) == Lexed(expression)
      decreases |expression| - i
    {
      var op := GetOperator(expression, i);
      if IsWhitespaceChar(expression[i]) || IsOpeningBracketChar(expression[i])
        || IsClosingBracketChar(expression[i]) || op.Some? {
        tokens, i := LexSymbol(expression, i, tokens, open, op);
        open := false;
      } else if IsIdentifierChar(expression[i]) {
        tokens := LexIdentifierChar(expression, i, tokens, open);
        open := true;
        i := i + 1;
      } else {
        ContinueClosed(tokens, open, expression[i..]);
        return Fail(ExpressionFormatException);
      }
    }
    assert Continue(tokens, open, []) == Ok(tokens) by {
      assert tokens + [] == tokens;
    }
    r := Ok(tokens);
  }
}
