/** The lexer of the C preprocessor expression parser: whitespace, brackets, operator
    symbols (two-character symbols first) and identifier runs. */
module CppLexing {
  import opened Wrappers
  import opened CppOperators

  datatype Token = OperatorToken(op: CppOperator) | Bracket(closing: bool) | Identifier(name: string)

  // ---------------------------------------------------------------------------
  // Character classes

  /** Character.isWhitespace: the separators and control characters Java counts as
      whitespace (the no-break spaces are not among them). */
  predicate IsWhitespace(c: char) {
    ('\U{9}' <= c <= '\U{D}') || ('\U{1C}' <= c <= ' ') || c == '\U{1680}'
    || ('\U{2000}' <= c <= '\U{2006}') || ('\U{2008}' <= c <= '\U{200A}')
    || c == '\U{2028}' || c == '\U{2029}' || c == '\U{205F}' || c == '\U{3000}'
  }

  /** Identifier characters are exactly [A-Za-z0-9_]. */
  predicate IsIdentifierChar(c: char) {
    ('a' <= c <= 'z') || ('A' <= c <= 'Z') || ('0' <= c <= '9') || c == '_'
  }

  /** Whether sym occurs in s at position i. */
  predicate SymbolAt(s: string, i: nat, sym: string) {
    i + |sym| <= |s| && s[i..i + |sym|] == sym
  }

  /** The characters an operator symbol starts with. */
  predicate OperatorStart(c: char) {
    c == '&' || c == '|' || c == '+' || c == '-' || c == '=' || c == '!' || c == '<' || c == '>'
    || c == '*' || c == '/' || c == '%' || c == '^' || c == '~'
  }

  /** getOperator: the two-character operators are tried before the one-character
      ones; '%' is read as INT_MOD. A position outside the string holds no operator. */
  function GetOperator(s: string, i: nat): (r: Option<CppOperator>)
    ensures r.Some? ==> LexedForm(r.value) == r.value
    ensures r.Some? ==> i < |s| && OperatorStart(s[i])
  {
    if i < |s| && OperatorStart(s[i]) then
      OperatorFor(s[i], if i + 1 < |s| then Some(s[i + 1]) else None)
    else None
  }

  /** Whether sym is c, or c followed by the character next. */
  predicate Spelled(sym: string, c: char, next: Option<char>) {
    |sym| >= 1 && sym[0] == c && (|sym| == 2 ==> next.Some? && sym[1] == next.value) && |sym| <= 2
  }

  /** The operator that starts with c, given the character after it, if any. The
      tests of getOperator are grouped by their first character; within a group the
      two-character symbols are tried first, as there. */
  function OperatorFor(c: char, next: Option<char>): (r: Option<CppOperator>)
    ensures r.Some? ==> LexedForm(r.value) == r.value
  {
    if c == '&' then (if next == Some('&') then Some(BoolAnd) else Some(BinAnd))
    else if c == '|' then (if next == Some('|') then Some(BoolOr) else Some(BinOr))
    else if c == '+' then (if next == Some('+') then Some(IntInc) else Some(IntAdd))
    else if c == '-' then (if next == Some('-') then Some(IntDec) else Some(IntSub))
    else if c == '=' then (if next == Some('=') then Some(CmpEq) else None)
    else if c == '!' then (if next == Some('=') then Some(CmpNe) else Some(BoolNot))
    else if c == '<' then (if next == Some('=') then Some(CmpLe) else if next == Some('<') then Some(BinShl) else Some(CmpLt))
    else if c == '>' then (if next == Some('=') then Some(CmpGe) else if next == Some('>') then Some(BinShr) else Some(CmpGt))
    else if c == '*' then Some(IntMul)
    else if c == '/' then Some(IntDiv)
    else if c == '%' then Some(IntMod)
    else if c == '^' then Some(BinXor)
    else if c == '~' then Some(BinInv)
    else None
  }

  /** The operator read for c and next is spelled by them. */
  lemma OperatorForSpelled(c: char, next: Option<char>)
    requires OperatorFor(c, next).Some?
    ensures Spelled(Symbol(OperatorFor(c, next).value), c, next)
  {
    var op := OperatorFor(c, next).value;
    match op
    case BoolAnd =>
    case BoolOr =>
    case IntInc =>
    case IntDec =>
    case CmpEq =>
    case CmpNe =>
    case CmpLe =>
    case CmpGe =>
    case BinShr =>
    case BinShl =>
    case _ =>
  }

  /** Whenever the symbol of op is spelled by c and next, an operator is read, and
      its symbol is at least as long: two-character symbols win over their
      one-character prefixes. */
  lemma OperatorForLongestMatch(op: CppOperator, c: char, next: Option<char>)
    requires Spelled(Symbol(op), c, next)
    ensures OperatorFor(c, next).Some?
    ensures |Symbol(op)| <= |Symbol(OperatorFor(c, next).value)|
  {
    match op
    case BoolAnd =>
    case BoolOr =>
    case IntInc =>
    case IntDec =>
    case CmpEq =>
    case CmpNe =>
    case CmpLe =>
    case CmpGe =>
    case BinShr =>
    case BinShl =>
    case _ =>
  }

  /** Wherever a symbol of the table stands, getOperator reads an operator, that
      operator is spelled out there, and it is at least as long as the symbol. */
  lemma GetOperatorLongestMatch(s: string, i: nat, op: CppOperator)
    requires SymbolAt(s, i, Symbol(op))
    ensures GetOperator(s, i).Some?
    ensures SymbolAt(s, i, Symbol(GetOperator(s, i).value))
    ensures |Symbol(op)| <= |Symbol(GetOperator(s, i).value)|
  {
    var sym := Symbol(op);
    var next := if i + 1 < |s| then Some(s[i + 1]) else None;
    assert s[i] == sym[0] by {
      assert s[i..i + |sym|][0] == s[i];
    }
    if |sym| == 2 {
      assert s[i + 1] == sym[1] by {
        assert s[i..i + |sym|][1] == s[i + 1];
      }
    }
    assert Spelled(sym, s[i], next);
    OperatorForLongestMatch(op, s[i], next);
    GetOperatorSpelled(s, i);
  }

  /** The character after a symbol does not extend it when it cannot start an
      operator. */
  lemma OperatorForSymbol(op: CppOperator, next: Option<char>)
    requires |Symbol(op)| == 1 ==> next.None? || !OperatorStart(next.value)
    ensures OperatorFor(Symbol(op)[0], if |Symbol(op)| == 2 then Some(Symbol(op)[1]) else next)
         == Some(LexedForm(op))
  {
    match op
    case BoolAnd =>
    case BoolOr =>
    case IntInc =>
    case IntDec =>
    case CmpEq =>
    case CmpNe =>
    case CmpLe =>
    case CmpGe =>
    case BinShr =>
    case BinShl =>
    case _ =>
  }

  /** Every symbol of the table, followed by the end of the text or by a character
      that cannot start an operator, lexes back to its operator; unary + and - come
      back as their binary forms. */
  lemma SymbolLexesBack(op: CppOperator, rest: string)
    requires rest == [] || !OperatorStart(rest[0])
    ensures GetOperator(Symbol(op) + rest, 0) == Some(LexedForm(op))
  {
    var sym := Symbol(op);
    var s := sym + rest;
    FirstCharIsOperatorStart(op);
    assert s[0] == sym[0];
    if |sym| == 2 {
      assert s[1] == sym[1];
      OperatorForSymbol(op, Some(sym[1]));
    } else if rest != [] {
      assert s[1] == rest[0];
      OperatorForSymbol(op, Some(rest[0]));
    } else {
      OperatorForSymbol(op, None);
    }
  }

  /** The symbol table as written gives INT_MOD the symbol of BIN_AND, so the symbol
      printed for a remainder reads back as a bitwise and. */
  lemma ModSymbolAsWrittenReadsAsAnd()
    ensures GetOperator(SymbolAsWritten(IntMod), 0) == Some(BinAnd)
    ensures GetOperator(Symbol(IntMod), 0) == Some(IntMod)
  {
  }

  // ---------------------------------------------------------------------------
  // Lexing

  /** The length of the run of identifier characters at the start of s. */
  function IdentRun(s: string): (n: nat)
    ensures n <= |s|
    ensures forall k :: 0 <= k < n ==> IsIdentifierChar(s[k])
    ensures n < |s| ==> !IsIdentifierChar(s[n])
  {
    if s != [] && IsIdentifierChar(s[0]) then 1 + IdentRun(s[1..]) else 0
  }

  /** What the lexer makes of the first character(s) of s: a token or nothing
      (whitespace), and how many characters it consumes. */
  function LexStep(s: string): (r: Result<(Option<Token>, nat)>)
    requires s != []
    ensures r.Ok? ==> 1 <= r.value.1 <= |s|
    ensures r.Fail? ==> r.exc == ExpressionFormatException
  {
    if IsWhitespace(s[0]) then Ok((None, 1))
    else if s[0] == '(' then Ok((Some(Bracket(false)), 1))
    else if s[0] == ')' then Ok((Some(Bracket(true)), 1))
    else if GetOperator(s, 0).Some? then
      var op := GetOperator(s, 0).value;
      GetOperatorSpelled(s, 0);
      Ok((Some(OperatorToken(op)), |Symbol(op)|))
    else if IsIdentifierChar(s[0]) then
      var n := IdentRun(s);
      Ok((Some(Identifier(s[..n])), n))
    else Fail(ExpressionFormatException)
  }

  /** The operator getOperator reads is spelled out where it is read. */
  lemma GetOperatorSpelled(s: string, i: nat)
    requires GetOperator(s, i).Some?
    ensures SymbolAt(s, i, Symbol(GetOperator(s, i).value))
  {
    var sym := Symbol(GetOperator(s, i).value);
    OperatorForSpelled(s[i], if i + 1 < |s| then Some(s[i + 1]) else None);
    if |sym| == 2 {
      assert s[i..i + 2] == [s[i], s[i + 1]];
    } else {
      assert s[i..i + 1] == [s[i]];
    }
  }

  function OptionToSeq(t: Option<Token>): seq<Token> {
    if t.Some? then [t.value] else []
  }

  /** The tokens of s: whitespace separates, every maximal run of identifier
      characters is one identifier, and any other character is an error. */
  function Lexed(s: string): (r: Result<seq<Token>>)
    ensures r.Fail? ==> r.exc == ExpressionFormatException
    decreases |s|
  {
    if s == [] then Ok([])
    else
      var step :- LexStep(s);
      var rest :- Lexed(s[step.1..]);
      Ok(OptionToSeq(step.0) + rest)
  }

  /** The tokens still to come when the lexer has produced done and stands before
      rest; when an identifier is open, the identifier characters at the start of
      rest extend it. */
  function Continue(done: seq<Token>, open: bool, rest: string): Result<seq<Token>>
    requires open ==> |done| > 0 && done[|done| - 1].Identifier?
  {
    var n := if open then IdentRun(rest) else 0;
    var tail :- Lexed(rest[n..]);
    if n == 0 then Ok(done + tail)
    else Ok(done[..|done| - 1] + [Identifier(done[|done| - 1].name + rest[..n])] + tail)
  }

  lemma ContinueClosed(done: seq<Token>, open: bool, rest: string)
    requires open ==> |done| > 0 && done[|done| - 1].Identifier?
    requires rest == [] || !IsIdentifierChar(rest[0])
    ensures Continue(done, open, rest) == Continue(done, false, rest)
  {
  }

  /** A character that is not part of an identifier: the lexer appends its token (if
      any) and closes the open identifier. */
  lemma ContinueSingle(done: seq<Token>, rest: string)
    requires rest != [] && LexStep(rest).Ok?
    ensures Continue(done, false, rest)
         == Continue(done + OptionToSeq(LexStep(rest).value.0), false, rest[LexStep(rest).value.1..])
  {
    var step := LexStep(rest).value;
    var tail := Lexed(rest[step.1..]);
    if tail.Ok? {
      assert done + (OptionToSeq(step.0) + tail.value) == done + OptionToSeq(step.0) + tail.value;
    }
  }

  /** A whitespace, bracket or operator character closes the open identifier and
      adds its token, if any. */
  lemma ContinueToken(done: seq<Token>, open: bool, rest: string)
    requires open ==> |done| > 0 && done[|done| - 1].Identifier?
    requires rest != [] && LexStep(rest).Ok? && !IsIdentifierChar(rest[0])
    ensures Continue(done, open, rest)
         == Continue(done + OptionToSeq(LexStep(rest).value.0), false, rest[LexStep(rest).value.1..])
  {
    ContinueClosed(done, open, rest);
    ContinueSingle(done, rest);
  }

  /** An identifier character starts an identifier token covering the whole run. */
  lemma LexedIdentifier(rest: string)
    requires rest != [] && IsIdentifierChar(rest[0])
    ensures Lexed(rest).Ok? <==> Lexed(rest[IdentRun(rest)..]).Ok?
    ensures Lexed(rest).Ok? ==>
      Lexed(rest).value == [Identifier(rest[..IdentRun(rest)])] + Lexed(rest[IdentRun(rest)..]).value
  {
    var n := IdentRun(rest);
    assert !IsWhitespace(rest[0]) && !OperatorStart(rest[0]);
    assert LexStep(rest) == Ok((Some(Identifier(rest[..n])), n));
  }

  lemma Associative(a: seq<Token>, b: seq<Token>, c: seq<Token>)
    ensures a + b + c == a + (b + c)
  {
  }

  /** The tokens done, then an identifier, then the tokens of tail (if tail is Ok). */
  function Glue(done: seq<Token>, name: string, tail: Result<seq<Token>>): Result<seq<Token>> {
    if tail.Fail? then Fail(tail.exc) else Ok(done + [Identifier(name)] + tail.value)
  }

  lemma ContinueOpenBefore(done: seq<Token>, rest: string)
    requires rest != [] && IsIdentifierChar(rest[0])
    ensures Continue(done, false, rest) == Glue(done, rest[..IdentRun(rest)], Lexed(rest[IdentRun(rest)..]))
  {
    var n := IdentRun(rest);
    assert rest[0..] == rest;
    LexedIdentifier(rest);
    var tail := Lexed(rest[n..]);
    if tail.Ok? {
      Associative(done, [Identifier(rest[..n])], tail.value);
    }
  }

  lemma ContinueOpenAfter(done: seq<Token>, rest: string)
    requires rest != [] && IsIdentifierChar(rest[0])
    ensures Continue(done + [Identifier([rest[0]])], true, rest[1..])
         == Glue(done, rest[..IdentRun(rest)], Lexed(rest[IdentRun(rest)..]))
  {
    var m := IdentRun(rest[1..]);
    OpenSlices(rest, m);
    ReplaceLast(done, Identifier([rest[0]]));
    if m == 0 {
      ContinueWithout(done + [Identifier([rest[0]])], rest[1..], Lexed(rest[1..]));
    } else {
      ContinueWith(done + [Identifier([rest[0]])], rest[1..], Lexed(rest[1 + m..]));
    }
  }

  /** Slicing facts for stepping past the first character of an identifier run. */
  lemma OpenSlices(rest: string, m: nat)
    requires 1 + m <= |rest|
    ensures rest[1..][m..] == rest[1 + m..]
    ensures [rest[0]] + rest[1..][..m] == rest[..1 + m]
    ensures m == 0 ==> rest[..1] == [rest[0]]
  {
  }

  lemma NameSlices(last: string, rest: string, m: nat)
    requires 1 + m <= |rest|
    ensures last + [rest[0]] + rest[1..][..m] == last + rest[..1 + m]
  {
    OpenSlices(rest, m);
    assert last + [rest[0]] + rest[1..][..m] == last + ([rest[0]] + rest[1..][..m]);
  }

  lemma ReplaceLast(prefix: seq<Token>, t: Token)
    ensures (prefix + [t])[..|prefix + [t]| - 1] == prefix
    ensures (prefix + [t])[|prefix + [t]| - 1] == t
  {
  }

  lemma ContinueWithout(done: seq<Token>, rest: string, tail: Result<seq<Token>>)
    requires |done| > 0 && done[|done| - 1].Identifier?
    requires IdentRun(rest) == 0 && tail == Lexed(rest)
    ensures Continue(done, true, rest) == if tail.Fail? then Fail(tail.exc) else Ok(done + tail.value)
  {
    assert rest[0..] == rest;
  }

  lemma ContinueWith(done: seq<Token>, rest: string, tail: Result<seq<Token>>)
    requires |done| > 0 && done[|done| - 1].Identifier?
    requires IdentRun(rest) > 0 && tail == Lexed(rest[IdentRun(rest)..])
    ensures Continue(done, true, rest) == Glue(done[..|done| - 1], done[|done| - 1].name + rest[..IdentRun(rest)], tail)
  {
  }

  /** An identifier character opens a new identifier. */
  lemma ContinueOpen(done: seq<Token>, rest: string)
    requires rest != [] && IsIdentifierChar(rest[0])
    ensures Continue(done, false, rest) == Continue(done + [Identifier([rest[0]])], true, rest[1..])
  {
    ContinueOpenBefore(done, rest);
    ContinueOpenAfter(done, rest);
  }

  /** An identifier character extends the open identifier. */
  lemma ContinueExtend(done: seq<Token>, rest: string)
    requires |done| > 0 && done[|done| - 1].Identifier?
    requires rest != [] && IsIdentifierChar(rest[0])
    ensures Continue(done, true, rest)
         == Continue(done[..|done| - 1] + [Identifier(done[|done| - 1].name + [rest[0]])], true, rest[1..])
  {
    var m := IdentRun(rest[1..]);
    var last := done[|done| - 1].name;
    var prefix := done[..|done| - 1];
    OpenSlices(rest, m);
    NameSlices(last, rest, m);
    ReplaceLast(prefix, Identifier(last + [rest[0]]));
    ContinueWith(done, rest, Lexed(rest[1 + m..]));
    if m == 0 {
      ContinueWithout(prefix + [Identifier(last + [rest[0]])], rest[1..], Lexed(rest[1..]));
    } else {
      ContinueWith(prefix + [Identifier(last + [rest[0]])], rest[1..], Lexed(rest[1 + m..]));
    }
  }

  /** The characters that can start a token: whitespace, brackets, the first
      characters of the operator symbols, and identifier characters. */
  predicate Lexable(c: char) {
    IsWhitespace(c) || c == '(' || c == ')' || IsIdentifierChar(c) || OperatorStart(c)
  }

  /** Any character that cannot start a token makes lexing fail with an
      ExpressionFormatException, wherever it stands. */
  lemma {:induction false} UnknownCharacterRejected(s: string, i: nat)
    requires i < |s| && !Lexable(s[i])
    ensures Lexed(s) == Fail(ExpressionFormatException)
    decreases |s|
  {
    StepSkipsUnknown(s, i);
    var step := LexStep(s);
    if step.Ok? {
      var n := step.value.1;
      assert s[n..][i - n] == s[i];
      UnknownCharacterRejected(s[n..], i - n);
    }
  }

  /** A step of the lexer only consumes characters that can start a token or that
      continue an operator or identifier. */
  lemma StepSkipsUnknown(s: string, i: nat)
    requires i < |s| && !Lexable(s[i])
    ensures LexStep(s).Ok? ==> i >= LexStep(s).value.1
  {
    if LexStep(s).Ok? && i < LexStep(s).value.1 && i > 0 {
      if GetOperator(s, 0).Some? && !IsWhitespace(s[0]) && s[0] != '(' && s[0] != ')' {
        var op := GetOperator(s, 0).value;
        GetOperatorSpelled(s, 0);
        assert s[0..|Symbol(op)|][i] == s[i];
        SecondCharsAreOperatorStarts(op);
      }
    }
  }

  lemma SecondCharsAreOperatorStarts(op: CppOperator)
    ensures |Symbol(op)| == 2 ==> OperatorStart(Symbol(op)[1])
  {
  }

  // ---------------------------------------------------------------------------
  // Printing tokens, and lexing the printed text back

  /** The text of a token list with a space after every token. */
  function Spaced(ts: seq<Token>): string {
    if ts == [] then []
    else TokenText(ts[0]) + " " + Spaced(ts[1..])
  }

  function TokenText(t: Token): string {
    match t
    case OperatorToken(op) => Symbol(op)
    case Bracket(closing) => if closing then ")" else "("
    case Identifier(name) => name
  }

  /** A token the lexer can produce: a non-empty identifier of identifier characters,
      or an operator in the form the lexer reads. */
  predicate Lexical(t: Token) {
    match t
    case OperatorToken(op) => LexedForm(op) == op
    case Bracket(_) => true
    case Identifier(name) => name != [] && forall k :: 0 <= k < |name| ==> IsIdentifierChar(name[k])
  }

  /** A lexical token followed by a space is read back as that token. */
  lemma StepOfSpacedToken(t: Token, rest: string)
    requires Lexical(t)
    ensures LexStep(TokenText(t) + " " + rest) == Ok((Some(t), |TokenText(t)|))
  {
    match t
    case OperatorToken(op) => StepOfSpacedOperator(op, rest);
    case Bracket(closing) =>
    case Identifier(name) => StepOfSpacedIdentifier(name, rest);
  }

  lemma StepOfSpacedOperator(op: CppOperator, rest: string)
    requires LexedForm(op) == op
    ensures LexStep(Symbol(op) + " " + rest) == Ok((Some(OperatorToken(op)), |Symbol(op)|))
  {
    var s := Symbol(op) + " " + rest;
    SymbolLexesBack(op, " " + rest);
    assert s == Symbol(op) + (" " + rest);
    FirstCharIsOperatorStart(op);
    assert s[0] == Symbol(op)[0];
  }

  lemma FirstCharIsOperatorStart(op: CppOperator)
    ensures OperatorStart(Symbol(op)[0])
  {
  }

  lemma StepOfSpacedIdentifier(name: string, rest: string)
    requires name != [] && forall k :: 0 <= k < |name| ==> IsIdentifierChar(name[k])
    ensures LexStep(name + " " + rest) == Ok((Some(Identifier(name)), |name|))
  {
    var s := name + " " + rest;
    assert s[0] == name[0];
    IdentRunOf(name, " " + rest);
    assert s == name + (" " + rest);
    assert s[..|name|] == name;
  }

  lemma LexSpacedToken(t: Token, rest: string)
    requires Lexical(t)
    ensures Lexed(TokenText(t) + " " + rest).Ok? <==> Lexed(rest).Ok?
    ensures Lexed(rest).Ok? ==> Lexed(TokenText(t) + " " + rest) == Ok([t] + Lexed(rest).value)
  {
    var text := TokenText(t);
    var s := text + " " + rest;
    StepOfSpacedToken(t, rest);
    assert s[|text|..] == " " + rest;
    LexSpace(s[|text|..], rest);
  }

  lemma LexSpace(s: string, rest: string)
    requires s == " " + rest
    ensures Lexed(s) == Lexed(rest)
  {
    assert LexStep(s) == Ok((None, 1));
    assert s[1..] == rest;
    if Lexed(rest).Ok? {
      assert [] + Lexed(rest).value == Lexed(rest).value;
    }
  }

  lemma {:induction false} IdentRunOf(name: string, rest: string)
    requires forall k :: 0 <= k < |name| ==> IsIdentifierChar(name[k])
    requires rest == [] || !IsIdentifierChar(rest[0])
    ensures IdentRun(name + rest) == |name|
    decreases |name|
  {
    if name != [] {
      assert (name + rest)[1..] == name[1..] + rest;
      IdentRunOf(name[1..], rest);
    } else {
      assert name + rest == rest;
    }
  }

  /** Printing tokens with a space after each and lexing the text gives the tokens
      back. */
  lemma {:induction false} LexSpacedRoundTrip(ts: seq<Token>)
    requires forall k :: 0 <= k < |ts| ==> Lexical(ts[k])
    ensures Lexed(Spaced(ts)) == Ok(ts)
    decreases |ts|
  {
    if ts != [] {
      LexSpacedRoundTrip(ts[1..]);
      LexSpacedToken(ts[0], Spaced(ts[1..]));
      assert [ts[0]] + ts[1..] == ts;
    }
  }

  // ---------------------------------------------------------------------------
  // The lexer loop

  /** One pass of lex's loop at a whitespace, bracket or operator character: the open
      identifier ends, the bracket or operator token is appended, and the position
      moves past the character(s). */
  method LexSymbol(expression: string, i: nat, tokens: seq<Token>, open: bool, op: Option<CppOperator>)
    returns (tokens': seq<Token>, i': nat)
    requires i < |expression| && op == GetOperator(expression, i)
    requires IsWhitespace(expression[i]) || expression[i] == '(' || expression[i] == ')' || op.Some?
    requires open ==> |tokens| > 0 && tokens[|tokens| - 1].Identifier?
    ensures i < i' <= |expression|
    ensures Continue(tokens', false, expression[i'..]) == Continue(tokens, open, expression[i..])
  {
    SymbolStepAt(expression, i, op);
    if IsWhitespace(expression[i]) {
      tokens', i' := tokens, i + 1;
    } else if expression[i] == '(' {
      tokens', i' := tokens + [Bracket(false)], i + 1;
    } else if expression[i] == ')' {
      tokens', i' := tokens + [Bracket(true)], i + 1;
    } else {
      tokens', i' := tokens + [OperatorToken(op.value)], i + |SymbolAsWritten(op.value)|;
    }
    ContinueAfterSymbol(expression, i, tokens, open, tokens', i');
  }

  lemma ContinueAfterSymbol(expression: string, i: nat, tokens: seq<Token>, open: bool, tokens': seq<Token>, i': nat)
    requires i < |expression| && LexStep(expression[i..]).Ok? && !IsIdentifierChar(expression[i])
    requires open ==> |tokens| > 0 && tokens[|tokens| - 1].Identifier?
    requires tokens' == tokens + OptionToSeq(LexStep(expression[i..]).value.0)
    requires i' == i + LexStep(expression[i..]).value.1
    ensures i' <= |expression|
    ensures Continue(tokens', false, expression[i'..]) == Continue(tokens, open, expression[i..])
  {
    var rest := expression[i..];
    var step := LexStep(rest).value;
    ContinueToken(tokens, open, rest);
    SubSlice(expression, i, step.1);
    assert expression[i'..] == rest[step.1..];
  }

  /** The lexer's step at a whitespace, bracket or operator character. */
  lemma SymbolStepAt(expression: string, i: nat, op: Option<CppOperator>)
    requires i < |expression| && op == GetOperator(expression, i)
    requires IsWhitespace(expression[i]) || expression[i] == '(' || expression[i] == ')' || op.Some?
    ensures !IsIdentifierChar(expression[i])
    ensures LexStep(expression[i..]).Ok?
    ensures LexStep(expression[i..]).value ==
      if IsWhitespace(expression[i]) then (None, 1)
      else if expression[i] == '(' then (Some(Bracket(false)), 1)
      else if expression[i] == ')' then (Some(Bracket(true)), 1)
      else (Some(OperatorToken(op.value)), |Symbol(op.value)|)
  {
    var rest := expression[i..];
    assert rest[0] == expression[i];
    assert op == GetOperator(rest, 0) by {
      if i + 1 < |expression| {
        assert rest[1] == expression[i + 1];
      }
    }
  }

  lemma SubSlice(s: string, i: nat, k: nat)
    requires i + k <= |s|
    ensures s[i..][k..] == s[i + k..]
  {
  }

  /** One pass of lex's loop at an identifier character: it opens a new identifier or
      extends the open one. */
  method LexIdentifierChar(expression: string, i: nat, tokens: seq<Token>, open: bool)
    returns (tokens': seq<Token>)
    requires i < |expression| && IsIdentifierChar(expression[i])
    requires open ==> |tokens| > 0 && tokens[|tokens| - 1].Identifier?
    ensures |tokens'| > 0 && tokens'[|tokens'| - 1].Identifier?
    ensures Continue(tokens', true, expression[i + 1..]) == Continue(tokens, open, expression[i..])
  {
    var rest := expression[i..];
    assert rest[1..] == expression[i + 1..];
    if !open {
      ContinueOpen(tokens, rest);
      tokens' := tokens + [Identifier([expression[i]])];
    } else {
      ContinueExtend(tokens, rest);
      tokens' := tokens[..|tokens| - 1] + [Identifier(tokens[|tokens| - 1].name + [expression[i]])];
    }
  }

  /** lex(expression): walks the characters once, appending to the current identifier
      while identifier characters follow each other. */
  method Lex(expression: string) returns (r: Result<seq<Token>>)
    ensures r == Lexed(expression)
  {
    var tokens: seq<Token> := [];
    var open := false;
    var i := 0;
    assert Continue(tokens, open, expression[i..]) == Lexed(expression) by {
      assert expression[0..] == expression;
      assert expression[0..][0..] == expression;
      if Lexed(expression).Ok? {
        assert [] + Lexed(expression).value == Lexed(expression).value;
      }
    }
    while i < |expression|
      invariant 0 <= i <= |expression|
      invariant open ==> |tokens| > 0 && tokens[|tokens| - 1].Identifier?
      invariant Continue(tokens, open, expression[i..]) == Lexed(expression)
      decreases |expression| - i
    {
      var op := GetOperator(expression, i);
      if IsWhitespace(expression[i]) || expression[i] == '(' || expression[i] == ')' || op.Some? {
        tokens, i := LexSymbol(expression, i, tokens, open, op);
        open := false;
      } else if IsIdentifierChar(expression[i]) {
        tokens := LexIdentifierChar(expression, i, tokens, open);
        open := true;
        i := i + 1;
      } else {
        ContinueClosed(tokens, open, expression[i..]);
        return Fail(ExpressionFormatException);
      }
    }
    assert Continue(tokens, open, []) == Ok(tokens) by {
      assert tokens + [] == tokens;
    }
    r := Ok(tokens);
  }
}
