/** What the JSON grammar accepts and rejects: trailing input, whitespace, the
    nesting limit, string escapes, the number syntax of RFC 8259 section 6 and
    the object rules, each proved about the functions of JsonGrammar. */
module JsonGrammarProps {
  import opened Wrappers
  import opened JavaText
  import opened JsonStrings
  import opened JsonValues
  import opened JsonGrammar

  // ---------------------------------------------------------------------------
  // Whitespace and the end of the input

  lemma SkipWsNone(s: string)
    requires s == [] || !IsWs(s[0])
    ensures SkipWs(s) == s
  {
  }

  lemma SkipWsEmpty(s: string)
    ensures SkipWs(s) == [] <==> forall i :: 0 <= i < |s| ==> IsWs(s[i])
  {
    var r := SkipWs(s);
    if r != [] {
      assert s[|s| - |r|] == r[0];
    }
  }

  /** Sequence facts kept apart from the grammar, so that proofs about the
      grammar do not have to find them among its definitions. */
  lemma Behead(c: char, a: string, b: string)
    ensures ([c] + a + b)[0] == c && ([c] + a + b)[1..] == a + b
  {
  }

  lemma Behead1(c: char, a: string)
    ensures ([c] + a)[0] == c && ([c] + a)[1..] == a
  {
  }

  lemma Assoc(a: string, b: string, c: string, d: string, e: string)
    ensures a + b + c + d + e == a + (b + (c + d + e))
  {
  }

  /** parse succeeds after a well-formed element exactly when nothing but
      whitespace follows it, and then yields that element. */
  lemma TrailingInput(s: string, depth: int)
    requires Element(s, depth).Ok?
    ensures var rest := Element(s, depth).value.1;
      ParseAt(s, depth) ==
        if forall i :: 0 <= i < |rest| ==> IsWs(rest[i]) then Ok(Element(s, depth).value.0)
        else Fail(FormatException)
  {
    SkipWsEmpty(Element(s, depth).value.1);
  }

  lemma NumberKinds(s: string)
    requires Number(s).Ok?
    ensures var v := Number(s).value.0; v.JInt? || v.JLong? || v.JDouble?
  {
  }

  // ---------------------------------------------------------------------------
  // One step of the grammar at a time

  lemma ElementSkip(s: string, depth: int)
    ensures Element(s, depth) == Element(SkipWs(s), depth)
  {
    SkipWsNone(SkipWs(s));
  }

  lemma ElementList(t: string, depth: int)
    requires t != [] && t[0] == '['
    ensures Element(t, depth) ==
      if depth + 1 >= MAX_NESTING_DEPTH then Fail(FormatException)
      else
        match List(t[1..], depth + 1)
        case Fail(e) => Fail(e)
        case Ok((xs, rest)) => Ok((JList(xs), rest))
  {
    SkipWsNone(t);
  }

  lemma ElementObject(t: string, depth: int)
    requires t != [] && t[0] == '{'
    ensures Element(t, depth) ==
      if depth + 1 >= MAX_NESTING_DEPTH then Fail(FormatException)
      else
        match Object(t[1..], depth + 1)
        case Fail(e) => Fail(e)
        case Ok((ms, rest)) => Ok((JObject(ms), rest))
  {
    SkipWsNone(t);
  }

  lemma ElementNumber(t: string, depth: int)
    requires t != [] && (IsDigit(t[0]) || t[0] == '-')
    ensures Element(t, depth) == Number(t)
  {
    SkipWsNone(t);
    assert t[0] != '{' && t[0] != '[' && t[0] != 't' && t[0] != 'f' && t[0] != 'n' && t[0] != '"';
  }

  lemma ElementTrueWord(t: string, depth: int)
    requires t != [] && t[0] == 't'
    ensures Element(t, depth) ==
      match Literal(t, "true") case None => Fail(FormatException) case Some(rest) => Ok((JBool(true), rest))
  {
    SkipWsNone(t);
  }

  lemma ElementFalseWord(t: string, depth: int)
    requires t != [] && t[0] == 'f'
    ensures Element(t, depth) ==
      match Literal(t, "false") case None => Fail(FormatException) case Some(rest) => Ok((JBool(false), rest))
  {
    SkipWsNone(t);
  }

  lemma ElementNullWord(t: string, depth: int)
    requires t != [] && t[0] == 'n'
    ensures Element(t, depth) ==
      match Literal(t, "null") case None => Fail(FormatException) case Some(rest) => Ok((JNull, rest))
  {
    SkipWsNone(t);
  }

  lemma ElementTrue(rest: string, depth: int)
    ensures Element("true" + rest, depth) == Ok((JBool(true), rest))
  {
    var t := "true" + rest;
    ElementTrueWord(t, depth);
    assert t[..4] == "true" && t[4..] == rest;
  }

  /** Nothing left where an element should start. */
  lemma ElementEmpty(depth: int)
    ensures Element([], depth) == Fail(FormatException)
  {
  }

  /** A character that starts no element. */
  lemma ElementOther(t: string, depth: int)
    requires t != [] && !IsWs(t[0])
    requires t[0] != '{' && t[0] != '[' && t[0] != 't' && t[0] != 'f' && t[0] != 'n'
    requires t[0] != '"' && t[0] != '-' && !IsDigit(t[0])
    ensures Element(t, depth) == Fail(FormatException)
  {
    SkipWsNone(t);
  }

  lemma ListStart(s: string, depth: int)
    ensures List(s, depth) == Items(SkipWs(s), depth, [], SkipWs(s) == [] || SkipWs(s)[0] != ']')
  {
  }

  lemma ItemsClose(s: string, depth: int, acc: seq<Json>)
    ensures Items(s, depth, acc, false) ==
      if SkipWs(s) != [] && SkipWs(s)[0] == ']' then Ok((acc, SkipWs(s)[1..])) else Fail(FormatException)
  {
  }

  lemma ItemsNext(s: string, depth: int, acc: seq<Json>, v: Json, r3: string)
    requires Element(SkipWs(s), depth) == Ok((v, r3))
    ensures Items(s, depth, acc, true) ==
      var r4 := SkipWs(r3);
      if r4 != [] && r4[0] == ',' then Items(r4[1..], depth, acc + [v], true)
      else Items(r4, depth, acc + [v], false)
  {
  }

  lemma ItemsFail(s: string, depth: int, acc: seq<Json>)
    requires Element(SkipWs(s), depth).Fail?
    ensures Items(s, depth, acc, true) == Fail(Element(SkipWs(s), depth).exc)
  {
  }

  lemma ObjectStart(s: string, depth: int)
    ensures Object(s, depth) == Members(SkipWs(s), depth, [], SkipWs(s) == [] || SkipWs(s)[0] != '}')
  {
  }

  lemma MembersClose(s: string, depth: int, acc: seq<Member>)
    ensures Members(s, depth, acc, false) ==
      if SkipWs(s) != [] && SkipWs(s)[0] == '}' then Ok((acc, SkipWs(s)[1..])) else Fail(FormatException)
  {
  }

  lemma MembersNext(s: string, depth: int, acc: seq<Member>, key: string, v: Json, r3: string)
    requires MemberAt(SkipWs(s), depth) == Ok(((key, v), r3))
    ensures Members(s, depth, acc, true) ==
      var r4 := SkipWs(r3);
      if r4 != [] && r4[0] == ',' then Members(r4[1..], depth, Put(acc, key, v), true)
      else Members(r4, depth, Put(acc, key, v), false)
  {
  }

  lemma MembersFail(s: string, depth: int, acc: seq<Member>)
    requires MemberAt(SkipWs(s), depth).Fail?
    ensures Members(s, depth, acc, true) == Fail(MemberAt(SkipWs(s), depth).exc)
  {
  }

  lemma MemberAtOf(t: string, depth: int, key: string, r1: string, v: Json, r3: string)
    requires t != [] && t[0] == '"'
    requires StringBody(t[1..], "") == Ok((key, r1))
    requires SkipWs(r1) != [] && SkipWs(r1)[0] == ':'
    requires Element(SkipWs(r1)[1..], depth) == Ok((v, r3))
    ensures MemberAt(t, depth) == Ok(((key, v), r3))
  {
  }

  lemma MemberAtNoColon(t: string, depth: int, key: string, r1: string)
    requires t != [] && t[0] == '"'
    requires StringBody(t[1..], "") == Ok((key, r1))
    requires SkipWs(r1) == [] || SkipWs(r1)[0] != ':'
    ensures MemberAt(t, depth) == Fail(FormatException)
  {
  }

  lemma MemberAtNoKey(t: string, depth: int)
    requires t == [] || t[0] != '"'
    ensures MemberAt(t, depth) == Fail(FormatException)
  {
  }

  lemma MemberAtKeyFail(t: string, depth: int)
    requires t != [] && t[0] == '"'
    requires StringBody(t[1..], "").Fail?
    ensures MemberAt(t, depth) == Fail(StringBody(t[1..], "").exc)
  {
  }

  lemma MemberAtValueFail(t: string, depth: int, key: string, r1: string)
    requires t != [] && t[0] == '"'
    requires StringBody(t[1..], "") == Ok((key, r1))
    requires SkipWs(r1) != [] && SkipWs(r1)[0] == ':'
    requires Element(SkipWs(r1)[1..], depth).Fail?
    ensures MemberAt(t, depth) == Fail(Element(SkipWs(r1)[1..], depth).exc)
  {
  }

  /** Whitespace in front of text that starts with something else is skipped. */
  lemma {:induction false} SkipWsPrefix(ws: string, t: string)
    requires forall i :: 0 <= i < |ws| ==> IsWs(ws[i])
    requires t == [] || !IsWs(t[0])
    ensures SkipWs(ws + t) == t
  {
    if ws == [] {
      assert ws + t == t;
    } else {
      assert (ws + t)[1..] == ws[1..] + t;
      SkipWsPrefix(ws[1..], t);
    }
  }

  // ---------------------------------------------------------------------------
  // Whitespace before a value

  /** Exactly tab, line feed, carriage return and space may precede a value. */
  lemma WhitespaceIsExactly(c: char)
    ensures Parse([c] + "true") == Ok(JBool(true)) <==> IsWs(c)
  {
    var s := [c] + "true";
    assert s[1..] == "true";
    assert "true" + "" == "true";
    SkipWsNone("true");
    if IsWs(c) {
      assert SkipWs(s) == "true";
      ElementSkip(s, 0);
      ElementTrue("", 0);
    } else {
      SkipWsNone(s);
      if c == '{' {
        ElementObject(s, 0);
        ObjectStart("true", 1);
        KeyMustBeString("true", 1, []);
      } else if c == '[' {
        ElementList(s, 0);
        ListStart("true", 1);
        ElementTrue("", 1);
        ItemsNext("true", 1, [], JBool(true), "");
        ItemsClose("", 1, [JBool(true)]);
      } else if c == '"' {
        ElementString(s, 0);
        UnterminatedRejected("true", "");
      } else if c == 't' {
        ElementTrueWord(s, 0);
        assert s[..4] != "true" by { assert s[1] == 't'; }
      } else if c == 'f' {
        ElementFalseWord(s, 0);
        assert s[..5] != "false" by { assert s[1] == 't'; }
      } else if c == 'n' {
        ElementNullWord(s, 0);
        assert s[..4] != "null" by { assert s[1] == 't'; }
      } else if IsDigit(c) || c == '-' {
        ElementNumber(s, 0);
        if Number(s).Ok? {
          NumberKinds(s);
        }
      } else {
        ElementOther(s, 0);
      }
    }
  }

  // ---------------------------------------------------------------------------
  // The nesting limit

  function Repeat(c: char, n: nat): (r: string)
    ensures |r| == n
  {
    if n == 0 then [] else [c] + Repeat(c, n - 1)
  }

  /** n lists nested inside each other, the innermost empty. */
  function Nested(n: nat): Json
    requires n >= 1
  {
    if n == 1 then JList([]) else JList([Nested(n - 1)])
  }

  /** s opens n lists at its front. */
  predicate Opens(s: string, n: nat) {
    n <= |s| && forall i :: 0 <= i < n ==> s[i] == '['
  }

  /** s opens n lists and closes them again right after. */
  predicate OpensCloses(s: string, n: nat) {
    Opens(s, n) && 2 * n <= |s| && forall i :: n <= i < 2 * n ==> s[i] == ']'
  }

  /** n opening brackets at a depth where the n-th would reach the limit fail,
      whatever follows. */
  lemma {:induction false} NestingLimitReached(s: string, n: nat, depth: int)
    requires n >= 1 && depth + n >= MAX_NESTING_DEPTH
    requires Opens(s, n)
    ensures Element(s, depth).Fail?
    decreases n
  {
    if depth + 1 < MAX_NESTING_DEPTH {
      OpensTail(s, n);
      NestingLimitReached(s[1..], n - 1, depth + 1);
      NestedFailStep(s, n, depth);
    } else {
      ElementList(s, depth);
    }
  }

  lemma OpensTail(s: string, n: nat)
    requires n >= 2 && Opens(s, n)
    ensures Opens(s[1..], n - 1) && s[1..][0] == '['
  {
  }

  /** "[" followed by an inner list that fails fails. */
  lemma NestedFailStep(s: string, n: nat, depth: int)
    requires n >= 2 && Opens(s, n) && depth + 1 < MAX_NESTING_DEPTH
    requires Element(s[1..], depth + 1).Fail?
    ensures Element(s, depth).Fail?
  {
    var t := s[1..];
    OpensTail(s, n);
    SkipWsNone(t);
    ListFail(t, depth + 1);
    ElementList(s, depth);
  }

  /** A list whose first element fails fails. */
  lemma ListFail(t: string, depth: int)
    requires SkipWs(t) == t && t != [] && t[0] != ']'
    requires Element(t, depth).Fail?
    ensures List(t, depth).Fail?
  {
    ListStart(t, depth);
    ItemsFail(t, depth, []);
  }

  /** "]" right away: the empty list. */
  lemma ListEmpty(close: string, depth: int)
    requires close != [] && close[0] == ']'
    ensures List(close, depth) == Ok(([], close[1..]))
  {
    SkipWsNone(close);
    ListStart(close, depth);
    ItemsClose(close, depth, []);
  }

  /** One element directly followed by "]": a list of one. */
  lemma ListOfOne(t: string, depth: int, v: Json, close: string)
    requires SkipWs(t) == t && t != [] && t[0] != ']'
    requires Element(t, depth) == Ok((v, close))
    requires close != [] && close[0] == ']'
    ensures List(t, depth) == Ok(([v], close[1..]))
  {
    SkipWsNone(close);
    ListStart(t, depth);
    ItemsNext(t, depth, [], v, close);
    Singleton(v);
    ItemsClose(close, depth, [v]);
  }

  /** Below the limit, n nested lists are read back as Nested(n). */
  lemma {:induction false} NestingBelowLimit(s: string, n: nat, depth: int)
    requires n >= 1 && depth + n < MAX_NESTING_DEPTH
    requires OpensCloses(s, n)
    ensures Element(s, depth) == Ok((Nested(n), s[2 * n..]))
    decreases n
  {
    if n == 1 {
      NestedOne(s, depth);
    } else {
      OpensClosesTail(s, n);
      NestingBelowLimit(s[1..], n - 1, depth + 1);
      NestedStep(s, n, depth);
    }
  }

  /** "[]" is the empty list. */
  lemma NestedOne(s: string, depth: int)
    requires depth + 1 < MAX_NESTING_DEPTH
    requires OpensCloses(s, 1)
    ensures Element(s, depth) == Ok((Nested(1), s[2..]))
  {
    CloseTail(s, 1);
    ElementList(s, depth);
    ListEmpty(s[1..], depth + 1);
  }

  /** "[" + the text of Nested(n - 1) + "]" is Nested(n). */
  lemma NestedStep(s: string, n: nat, depth: int)
    requires n >= 2 && depth + 1 < MAX_NESTING_DEPTH
    requires OpensCloses(s, n)
    requires Element(s[1..], depth + 1) == Ok((Nested(n - 1), s[2 * n - 1..]))
    ensures Element(s, depth) == Ok((Nested(n), s[2 * n..]))
  {
    var t := s[1..];
    CloseTail(s, n);
    OpensClosesTail(s, n);
    SkipWsNone(t);
    ElementList(s, depth);
    ListOfOne(t, depth + 1, Nested(n - 1), s[2 * n - 1..]);
  }

  lemma CloseTail(s: string, n: nat)
    requires n >= 1 && OpensCloses(s, n)
    ensures var close := s[2 * n - 1..];
      close != [] && close[0] == ']' && close[1..] == s[2 * n..] &&
      (n == 1 ==> s[1..] == close)
  {
  }

  lemma OpensClosesTail(s: string, n: nat)
    requires n >= 2 && OpensCloses(s, n)
    ensures var t := s[1..];
      OpensCloses(t, n - 1) && t[0] == '[' && t[2 * (n - 1)..] == s[2 * n - 1..]
  {
  }

  lemma Singleton(x: Json)
    ensures [] + [x] == [x]
  {
  }

  lemma RepeatOpensCloses(n: nat)
    ensures OpensCloses(Repeat('[', n) + Repeat(']', n), n)
  {
    var s := Repeat('[', n) + Repeat(']', n);
    RepeatAt('[', n);
    RepeatAt(']', n);
    assert forall i :: 0 <= i < n ==> s[i] == Repeat('[', n)[i];
    assert forall i :: n <= i < 2 * n ==> s[i] == Repeat(']', n)[i - n];
  }

  lemma {:induction false} RepeatAt(c: char, n: nat)
    ensures forall i :: 0 <= i < n ==> Repeat(c, n)[i] == c
  {
    if n > 0 {
      RepeatAt(c, n - 1);
      assert forall i :: 1 <= i < n ==> Repeat(c, n)[i] == Repeat(c, n - 1)[i - 1];
    }
  }

  /** A document of n nested lists parses exactly when n stays below 1200. */
  lemma NestingLimitExact(n: nat)
    requires n >= 1
    ensures Parse(Repeat('[', n) + Repeat(']', n)).Ok? <==> n < MAX_NESTING_DEPTH
  {
    var s := Repeat('[', n) + Repeat(']', n);
    RepeatOpensCloses(n);
    if n < MAX_NESTING_DEPTH {
      NestingBelowLimit(s, n, 0);
      assert s[2 * n..] == [];
    } else {
      NestingLimitReached(s, n, 0);
    }
  }

  // ---------------------------------------------------------------------------
  // Strings

  /** A string without its closing quote is rejected. */
  lemma {:induction false} UnterminatedRejected(s: string, acc: string)
    requires '"' !in s
    ensures StringBody(s, acc).Fail?
    decreases |s|
  {
    if s != [] && s[0] == '\\' {
      EscapeUnterminated(s[1..], acc);
    } else if s != [] && (s[0] as int) >= 0x20 {
      UnterminatedRejected(s[1..], acc + [s[0]]);
    }
  }

  lemma {:induction false} EscapeUnterminated(s: string, acc: string)
    requires '"' !in s
    ensures EscapeBody(s, acc).Fail?
    decreases |s|
  {
    if s != [] && s[0] == 'u' && |s| >= 5 && IsHexDigit(s[1]) && IsHexDigit(s[2]) && IsHexDigit(s[3]) && IsHexDigit(s[4]) {
      var v := Hex4(s[1..5]);
      if !IsSurrogate(v) {
        UnterminatedRejected(s[5..], acc + [v as char]);
      }
    } else if s != [] && s[0] != 'u' && SimpleEscape(s[0]).Some? {
      UnterminatedRejected(s[1..], acc + [SimpleEscape(s[0]).value]);
    }
  }

  /** An unescaped control character is rejected. */
  lemma RawControlRejected(c: char, rest: string, acc: string)
    requires (c as int) < 0x20
    ensures StringBody([c] + rest, acc).Fail?
  {
  }

  /** Only the escapes of section 7 of RFC 8259 are accepted. */
  lemma UnknownEscapeRejected(e: char, rest: string, acc: string)
    requires e !in "\"\\/bfnrtu"
    ensures StringBody(['\\', e] + rest, acc).Fail?
  {
    var s := ['\\', e] + rest;
    assert s[1..][0] == e;
  }

  /** \/ stands for a solidus. */
  lemma SolidusEscape(rest: string, acc: string)
    ensures StringBody("\\/" + rest, acc) == StringBody(rest, acc + "/")
  {
    var s := "\\/" + rest;
    assert s[1..][0] == '/' && s[1..][1..] == rest;
  }

  /** \u with four hex digits stands for the character with that code; a code
      in the surrogate range is rejected (a Dafny char cannot hold one). */
  lemma UnicodeEscape(h: string, rest: string, acc: string)
    requires |h| == 4 && forall i :: 0 <= i < 4 ==> IsHexDigit(h[i])
    ensures StringBody("\\u" + h + rest, acc) ==
      if IsSurrogate(Hex4(h)) then Fail(FormatException) else StringBody(rest, acc + [Hex4(h) as char])
  {
    var s := "\\u" + h + rest;
    var t := s[1..];
    assert t == "u" + h + rest;
    assert t[1..5] == h;
    assert t[5..] == rest;
  }

  /** \u followed by fewer than four hex digits is rejected. */
  lemma UnicodeEscapeTooShort(t: string, acc: string)
    requires !(|t| >= 4 && forall i :: 0 <= i < 4 ==> IsHexDigit(t[i]))
    ensures StringBody("\\u" + t, acc).Fail?
  {
    var s := "\\u" + t;
    assert s[1..] == "u" + t;
    assert forall i :: 0 <= i < |t| ==> s[1..][i + 1] == t[i];
  }

  /** The characters a JSON string may carry through an escape and back: anything
      but a control character the escaper leaves raw. */
  predicate Escapable(c: char) {
    (c as int) >= 0x20 || NeedsEscape(c)
  }

  /** Each character's escape decodes back to the character. */
  lemma EscapeCharDecodes(c: char, rest: string, acc: string)
    requires Escapable(c)
    ensures StringBody(EscapeChar(c) + rest, acc) == StringBody(rest, acc + [c])
  {
    var s := EscapeChar(c) + rest;
    if NeedsEscape(c) {
      assert s[1..][1..] == rest;
    } else {
      assert s[1..] == rest;
    }
  }

  /** Reading the escaped text of x followed by the closing quote gives x back. */
  lemma {:induction false} StringRoundTrip(x: string, rest: string, acc: string)
    requires forall i :: 0 <= i < |x| ==> Escapable(x[i])
    ensures StringBody(Escape(x) + "\"" + rest, acc) == Ok((acc + x, rest))
    decreases |x|
  {
    var whole := Escape(x) + "\"" + rest;
    if x == [] {
      assert whole == "\"" + rest;
      ClosingQuote(rest, acc);
      assert acc + x == acc;
    } else {
      var tail := Escape(x[1..]) + "\"" + rest;
      calc {
        StringBody(whole, acc);
        { assert whole == EscapeChar(x[0]) + tail; }
        StringBody(EscapeChar(x[0]) + tail, acc);
        { EscapeCharDecodes(x[0], tail, acc); }
        StringBody(tail, acc + [x[0]]);
        { StringRoundTrip(x[1..], rest, acc + [x[0]]); }
        Ok((acc + [x[0]] + x[1..], rest));
        { assert acc + [x[0]] + x[1..] == acc + x; }
        Ok((acc + x, rest));
      }
    }
  }

  lemma ClosingQuote(rest: string, acc: string)
    ensures StringBody("\"" + rest, acc) == Ok((acc, rest))
  {
    assert ("\"" + rest)[1..] == rest;
  }

  /** The quoted form JsonString.toString writes is parsed back to the same string. */
  lemma QuoteRoundTrip(x: string, rest: string, depth: int)
    requires forall i :: 0 <= i < |x| ==> Escapable(x[i])
    ensures Element(Quote(x) + rest, depth) == Ok((JString(x), rest))
    ensures Parse(Quote(x)) == Ok(JString(x))
  {
    QuoteElement(x, rest, depth);
    QuoteElement(x, "", 0);
    assert Quote(x) + "" == Quote(x);
  }

  lemma QuoteElement(x: string, rest: string, depth: int)
    requires forall i :: 0 <= i < |x| ==> Escapable(x[i])
    ensures Element(Quote(x) + rest, depth) == Ok((JString(x), rest))
  {
    var s := Quote(x) + rest;
    assert s[0] == '"';
    SkipWsNone(s);
    assert s[1..] == Escape(x) + "\"" + rest;
    StringRoundTrip(x, rest, "");
    assert "" + x == x;
    ElementString(s, depth);
  }

  lemma ElementString(t: string, depth: int)
    requires t != [] && t[0] == '"'
    ensures Element(t, depth) == StringElement(t[1..])
  {
    SkipWsNone(t);
  }

  // ---------------------------------------------------------------------------
  // Numbers: the grammar of RFC 8259 section 6 as an independent definition

  /** int = [ minus ] ( zero / digit1-9 *DIGIT ) */
  predicate IsIntPart(p: string) {
    p != [] && if p[0] == '-' then IsMagnitude(p[1..]) else IsMagnitude(p)
  }

  /** zero / digit1-9 *DIGIT */
  predicate IsMagnitude(q: string) {
    q != [] && AllDigits(q) && (q[0] == '0' ==> |q| == 1)
  }

  /** frac = "." 1*DIGIT, or nothing */
  predicate IsFracPart(p: string) {
    p == [] || (|p| >= 2 && p[0] == '.' && AllDigits(p[1..]))
  }

  /** exp = e [ minus / plus ] 1*DIGIT, or nothing */
  predicate IsExpPart(p: string) {
    p == [] || (p != [] && (p[0] == 'e' || p[0] == 'E') && IsSignedDigits(p[1..]))
  }

  /** [ minus / plus ] 1*DIGIT */
  predicate IsSignedDigits(q: string) {
    q != [] &&
    if q[0] == '+' || q[0] == '-' then q[1..] != [] && AllDigits(q[1..]) else AllDigits(q)
  }

  predicate IsNumberText(p: string) {
    exists i, j :: 0 <= i <= j <= |p| && IsIntPart(p[..i]) && IsFracPart(p[i..j]) && IsExpPart(p[j..])
  }

  lemma {:induction false} DigitRunOfDigits(d: string, rest: string)
    requires AllDigits(d)
    requires rest == [] || !IsDigit(rest[0])
    ensures DigitRun(d + rest) == |d|
    decreases |d|
  {
    if d == [] {
      assert d + rest == rest;
    } else {
      assert (d + rest)[1..] == d[1..] + rest;
      DigitRunOfDigits(d[1..], rest);
    }
  }

  /** Every number the parser accepts is spelled as section 6 of RFC 8259 says. */
  lemma NumberSound(s: string)
    requires Number(s).Ok?
    ensures IsNumberText(s[..|s| - |Number(s).value.1|])
  {
    var r1 := IntDigits(s).value.1;
    var r2 := FracDigits(r1).value.1;
    var r3 := ExpDigits(r2).value.1;
    NumberRest(s);
    IntDigitsSound(s);
    FracDigitsSound(r1);
    ExpDigitsSound(r2);
    var p1 := s[..|s| - |r1|];
    var p2 := r1[..|r1| - |r2|];
    var p3 := r2[..|r2| - |r3|];
    Chain(s, p1, r1, p2, r2, p3, r3);
    NumberTextOfParts(s, p1, p2, p3, r3);
  }

  lemma Chain(s: string, p1: string, r1: string, p2: string, r2: string, p3: string, r3: string)
    requires s == p1 + r1 && r1 == p2 + r2 && r2 == p3 + r3
    ensures s == p1 + p2 + p3 + r3
  {
  }

  lemma NumberTextOfParts(s: string, p1: string, p2: string, p3: string, r3: string)
    requires IsIntPart(p1) && IsFracPart(p2) && IsExpPart(p3)
    requires s == p1 + p2 + p3 + r3
    ensures IsNumberText(s[..|s| - |r3|])
  {
    var p := p1 + p2 + p3;
    assert (p + r3)[..|p|] == p && p[..|p1|] == p1 && p[|p1|..|p1| + |p2|] == p2 && p[|p1| + |p2|..] == p3;
    NumberTextOf(p, |p1|, |p1| + |p2|);
  }

  lemma NumberRest(s: string)
    ensures Number(s).Ok? ==>
      IntDigits(s).Ok? &&
      FracDigits(IntDigits(s).value.1).Ok? &&
      ExpDigits(FracDigits(IntDigits(s).value.1).value.1).Ok? &&
      Number(s).value.1 == ExpDigits(FracDigits(IntDigits(s).value.1).value.1).value.1
  {
  }

  lemma NumberTextOf(p: string, i: nat, j: nat)
    requires i <= j <= |p|
    requires IsIntPart(p[..i]) && IsFracPart(p[i..j]) && IsExpPart(p[j..])
    ensures IsNumberText(p)
  {
  }

  lemma ExpDigitsMissing(e: char, sign: string, rest: string)
    requires e == 'e' || e == 'E'
    requires sign == "" || sign == "+" || sign == "-"
    requires rest == [] || !IsDigit(rest[0])
    requires sign == "" ==> rest == [] || (rest[0] != '+' && rest[0] != '-')
    ensures ExpDigits([e] + sign + rest).Fail?
  {
    var s := [e] + sign + rest;
    assert s[1..] == sign + rest;
    if sign != "" {
      Behead1(sign[0], rest);
      assert sign + rest == [sign[0]] + rest;
    } else {
      assert sign + rest == rest;
    }
  }

  /** The prefix of s before its suffix r. */
  lemma PrefixOf(s: string, p: string, r: string)
    requires s == p + r
    ensures s[..|s| - |r|] == p
  {
  }

  /** The digit loop reads the whole run of digits, and at least one. */
  lemma DigitsAfterSound(s: string)
    requires DigitsAfter(s).Ok?
    ensures var (d, r) := DigitsAfter(s).value; d != [] && AllDigits(d) && s == d + r
  {
  }

  lemma DigitsAfterOf(d: string, tail: string)
    requires d != [] && AllDigits(d)
    requires tail == [] || !IsDigit(tail[0])
    ensures DigitsAfter(d + tail) == Ok((d, tail))
  {
    DigitRunOfDigits(d, tail);
    assert (d + tail)[..|d|] == d && (d + tail)[|d|..] == tail;
  }

  lemma IntDigitsSound(s: string)
    requires IntDigits(s).Ok?
    ensures var r1 := IntDigits(s).value.1; IsIntPart(s[..|s| - |r1|]) && s == s[..|s| - |r1|] + r1
  {
    if s != [] && s[0] == '-' {
      var (d, r) := IntMagnitude(s[1..]).value;
      Behead('-', d, r);
      PrefixOf(s, ['-'] + d, r);
      assert (['-'] + d)[1..] == d;
    } else {
      var (d, r) := IntMagnitude(s).value;
      PrefixOf(s, d, r);
    }
  }

  lemma FracDigitsSound(s: string)
    requires FracDigits(s).Ok?
    ensures var r := FracDigits(s).value.1; IsFracPart(s[..|s| - |r|]) && s == s[..|s| - |r|] + r
  {
    if s != [] && s[0] == '.' {
      var (d, r) := DigitsAfter(s[1..]).value;
      DigitsAfterSound(s[1..]);
      Behead('.', d, r);
      PrefixOf(s, "." + d, r);
    }
  }

  lemma ExpDigitsSound(s: string)
    requires ExpDigits(s).Ok?
    ensures var r := ExpDigits(s).value.1; IsExpPart(s[..|s| - |r|]) && s == s[..|s| - |r|] + r
  {
    if s != [] && (s[0] == 'e' || s[0] == 'E') {
      var (d, r) := ExpSigned(s[1..]).value;
      ExpSignedSound(s[1..]);
      Behead(s[0], d, r);
      PrefixOf(s, [s[0]] + d, r);
      assert ([s[0]] + d)[1..] == d;
    }
  }

  lemma ExpSignedSound(t: string)
    requires ExpSigned(t).Ok?
    ensures var (d, r) := ExpSigned(t).value; IsSignedDigits(d) && t == d + r
  {
    if t != [] && (t[0] == '-' || t[0] == '+') {
      var (d, r) := DigitsAfter(t[1..]).value;
      DigitsAfterSound(t[1..]);
      Behead(t[0], d, r);
      assert ([t[0]] + d)[1..] == d;
    } else {
      DigitsAfterSound(t);
    }
  }

  lemma IntDigitsOf(ip: string, tail: string)
    requires IsIntPart(ip)
    requires tail == [] || !IsDigit(tail[0])
    ensures IntDigits(ip + tail) == Ok((ip, tail))
  {
    if ip[0] == '-' {
      Behead('-', ip[1..], tail);
      assert ip == ['-'] + ip[1..];
      IntMagnitudeOf(ip[1..], tail);
    } else {
      assert (ip + tail)[0] == ip[0];
      IntMagnitudeOf(ip, tail);
    }
  }

  lemma IntMagnitudeOf(q: string, tail: string)
    requires IsMagnitude(q)
    requires tail == [] || !IsDigit(tail[0])
    ensures IntMagnitude(q + tail) == Ok((q, tail))
  {
    DigitRunOfDigits(q, tail);
    assert (q + tail)[..|q|] == q && (q + tail)[|q|..] == tail;
  }

  lemma FracDigitsOf(fp: string, tail: string)
    requires IsFracPart(fp)
    requires tail == [] || !IsDigit(tail[0])
    requires fp == [] ==> tail == [] || tail[0] != '.'
    ensures FracDigits(fp + tail) == Ok((if fp == [] then [] else fp[1..], tail))
  {
    if fp == [] {
      assert fp + tail == tail;
    } else {
      Behead(fp[0], fp[1..], tail);
      assert fp == [fp[0]] + fp[1..];
      DigitsAfterOf(fp[1..], tail);
    }
  }

  lemma ExpDigitsOf(ep: string, tail: string)
    requires IsExpPart(ep)
    requires tail == [] || !IsDigit(tail[0])
    requires ep == [] ==> tail == [] || (tail[0] != 'e' && tail[0] != 'E')
    ensures ExpDigits(ep + tail) == Ok((if ep == [] then [] else ep[1..], tail))
  {
    if ep == [] {
      assert ep + tail == tail;
    } else {
      Behead(ep[0], ep[1..], tail);
      assert ep == [ep[0]] + ep[1..];
      ExpSignedOf(ep[1..], tail);
    }
  }

  lemma ExpSignedOf(q: string, tail: string)
    requires IsSignedDigits(q)
    requires tail == [] || !IsDigit(tail[0])
    ensures ExpSigned(q + tail) == Ok((q, tail))
  {
    if q[0] == '+' || q[0] == '-' {
      Behead(q[0], q[1..], tail);
      assert q == [q[0]] + q[1..];
      DigitsAfterOf(q[1..], tail);
    } else {
      DigitsAfterOf(q, tail);
    }
  }

  /** Every spelling of section 6 is read in full, up to a character that cannot
      continue it; without fraction and exponent the digits must fit a long. */
  lemma NumberComplete(ip: string, fp: string, ep: string, rest: string)
    requires IsIntPart(ip) && IsFracPart(fp) && IsExpPart(ep)
    requires rest == [] || !IsDigit(rest[0])
    requires fp == [] && ep == [] && rest != [] ==> rest[0] != '.'
    requires ep == [] && rest != [] ==> rest[0] != 'e' && rest[0] != 'E'
    ensures var r := Number(ip + fp + ep + rest);
      (r.Ok? <==> fp != [] || ep != [] || ParseLong(ip).Some?) &&
      (r.Ok? ==> r.value.1 == rest)
  {
    var s := ip + fp + ep + rest;
    var tail := fp + (ep + rest);
    assert s == ip + tail;
    IntDigitsOf(ip, tail);
    FracDigitsOf(fp, ep + rest);
    ExpDigitsOf(ep, rest);
    var fd := if fp == [] then [] else fp[1..];
    var ed := if ep == [] then [] else ep[1..];
    NumberSteps(s, ip, tail, fd, ep + rest, ed, rest);
    assert fd == [] <==> fp == [];
    assert ed == [] <==> ep == [];
  }

  /** readNumber composed from its three steps. */
  lemma NumberSteps(s: string, ip: string, r1: string, fd: string, r2: string, ed: string, r3: string)
    requires IntDigits(s) == Ok((ip, r1))
    requires FracDigits(r1) == Ok((fd, r2))
    requires ExpDigits(r2) == Ok((ed, r3))
    ensures Number(s) == match NumberValue(ip, fd, ed) case Ok(v) => Ok((v, r3)) case Fail(e) => Fail(e)
  {
  }

  /** A redundant leading zero is rejected, with or without a minus sign. */
  lemma LeadingZeroRejected(d: char, rest: string)
    requires IsDigit(d)
    ensures Number(['0', d] + rest).Fail?
    ensures Number(['-', '0', d] + rest).Fail?
  {
    var s := ['0', d] + rest;
    assert DigitRun(s) >= 2 by {
      assert s[1..] == [d] + rest;
    }
    var s' := ['-', '0', d] + rest;
    assert s'[1..] == s;
  }

  /** '.' must be followed by a digit. */
  lemma FractionNeedsDigit(ip: string, rest: string)
    requires IsIntPart(ip)
    requires rest == [] || !IsDigit(rest[0])
    ensures Number(ip + "." + rest).Fail?
  {
    IntDigitsOf(ip, "." + rest);
    assert ip + "." + rest == ip + ("." + rest);
    assert ("." + rest)[1..] == rest;
  }

  /** 'e' or 'E', with or without a sign, must be followed by a digit. */
  lemma ExponentNeedsDigit(ip: string, fp: string, e: char, sign: string, rest: string)
    requires IsIntPart(ip) && IsFracPart(fp)
    requires e == 'e' || e == 'E'
    requires sign == "" || sign == "+" || sign == "-"
    requires rest == [] || !IsDigit(rest[0])
    requires sign == "" ==> rest == [] || (rest[0] != '+' && rest[0] != '-')
    ensures Number(ip + fp + [e] + sign + rest).Fail?
  {
    var tail2 := [e] + sign + rest;
    var s := ip + fp + [e] + sign + rest;
    assert s == ip + (fp + tail2);
    IntDigitsOf(ip, fp + tail2);
    FracDigitsOf(fp, tail2);
    ExpDigitsMissing(e, sign, rest);
    NumberRest(s);
  }

  /** A number without fraction and exponent becomes an Integer inside the int
      range, a Long outside it, and fails beyond the long range. */
  lemma NumberIntOrLong(n: int, rest: string)
    requires rest == [] || (!IsDigit(rest[0]) && rest[0] != '.' && rest[0] != 'e' && rest[0] != 'E')
    ensures Number(IntToString(n) + rest) ==
      if IsInt(n) then Ok((JInt(n), rest))
      else if IsLong(n) then Ok((JLong(n), rest))
      else Fail(FormatException)
  {
    var ip := IntToString(n);
    if n < 0 {
      assert ip[1..] == NatToDigits(-n);
    }
    assert IsIntPart(ip);
    IntDigitsOf(ip, rest);
    FracDigitsOf("", rest);
    ExpDigitsOf("", rest);
    assert "" + rest == rest;
    ParseLongOfToString(n);
  }

  // ---------------------------------------------------------------------------
  // Objects and lists

  /** A member must start with a string key; in particular a ',' directly
      before the '}' (a trailing comma) is rejected. */
  lemma KeyMustBeString(s: string, depth: int, acc: seq<Member>)
    requires SkipWs(s) == [] || SkipWs(s)[0] != '"'
    ensures Members(s, depth, acc, true).Fail?
  {
    MembersFail(s, depth, acc);
  }

  /** The key of a member, read back from its quoted form. */
  lemma KeyRead(key: string, after: string)
    requires forall i :: 0 <= i < |key| ==> Escapable(key[i])
    ensures var t := Quote(key) + after;
      SkipWs(t) == t && t[0] == '"' && StringBody(t[1..], "") == Ok((key, after))
  {
    var t := Quote(key) + after;
    assert t[0] == '"';
    SkipWsNone(t);
    assert t[1..] == Escape(key) + "\"" + after;
    StringRoundTrip(key, after, "");
    assert "" + key == key;
  }

  /** After the key a ':' is required. */
  lemma ColonRequired(key: string, s: string, depth: int, acc: seq<Member>)
    requires forall i :: 0 <= i < |key| ==> Escapable(key[i])
    requires SkipWs(s) == [] || SkipWs(s)[0] != ':'
    ensures Members(Quote(key) + s, depth, acc, true).Fail?
  {
    KeyRead(key, s);
    MemberAtNoColon(Quote(key) + s, depth, key, s);
    MembersFail(Quote(key) + s, depth, acc);
  }

  /** A ',' directly before the ']' is rejected. */
  lemma ListTrailingCommaRejected(s: string, depth: int, acc: seq<Json>)
    requires SkipWs(s) != [] && SkipWs(s)[0] == ']'
    ensures Items(s, depth, acc, true).Fail?
  {
    ElementOther(SkipWs(s), depth);
    ItemsFail(s, depth, acc);
  }

  /** One member, after optional whitespace, followed by more text: the member is
      stored with put and the reading goes on with the accumulated object. */
  lemma MemberStep(ws: string, key: string, v: Json, vtext: string, s: string, depth: int, acc: seq<Member>)
    requires forall i :: 0 <= i < |ws| ==> IsWs(ws[i])
    requires forall i :: 0 <= i < |key| ==> Escapable(key[i])
    requires Element(vtext + s, depth) == Ok((v, s))
    ensures Members(ws + Quote(key) + ":" + vtext + s, depth, acc, true) ==
      var r4 := SkipWs(s);
      if r4 != [] && r4[0] == ',' then Members(r4[1..], depth, Put(acc, key, v), true)
      else Members(r4, depth, Put(acc, key, v), false)
  {
    var after := ":" + vtext + s;
    var t := Quote(key) + after;
    Assoc(ws, Quote(key), ":", vtext, s);
    KeyRead(key, after);
    SkipWsPrefix(ws, t);
    Behead(':', vtext, s);
    SkipWsNone(after);
    MemberAtOf(t, depth, key, after, v, s);
    MembersNext(ws + t, depth, acc, key, v, s);
  }

  /** A later duplicate key wins: when two members with the same key follow
      each other, the object read is the one the second member alone would
      give, and the entry stays where the first one put it. */
  lemma DuplicateKeyLaterWins(s: string, depth: int, acc: seq<Member>, key: string,
                              v1: Json, r1: string, v2: Json, r2: string)
    requires MemberAt(SkipWs(s), depth) == Ok(((key, v1), r1))
    requires SkipWs(r1) != [] && SkipWs(r1)[0] == ','
    requires MemberAt(SkipWs(SkipWs(r1)[1..]), depth) == Ok(((key, v2), r2))
    ensures Members(s, depth, acc, true) ==
      var r4 := SkipWs(r2);
      if r4 != [] && r4[0] == ',' then Members(r4[1..], depth, Put(acc, key, v2), true)
      else Members(r4, depth, Put(acc, key, v2), false)
  {
    MembersNext(s, depth, acc, key, v1, r1);
    MembersNext(SkipWs(r1)[1..], depth, Put(acc, key, v1), key, v2, r2);
    PutPut(acc, key, v1, v2);
  }
}
