/** JsonParser: the reader-driven parser, with its one-character peek buffer and
    its nesting-depth counter. Every read method is proved to consume exactly the
    input the matching JsonGrammar function reads and to return what that
    function returns. */
module JsonParsing {
  import opened Wrappers
  import opened JavaText
  import opened JsonStrings
  import opened JsonValues
  import opened JsonGrammar
  import opened JsonGrammarProps

  /** Reader.read() on the remaining input: the next character, or -1 at the end. */
  function CharCode(s: string): int
  {
    if s == [] then -1 else s[0] as int
  }

  /** The input after one Reader.read(): at the end nothing more is consumed. */
  function Advance(s: string): string
  {
    if s == [] then [] else s[1..]
  }

  /** A read method agrees with a grammar function: it returns the element the
      function reads and leaves exactly the function's rest of the input unread,
      or it fails with the function's exception. */
  predicate Agrees<T(==)>(r: Result<T>, p: Parsed<T>, rest: string)
  {
    match p
    case Ok((v, left)) => r == Ok(v) && rest == left
    case Fail(e) => r == Fail(e)
  }

  /** isWhitespace on the int a Reader returns. */
  predicate IsWsCode(c: int)
  {
    c == '\t' as int || c == '\n' as int || c == '\r' as int || c == ' ' as int
  }

  /** isDigit on the int a Reader returns. */
  predicate IsDigitCode(c: int)
  {
    '0' as int <= c <= '9' as int
  }

  /** isHexDigit on the int a Reader returns. */
  predicate IsHexCode(c: int)
  {
    ('0' as int <= c <= '9' as int) || ('a' as int <= c <= 'f' as int) || ('A' as int <= c <= 'F' as int)
  }

  lemma WsCode(s: string)
    ensures IsWsCode(CharCode(s)) <==> s != [] && IsWs(s[0])
  {
  }

  lemma SkipWsStep(s: string)
    requires s != [] && IsWs(s[0])
    ensures SkipWs(s) == SkipWs(Advance(s))
  {
  }

  /** The digit run ends exactly where the digits stop. */
  lemma DigitRunExact(s: string, k: nat)
    requires k <= |s| && forall i :: 0 <= i < k ==> IsDigit(s[i])
    requires k == |s| || !IsDigit(s[k])
    ensures DigitRun(s) == k
  {
  }

  class JsonParser {
    /** The characters the underlying reader delivers. */
    const input: string
    /** How many characters have been consumed by read(). */
    var pos: nat
    /** The peek buffer: the next character once peek() has fetched it. */
    var peek: Option<int>
    var currentNestingDepth: int

    ghost predicate Valid()
      reads this
    {
      pos <= |input| && (peek.Some? ==> peek.value == CharCode(input[pos..]))
    }

    /** The input not yet consumed. */
    function Rest(): string
      reads this
      requires pos <= |input|
    {
      input[pos..]
    }

    constructor(text: string)
      ensures Valid() && input == text && Rest() == text
      ensures peek == None && currentNestingDepth == 0
    {
      input := text;
      pos := 0;
      peek := None;
      currentNestingDepth := 0;
    }

    /** peek(): the next character, fetched from the reader at most once. */
    method Peek() returns (c: int)
      requires Valid()
      modifies this
      ensures Valid() && c == CharCode(Rest())
      ensures pos == old(pos) && currentNestingDepth == old(currentNestingDepth)
      ensures peek == Some(c)
    {
      if peek.None? {
        peek := Some(CharCode(input[pos..]));
      }
      c := peek.value;
    }

    /** read(): the buffered character if there is one, else the reader's next. */
    method Read() returns (c: int)
      requires Valid()
      modifies this
      ensures Valid() && c == CharCode(old(Rest())) && Rest() == Advance(old(Rest()))
      ensures currentNestingDepth == old(currentNestingDepth) && peek == None
    {
      if peek.Some? {
        c := peek.value;
        peek := None;
      } else {
        c := CharCode(input[pos..]);
      }
      if pos < |input| {
        assert input[pos + 1..] == input[pos..][1..];
        pos := pos + 1;
      }
    }

    /** skipWhitespace: afterwards the next character is no JSON whitespace. */
    method SkipWhitespace()
      requires Valid()
      modifies this
      ensures Valid() && Rest() == SkipWs(old(Rest()))
      ensures currentNestingDepth == old(currentNestingDepth)
    {
      var c := Peek();
      while IsWsCode(c)
        invariant Valid() && SkipWs(Rest()) == SkipWs(old(Rest()))
        invariant c == CharCode(Rest())
        invariant currentNestingDepth == old(currentNestingDepth)
        decreases |Rest()|
      {
        WsCode(Rest());
        SkipWsStep(Rest());
        c := Read();
        c := Peek();
      }
      WsCode(Rest());
      SkipWsNone(Rest());
    }

    /** readAndAssert: the next characters must be exactly the expected word. */
    method ReadAndAssert(expected: string) returns (ok: bool)
      requires Valid()
      modifies this
      ensures Valid() && currentNestingDepth == old(currentNestingDepth)
      ensures ok <==> Literal(old(Rest()), expected).Some?
      ensures ok ==> Rest() == Literal(old(Rest()), expected).value
    {
      ghost var s := Rest();
      var i := 0;
      while i < |expected|
        invariant 0 <= i <= |expected| && i <= |s|
        invariant Valid() && Rest() == s[i..] && s[..i] == expected[..i]
        invariant currentNestingDepth == old(currentNestingDepth)
      {
        var c := Read();
        if c != expected[i] as int {
          assert Literal(s, expected).None? by {
            if |expected| <= |s| {
              assert s[..|expected|][i] == s[i] != expected[i];
            }
          }
          return false;
        }
        assert s[..i + 1] == s[..i] + [s[i]];
        assert expected[..i + 1] == expected[..i] + [expected[i]];
        i := i + 1;
      }
      assert s[..|expected|] == expected;
      ok := true;
    }

    /** readString, after the check that the next character is '"': decodes up
        to the closing quote and consumes it. */
    method ReadString() returns (r: Result<string>)
      requires Valid() && CharCode(Rest()) == '"' as int
      modifies this
      ensures Valid() && currentNestingDepth == old(currentNestingDepth)
      ensures Agrees(r, StringBody(old(Rest())[1..], ""), Rest())
    {
      var c := Read();
      ghost var target := StringBody(Rest(), "");
      var result := "";
      c := Peek();
      while c != '"' as int && c != -1
        invariant Valid() && currentNestingDepth == old(currentNestingDepth)
        invariant c == CharCode(Rest())
        invariant StringBody(Rest(), result) == target
        decreases |Rest()|
      {
        ghost var s := Rest();
        var rd := Read();
        var unescaped: char;
        if rd == '\\' as int {
          var e := ReadEscape(result);
          if e.Fail? {
            return Fail(FormatException);
          }
          unescaped := e.value;
        } else {
          if rd < 0x20 {
            return Fail(FormatException);
          }
          unescaped := rd as char;
        }
        result := result + [unescaped];
        c := Peek();
      }
      var rd := Read();
      if rd != '"' as int {
        return Fail(FormatException);
      }
      r := Ok(result);
    }

    /** The escape branch of readString, after the backslash: the character the
        escape stands for, after which the string goes on as StringBody says. */
    method ReadEscape(ghost acc: string) returns (r: Result<char>)
      requires Valid()
      modifies this
      ensures Valid() && currentNestingDepth == old(currentNestingDepth)
      ensures r.Fail? ==> EscapeBody(old(Rest()), acc) == Fail(FormatException)
      ensures r.Ok? ==> EscapeBody(old(Rest()), acc) == StringBody(Rest(), acc + [r.value])
      ensures r.Ok? ==> |Rest()| < |old(Rest())|
    {
      ghost var e := Rest();
      var rd := Read();
      if rd == 'u' as int {
        var hex := ReadHex4();
        if hex.Fail? {
          return Fail(FormatException);
        }
        assert e[1..5] == hex.value && e[5..] == Rest();
        var v := Hex4(hex.value);
        if IsSurrogate(v) {
          return Fail(FormatException);
        }
        r := Ok(v as char);
      } else if rd == -1 {
        r := Fail(FormatException);
      } else {
        var c := rd as char;
        if c == '"' || c == '\\' || c == '/' {
          r := Ok(c);
        } else if c == 'b' {
          r := Ok(BACKSPACE);
        } else if c == 'n' {
          r := Ok('\n');
        } else if c == 'r' {
          r := Ok('\r');
        } else if c == 't' {
          r := Ok('\t');
        } else if c == 'f' {
          r := Ok(FORMFEED);
        } else {
          r := Fail(FormatException);
        }
        assert r == (match SimpleEscape(e[0]) case None => Fail(FormatException) case Some(x) => Ok(x));
      }
    }

    /** The four hex digits of a \\u escape, read one by one. */
    method ReadHex4() returns (r: Result<string>)
      requires Valid()
      modifies this
      ensures Valid() && currentNestingDepth == old(currentNestingDepth)
      ensures var s := old(Rest());
        r.Ok? <==> |s| >= 4 && IsHexDigit(s[0]) && IsHexDigit(s[1]) && IsHexDigit(s[2]) && IsHexDigit(s[3])
      ensures r.Ok? ==> r.value == old(Rest())[..4] && Rest() == old(Rest())[4..]
    {
      ghost var s := Rest();
      var hex := "";
      var i := 0;
      while i < 4
        invariant 0 <= i <= 4 && i <= |s|
        invariant Valid() && currentNestingDepth == old(currentNestingDepth)
        invariant Rest() == s[i..] && hex == s[..i]
        invariant forall k :: 0 <= k < i ==> IsHexDigit(s[k])
      {
        var hexChar := Read();
        if !IsHexCode(hexChar) {
          assert i == |s| || !IsHexDigit(s[i]);
          return Fail(FormatException);
        }
        hex := hex + [hexChar as char];
        i := i + 1;
      }
      r := Ok(hex);
    }

    /** The while (isDigit(peek())) loop shared by the three digit readers. */
    method ReadDigitRun() returns (d: string)
      requires Valid()
      modifies this
      ensures Valid() && currentNestingDepth == old(currentNestingDepth)
      ensures d == old(Rest())[..DigitRun(old(Rest()))] && Rest() == old(Rest())[DigitRun(old(Rest()))..]
    {
      ghost var s := Rest();
      d := "";
      var c := Peek();
      while IsDigitCode(c)
        invariant Valid() && currentNestingDepth == old(currentNestingDepth)
        invariant |d| <= |s| && Rest() == s[|d|..] && d == s[..|d|] && c == CharCode(Rest())
        invariant forall k :: 0 <= k < |d| ==> IsDigit(s[k])
        decreases |Rest()|
      {
        var rd := Read();
        d := d + [rd as char];
        c := Peek();
      }
      DigitRunExact(s, |d|);
    }

    /** readIntDigits: an optional '-', the digits, no redundant leading 0. */
    method ReadIntDigits() returns (r: Result<string>)
      requires Valid()
      modifies this
      ensures Valid() && currentNestingDepth == old(currentNestingDepth)
      ensures Agrees(r, IntDigits(old(Rest())), Rest())
    {
      ghost var s := Rest();
      var intDigits := "";
      var firstDigitIndex := 0;
      var c := Peek();
      if c == '-' as int {
        c := Read();
        intDigits := "-";
        firstDigitIndex := 1;
      }
      ghost var t := Rest();
      assert IntDigits(s) == if firstDigitIndex == 1 then
        (match IntMagnitude(t) case Fail(e) => Fail(e) case Ok((m, rest)) => Ok((['-'] + m, rest)))
        else IntMagnitude(t);
      var d := ReadDigitRun();
      ghost var n := DigitRun(t);
      intDigits := intDigits + d;
      assert |intDigits| == firstDigitIndex + |d| && (d != [] ==> intDigits[firstDigitIndex] == d[0] == t[0]);
      if |intDigits| > firstDigitIndex + 1 && intDigits[firstDigitIndex] == '0' {
        assert n > 1 && t[0] == '0';
        return Fail(FormatException);
      }
      if |intDigits| == firstDigitIndex {
        return Fail(FormatException);
      }
      r := Ok(intDigits);
      assert IntMagnitude(t) == Ok((d, Rest()));
      assert intDigits == if firstDigitIndex == 1 then ['-'] + d else d;
    }

    /** readFracDigits: nothing, or '.' and at least one digit. */
    method ReadFracDigits() returns (r: Result<string>)
      requires Valid()
      modifies this
      ensures Valid() && currentNestingDepth == old(currentNestingDepth)
      ensures Agrees(r, FracDigits(old(Rest())), Rest())
    {
      var c := Peek();
      if c == '.' as int {
        c := Read();
        r := ReadRequiredDigits();
      } else {
        r := Ok("");
      }
    }

    /** The digit loop of readFracDigits and readExpDigits with its foundOne
        check. */
    method ReadRequiredDigits() returns (r: Result<string>)
      requires Valid()
      modifies this
      ensures Valid() && currentNestingDepth == old(currentNestingDepth)
      ensures Agrees(r, DigitsAfter(old(Rest())), Rest())
    {
      var d := ReadDigitRun();
      if d == [] {
        return Fail(FormatException);
      }
      r := Ok(d);
    }

    /** readExpDigits: nothing, or 'e'/'E', an optional sign and at least one
        digit; the sign is kept. */
    method ReadExpDigits() returns (r: Result<string>)
      requires Valid()
      modifies this
      ensures Valid() && currentNestingDepth == old(currentNestingDepth)
      ensures Agrees(r, ExpDigits(old(Rest())), Rest())
    {
      var c := Peek();
      if c == 'e' as int || c == 'E' as int {
        c := Read();
        ghost var t := Rest();
        var sign := "";
        c := Peek();
        if c == '-' as int || c == '+' as int {
          c := Read();
          sign := [c as char];
          assert sign == [t[0]] && Rest() == t[1..];
        }
        assert ExpSigned(t) == if sign != [] then
          (match DigitsAfter(t[1..]) case Fail(e) => Fail(e) case Ok((m, rest)) => Ok(([t[0]] + m, rest)))
          else DigitsAfter(t);
        var d := ReadRequiredDigits();
        if d.Fail? {
          return Fail(FormatException);
        }
        r := Ok(sign + d.value);
        assert sign + d.value == if sign != [] then [t[0]] + d.value else d.value;
      } else {
        r := Ok("");
      }
    }

    /** readNumber: the three digit strings, then the value NumberValue builds. */
    method ReadNumber() returns (r: Result<Json>)
      requires Valid()
      modifies this
      ensures Valid() && currentNestingDepth == old(currentNestingDepth)
      ensures Agrees(r, Number(old(Rest())), Rest())
    {
      ghost var s := Rest();
      NumberRest(s);
      var intDigits := ReadIntDigits();
      if intDigits.Fail? {
        return Fail(FormatException);
      }
      ghost var r1 := Rest();
      var fracDigits := ReadFracDigits();
      if fracDigits.Fail? {
        return Fail(FormatException);
      }
      ghost var r2 := Rest();
      var exponentDigits := ReadExpDigits();
      if exponentDigits.Fail? {
        return Fail(FormatException);
      }
      NumberSteps(s, intDigits.value, r1, fracDigits.value, r2, exponentDigits.value, Rest());
      r := NumberValue(intDigits.value, fracDigits.value, exponentDigits.value);
    }

    /** readBoolean: "true" after a 't', otherwise "false". */
    method ReadBoolean() returns (r: Result<Json>)
      requires Valid() && (CharCode(Rest()) == 't' as int || CharCode(Rest()) == 'f' as int)
      modifies this
      ensures Valid() && currentNestingDepth == old(currentNestingDepth)
      ensures var word := if old(Rest())[0] == 't' then "true" else "false";
        match Literal(old(Rest()), word)
        case None => r == Fail(FormatException)
        case Some(rest) => r == Ok(JBool(old(Rest())[0] == 't')) && Rest() == rest
    {
      var c := Peek();
      var ok: bool;
      if c == 't' as int {
        ok := ReadAndAssert("true");
        r := Ok(JBool(true));
      } else {
        ok := ReadAndAssert("false");
        r := Ok(JBool(false));
      }
      if !ok {
        r := Fail(FormatException);
      }
    }

    /** readNull: the word "null". */
    method ReadNull() returns (r: Result<Json>)
      requires Valid()
      modifies this
      ensures Valid() && currentNestingDepth == old(currentNestingDepth)
      ensures match Literal(old(Rest()), "null")
        case None => r == Fail(FormatException)
        case Some(rest) => r == Ok(JNull) && Rest() == rest
    {
      var ok := ReadAndAssert("null");
      if ok {
        r := Ok(JNull);
      } else {
        r := Fail(FormatException);
      }
    }

    /** readElement: skips whitespace, then reads the value that starts there. */
    method ReadElement() returns (r: Result<Json>)
      requires Valid()
      modifies this
      ensures Valid() && (r.Ok? ==> currentNestingDepth == old(currentNestingDepth))
      ensures Agrees(r, Element(old(Rest()), old(currentNestingDepth)), Rest())
      ensures r.Ok? ==> |Rest()| < |old(Rest())|
      decreases |Rest()|, 3
    {
      SkipWhitespace();
      r := ReadValue();
    }

    /** The switch of readElement on the next character. */
    method ReadValue() returns (r: Result<Json>)
      requires Valid()
      modifies this
      ensures Valid() && (r.Ok? ==> currentNestingDepth == old(currentNestingDepth))
      ensures Agrees(r, Value(old(Rest()), old(currentNestingDepth)), Rest())
      decreases |Rest()|, 2
    {
      ghost var t := Rest();
      var c := Peek();
      if c == '{' as int {
        r := ReadNestedObject();
      } else if c == '[' as int {
        r := ReadNestedList();
      } else if c == 't' as int || c == 'f' as int {
        r := ReadBoolean();
      } else if c == 'n' as int {
        r := ReadNull();
      } else if c == '"' as int {
        var str := ReadString();
        if str.Fail? {
          return Fail(str.exc);
        }
        r := Ok(JString(str.value));
      } else if IsDigitCode(c) || c == '-' as int {
        r := ReadNumber();
      } else {
        r := Fail(FormatException);
      }
    }

    /** The '{' case of readElement: one level deeper, readObject, one level
        back. */
    method ReadNestedObject() returns (r: Result<Json>)
      requires Valid() && CharCode(Rest()) == '{' as int
      modifies this
      ensures Valid() && (r.Ok? ==> currentNestingDepth == old(currentNestingDepth))
      ensures Agrees(r, Value(old(Rest()), old(currentNestingDepth)), Rest())
      decreases |Rest()|, 1
    {
      ghost var t := Rest();
      ghost var d := currentNestingDepth;
      currentNestingDepth := currentNestingDepth + 1;
      if currentNestingDepth >= MAX_NESTING_DEPTH {
        return Fail(FormatException);
      }
      var o := ReadObject();
      if o.Fail? {
        return Fail(o.exc);
      }
      currentNestingDepth := currentNestingDepth - 1;
      r := Ok(JObject(o.value));
    }

    /** The '[' case of readElement: one level deeper, readList, one level
        back. */
    method ReadNestedList() returns (r: Result<Json>)
      requires Valid() && CharCode(Rest()) == '[' as int
      modifies this
      ensures Valid() && (r.Ok? ==> currentNestingDepth == old(currentNestingDepth))
      ensures Agrees(r, Value(old(Rest()), old(currentNestingDepth)), Rest())
      decreases |Rest()|, 1
    {
      ghost var t := Rest();
      ghost var d := currentNestingDepth;
      currentNestingDepth := currentNestingDepth + 1;
      if currentNestingDepth >= MAX_NESTING_DEPTH {
        return Fail(FormatException);
      }
      var l := ReadList();
      if l.Fail? {
        return Fail(l.exc);
      }
      currentNestingDepth := currentNestingDepth - 1;
      r := Ok(JList(l.value));
    }

    /** The end of a readList or readObject loop: after whitespace, the
        closing character must follow. */
    method ReadClosing(close: char) returns (ok: bool)
      requires Valid()
      modifies this
      ensures Valid() && currentNestingDepth == old(currentNestingDepth)
      ensures var t := SkipWs(old(Rest()));
        (ok <==> t != [] && t[0] == close) && (ok ==> Rest() == t[1..])
    {
      SkipWhitespace();
      var rd := Read();
      ok := rd == close as int;
    }

    /** The tail of a readList or readObject iteration: after whitespace, a
        ',' is consumed and announces another entry. */
    method ReadSeparator() returns (more: bool)
      requires Valid()
      modifies this
      ensures Valid() && currentNestingDepth == old(currentNestingDepth)
      ensures var t := SkipWs(old(Rest()));
        (more <==> t != [] && t[0] == ',') && Rest() == (if more then t[1..] else t)
      ensures |Rest()| <= |old(Rest())|
    {
      SkipWhitespace();
      var c := Peek();
      more := c == ',' as int;
      if more {
        c := Read();
      }
    }

    /** readList, after the check that the next character is '[': elements
        separated by ',' up to the closing ']'. */
    method ReadList() returns (r: Result<seq<Json>>)
      requires Valid() && CharCode(Rest()) == '[' as int
      modifies this
      ensures Valid() && (r.Ok? ==> currentNestingDepth == old(currentNestingDepth))
      ensures Agrees(r, List(old(Rest())[1..], old(currentNestingDepth)), Rest())
      decreases |Rest()|, 0
    {
      var c := Read();
      ghost var d := currentNestingDepth;
      ghost var target := List(Rest(), d);
      ListStart(Rest(), d);
      var result: seq<Json> := [];
      SkipWhitespace();
      c := Peek();
      var expectingNext := c != ']' as int;
      while expectingNext
        invariant Valid() && currentNestingDepth == d
        invariant Items(Rest(), d, result, expectingNext) == target
        decreases |Rest()|
      {
        ghost var s := Rest();
        SkipWhitespace();
        var value := ReadElement();
        if value.Fail? {
          ItemsFail(s, d, result);
          return Fail(value.exc);
        }
        ItemsNext(s, d, result, value.value, Rest());
        result := result + [value.value];
        expectingNext := ReadSeparator();
      }
      ItemsClose(Rest(), d, result);
      var ok := ReadClosing(']');
      if !ok {
        return Fail(FormatException);
      }
      r := Ok(result);
    }

    /** One member of readObject: the key string, whitespace, the ':' and the
        value element. */
    method ReadMember() returns (r: Result<(string, Json)>)
      requires Valid()
      modifies this
      ensures Valid() && (r.Ok? ==> currentNestingDepth == old(currentNestingDepth))
      ensures Agrees(r, MemberAt(old(Rest()), old(currentNestingDepth)), Rest())
      ensures r.Ok? ==> |Rest()| < |old(Rest())|
      decreases |Rest()|, 1
    {
      ghost var t := Rest();
      ghost var d := currentNestingDepth;
      var c := Peek();
      if c != '"' as int {
        MemberAtNoKey(t, d);
        return Fail(FormatException);
      }
      var key := ReadString();
      if key.Fail? {
        MemberAtKeyFail(t, d);
        return Fail(key.exc);
      }
      ghost var r1 := Rest();
      SkipWhitespace();
      var separator := Read();
      if separator != ':' as int {
        MemberAtNoColon(t, d, key.value, r1);
        return Fail(FormatException);
      }
      var value := ReadElement();
      if value.Fail? {
        MemberAtValueFail(t, d, key.value, r1);
        return Fail(value.exc);
      }
      MemberAtOf(t, d, key.value, r1, value.value, Rest());
      r := Ok((key.value, value.value));
    }

    /** readObject, after the check that the next character is '{': members
        separated by ',' up to the closing '}'; each member is stored with
        putElement, so a repeated key keeps its last value. */
    method ReadObject() returns (r: Result<seq<Member>>)
      requires Valid() && CharCode(Rest()) == '{' as int
      modifies this
      ensures Valid() && (r.Ok? ==> currentNestingDepth == old(currentNestingDepth))
      ensures Agrees(r, Object(old(Rest())[1..], old(currentNestingDepth)), Rest())
      decreases |Rest()|, 0
    {
      var c := Read();
      ghost var d := currentNestingDepth;
      ghost var target := Object(Rest(), d);
      ObjectStart(Rest(), d);
      var result: seq<Member> := [];
      SkipWhitespace();
      c := Peek();
      var expectingNext := c != '}' as int;
      while expectingNext
        invariant Valid() && currentNestingDepth == d
        invariant Members(Rest(), d, result, expectingNext) == target
        decreases |Rest()|
      {
        ghost var s := Rest();
        SkipWhitespace();
        var member := ReadMember();
        if member.Fail? {
          MembersFail(s, d, result);
          return Fail(member.exc);
        }
        MembersNext(s, d, result, member.value.0, member.value.1, Rest());
        result := Put(result, member.value.0, member.value.1);
        expectingNext := ReadSeparator();
      }
      MembersClose(Rest(), d, result);
      var ok := ReadClosing('}');
      if !ok {
        return Fail(FormatException);
      }
      r := Ok(result);
    }

    /** parse: one element, then nothing but whitespace up to the end. */
    method Parse() returns (r: Result<Json>)
      requires Valid() && pos == 0 && currentNestingDepth == 0
      modifies this
      ensures r == JsonGrammar.Parse(input)
    {
      var result := ReadElement();
      if result.Fail? {
        return Fail(result.exc);
      }
      SkipWhitespace();
      var c := Peek();
      if c != -1 {
        return Fail(FormatException);
      }
      r := result;
    }
  }
}
