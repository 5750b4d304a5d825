/** The language JsonParser accepts, written as functions from the remaining input
    to the element read and the input left over. Each function follows one method
    of the parser; the class in JsonParsing is proved to compute exactly these. */
module JsonGrammar {
  import opened Wrappers
  import opened JavaText
  import opened JsonStrings
  import opened JsonValues

  const MAX_NESTING_DEPTH: int := 1200

  /** An element read from the front of the input, with the input left over. */
  type Parsed<T> = Result<(T, string)>

  /** isWhitespace: tab, line feed, carriage return and space, and nothing else. */
  predicate IsWs(c: char) {
    c == '\t' || c == '\n' || c == '\r' || c == ' '
  }

  /** skipWhitespace: drops the longest whitespace prefix. */
  function SkipWs(s: string): (r: string)
    ensures |r| <= |s| && r == s[|s| - |r|..]
    ensures r == [] || !IsWs(r[0])
    ensures forall i :: 0 <= i < |s| - |r| ==> IsWs(s[i])
  {
    if s != [] && IsWs(s[0]) then SkipWs(s[1..]) else s
  }

  // ---------------------------------------------------------------------------
  // Strings

  predicate IsHexDigit(c: char) {
    '0' <= c <= '9' || 'a' <= c <= 'f' || 'A' <= c <= 'F'
  }

  function HexDigitValue(c: char): (d: nat)
    requires IsHexDigit(c)
    ensures d < 16
  {
    if '0' <= c <= '9' then (c as int) - ('0' as int)
    else if 'a' <= c <= 'f' then (c as int) - ('a' as int) + 10
    else (c as int) - ('A' as int) + 10
  }

  /** Integer.parseInt(h, 16) for four hex digits. */
  function Hex4(h: string): (v: nat)
    requires |h| == 4 && forall i :: 0 <= i < 4 ==> IsHexDigit(h[i])
    ensures v < 0x10000
  {
    ((HexDigitValue(h[0]) * 16 + HexDigitValue(h[1])) * 16 + HexDigitValue(h[2])) * 16 + HexDigitValue(h[3])
  }

  predicate IsSurrogate(v: int) {
    0xD800 <= v <= 0xDFFF
  }

  /** The character a one-letter escape stands for: \", \\, \/, \b, \n, \r, \t
      and \f. */
  function SimpleEscape(e: char): Option<char>
  {
    if e == '"' || e == '\\' || e == '/' then Some(e)
    else if e == 'b' then Some(BACKSPACE)
    else if e == 'n' then Some('\n')
    else if e == 'r' then Some('\r')
    else if e == 't' then Some('\t')
    else if e == 'f' then Some(FORMFEED)
    else None
  }

  /** The loop of readString after the opening quote: acc holds the characters
      decoded so far; the closing quote ends the string and is consumed. */
  function StringBody(s: string, acc: string): (r: Parsed<string>)
    ensures r.Ok? ==> |r.value.1| < |s|
    decreases |s|
  {
    if s == [] then Fail(FormatException)
    else if s[0] == '"' then Ok((acc, s[1..]))
    else if s[0] == '\\' then EscapeBody(s[1..], acc)
    else if (s[0] as int) < 0x20 then Fail(FormatException)
    else StringBody(s[1..], acc + [s[0]])
  }

  /** One escape of readString, after its backslash, and the rest of the string:
      \u takes four hex digits; any other letter must be a simple escape. */
  function EscapeBody(s: string, acc: string): (r: Parsed<string>)
    ensures r.Ok? ==> |r.value.1| < |s|
    decreases |s|
  {
    if s == [] then Fail(FormatException)
    else if s[0] == 'u' then
      if |s| >= 5 && IsHexDigit(s[1]) && IsHexDigit(s[2]) && IsHexDigit(s[3]) && IsHexDigit(s[4]) then
        var v := Hex4(s[1..5]);
        if IsSurrogate(v) then Fail(FormatException) else StringBody(s[5..], acc + [v as char])
      else Fail(FormatException)
    else
      match SimpleEscape(s[0])
      case None => Fail(FormatException)
      case Some(c) => StringBody(s[1..], acc + [c])
  }

  // ---------------------------------------------------------------------------
  // Numbers

  /** The length of the run of decimal digits at the front of s. */
  function DigitRun(s: string): (n: nat)
    ensures n <= |s| && forall i :: 0 <= i < n ==> IsDigit(s[i])
    ensures n == |s| || !IsDigit(s[n])
  {
    if s != [] && IsDigit(s[0]) then 1 + DigitRun(s[1..]) else 0
  }

  /** readIntDigits: an optional '-', then digits without a redundant leading 0. */
  function IntDigits(s: string): (r: Parsed<string>)
    ensures r.Ok? ==> |r.value.1| < |s|
  {
    if s != [] && s[0] == '-' then
      match IntMagnitude(s[1..])
      case Fail(e) => Fail(e)
      case Ok((d, rest)) => Ok((['-'] + d, rest))
    else IntMagnitude(s)
  }

  /** The digits of readIntDigits: a leading 0 must stand alone, and there must
      be at least one digit. */
  function IntMagnitude(t: string): (r: Parsed<string>)
    ensures r.Ok? ==> |r.value.1| < |t|
  {
    var n := DigitRun(t);
    if n > 1 && t[0] == '0' then Fail(FormatException)
    else if n == 0 then Fail(FormatException)
    else Ok((t[..n], t[n..]))
  }

  /** The digit loop of readFracDigits and readExpDigits: at least one digit. */
  function DigitsAfter(s: string): (r: Parsed<string>)
    ensures r.Ok? ==> |r.value.1| < |s|
  {
    var n := DigitRun(s);
    if n == 0 then Fail(FormatException) else Ok((s[..n], s[n..]))
  }

  /** readFracDigits: nothing, or '.' followed by at least one digit. */
  function FracDigits(s: string): (r: Parsed<string>)
    ensures r.Ok? ==> |r.value.1| <= |s|
  {
    if s != [] && s[0] == '.' then DigitsAfter(s[1..]) else Ok(("", s))
  }

  /** readExpDigits: nothing, or 'e'/'E' followed by an optional sign and at
      least one digit. */
  function ExpDigits(s: string): (r: Parsed<string>)
    ensures r.Ok? ==> |r.value.1| <= |s|
  {
    if s != [] && (s[0] == 'e' || s[0] == 'E') then ExpSigned(s[1..]) else Ok(("", s))
  }

  /** What follows the 'e': the sign is kept with the digits. */
  function ExpSigned(t: string): (r: Parsed<string>)
    ensures r.Ok? ==> |r.value.1| < |t|
  {
    if t != [] && (t[0] == '-' || t[0] == '+') then
      match DigitsAfter(t[1..])
      case Fail(e) => Fail(e)
      case Ok((d, rest)) => Ok(([t[0]] + d, rest))
    else DigitsAfter(t)
  }

  /** readNumber: the integer digits, then the optional fraction and exponent. */
  function Number(s: string): (r: Parsed<Json>)
    ensures r.Ok? ==> |r.value.1| < |s|
  {
    var (intText, r1) :- IntDigits(s);
    var (frac, r2) :- FracDigits(r1);
    var (exp, r3) :- ExpDigits(r2);
    var v :- NumberValue(intText, frac, exp);
    Ok((v, r3))
  }

  /** The value readNumber builds from its three digit strings: without fraction
      and exponent the digits must fit a long and become an Integer when they fit
      an int; otherwise a Double. */
  function NumberValue(intText: string, frac: string, exp: string): (r: Result<Json>)
  {
    if frac == [] && exp == [] then
      match ParseLong(intText)
      case None => Fail(FormatException)
      case Some(l) => Ok(if IsInt(l) then JInt(l) else JLong(l))
    else
      Ok(JDouble(intText + "." + frac + (if exp == [] then "" else "E" + exp)))
  }

  // ---------------------------------------------------------------------------
  // Literals

  /** readAndAssert: the input must start with the word. */
  function Literal(s: string, word: string): (r: Option<string>)
    ensures r.Some? ==> |r.value| == |s| - |word| && r.value == s[|word|..]
  {
    if |word| <= |s| && s[..|word|] == word then Some(s[|word|..]) else None
  }

  // ---------------------------------------------------------------------------
  // Elements

  /** readElement at the given nesting depth: skips whitespace, then reads a value. */
  function Element(s: string, depth: int): (r: Parsed<Json>)
    ensures r.Ok? ==> |r.value.1| < |s|
    decreases |s|, 1
  {
    Value(SkipWs(s), depth)
  }

  /** The dispatch of readElement on the next character; '{' and '[' raise the
      depth and fail when it reaches MAX_NESTING_DEPTH. */
  function Value(t: string, depth: int): (r: Parsed<Json>)
    ensures r.Ok? ==> |r.value.1| < |t|
    decreases |t|, 0
  {
    if t == [] then Fail(FormatException)
    else if t[0] == '{' then
      if depth + 1 >= MAX_NESTING_DEPTH then Fail(FormatException)
      else
        match Object(t[1..], depth + 1)
        case Fail(e) => Fail(e)
        case Ok((ms, rest)) => Ok((JObject(ms), rest))
    else if t[0] == '[' then
      if depth + 1 >= MAX_NESTING_DEPTH then Fail(FormatException)
      else
        match List(t[1..], depth + 1)
        case Fail(e) => Fail(e)
        case Ok((xs, rest)) => Ok((JList(xs), rest))
    else if t[0] == 't' then
      match Literal(t, "true")
      case None => Fail(FormatException)
      case Some(rest) => Ok((JBool(true), rest))
    else if t[0] == 'f' then
      match Literal(t, "false")
      case None => Fail(FormatException)
      case Some(rest) => Ok((JBool(false), rest))
    else if t[0] == 'n' then
      match Literal(t, "null")
      case None => Fail(FormatException)
      case Some(rest) => Ok((JNull, rest))
    else if t[0] == '"' then StringElement(t[1..])
    else if IsDigit(t[0]) || t[0] == '-' then
      Number(t)
    else Fail(FormatException)
  }

  /** A string element after its opening quote. */
  function StringElement(s: string): (r: Parsed<Json>)
    ensures r.Ok? ==> |r.value.1| < |s|
  {
    match StringBody(s, "")
    case Fail(e) => Fail(e)
    case Ok((str, rest)) => Ok((JString(str), rest))
  }

  /** readObject after the '{'. */
  function Object(s: string, depth: int): (r: Parsed<seq<Member>>)
    ensures r.Ok? ==> |r.value.1| < |s|
    decreases |s|, 3
  {
    var t := SkipWs(s);
    Members(t, depth, [], t == [] || t[0] != '}')
  }

  /** One member of readObject, from its opening quote on: the key, a ':' and
      an element. */
  function MemberAt(t: string, depth: int): (r: Parsed<(string, Json)>)
    ensures r.Ok? ==> |r.value.1| < |t|
    decreases |t|, 0
  {
    if t == [] || t[0] != '"' then Fail(FormatException)
    else
      match StringBody(t[1..], "")
      case Fail(e) => Fail(e)
      case Ok((key, r1)) =>
        var r2 := SkipWs(r1);
        if r2 == [] || r2[0] != ':' then Fail(FormatException)
        else
          match Element(r2[1..], depth)
          case Fail(e) => Fail(e)
          case Ok((v, r3)) => Ok(((key, v), r3))
  }

  /** The loop of readObject: while another member is expected, read one and
      store it with put (so a later duplicate key wins); a ',' announces another
      member. Then the '}' must follow. */
  function Members(s: string, depth: int, acc: seq<Member>, expecting: bool): (r: Parsed<seq<Member>>)
    ensures r.Ok? ==> |r.value.1| < |s|
    decreases |s|, 2
  {
    var t := SkipWs(s);
    if !expecting then
      if t != [] && t[0] == '}' then Ok((acc, t[1..])) else Fail(FormatException)
    else
      match MemberAt(t, depth)
      case Fail(e) => Fail(e)
      case Ok(((key, v), r3)) =>
        var r4 := SkipWs(r3);
        if r4 != [] && r4[0] == ',' then Members(r4[1..], depth, Put(acc, key, v), true)
        else Members(r4, depth, Put(acc, key, v), false)
  }

  /** readList after the '['. */
  function List(s: string, depth: int): (r: Parsed<seq<Json>>)
    ensures r.Ok? ==> |r.value.1| < |s|
    decreases |s|, 3
  {
    var t := SkipWs(s);
    Items(t, depth, [], t == [] || t[0] != ']')
  }

  /** The loop of readList: while another element is expected, read one; a ','
      announces another. Then the ']' must follow. */
  function Items(s: string, depth: int, acc: seq<Json>, expecting: bool): (r: Parsed<seq<Json>>)
    ensures r.Ok? ==> |r.value.1| < |s|
    decreases |s|, 2
  {
    var t := SkipWs(s);
    if !expecting then
      if t != [] && t[0] == ']' then Ok((acc, t[1..])) else Fail(FormatException)
    else
      match Element(t, depth)
      case Fail(e) => Fail(e)
      case Ok((v, r3)) =>
        var r4 := SkipWs(r3);
        if r4 != [] && r4[0] == ',' then Items(r4[1..], depth, acc + [v], true)
        else Items(r4, depth, acc + [v], false)
  }

  /** parse: one element, then only whitespace up to the end of the input. */
  function ParseAt(s: string, depth: int): (r: Result<Json>)
  {
    match Element(s, depth)
    case Fail(e) => Fail(e)
    case Ok((v, rest)) => if SkipWs(rest) == [] then Ok(v) else Fail(FormatException)
  }

  /** parse on a fresh parser. */
  function Parse(s: string): Result<Json>
  {
    ParseAt(s, 0)
  }
}
