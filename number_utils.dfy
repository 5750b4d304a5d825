/** NumberUtils: recognising integer text in a radix and converting literal text
    into a Long or a Double. */
module NumberUtils {
  import opened Wrappers
  import opened JavaText

  // ---------------------------------------------------------------------------
  // Character.digit and digit strings in a radix

  /** Character.digit(c, radix) on ASCII: the value of c as a digit in radix, or -1. */
  function CharDigit(c: char, radix: nat): (d: int)
    requires 2 <= radix <= 36
    ensures -1 <= d < radix
    ensures radix == 10 ==> (d >= 0 <==> IsDigit(c))
    ensures IsDigit(c) && radix == 10 ==> d == DigitValue(c)
  {
    var v := if '0' <= c <= '9' then c as int - '0' as int
             else if 'a' <= c <= 'z' then c as int - 'a' as int + 10
             else if 'A' <= c <= 'Z' then c as int - 'A' as int + 10
             else -1;
    if 0 <= v < radix then v else -1
  }

  predicate AllRadixDigits(s: string, radix: nat)
    requires 2 <= radix <= 36
  {
    forall k :: 0 <= k < |s| ==> CharDigit(s[k], radix) >= 0
  }

  /** The value of a digit string in radix, most significant digit first. */
  function RadixValue(s: string, radix: nat): nat
    requires 2 <= radix <= 36 && AllRadixDigits(s, radix)
    decreases |s|
  {
    if s == [] then 0 else radix * RadixValue(s[..|s| - 1], radix) + CharDigit(s[|s| - 1], radix)
  }

  lemma DivLess(n: nat, radix: nat)
    requires 2 <= radix <= n
    ensures n / radix < n && n % radix < radix
  {
    DivMod(n, radix);
  }

  /** The lower-case digit of value d (what Long.toString(n, radix) prints). */
  function RadixChar(d: nat, radix: nat): (c: char)
    requires 2 <= radix <= 36 && d < radix
    ensures CharDigit(c, radix) == d
    ensures !('A' <= c <= 'Z')
  {
    if d < 10 then ('0' as int + d) as char else ('a' as int + d - 10) as char
  }

  /** Long.toString(n, radix) for n >= 0: the shortest digit string of n. */
  function NatToRadix(n: nat, radix: nat): (s: string)
    requires 2 <= radix <= 36
    ensures |s| >= 1 && AllRadixDigits(s, radix)
    decreases n
  {
    if n < radix then [RadixChar(n, radix)]
    else
      DivLess(n, radix);
      NatToRadix(n / radix, radix) + [RadixChar(n % radix, radix)]
  }

  predicate NoCapitals(s: string) {
    forall k :: 0 <= k < |s| ==> !('A' <= s[k] <= 'Z')
  }

  lemma NoCapitalsAppend(s: string, c: char)
    requires NoCapitals(s) && !('A' <= c <= 'Z')
    ensures NoCapitals(s + [c])
  {
  }

  lemma RadixLowerCaseStep(n: nat, radix: nat)
    requires 2 <= radix <= 36 && n >= radix
    requires NoCapitals(NatToRadix(n / radix, radix))
    ensures NoCapitals(NatToRadix(n, radix))
  {
    NoCapitalsAppend(NatToRadix(n / radix, radix), RadixChar(n % radix, radix));
  }

  /** Long.toString prints no capital letters. */
  lemma {:induction false} RadixLowerCase(n: nat, radix: nat)
    requires 2 <= radix <= 36
    ensures NoCapitals(NatToRadix(n, radix))
    decreases n
  {
    if n >= radix {
      DivLess(n, radix);
      RadixLowerCase(n / radix, radix);
      RadixLowerCaseStep(n, radix);
    }
  }

  lemma DivMod(n: nat, radix: nat)
    requires radix > 0
    ensures n == radix * (n / radix) + n % radix
  {
  }

  lemma RadixAppend(s: string, d: nat, radix: nat)
    requires 2 <= radix <= 36 && d < radix && AllRadixDigits(s, radix)
    ensures AllRadixDigits(s + [RadixChar(d, radix)], radix)
    ensures RadixValue(s + [RadixChar(d, radix)], radix) == radix * RadixValue(s, radix) + d
  {
    var t := s + [RadixChar(d, radix)];
    assert t[..|t| - 1] == s;
  }

  lemma {:induction false} RadixRoundTrip(n: nat, radix: nat)
    requires 2 <= radix <= 36
    ensures RadixValue(NatToRadix(n, radix), radix) == n
    decreases n
  {
    if n >= radix {
      RadixRoundTrip(n / radix, radix);
      RadixAppend(NatToRadix(n / radix, radix), n % radix, radix);
      DivMod(n, radix);
    }
  }

  /** In radix 10 the digit strings and their values are the decimal ones. */
  lemma {:induction false} DecimalRadixValue(s: string)
    requires AllDigits(s)
    ensures AllRadixDigits(s, 10) && RadixValue(s, 10) == DigitsValue(s)
    decreases |s|
  {
    if s != [] {
      DecimalRadixValue(s[..|s| - 1]);
    }
  }

  // ---------------------------------------------------------------------------
  // isInteger

  /** What isInteger accepts as written: a non-empty string of digits. The check for
      a leading '-' only ever rejects, so no negative number is accepted. */
  predicate IntegerTextAsWritten(str: string, radix: nat)
    requires 2 <= radix <= 36
  {
    |str| > 0 && AllRadixDigits(str, radix)
  }

  /** The integer text the '-' check evidently means to allow: an optional leading
      '-' followed by at least one digit. */
  predicate IntegerText(str: string, radix: nat)
    requires 2 <= radix <= 36
  {
    |str| > 0 &&
    if str[0] == '-' then |str| > 1 && AllRadixDigits(str[1..], radix)
    else AllRadixDigits(str, radix)
  }

  /** isInteger as written: the digit check also runs on the leading '-'. */
  method IsIntegerAsWritten(str: string, radix: nat) returns (result: bool)
    requires 2 <= radix <= 36
    ensures result == IntegerTextAsWritten(str, radix)
  {
    result := false;
    if |str| > 0 {
      result := true;
      var i := 0;
      while i < |str| && result
        invariant 0 <= i <= |str|
        invariant result <==> forall k :: 0 <= k < i ==> CharDigit(str[k], radix) >= 0
      {
        if i == 0 && str[i] == '-' {
          if |str| == 1 {
            result := false;
          }
        }
        if CharDigit(str[i], radix) < 0 {
          result := false;
        }
        i := i + 1;
      }
    }
  }

  /** isInteger with the leading '-' skipped once it is known not to be alone. */
  method IsInteger(str: string, radix: nat) returns (result: bool)
    requires 2 <= radix <= 36
    ensures result == IntegerText(str, radix)
  {
    result := false;
    if |str| > 0 {
      result := true;
      var i := 0;
      while i < |str| && result
        invariant 0 <= i <= |str|
        invariant result <==> forall k :: 0 <= k < i ==> (k == 0 && str[k] == '-' && |str| > 1) || CharDigit(str[k], radix) >= 0
      {
        if i == 0 && str[i] == '-' {
          if |str| == 1 {
            result := false;
          }
        } else if CharDigit(str[i], radix) < 0 {
          result := false;
        }
        i := i + 1;
      }
      if result && str[0] == '-' {
        assert forall k :: 0 <= k < |str| - 1 ==> str[1..][k] == str[k + 1];
      }
    }
  }

  /** As written, the text of a negative number is never an integer. */
  lemma AsWrittenRejectsNegatives(n: int)
    requires n < 0
    ensures !IntegerTextAsWritten(IntToString(n), 10)
  {
    assert IntToString(n)[0] == '-';
  }

  /** The corrected check accepts what Long.toString prints for every number. */
  lemma IntegerTextOfToString(n: int)
    ensures IntegerText(IntToString(n), 10)
  {
    var s := IntToString(n);
    var digits := if n < 0 then NatToDigits(-n) else NatToDigits(n);
    DecimalRadixValue(digits);
    if n < 0 {
      assert s[1..] == digits;
    } else {
      assert s == digits;
    }
  }

  /** The corrected check accepts everything the as-written one does, and in addition
      exactly the texts of negative numbers. */
  lemma IntegerTextExtends(str: string, radix: nat)
    requires 2 <= radix <= 36
    ensures IntegerTextAsWritten(str, radix) ==> IntegerText(str, radix)
    ensures IntegerText(str, radix) && !IntegerTextAsWritten(str, radix) <==> IntegerText(str, radix) && str[0] == '-'
  {
    if |str| > 0 && str[0] == '-' {
      assert CharDigit(str[0], radix) < 0;
    }
    if IntegerTextAsWritten(str, radix) && |str| > 1 {
      assert forall k :: 0 <= k < |str| - 1 ==> str[1..][k] == str[k + 1];
    }
  }

  // ---------------------------------------------------------------------------
  // Long.valueOf and convertToNumber

  /** Long.valueOf(s, radix): an optional '+' or '-', at least one digit, and a value
      inside the long range; anything else raises NumberFormatException (None). */
  function LongValueOf(s: string, radix: nat): (r: Option<int>)
    requires 2 <= radix <= 36
    ensures r.Some? ==> IsLong(r.value)
  {
    if |s| == 0 then None
    else
      var body := if s[0] == '-' || s[0] == '+' then s[1..] else s;
      if |body| == 0 || !AllRadixDigits(body, radix) then None
      else
        var v: int := if s[0] == '-' then -(RadixValue(body, radix) as int) else RadixValue(body, radix);
        if IsLong(v) then Some(v) else None
  }

  /** In radix 10 Long.valueOf is Long.parseLong. */
  lemma DecimalLongValueOf(s: string)
    ensures LongValueOf(s, 10) == ParseLong(s)
  {
    if |s| > 0 {
      var body := if s[0] == '-' || s[0] == '+' then s[1..] else s;
      if AllDigits(body) {
        DecimalRadixValue(body);
      } else {
        var k :| 0 <= k < |body| && !IsDigit(body[k]);
        assert CharDigit(body[k], 10) < 0;
      }
    }
  }

  /** A double value: finite (its exact value), infinite, or not a number. */
  datatype Double = Finite(value: real) | Infinite(negative: bool) | NaN

  /** The result of convertToNumber: a Long or a Double. */
  datatype Number = LongNumber(value: int) | DoubleNumber(d: Double)

  /** Double.longValue of a finite double: truncation, saturating at the long range. */
  function LongValue(x: real): (r: int)
    ensures IsLong(r)
    ensures LONG_MIN as real <= x <= LONG_MAX as real && x == x.Floor as real ==> r == x.Floor
  {
    if x < LONG_MIN as real then LONG_MIN
    else if x > LONG_MAX as real then LONG_MAX
    else if x >= 0.0 then x.Floor
    else -((-x).Floor)
  }

  predicate StartsWithHex(str: string) {
    |str| >= 2 && str[..2] == "0x"
  }

  /** Which integer check convertToNumber branches on: isInteger as written, or the
      corrected check that also accepts a leading '-'. */
  datatype IntegerCheck = AsWritten | Corrected

  predicate IsIntegerBy(check: IntegerCheck, str: string, radix: nat)
    requires 2 <= radix <= 36
  {
    match check
    case AsWritten => IntegerTextAsWritten(str, radix)
    case Corrected => IntegerText(str, radix)
  }

  /** Long.valueOf wrapped into a Number, null (None) for NumberFormatException. */
  function FromLong(v: Option<int>): Option<Number> {
    match v
    case Some(x) => Some(LongNumber(x))
    case None => None
  }

  /** The double branch: Double.valueOf (None for NumberFormatException); a finite
      double equal to its floor becomes the Long of Double.longValue. */
  function FromDouble(d: Option<Double>): (r: Option<Number>)
    ensures r.Some? <==> d.Some?
    ensures r.Some? && r.value.LongNumber? ==> IsLong(r.value.value) && d.value.Finite? && d.value.value == d.value.value.Floor as real
    ensures r.Some? && r.value.DoubleNumber? ==> r.value.d == d.value && !(d.value.Finite? && d.value.value == d.value.value.Floor as real)
  {
    match d
    case None => None
    case Some(Finite(x)) =>
      if x == x.Floor as real then Some(LongNumber(LongValue(x))) else Some(DoubleNumber(Finite(x)))
    case Some(other) => Some(DoubleNumber(other))
  }

  /** convertToNumber: text the integer check accepts in radix 10 becomes a Long (None
      on overflow), "0x" followed by text it accepts in radix 16 becomes a Long (None
      on overflow), and anything else goes through Double.valueOf, here the parameter
      parseDouble. The source branches on check AsWritten. */
  function ConvertToNumber(str: string, parseDouble: string -> Option<Double>, check: IntegerCheck): (r: Option<Number>)
    ensures r.Some? && r.value.LongNumber? ==> IsLong(r.value.value)
    ensures !IsIntegerBy(check, str, 10) && !(StartsWithHex(str) && IsIntegerBy(check, str[2..], 16))
      ==> r == FromDouble(parseDouble(str))
  {
    if IsIntegerBy(check, str, 10) then FromLong(LongValueOf(str, 10))
    else if StartsWithHex(str) && IsIntegerBy(check, str[2..], 16) then FromLong(LongValueOf(str[2..], 16))
    else FromDouble(parseDouble(str))
  }

  /** The text Long.toString prints for a non-negative number converts back to the
      number when it is a long, and to nothing (not a Double) when it is not; both
      checks agree on such text. */
  lemma ConvertDigitsRoundTrip(n: nat, parseDouble: string -> Option<Double>, check: IntegerCheck)
    ensures ConvertToNumber(NatToDigits(n), parseDouble, check) == if IsLong(n) then Some(LongNumber(n)) else None
  {
    assert IntToString(n) == NatToDigits(n);
    IntegerTextOfToString(n);
    IntegerTextExtends(NatToDigits(n), 10);
    DecimalLongValueOf(IntToString(n));
    ParseLongOfToString(n);
  }

  /** With the corrected check, the text of every number converts back to it when it
      is a long, and to nothing when it is not. */
  lemma ConvertDecimalRoundTrip(n: int, parseDouble: string -> Option<Double>)
    ensures ConvertToNumber(IntToString(n), parseDouble, Corrected) == if IsLong(n) then Some(LongNumber(n)) else None
  {
    IntegerTextOfToString(n);
    DecimalLongValueOf(IntToString(n));
    ParseLongOfToString(n);
  }

  /** As written, the text of a negative number goes through the double branch. */
  lemma NegativeViaDouble(n: int, parseDouble: string -> Option<Double>)
    requires n < 0
    ensures ConvertToNumber(IntToString(n), parseDouble, AsWritten) == FromDouble(parseDouble(IntToString(n)))
  {
    var str := IntToString(n);
    AsWrittenRejectsNegatives(n);
    assert str[0] == '-';
  }

  /** The first discrepancy: below the long range the as-written conversion saturates
      to Long.MIN_VALUE through the double (whose value for such text is at most
      Long.MIN_VALUE), where the corrected one reports an overflow. */
  lemma AsWrittenSaturates(n: int, parseDouble: string -> Option<Double>, x: int)
    requires n < LONG_MIN && x <= LONG_MIN
    requires parseDouble(IntToString(n)) == Some(Finite(x as real))
    ensures ConvertToNumber(IntToString(n), parseDouble, AsWritten) == Some(LongNumber(LONG_MIN))
    ensures ConvertToNumber(IntToString(n), parseDouble, Corrected) == None
  {
    NegativeViaDouble(n, parseDouble);
    ConvertDecimalRoundTrip(n, parseDouble);
  }

  /** The second discrepancy: "0x-5" is no number as written (Double.valueOf rejects
      it), while the corrected check reads it as -5 in radix 16. */
  lemma HexNegative(parseDouble: string -> Option<Double>)
    requires parseDouble("0x-5") == None
    ensures ConvertToNumber("0x-5", parseDouble, AsWritten) == None
    ensures ConvertToNumber("0x-5", parseDouble, Corrected) == Some(LongNumber(-5))
  {
    var str := "0x-5";
    assert CharDigit(str[1], 10) < 0;
    assert str[2..] == "-5" && str[..2] == "0x";
    assert str[2..][0] == '-' && CharDigit('-', 16) < 0;
    assert !IntegerTextAsWritten(str, 10) && !IntegerTextAsWritten(str[2..], 16);
    assert "-5"[1..] == "5";
    assert RadixValue("5", 16) == 5 by {
      assert "5"[..0] == [];
    }
  }

  /** "0x" followed by the hexadecimal digits of a non-negative long converts back to
      that long under either check. */
  lemma ConvertHexRoundTrip(n: nat, parseDouble: string -> Option<Double>, check: IntegerCheck)
    requires n <= LONG_MAX
    ensures ConvertToNumber("0x" + NatToRadix(n, 16), parseDouble, check) == Some(LongNumber(n))
  {
    var digits := NatToRadix(n, 16);
    var str := "0x" + digits;
    assert str[1] == 'x' && CharDigit(str[1], 10) < 0;
    assert !IntegerText(str, 10) && !IntegerTextAsWritten(str, 10);
    assert str[2..] == digits && str[..2] == "0x";
    assert CharDigit(digits[0], 16) >= 0;
    IntegerTextExtends(digits, 16);
    RadixRoundTrip(n, 16);
  }
}
