/** The java.lang behaviour the modelled code depends on: the int and long ranges
    with two's-complement wrap-around, Integer.parseInt / Long.parseLong and
    String.valueOf in radix 10, String.trim, String.split with a one-character
    pattern, String.indexOf / lastIndexOf and String.hashCode.
    A Java char is modelled by a Dafny char. */
module JavaText {
  import opened Wrappers

  const INT_MIN: int := -0x8000_0000
  const INT_MAX: int := 0x7FFF_FFFF
  const LONG_MIN: int := -0x8000_0000_0000_0000
  const LONG_MAX: int := 0x7FFF_FFFF_FFFF_FFFF

  predicate IsInt(x: int) { INT_MIN <= x <= INT_MAX }
  predicate IsLong(x: int) { LONG_MIN <= x <= LONG_MAX }

  /** Java's 32-bit wrap-around of an exact integer result. */
  function WrapInt(x: int): (r: int)
    ensures IsInt(r)
    ensures (r - x) % 0x1_0000_0000 == 0
    ensures IsInt(x) ==> r == x
  {
    var m := x % 0x1_0000_0000;
    if m > INT_MAX then m - 0x1_0000_0000 else m
  }

  // ---------------------------------------------------------------------------
  // Decimal digits

  predicate IsDigit(c: char) { '0' <= c <= '9' }

  predicate AllDigits(s: string) {
    forall i :: 0 <= i < |s| ==> IsDigit(s[i])
  }

  function DigitValue(c: char): (d: nat)
    requires IsDigit(c)
    ensures d < 10
  {
    (c as int) - ('0' as int)
  }

  function DigitChar(d: nat): (c: char)
    requires d < 10
    ensures IsDigit(c) && DigitValue(c) == d
  {
    (('0' as int) + d) as char
  }

  /** The value of a string of decimal digits, most significant digit first. */
  function DigitsValue(s: string): nat
    requires AllDigits(s)
    decreases |s|
  {
    if s == [] then 0 else 10 * DigitsValue(s[..|s| - 1]) + DigitValue(s[|s| - 1])
  }

  /** The shortest decimal representation of n (what Long.toString prints for n >= 0). */
  function NatToDigits(n: nat): (s: string)
    ensures |s| >= 1 && AllDigits(s)
    ensures n > 0 ==> s[0] != '0'
    decreases n
  {
    if n < 10 then [DigitChar(n)] else NatToDigits(n / 10) + [DigitChar(n % 10)]
  }

  lemma {:induction false} DigitsRoundTrip(n: nat)
    ensures DigitsValue(NatToDigits(n)) == n
    decreases n
  {
    if n >= 10 {
      DigitsRoundTrip(n / 10);
      var s := NatToDigits(n);
      assert s[..|s| - 1] == NatToDigits(n / 10);
    }
  }

  // ---------------------------------------------------------------------------
  // Integer.parseInt, Long.parseLong, String.valueOf

  /** Integer.parseInt / Long.parseLong in radix 10: an optional '+' or '-' and at
      least one digit, with a value inside [lo, hi]; anything else raises
      NumberFormatException, modelled as None. Only ASCII digits are modelled. */
  function ParseDecimal(s: string, lo: int, hi: int): (r: Option<int>)
    ensures r.Some? ==> lo <= r.value <= hi
    ensures r.Some? ==> |s| >= 1 && (IsDigit(s[0]) || s[0] == '-' || s[0] == '+')
  {
    if |s| == 0 then None
    else
      var body := if s[0] == '-' || s[0] == '+' then s[1..] else s;
      if |body| == 0 || !AllDigits(body) then None
      else
        var v: int := if s[0] == '-' then -(DigitsValue(body) as int) else DigitsValue(body);
        if lo <= v <= hi then Some(v) else None
  }

  function ParseInt(s: string): (r: Option<int>)
    ensures r.Some? ==> IsInt(r.value)
  {
    ParseDecimal(s, INT_MIN, INT_MAX)
  }

  function ParseLong(s: string): (r: Option<int>)
    ensures r.Some? ==> IsLong(r.value)
  {
    ParseDecimal(s, LONG_MIN, LONG_MAX)
  }

  /** String.valueOf(int) and Long.toString: a '-' for negatives, then the digits. */
  function IntToString(n: int): (s: string)
    ensures |s| >= 1
  {
    if n < 0 then "-" + NatToDigits(-n) else NatToDigits(n)
  }

  /** Printing a number and parsing it back gives the number, exactly when it is
      inside the range. */
  lemma ParseDecimalOfToString(n: int, lo: int, hi: int)
    ensures ParseDecimal(IntToString(n), lo, hi) == if lo <= n <= hi then Some(n) else None
  {
    var s := IntToString(n);
    var m: nat := if n < 0 then -n else n;
    var digits := NatToDigits(m);
    DigitsRoundTrip(m);
    if n < 0 {
      assert s[0] == '-' && s[1..] == digits;
    } else {
      assert s == digits && IsDigit(s[0]);
    }
  }

  lemma ParseIntOfToString(n: int)
    requires IsInt(n)
    ensures ParseInt(IntToString(n)) == Some(n)
  {
    ParseDecimalOfToString(n, INT_MIN, INT_MAX);
  }

  lemma ParseLongOfToString(n: int)
    ensures ParseLong(IntToString(n)) == if IsLong(n) then Some(n) else None
  {
    ParseDecimalOfToString(n, LONG_MIN, LONG_MAX);
  }

  // ---------------------------------------------------------------------------
  // String.startsWith and String.endsWith

  predicate StartsWith(s: string, prefix: string) {
    |prefix| <= |s| && s[..|prefix|] == prefix
  }

  predicate EndsWith(s: string, suffix: string) {
    |suffix| <= |s| && s[|s| - |suffix|..] == suffix
  }

  // ---------------------------------------------------------------------------
  // String.toLowerCase and String.toUpperCase, on ASCII letters

  function ToLowerChar(c: char): char {
    if 'A' <= c <= 'Z' then (c as int - 'A' as int + 'a' as int) as char else c
  }

  function ToUpperChar(c: char): char {
    if 'a' <= c <= 'z' then (c as int - 'a' as int + 'A' as int) as char else c
  }

  function ToLower(s: string): (r: string)
    ensures |r| == |s|
    ensures forall k :: 0 <= k < |s| ==> r[k] == ToLowerChar(s[k])
    decreases |s|
  {
    if s == [] then [] else [ToLowerChar(s[0])] + ToLower(s[1..])
  }

  function ToUpper(s: string): (r: string)
    ensures |r| == |s|
    ensures forall k :: 0 <= k < |s| ==> r[k] == ToUpperChar(s[k])
    decreases |s|
  {
    if s == [] then [] else [ToUpperChar(s[0])] + ToUpper(s[1..])
  }

  // ---------------------------------------------------------------------------
  // String.trim

  function TrimStart(s: string): (r: string)
    ensures |r| <= |s| && r == s[|s| - |r|..]
    ensures r == [] || r[0] > ' '
    ensures forall i :: 0 <= i < |s| - |r| ==> s[i] <= ' '
  {
    if s != [] && s[0] <= ' ' then TrimStart(s[1..]) else s
  }

  function TrimEnd(s: string): (r: string)
    ensures |r| <= |s| && r == s[..|r|]
    ensures r == [] || r[|r| - 1] > ' '
    ensures forall i :: |r| <= i < |s| ==> s[i] <= ' '
  {
    if s != [] && s[|s| - 1] <= ' ' then TrimEnd(s[..|s| - 1]) else s
  }

  /** String.trim: drops every leading and trailing character at or below ' '. */
  function Trim(s: string): (r: string)
    ensures |r| <= |s|
    ensures r == [] || (r[0] > ' ' && r[|r| - 1] > ' ')
  {
    TrimEnd(TrimStart(s))
  }

  /** Text that String.trim leaves as it is. */
  predicate Trimmed(s: string) {
    s == [] || (s[0] > ' ' && s[|s| - 1] > ' ')
  }

  lemma TrimIdentity(s: string)
    requires Trimmed(s)
    ensures Trim(s) == s
  {
  }

  // ---------------------------------------------------------------------------
  // String.split with a pattern that matches exactly one character of a set

  function CountIn(s: string, seps: set<char>): nat
  {
    if s == [] then 0 else (if s[0] in seps then 1 else 0) + CountIn(s[1..], seps)
  }

  lemma {:induction false} CountInAppend(x: string, y: string, seps: set<char>)
    ensures CountIn(x + y, seps) == CountIn(x, seps) + CountIn(y, seps)
  {
    if x != [] {
      CountInAppend(x[1..], y, seps);
      assert (x + y)[1..] == x[1..] + y;
    } else {
      assert x + y == y;
    }
  }

  lemma {:induction false} CountInPositive(s: string, seps: set<char>, i: nat)
    requires i < |s| && s[i] in seps
    ensures CountIn(s, seps) >= 1
  {
    if i > 0 {
      CountInPositive(s[1..], seps, i - 1);
    }
  }

  /** Every piece of s between two separator characters, empty pieces included. */
  function SplitAll(s: string, seps: set<char>): (r: seq<string>)
    ensures |r| == CountIn(s, seps) + 1
    ensures forall k :: 0 <= k < |r| ==> forall c :: c in r[k] ==> c !in seps
  {
    if s == [] then [""]
    else
      var rest := SplitAll(s[1..], seps);
      if s[0] in seps then [""] + rest else [[s[0]] + rest[0]] + rest[1..]
  }

  /** The parts joined with sep between consecutive parts. */
  function Join(parts: seq<string>, sep: string): string
  {
    if parts == [] then ""
    else if |parts| == 1 then parts[0]
    else parts[0] + sep + Join(parts[1..], sep)
  }

  /** Appending one more part to a join adds the separator and the part. */
  lemma {:induction false} JoinAppend(parts: seq<string>, p: string, sep: string)
    requires parts != []
    ensures Join(parts + [p], sep) == Join(parts, sep) + sep + p
  {
    if |parts| > 1 {
      assert (parts + [p])[1..] == parts[1..] + [p];
      JoinAppend(parts[1..], p, sep);
    }
  }

  /** What a loop has built after appending the first i parts, each followed
      by sep, to open. */
  predicate JoinedSoFar(result: string, open: string, parts: seq<string>, i: nat, sep: string)
    requires i <= |parts|
  {
    if i == 0 then result == open else result == open + Join(parts[..i], sep) + sep
  }

  lemma JoinedStep(result: string, open: string, parts: seq<string>, i: nat, sep: string)
    requires i < |parts| && JoinedSoFar(result, open, parts, i, sep)
    ensures JoinedSoFar(result + parts[i] + sep, open, parts, i + 1, sep)
  {
    assert parts[..i + 1] == parts[..i] + [parts[i]];
    if i > 0 {
      JoinAppend(parts[..i], parts[i], sep);
    }
  }

  lemma JoinedLast(result: string, open: string, parts: seq<string>, sep: string)
    requires parts != [] && JoinedSoFar(result, open, parts, |parts| - 1, sep)
    ensures result + parts[|parts| - 1] == open + Join(parts, sep)
  {
    var last := parts[|parts| - 1];
    JoinedStep(result, open, parts, |parts| - 1, sep);
    JoinedDone(result + last + sep, open, parts, sep);
    assert (result + last + sep)[..|result + last + sep| - |sep|] == result + last;
  }

  lemma JoinedDone(result: string, open: string, parts: seq<string>, sep: string)
    requires parts != [] && JoinedSoFar(result, open, parts, |parts|, sep)
    ensures |result| >= |sep|
    ensures result[..|result| - |sep|] == open + Join(parts, sep)
  {
    assert parts[..|parts|] == parts;
  }


  /** Join with a separator sep1 + sep2 is the join with sep2 of the parts with
      sep1 appended to all but the last. */
  lemma {:induction false} JoinSplitSeparator(parts: seq<string>, sep1: string, sep2: string)
    requires parts != []
    ensures Join(parts, sep1 + sep2) ==
      Join(seq(|parts|, i requires 0 <= i < |parts| => if i < |parts| - 1 then parts[i] + sep1 else parts[i]), sep2)
    decreases |parts|
  {
    var marked := seq(|parts|, i requires 0 <= i < |parts| => if i < |parts| - 1 then parts[i] + sep1 else parts[i]);
    if |parts| > 1 {
      var rest := parts[1..];
      JoinSplitSeparator(rest, sep1, sep2);
      var restMarked := seq(|rest|, i requires 0 <= i < |rest| => if i < |rest| - 1 then rest[i] + sep1 else rest[i]);
      assert marked[1..] == restMarked;
      assert Join(marked, sep2) == marked[0] + sep2 + Join(restMarked, sep2);
    }
  }

  lemma JoinCons(a: string, rest: seq<string>, sep: string)
    requires rest != []
    ensures Join([a] + rest, sep) == a + sep + Join(rest, sep)
  {
    assert ([a] + rest)[1..] == rest;
  }

  /** The last piece of a split is never empty when the string does not end in
      the separator. */
  lemma {:induction false} SplitAllLast(s: string, c: char)
    requires s != [] && s[|s| - 1] != c
    ensures var r := SplitAll(s, {c}); r[|r| - 1] != []
  {
    if |s| > 1 {
      SplitAllLast(s[1..], c);
    }
  }

  function DropTrailingEmpty(parts: seq<string>): (r: seq<string>)
    ensures r <= parts
    ensures r == [] || r[|r| - 1] != []
    ensures forall k :: |r| <= k < |parts| ==> parts[k] == []
  {
    if parts != [] && parts[|parts| - 1] == [] then DropTrailingEmpty(parts[..|parts| - 1]) else parts
  }

  /** String.split(regex) with limit 0 for a regex matching one character of seps:
      a string with no match splits into itself; otherwise trailing empty pieces
      are removed. */
  function JavaSplit(s: string, seps: set<char>): (r: seq<string>)
    ensures CountIn(s, seps) == 0 ==> r == [s]
  {
    if CountIn(s, seps) == 0 then [s] else DropTrailingEmpty(SplitAll(s, seps))
  }

  lemma {:induction false} NoSeparatorNoCount(s: string, seps: set<char>)
    requires forall c :: c in s ==> c !in seps
    ensures CountIn(s, seps) == 0
  {
    if s != [] {
      assert s[0] in s;
      NoSeparatorNoCount(s[1..], seps);
    }
  }

  /** Joining the pieces of a split with the separator gives the string back. */
  lemma {:induction false} JoinSplitAll(s: string, c: char)
    ensures Join(SplitAll(s, {c}), [c]) == s
  {
    if s != [] {
      JoinSplitAll(s[1..], c);
      var rest := SplitAll(s[1..], {c});
      if s[0] != c {
        if |rest| == 1 {
          assert SplitAll(s, {c}) == [[s[0]] + rest[0]];
        } else {
          assert Join(rest, [c]) == rest[0] + [c] + Join(rest[1..], [c]);
          assert SplitAll(s, {c}) == [[s[0]] + rest[0]] + rest[1..];
          assert Join(SplitAll(s, {c}), [c]) == [s[0]] + rest[0] + [c] + Join(rest[1..], [c]);
        }
      }
    }
  }

  /** Splitting the join of separator-free parts gives the parts back. */
  lemma {:induction false} SplitAllJoin(parts: seq<string>, c: char)
    requires |parts| >= 1
    requires forall k :: 0 <= k < |parts| ==> c !in parts[k]
    ensures SplitAll(Join(parts, [c]), {c}) == parts
    decreases |parts|, |parts[0]|
  {
    var p := parts[0];
    if |parts| == 1 {
      SplitAllOfPlain(p, c);
    } else if p == [] {
      SplitAllJoin(parts[1..], c);
      assert Join(parts, [c]) == [c] + Join(parts[1..], [c]);
      assert parts == [""] + parts[1..];
    } else {
      var shorter := [p[1..]] + parts[1..];
      SplitAllJoin(shorter, c);
      assert Join(parts, [c]) == [p[0]] + Join(shorter, [c]);
      assert Join(parts, [c])[1..] == Join(shorter, [c]);
      assert [p[0]] + p[1..] == p;
    }
  }

  lemma {:induction false} SplitAllOfPlain(s: string, c: char)
    requires c !in s
    ensures SplitAll(s, {c}) == [s]
  {
    if s != [] {
      SplitAllOfPlain(s[1..], c);
      assert [s[0]] + s[1..] == s;
    }
  }

  /** String.split undoes a join of separator-free parts whose last part is not empty. */
  lemma JavaSplitJoin(parts: seq<string>, c: char)
    requires |parts| >= 1 && parts[|parts| - 1] != []
    requires forall k :: 0 <= k < |parts| ==> c !in parts[k]
    ensures JavaSplit(Join(parts, [c]), {c}) == parts
  {
    SplitAllJoin(parts, c);
    if |parts| == 1 {
      assert Join(parts, [c]) == parts[0];
    }
  }

  // ---------------------------------------------------------------------------
  // indexOf, lastIndexOf, hashCode

  /** String.indexOf(char): the first index of c, or -1. */
  function IndexOf(s: string, c: char): (i: int)
    ensures -1 <= i < |s|
    ensures i == -1 <==> c !in s
    ensures i >= 0 ==> s[i] == c && c !in s[..i]
  {
    if s == [] then -1
    else if s[0] == c then 0
    else var j := IndexOf(s[1..], c); if j == -1 then -1 else j + 1
  }

  /** String.lastIndexOf(char): the last index of c, or -1. */
  function LastIndexOf(s: string, c: char): (i: int)
    ensures -1 <= i < |s|
    ensures i == -1 <==> c !in s
    ensures i >= 0 ==> s[i] == c && c !in s[i + 1..]
  {
    if s == [] then -1
    else if s[|s| - 1] == c then |s| - 1
    else
      var j := LastIndexOf(s[..|s| - 1], c);
      assert s[..|s| - 1] + [s[|s| - 1]] == s;
      j
  }

  /** String.hashCode: the sum of s[i] * 31^(n-1-i), computed in 32-bit arithmetic. */
  function StringHash(s: string): (h: int)
    ensures IsInt(h)
  {
    if s == [] then 0 else WrapInt(31 * StringHash(s[..|s| - 1]) + (s[|s| - 1] as int))
  }
}
