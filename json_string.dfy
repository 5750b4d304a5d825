/** JsonString: the string escaping used whenever a string is written as JSON,
    and the quoted form JsonString.toString produces. */
module JsonStrings {
  import opened JavaText

  const BACKSPACE: char := '\U{8}'
  const FORMFEED: char := '\U{C}'

  /** The seven characters jsonEscape replaces by a two-character escape. */
  predicate NeedsEscape(c: char) {
    c == '"' || c == '\\' || c == BACKSPACE || c == '\n' || c == '\r' || c == '\t' || c == FORMFEED
  }

  /** What jsonEscape appends for one character. */
  function EscapeChar(c: char): (r: string)
    ensures NeedsEscape(c) ==> |r| == 2 && r[0] == '\\'
    ensures !NeedsEscape(c) ==> r == [c]
  {
    if c == '"' then "\\\""
    else if c == '\\' then "\\\\"
    else if c == BACKSPACE then "\\b"
    else if c == '\n' then "\\n"
    else if c == '\r' then "\\r"
    else if c == '\t' then "\\t"
    else if c == FORMFEED then "\\f"
    else [c]
  }

  /** The escaped text: every character replaced by what EscapeChar gives for it. */
  function Escape(s: string): string
  {
    if s == [] then [] else EscapeChar(s[0]) + Escape(s[1..])
  }

  /** JsonString.toString: the escaped value between double quotes. */
  function Quote(s: string): string
  {
    "\"" + Escape(s) + "\""
  }

  function CountNeedsEscape(s: string): nat
  {
    if s == [] then 0 else (if NeedsEscape(s[0]) then 1 else 0) + CountNeedsEscape(s[1..])
  }

  lemma {:induction false} EscapeConcat(a: string, b: string)
    ensures Escape(a + b) == Escape(a) + Escape(b)
  {
    if a == [] {
      assert a + b == b;
    } else {
      var c := a[0];
      assert (a + b)[0] == c;
      assert (a + b)[1..] == a[1..] + b;
      calc {
        Escape(a + b);
        EscapeChar(c) + Escape(a[1..] + b);
        { EscapeConcat(a[1..], b); }
        EscapeChar(c) + (Escape(a[1..]) + Escape(b));
        (EscapeChar(c) + Escape(a[1..])) + Escape(b);
        Escape(a) + Escape(b);
      }
    }
  }

  /** jsonEscape as the source writes it: one pass appending to a builder. */
  method JsonEscape(str: string) returns (result: string)
    ensures result == Escape(str)
  {
    result := "";
    var i := 0;
    while i < |str|
      invariant 0 <= i <= |str|
      invariant result == Escape(str[..i])
    {
      var c := str[i];
      if c == '"' {
        result := result + "\\\"";
      } else if c == '\\' {
        result := result + "\\\\";
      } else if c == BACKSPACE {
        result := result + "\\b";
      } else if c == '\n' {
        result := result + "\\n";
      } else if c == '\r' {
        result := result + "\\r";
      } else if c == '\t' {
        result := result + "\\t";
      } else if c == FORMFEED {
        result := result + "\\f";
      } else {
        result := result + [c];
      }
      EscapeConcat(str[..i], [c]);
      assert str[..i + 1] == str[..i] + [c];
      i := i + 1;
    }
    assert str[..i] == str;
  }

  /** Each escaped character adds exactly one character to the output. */
  lemma {:induction false} EscapeLength(s: string)
    ensures |Escape(s)| == |s| + CountNeedsEscape(s)
  {
    if s != [] {
      EscapeLength(s[1..]);
    }
  }

  /** The output is never shorter than the input, and has the same length exactly
      when none of the seven escaped characters occurs. */
  lemma {:induction false} EscapeLengthBound(s: string)
    ensures |Escape(s)| >= |s|
    ensures |Escape(s)| == |s| <==> forall i :: 0 <= i < |s| ==> !NeedsEscape(s[i])
  {
    EscapeLength(s);
    CountZeroIff(s);
  }

  lemma {:induction false} CountZeroIff(s: string)
    ensures CountNeedsEscape(s) == 0 <==> forall i :: 0 <= i < |s| ==> !NeedsEscape(s[i])
  {
    if s != [] {
      CountZeroIff(s[1..]);
      assert forall i :: 1 <= i < |s| ==> s[i] == s[1..][i - 1];
    }
  }

  /** A string without escaped characters is copied unchanged. */
  lemma {:induction false} EscapeIdentity(s: string)
    requires forall i :: 0 <= i < |s| ==> !NeedsEscape(s[i])
    ensures Escape(s) == s
  {
    if s != [] {
      assert !NeedsEscape(s[0]);
      EscapeIdentity(s[1..]);
    }
  }

  /** The escaped text contains no raw line break, carriage return or tab. */
  lemma {:induction false} EscapeHasNoRawBreaks(s: string)
    ensures '\n' !in Escape(s) && '\r' !in Escape(s) && '\t' !in Escape(s)
  {
    if s != [] {
      EscapeHasNoRawBreaks(s[1..]);
    }
  }
}
