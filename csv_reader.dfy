/** CsvReader: a row is read character by character; a field that starts with
    '"' stays open until a '"' that is followed by the separator, a line break
    or the end; "\r", "\n" and "\r\n" end a row; quoted fields are unescaped at
    the end. */
module CsvReading {
  import opened Wrappers

  // ---------------------------------------------------------------------------
  // Specification of one pass of readLine

  /** How the scanning loop of readLine stopped: the fields split off so far, the
      current field, the rest of the stream, whether the end of the stream was
      read, and whether a character is still held by peek(). */
  datatype LineEnd = LineEnd(parts: seq<string>, cur: string, rest: string, atEof: bool, pending: bool)

  /** The variables of the scanning loop: inside a quoted field or not, whether
      the last character was a '"' inside one, the fields split off so far and
      the current field. */
  datatype ScanState = ScanState(inEscaped: bool, wasQuote: bool, parts: seq<string>, cur: string)

  const Start := ScanState(false, false, [], "")

  /** One pass of the loop: go on with a new state, or stop at a line break,
      having also read the '\n' of "\r\n" or left a peeked character. */
  datatype Step = Next(st: ScanState) | Break(readLf: bool, pending: bool)

  /** What peek() returns on the stream t. */
  function PeekOf(t: string): (p: int)
    ensures p == -1 <==> t == []
  {
    if t == [] then -1 else t[0] as int
  }

  /** The body of the loop of readLine for the character c, where peek is what
      a peek() after c would return. */
  function StepOn(c: char, peek: int, sep: char, st: ScanState): (r: Step)
    ensures r.Break? ==> (c == '\n' || c == '\r') && !st.inEscaped && c != sep
    ensures r.Break? && r.readLf ==> peek == '\n' as int
  {
    var wq := if c != '"' then false else st.wasQuote;
    if c == sep && !st.inEscaped then Next(ScanState(st.inEscaped, wq, st.parts + [st.cur], ""))
    else if c == '"' then
      if !st.inEscaped && st.cur == [] then Next(ScanState(true, wq, st.parts, st.cur + [c]))
      else if st.inEscaped && !wq then
        if peek == -1 || peek == sep as int || peek == '\n' as int || peek == '\r' as int then
          Next(ScanState(false, wq, st.parts, st.cur + [c]))
        else Next(ScanState(st.inEscaped, true, st.parts, st.cur + [c]))
      else if st.inEscaped then Next(ScanState(st.inEscaped, false, st.parts, st.cur + [c]))
      else Next(ScanState(st.inEscaped, wq, st.parts, st.cur + [c]))
    else if (c == '\n' || c == '\r') && !st.inEscaped then
      Break(c == '\r' && peek == '\n' as int, c == '\r' && peek != '\n' as int)
    else Next(ScanState(st.inEscaped, wq, st.parts, st.cur + [c]))
  }

  /** The scanning loop of readLine on the remaining stream s. */
  function Scan(s: string, sep: char, st: ScanState): (e: LineEnd)
    ensures |e.rest| <= |s|
    ensures s != [] ==> |e.rest| < |s|
    ensures e.atEof ==> e.rest == [] && !e.pending
    decreases |s|
  {
    if s == [] then LineEnd(st.parts, st.cur, [], true, false)
    else
      match StepOn(s[0], PeekOf(s[1..]), sep, st)
      case Next(st') => Scan(s[1..], sep, st')
      case Break(readLf, pending) => LineEnd(st.parts, st.cur, if readLf then s[2..] else s[1..], false, pending)
  }

  /** The body of a quoted field after its opening '"': "" stands for '"' and a
      '"' in last position closes the field. */
  function UnquoteBody(b: string): (r: string)
    ensures |r| <= |b|
  {
    if b == [] then ""
    else if b[0] == '"' && |b| == 1 then ""
    else if b[0] == '"' && b[1] == '"' then "\"" + UnquoteBody(b[2..])
    else [b[0]] + UnquoteBody(b[1..])
  }

  /** unescape: a field starting with '"' loses its outer quotes and has ""
      turned into '"'; any other field is kept as it is. */
  function Unescape(field: string): (r: string)
    ensures field == [] || field[0] != '"' ==> r == field
    ensures |r| <= |field|
  {
    if field == [] || field[0] != '"' then field else UnquoteBody(field[1..])
  }

  lemma UnquoteBodyAt(f: string, i: nat)
    requires i < |f|
    ensures f[i] == '"' && i == |f| - 1 ==> UnquoteBody(f[i..]) == ""
    ensures f[i] == '"' && i < |f| - 1 && f[i + 1] == '"' ==> UnquoteBody(f[i..]) == [f[i]] + UnquoteBody(f[i + 2..])
    ensures f[i] != '"' || (i < |f| - 1 && f[i + 1] != '"') ==> UnquoteBody(f[i..]) == [f[i]] + UnquoteBody(f[i + 1..])
  {
    var b := f[i..];
    assert b[0] == f[i] && b[1..] == f[i + 1..];
    if i < |f| - 1 {
      assert b[1] == f[i + 1] && b[2..] == f[i + 2..];
    }
  }

  function UnescapeAll(fields: seq<string>): (r: seq<string>)
    ensures |r| == |fields|
  {
    seq(|fields|, i requires 0 <= i < |fields| => Unescape(fields[i]))
  }

  /** What one readLine call yields: a row, null (Ok(None)) for a final empty
      line, or the exception of a second peek; the stream left; and the end
      flag. */
  datatype LineRead = LineRead(outcome: Result<Option<seq<string>>>, rest: string, atEnd: bool)

  /** readLine on the remaining stream s. An empty line is a row [""] unless the
      stream ends after it; when the line was ended by a lone '\r' the check for
      the end peeks a second time and fails. */
  function ReadLineSpec(s: string, sep: char): (l: LineRead)
    ensures |l.rest| <= |s|
    ensures s != [] && l.outcome.Ok? && l.outcome.value.Some? ==> |l.rest| < |s|
  {
    var e := Scan(s, sep, Start);
    if e.parts == [] && e.cur == [] then
      if e.pending then LineRead(Fail(IllegalStateException), e.rest, e.atEof)
      else if e.rest == [] then LineRead(Ok(None), [], true)
      else LineRead(Ok(Some([""])), e.rest, e.atEof)
    else LineRead(Ok(Some(UnescapeAll(e.parts + [e.cur]))), e.rest, e.atEof)
  }

  /** Every row of a stream, as repeated readNextRow calls return them until
      null; the first exception ends the reading. */
  function ReadAll(s: string, sep: char): Result<seq<seq<string>>>
    decreases |s|
  {
    var l := ReadLineSpec(s, sep);
    if l.outcome.Fail? then Fail(l.outcome.exc)
    else if l.outcome.value.None? then Ok([])
    else if l.atEnd || s == [] then Ok([l.outcome.value.value])
    else
      var more := ReadAll(l.rest, sep);
      if more.Fail? then more else Ok([l.outcome.value.value] + more.value)
  }

  // ---------------------------------------------------------------------------
  // The reader

  /** The one-character buffer of peek(): empty, a character, or the end of the
      stream (-1). */
  datatype Peeked = Nothing | PeekedChar(c: char) | PeekedEnd

  class CsvReader {
    /** The characters the underlying reader delivers, and how many it has. */
    var input: string
    var pos: nat
    var separator: char
    var peeked: Peeked
    var isEnd: bool

    ghost predicate Valid()
      reads this
    {
      pos <= |input| && (peeked == PeekedEnd ==> pos == |input|)
    }

    /** The characters still to come, the peeked one first. */
    ghost function Stream(): string
      reads this
      requires Valid()
    {
      match peeked
      case Nothing => input[pos..]
      case PeekedChar(c) => [c] + input[pos..]
      case PeekedEnd => []
    }

    constructor (input: string, separator: char)
      ensures Valid() && Stream() == input
      ensures this.input == input && this.separator == separator
      ensures peeked == Nothing && !isEnd
    {
      this.input := input;
      pos := 0;
      this.separator := separator;
      peeked := Nothing;
      isEnd := false;
    }

    /** read: the peeked character if there is one, else the next one from the
        stream; -1 at the end, which also sets the end flag. */
    method Read() returns (c: int)
      requires Valid()
      modifies this
      ensures Valid() && input == old(input) && separator == old(separator)
      ensures old(Stream()) == [] ==> c == -1 && Stream() == []
      ensures old(Stream()) != [] ==> c == old(Stream())[0] as int && Stream() == old(Stream())[1..]
      ensures peeked == Nothing
      ensures isEnd == (old(isEnd) || old(Stream()) == [])
    {
      match peeked {
        case PeekedChar(ch) =>
          c := ch as int;
        case PeekedEnd =>
          c := -1;
        case Nothing =>
          if pos < |input| {
            c := input[pos] as int;
            pos := pos + 1;
          } else {
            c := -1;
          }
      }
      peeked := Nothing;
      if c == -1 {
        isEnd := true;
      }
    }

    /** peek: reads the next character into the buffer; peeking again before a
        read fails. */
    method Peek() returns (r: Result<int>)
      requires Valid()
      modifies this
      ensures Valid() && input == old(input) && separator == old(separator) && isEnd == old(isEnd)
      ensures Stream() == old(Stream())
      ensures old(peeked) != Nothing ==> r == Fail(IllegalStateException) && peeked == old(peeked)
      ensures old(peeked) == Nothing ==> peeked != Nothing
      ensures old(peeked) == Nothing ==> r == Ok(if old(Stream()) == [] then -1 else old(Stream())[0] as int)
    {
      if peeked != Nothing {
        return Fail(IllegalStateException);
      }
      if pos < |input| {
        peeked := PeekedChar(input[pos]);
        r := Ok(input[pos] as int);
        pos := pos + 1;
      } else {
        peeked := PeekedEnd;
        r := Ok(-1);
      }
    }
  
    /** unescape, with its loop over the characters after the opening '"'. */
    method UnescapeField(field: string) returns (escaped: string)
      ensures escaped == Unescape(field)
    {
      if field == [] || field[0] != '"' {
        return field;
      }
      escaped := "";
      var i := 1;
      while i < |field|
        invariant 1 <= i <= |field|
        invariant escaped + UnquoteBody(field[i..]) == UnquoteBody(field[1..])
        decreases |field| - i
      {
        var c := field[i];
        UnquoteBodyAt(field, i);
        if c == '"' && i == |field| - 1 {
          assert escaped + UnquoteBody(field[i..]) == escaped;
          return;
        } else if c == '"' && field[i + 1] == '"' {
          i := i + 1;
        }
        escaped := escaped + [c];
        i := i + 1;
      }
      assert field[i..] == [];
    }

    /** The loop of readLine: reads up to and including the end of the row. */
    method ScanRow() returns (parts: seq<string>, cur: string)
      requires Valid() && !isEnd
      modifies this
      ensures Valid() && input == old(input) && separator == old(separator)
      ensures Scan(old(Stream()), separator, Start) == LineEnd(parts, cur, Stream(), isEnd, peeked != Nothing)
    {
      ghost var target := Scan(Stream(), separator, Start);
      parts := [];
      var inEscaped := false;
      var wasQuote := false;
      cur := "";
      while true
        invariant Valid() && input == old(input) && separator == old(separator)
        invariant !isEnd
        invariant Scan(Stream(), separator, ScanState(inEscaped, wasQuote, parts, cur)) == target
        decreases |Stream()|
      {
        ghost var s := Stream();
        var ch := Read();
        if isEnd {
          break;
        }
        var stop;
        stop, inEscaped, wasQuote, parts, cur := ScanChar(s, ch as char, inEscaped, wasQuote, parts, cur);
        if stop {
          break;
        }
      }
    }

    /** One pass of the loop of readLine after read() returned c, the first
        character of s. */
    method ScanChar(ghost s: string, c: char, inEscaped: bool, wasQuote: bool, parts: seq<string>, cur: string)
      returns (stop: bool, inEscaped': bool, wasQuote': bool, parts': seq<string>, cur': string)
      requires Valid() && !isEnd && peeked == Nothing
      requires s != [] && s[0] == c && s[1..] == Stream()
      modifies this
      ensures Valid() && input == old(input) && separator == old(separator) && !isEnd
      ensures var step := StepOn(c, PeekOf(old(Stream())), separator, ScanState(inEscaped, wasQuote, parts, cur));
        stop == step.Break? &&
        (step.Next? ==> step.st == ScanState(inEscaped', wasQuote', parts', cur') && Stream() == old(Stream())) &&
        (step.Break? ==> parts' == parts && cur' == cur && (peeked != Nothing) == step.pending) &&
        (step.Break? ==> Stream() == if step.readLf then old(Stream())[1..] else old(Stream()))
    {
      stop, inEscaped', wasQuote', parts', cur' := false, inEscaped, wasQuote, parts, cur;
      if c != '"' {
        wasQuote' := false;
      }
      if c == separator && !inEscaped {
        parts' := parts + [cur];
        cur' := "";
        return;
      } else if c == '"' {
        if !inEscaped && |cur| == 0 {
          inEscaped' := true;
        } else if inEscaped && !wasQuote {
          var p := Peek();
          var next := p.value;
          if next == -1 || next == separator as int || next == '\n' as int || next == '\r' as int {
            inEscaped' := false;
          } else {
            wasQuote' := true;
          }
        } else if inEscaped {
          wasQuote' := false;
        }
      } else if (c == '\n' || c == '\r') && !inEscaped {
        if c == '\r' {
          var p := Peek();
          if p.value == '\n' as int {
            var _ := Read();
          }
        }
        return true, inEscaped', wasQuote', parts', cur';
      }
      cur' := cur + [c];
    }

    /** The loop of readLine that unescapes every field of the row in place. */
    method UnescapeRow(fields: seq<string>) returns (row: seq<string>)
      ensures row == UnescapeAll(fields)
    {
      var result := new string[|fields|](j requires 0 <= j < |fields| => fields[j]);
      for i := 0 to result.Length
        invariant result[..i] == UnescapeAll(fields)[..i]
        invariant result[i..] == fields[i..]
      {
        result[i] := UnescapeField(result[i]);
      }
      row := result[..];
    }

    /** readLine: scans one row, then either reports a final empty line (null
        and the end flag) or splits the row into unescaped fields. */
    method ReadLine() returns (r: Result<Option<seq<string>>>)
      requires Valid() && !isEnd
      modifies this
      ensures Valid() && input == old(input) && separator == old(separator)
      ensures r == ReadLineSpec(old(Stream()), separator).outcome
      ensures Stream() == ReadLineSpec(old(Stream()), separator).rest
      ensures isEnd == ReadLineSpec(old(Stream()), separator).atEnd
    {
      ghost var l := ReadLineSpec(Stream(), separator);
      var parts, cur := ScanRow();
      ghost var e := LineEnd(parts, cur, Stream(), isEnd, peeked != Nothing);
      assert e.atEof ==> e.rest == [] && !e.pending;
      if |parts| == 0 && |cur| == 0 {
        var p := Peek();
        if p.Fail? {
          return Fail(p.exc);
        }
        if p.value == -1 {
          isEnd := true;
          return Ok(None);
        }
      }
      assert parts + [cur] == e.parts + [e.cur];
      var row := UnescapeRow(parts + [cur]);
      assert |parts| == 0 && |cur| == 0 ==> row == [""];
      r := Ok(Some(row));
    }

    /** readNextRow: the next row, or null once the end was reached. */
    method ReadNextRow() returns (r: Result<Option<seq<string>>>)
      requires Valid()
      modifies this
      ensures Valid() && input == old(input) && separator == old(separator)
      ensures old(isEnd) ==> r == Ok(None) && Stream() == old(Stream()) && isEnd
      ensures !old(isEnd) ==> r == ReadLineSpec(old(Stream()), separator).outcome
      ensures !old(isEnd) ==> Stream() == ReadLineSpec(old(Stream()), separator).rest
      ensures !old(isEnd) ==> isEnd == ReadLineSpec(old(Stream()), separator).atEnd
    {
      r := Ok(None);
      if !isEnd {
        r := ReadLine();
      }
    }
}
}
