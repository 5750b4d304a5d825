/** What CsvReader makes of the text CsvWriter produces, how line breaks end a
    row, and the empty line ended by a lone '\r'. */
module CsvRoundTrip {
  import opened Wrappers
  import opened JavaText
  import opened CsvWriting
  import opened CsvReading

  /** A separator the quoting rules can tell apart from quotes and line breaks. */
  predicate SafeSeparator(sep: char)
  {
    sep != '"' && sep != '\n' && sep != '\r'
  }

  /** A field the reader gives back as written: either the writer quotes it, or
      it holds no '\r' and does not start with '"' (the writer quotes neither). */
  predicate Fits(field: string, sep: char)
  {
    NeedsQuotes(field, sep) || ('\r' !in field && (field == [] || field[0] != '"'))
  }

  predicate AllFit(fields: seq<string>, sep: char)
  {
    forall k :: 0 <= k < |fields| ==> Fits(fields[k], sep)
  }

  /** What may follow a field inside a line: the separator, a line break, or the
      end of the stream. */
  predicate FieldFollow(t: string, sep: char)
  {
    t == [] || t[0] == sep || t[0] == '\n' || t[0] == '\r'
  }

  // ---------------------------------------------------------------------------
  // Quotes

  lemma {:induction false} DoubleQuotesConcat(a: string, b: string)
    ensures DoubleQuotes(a + b) == DoubleQuotes(a) + DoubleQuotes(b)
    decreases |b|
  {
    if b == [] {
      assert a + b == a;
    } else {
      var b', last := b[..|b| - 1], b[|b| - 1];
      LastSplit(a, b);
      DoubleQuotesConcat(a, b');
      calc {
        DoubleQuotes(a + b);
        DoubleQuotes(a + b') + QuoteChar(last);
        DoubleQuotes(a) + DoubleQuotes(b') + QuoteChar(last);
        { assert DoubleQuotes(b) == DoubleQuotes(b') + QuoteChar(last); }
        DoubleQuotes(a) + DoubleQuotes(b);
      }
    }
  }

  lemma LastSplit(a: string, b: string)
    requires b != []
    ensures (a + b)[..|a + b| - 1] == a + b[..|b| - 1]
    ensures (a + b)[|a + b| - 1] == b[|b| - 1]
  {
  }

  lemma DoubleQuotesCons(c: char, s: string)
    ensures DoubleQuotes([c] + s) == QuoteChar(c) + DoubleQuotes(s)
  {
    DoubleQuotesConcat([c], s);
    assert [c][..0] == [];
  }

  /** unquoting after a doubled quote or a plain character */
  lemma UnquoteHead(c: char, x: string)
    requires x != []
    ensures UnquoteBody(QuoteChar(c) + x) == [c] + UnquoteBody(x)
  {
    var b := QuoteChar(c) + x;
    if c == '"' {
      assert b[0] == '"' && b[1] == '"' && b[2..] == x;
    } else {
      assert b[0] == c && b[1..] == x;
    }
  }

  lemma DoubledHead(c: char, r: string)
    ensures DoubleQuotes([c] + r) + "\"" == QuoteChar(c) + (DoubleQuotes(r) + "\"")
  {
    DoubleQuotesCons(c, r);
  }

  /** The reader's unquoting undoes the writer's doubling of quotes. */
  lemma {:induction false} UnquoteDoubled(f: string)
    ensures UnquoteBody(DoubleQuotes(f) + "\"") == f
    decreases |f|
  {
    if f == [] {
      assert DoubleQuotes(f) + "\"" == "\"";
    } else {
      var c, r := f[0], f[1..];
      assert f == [c] + r;
      DoubledHead(c, r);
      UnquoteHead(c, DoubleQuotes(r) + "\"");
      UnquoteDoubled(r);
    }
  }

  lemma EscapeQuoted(field: string, sep: char)
    requires NeedsQuotes(field, sep)
    ensures Escape(field, sep) != [] && Escape(field, sep)[0] == '"'
    ensures Escape(field, sep)[1..] == DoubleQuotes(field) + "\""
  {
    var d := DoubleQuotes(field);
    QuoteWrap(d);
  }

  lemma QuoteWrap(d: string)
    ensures ("\"" + d + "\"")[0] == '"'
    ensures ("\"" + d + "\"")[1..] == d + "\""
  {
    assert "\"" + d + "\"" == ['"'] + (d + "\"");
  }

  /** unescape inverts escape on every field that fits. */
  lemma UnescapeEscape(field: string, sep: char)
    requires Fits(field, sep)
    ensures Unescape(Escape(field, sep)) == field
  {
    if NeedsQuotes(field, sep) {
      EscapeQuoted(field, sep);
      UnquoteDoubled(field);
    }
  }

  lemma UnescapeAllEscaped(fields: seq<string>, sep: char)
    requires AllFit(fields, sep)
    ensures UnescapeAll(Escaped(fields, sep)) == fields
  {
    forall k | 0 <= k < |fields| ensures UnescapeAll(Escaped(fields, sep))[k] == fields[k] {
      UnescapeEscape(fields[k], sep);
    }
  }

  /** A field written with quotes whose text starts and ends with '"' comes
      back without them: escape and unescape do not round-trip it. */
  lemma QuotedLookingFieldChanges()
    ensures Escape("\"a\"", ';') == "\"a\""
    ensures Unescape(Escape("\"a\"", ';')) == "a"
  {
    assert !NeedsQuotes("\"a\"", ';');
    var b := "a\"";
    assert b[1..] == "\"";
  }

  // ---------------------------------------------------------------------------
  // Scanning one line

  lemma {:induction false} PlainScan(f: string, t: string, sep: char, parts: seq<string>, cur: string)
    requires sep !in f && '\n' !in f && '\r' !in f
    requires cur == [] ==> f == [] || f[0] != '"'
    ensures Scan(f + t, sep, ScanState(false, false, parts, cur)) == Scan(t, sep, ScanState(false, false, parts, cur + f))
    decreases |f|
  {
    if f == [] {
      assert f + t == t && cur + f == cur;
    } else {
      var s := f + t;
      assert s[0] == f[0] && s[1..] == f[1..] + t;
      PlainScan(f[1..], t, sep, parts, cur + [f[0]]);
      assert cur + [f[0]] + f[1..] == cur + f;
    }
  }

  lemma OpeningQuote(body: string, sep: char, parts: seq<string>)
    requires SafeSeparator(sep)
    ensures Scan("\"" + body, sep, ScanState(false, false, parts, "")) == Scan(body, sep, ScanState(true, false, parts, "\""))
  {
    var s := "\"" + body;
    assert s[0] == '"' && s[1..] == body;
    assert s != [];
    assert "" + [s[0]] == "\"";
    assert Scan(s, sep, ScanState(false, false, parts, "")) == Scan(s[1..], sep, ScanState(true, false, parts, "" + [s[0]]));
  }

  lemma ClosingQuote(t: string, sep: char, parts: seq<string>, cur: string)
    requires SafeSeparator(sep) && FieldFollow(t, sep)
    ensures Scan("\"" + t, sep, ScanState(true, false, parts, cur)) == Scan(t, sep, ScanState(false, false, parts, cur + "\""))
  {
    assert ("\"" + t)[0] == '"' && ("\"" + t)[1..] == t;
  }

  /** A doubled quote inside a quoted field is kept as two characters. */
  lemma QuotePair(tail: string, sep: char, parts: seq<string>, cur: string)
    requires SafeSeparator(sep)
    ensures Scan("\"\"" + tail, sep, ScanState(true, false, parts, cur)) == Scan(tail, sep, ScanState(true, false, parts, cur + "\"\""))
  {
    var s := "\"\"" + tail;
    var s1 := "\"" + tail;
    assert s[0] == '"' && s[1..] == s1;
    assert s1[0] == '"' && s1[1..] == tail;
    assert Scan(s, sep, ScanState(true, false, parts, cur)) == Scan(s1, sep, ScanState(true, true, parts, cur + "\""));
    assert cur + "\"" + "\"" == cur + "\"\"";
  }

  lemma QuotedChar(c: char, tail: string, sep: char, parts: seq<string>, cur: string)
    requires c != '"'
    ensures Scan([c] + tail, sep, ScanState(true, false, parts, cur)) == Scan(tail, sep, ScanState(true, false, parts, cur + [c]))
  {
    assert ([c] + tail)[0] == c && ([c] + tail)[1..] == tail;
  }

  /** The body of a quoted field, from just after the opening quote to just
      after the closing one. */
  lemma {:induction false} QuotedBodyScan(f: string, t: string, sep: char, parts: seq<string>, cur: string)
    requires SafeSeparator(sep) && FieldFollow(t, sep)
    ensures Scan(DoubleQuotes(f) + "\"" + t, sep, ScanState(true, false, parts, cur))
         == Scan(t, sep, ScanState(false, false, parts, cur + DoubleQuotes(f) + "\""))
    decreases |f|
  {
    if f == [] {
      ClosingQuote(t, sep, parts, cur);
      assert DoubleQuotes(f) == "";
      assert DoubleQuotes(f) + "\"" + t == "\"" + t;
      assert cur + DoubleQuotes(f) + "\"" == cur + "\"";
    } else {
      var c, r := f[0], f[1..];
      assert f == [c] + r;
      QuotedBodyStep(c, r, t, sep, parts, cur);
      QuotedBodyScan(r, t, sep, parts, cur + QuoteChar(c));
      DoubleQuotesCons(c, r);
      assert cur + QuoteChar(c) + DoubleQuotes(r) == cur + DoubleQuotes(f);
    }
  }

  lemma QuotedBodyStep(c: char, r: string, t: string, sep: char, parts: seq<string>, cur: string)
    requires SafeSeparator(sep)
    ensures Scan(DoubleQuotes([c] + r) + "\"" + t, sep, ScanState(true, false, parts, cur))
         == Scan(DoubleQuotes(r) + "\"" + t, sep, ScanState(true, false, parts, cur + QuoteChar(c)))
  {
    DoubleQuotesCons(c, r);
    var tail := DoubleQuotes(r) + "\"" + t;
    assert DoubleQuotes([c] + r) + "\"" + t == QuoteChar(c) + tail;
    if c == '"' {
      QuotePair(tail, sep, parts, cur);
    } else {
      QuotedChar(c, tail, sep, parts, cur);
    }
  }

  /** One field as the writer escapes it scans to exactly its escaped text. */
  lemma FieldScan(f: string, t: string, sep: char, parts: seq<string>)
    requires SafeSeparator(sep) && Fits(f, sep) && FieldFollow(t, sep)
    ensures Scan(Escape(f, sep) + t, sep, ScanState(false, false, parts, "")) == Scan(t, sep, ScanState(false, false, parts, Escape(f, sep)))
  {
    if NeedsQuotes(f, sep) {
      var body := DoubleQuotes(f) + "\"" + t;
      assert Escape(f, sep) + t == "\"" + body;
      OpeningQuote(body, sep, parts);
      QuotedBodyScan(f, t, sep, parts, "\"");
      assert "\"" + DoubleQuotes(f) + "\"" == Escape(f, sep);
    } else {
      PlainScan(f, t, sep, parts, "");
      assert "" + f == f;
    }
  }

  lemma SeparatorScan(r: string, sep: char, parts: seq<string>, cur: string)
    ensures Scan([sep] + r, sep, ScanState(false, false, parts, cur)) == Scan(r, sep, ScanState(false, false, parts + [cur], ""))
  {
    assert ([sep] + r)[1..] == r;
  }

  /** The escaped fields joined by the separator scan to the escaped fields. */
  lemma {:induction false} LineScan(fields: seq<string>, t: string, sep: char, parts: seq<string>)
    requires |fields| >= 1 && AllFit(fields, sep) && SafeSeparator(sep)
    requires t == [] || t[0] == '\n' || t[0] == '\r'
    ensures Scan(Join(Escaped(fields, sep), [sep]) + t, sep, ScanState(false, false, parts, ""))
         == Scan(t, sep, ScanState(false, false, parts + Escaped(fields, sep)[..|fields| - 1], Escaped(fields, sep)[|fields| - 1]))
    decreases |fields|
  {
    if |fields| == 1 {
      OnlyFieldScan(fields, t, sep, parts);
    } else {
      AllFitTail(fields, sep);
      FirstFieldScan(fields, t, sep, parts);
      LineScan(fields[1..], t, sep, parts + [Escape(fields[0], sep)]);
      EscapedSplit(fields, sep, parts);
    }
  }

  lemma AllFitTail(fields: seq<string>, sep: char)
    requires |fields| >= 1 && AllFit(fields, sep)
    ensures AllFit(fields[1..], sep) && Fits(fields[0], sep)
  {
    forall k | 0 <= k < |fields| - 1 ensures Fits(fields[1..][k], sep) {
      assert fields[1..][k] == fields[k + 1];
    }
  }

  lemma OnlyFieldScan(fields: seq<string>, t: string, sep: char, parts: seq<string>)
    requires |fields| == 1 && Fits(fields[0], sep) && SafeSeparator(sep)
    requires t == [] || t[0] == '\n' || t[0] == '\r'
    ensures Scan(Join(Escaped(fields, sep), [sep]) + t, sep, ScanState(false, false, parts, ""))
         == Scan(t, sep, ScanState(false, false, parts + Escaped(fields, sep)[..0], Escaped(fields, sep)[0]))
  {
    var es := Escaped(fields, sep);
    assert Join(es, [sep]) == es[0] == Escape(fields[0], sep);
    FieldScan(fields[0], t, sep, parts);
    assert parts + es[..0] == parts;
  }

  lemma FirstFieldScan(fields: seq<string>, t: string, sep: char, parts: seq<string>)
    requires |fields| >= 2 && Fits(fields[0], sep) && SafeSeparator(sep)
    ensures Scan(Join(Escaped(fields, sep), [sep]) + t, sep, ScanState(false, false, parts, ""))
         == Scan(Join(Escaped(fields[1..], sep), [sep]) + t, sep, ScanState(false, false, parts + [Escape(fields[0], sep)], ""))
  {
    var e0 := Escape(fields[0], sep);
    var j := Join(Escaped(fields[1..], sep), [sep]);
    JoinHead(fields, sep, t);
    FieldScan(fields[0], [sep] + (j + t), sep, parts);
    SeparatorScan(j + t, sep, parts, e0);
  }

  lemma JoinHead(fields: seq<string>, sep: char, t: string)
    requires |fields| >= 2
    ensures Join(Escaped(fields, sep), [sep]) + t == Escape(fields[0], sep) + ([sep] + (Join(Escaped(fields[1..], sep), [sep]) + t))
  {
    var es := Escaped(fields, sep);
    var rest := Escaped(fields[1..], sep);
    assert es == [es[0]] + rest;
    JoinCons(es[0], rest, [sep]);
  }

  lemma EscapedSplit(fields: seq<string>, sep: char, parts: seq<string>)
    requires |fields| >= 2
    ensures var es, rest := Escaped(fields, sep), Escaped(fields[1..], sep);
      parts + [Escape(fields[0], sep)] + rest[..|rest| - 1] == parts + es[..|es| - 1] && rest[|rest| - 1] == es[|es| - 1]
  {
  }

  /** Line breaks outside quotes: "\n" and "\r\n" end the row, and so does a
      lone "\r", which leaves the following character peeked. */
  lemma BreakScan(term: string, more: string, sep: char, parts: seq<string>, cur: string)
    requires SafeSeparator(sep)
    requires term == "\n" || term == "\r\n" || (term == "\r" && (more == [] || more[0] != '\n'))
    ensures Scan(term + more, sep, ScanState(false, false, parts, cur)) == LineEnd(parts, cur, more, false, term == "\r")
  {
    var s := term + more;
    assert s[1..] == term[1..] + more;
    if term == "\r\n" {
      assert s[1..][1..] == more;
    }
  }

  // ---------------------------------------------------------------------------
  // Reading rows back

  lemma WrittenRowScan(fields: seq<string>, sep: char, term: string, more: string)
    requires |fields| >= 1 && AllFit(fields, sep) && SafeSeparator(sep)
    requires term == "\n" || term == "\r\n" || (term == "\r" && (more == [] || more[0] != '\n'))
    ensures Scan(Join(Escaped(fields, sep), [sep]) + (term + more), sep, Start)
         == LineEnd(Escaped(fields, sep)[..|fields| - 1], Escaped(fields, sep)[|fields| - 1], more, false, term == "\r")
  {
    LineScan(fields, term + more, sep, []);
    var es := Escaped(fields, sep);
    assert [] + es[..|fields| - 1] == es[..|fields| - 1];
    BreakScan(term, more, sep, es[..|fields| - 1], es[|fields| - 1]);
  }

  /** A line the writer produced (with any of the three line breaks) reads back
      as the row it was written from. */
  lemma ReadWrittenRow(fields: seq<string>, sep: char, term: string, more: string)
    requires |fields| >= 1 && AllFit(fields, sep) && SafeSeparator(sep)
    requires term == "\n" || term == "\r\n" || (term == "\r" && (more == [] || more[0] != '\n'))
    requires fields != [""]
    ensures ReadLineSpec(Join(Escaped(fields, sep), [sep]) + (term + more), sep) == LineRead(Ok(Some(fields)), more, false)
  {
    var es := Escaped(fields, sep);
    var n := |fields|;
    WrittenRowScan(fields, sep, term, more);
    assert es[..n - 1] + [es[n - 1]] == es;
    UnescapeAllEscaped(fields, sep);
  }

  /** An empty line is the row [""] unless the stream ends right after it. */
  lemma EmptyLine(term: string, more: string, sep: char)
    requires SafeSeparator(sep) && (term == "\n" || term == "\r\n")
    ensures more == [] ==> ReadLineSpec(term + more, sep) == LineRead(Ok(None), [], true)
    ensures more != [] ==> ReadLineSpec(term + more, sep) == LineRead(Ok(Some([""])), more, false)
  {
    BreakScan(term, more, sep, [], "");
  }

  /** An empty stream has no rows. */
  lemma EmptyStream(sep: char)
    ensures ReadLineSpec("", sep) == LineRead(Ok(None), [], true)
    ensures ReadAll("", sep) == Ok([])
  {
  }

  /** The text a writer produces for a sequence of rows. */
  function Document(rows: seq<seq<string>>, sep: char): (d: string)
    requires forall k :: 0 <= k < |rows| ==> rows[k] != []
    ensures rows != [] ==> d != []
  {
    if rows == [] then "" else LineText(rows[0], sep).value + Document(rows[1..], sep)
  }

  /** Reading everything a writer wrote gives back its rows, as long as the
      fields fit and the last row is not the single empty field. */
  lemma {:induction false} ReadAllDocument(rows: seq<seq<string>>, sep: char)
    requires SafeSeparator(sep)
    requires forall k :: 0 <= k < |rows| ==> rows[k] != [] && AllFit(rows[k], sep)
    requires rows != [] ==> rows[|rows| - 1] != [""]
    ensures ReadAll(Document(rows, sep), sep) == Ok(rows)
    decreases |rows|
  {
    if rows == [] {
      EmptyStream(sep);
    } else {
      var more := Document(rows[1..], sep);
      DocumentHead(rows, sep);
      ReadFirstRow(rows, sep);
      ReadAllDocument(rows[1..], sep);
      ReadAllStep(Document(rows, sep), sep, rows[0], more);
      assert [rows[0]] + rows[1..] == rows;
    }
  }

  /** The first line of a document reads back as the first row. */
  lemma ReadFirstRow(rows: seq<seq<string>>, sep: char)
    requires SafeSeparator(sep) && rows != []
    requires forall k :: 0 <= k < |rows| ==> rows[k] != [] && AllFit(rows[k], sep)
    requires rows[|rows| - 1] != [""]
    ensures ReadLineSpec(Document(rows, sep), sep) == LineRead(Ok(Some(rows[0])), Document(rows[1..], sep), false)
  {
    var more := Document(rows[1..], sep);
    DocumentHead(rows, sep);
    if rows[0] == [""] {
      assert |rows| > 1;
      EmptyRowText(sep, more);
      EmptyLine("\n", more, sep);
    } else {
      ReadWrittenRow(rows[0], sep, "\n", more);
    }
  }

  lemma DocumentHead(rows: seq<seq<string>>, sep: char)
    requires rows != [] && forall k :: 0 <= k < |rows| ==> rows[k] != []
    ensures Document(rows, sep) == Join(Escaped(rows[0], sep), [sep]) + ("\n" + Document(rows[1..], sep))
  {
  }

  lemma EmptyRowText(sep: char, more: string)
    ensures Join(Escaped([""], sep), [sep]) + ("\n" + more) == "\n" + more
  {
    assert Escaped([""], sep) == [""];
  }

  /** One more row in front of the rest of a stream. */
  lemma ReadAllStep(s: string, sep: char, row: seq<string>, rest: string)
    requires s != [] && ReadLineSpec(s, sep) == LineRead(Ok(Some(row)), rest, false)
    requires ReadAll(rest, sep).Ok?
    ensures ReadAll(s, sep) == Ok([row] + ReadAll(rest, sep).value)
  {
  }

  // ---------------------------------------------------------------------------
  // An empty line ended by a lone '\r'

  /** As written: the check for the end of the stream peeks a second time after
      the lone '\r' already peeked, which fails. */
  lemma LoneReturnEmptyLineFails(more: string, sep: char)
    requires SafeSeparator(sep) && (more == [] || more[0] != '\n')
    ensures ReadLineSpec("\r" + more, sep).outcome == Fail(IllegalStateException)
  {
    BreakScan("\r", more, sep, [], "");
  }

  /** Two one-character rows around an empty line ended by a lone '\r': reading
      fails at the empty line, while with '\n' it is the row [""]. */
  lemma {:induction false} LoneReturnDocumentFails(x: char, y: char, sep: char)
    requires SafeSeparator(sep) && PlainChar(x, sep) && PlainChar(y, sep)
    ensures ReadAll([x, '\r', '\r', y], sep) == Fail(IllegalStateException)
    ensures ReadAll([x, '\n', '\n', y], sep) == Ok([[[x]], [""], [[y]]])
  {
    assert ReadAll(['\r', y], sep) == Fail(IllegalStateException) by {
      LoneReturnEmptyLineFails([y], sep);
      assert "\r" + [y] == ['\r', y];
    }
    assert ReadAll([x, '\r', '\r', y], sep) == Fail(IllegalStateException) by {
      OneCharRow(x, sep, "\r", ['\r', y]);
      assert [x] + ("\r" + ['\r', y]) == [x, '\r', '\r', y];
    }
    assert ReadAll([y], sep) == Ok([[[y]]]) by {
      LastCharRow(y, sep);
    }
    assert ReadAll(['\n', y], sep) == Ok([[""], [[y]]]) by {
      EmptyLine("\n", [y], sep);
      assert "\n" + [y] == ['\n', y];
      var l := ReadLineSpec(['\n', y], sep);
      assert l == LineRead(Ok(Some([""])), [y], false);
      assert ReadAll(l.rest, sep) == Ok([[[y]]]);
      assert [[""]] + [[[y]]] == [[""], [[y]]];
    }
    assert ReadAll([x, '\n', '\n', y], sep) == Ok([[[x]], [""], [[y]]]) by {
      OneCharRow(x, sep, "\n", ['\n', y]);
      assert [x] + ("\n" + ['\n', y]) == [x, '\n', '\n', y];
      var l := ReadLineSpec([x, '\n', '\n', y], sep);
      assert l == LineRead(Ok(Some([[x]])), ['\n', y], false);
      assert [[[x]]] + [[""], [[y]]] == [[[x]], [""], [[y]]];
    }
  }

  predicate PlainChar(c: char, sep: char)
  {
    c != sep && c != '"' && c != '\n' && c != '\r'
  }

  lemma OneCharRow(x: char, sep: char, term: string, more: string)
    requires SafeSeparator(sep) && PlainChar(x, sep)
    requires term == "\n" || term == "\r\n" || (term == "\r" && (more == [] || more[0] != '\n'))
    ensures ReadLineSpec([x] + (term + more), sep) == LineRead(Ok(Some([[x]])), more, false)
  {
    assert Escaped([[x]], sep) == [[x]];
    assert Join([[x]], [sep]) == [x];
    ReadWrittenRow([[x]], sep, term, more);
  }

  lemma LastCharRow(y: char, sep: char)
    requires SafeSeparator(sep) && PlainChar(y, sep)
    ensures ReadLineSpec([y], sep) == LineRead(Ok(Some([[y]])), [], true)
    ensures ReadAll([y], sep) == Ok([[[y]]])
    ensures ReadLineFixed([y], sep) == LineRead(Ok(Some([[y]])), [], true)
    ensures ReadAllFixed([y], sep) == Ok([[[y]]])
  {
    PlainScan([y], "", sep, [], "");
    assert [y] + "" == [y];
    assert "" + [y] == [y];
    var e := Scan([y], sep, Start);
    assert e == LineEnd([], [y], [], true, false);
    assert e.parts + [e.cur] == [[y]];
    assert Unescape([y]) == [y];
    assert UnescapeAll([[y]]) == [[y]];
  }

  /** Corrected readLine: the end check uses the character already peeked
      after a lone '\r' instead of peeking again. */
  function ReadLineFixed(s: string, sep: char): (l: LineRead)
    ensures l.outcome.Ok?
    ensures |l.rest| <= |s|
    ensures s != [] && l.outcome.value.Some? ==> |l.rest| < |s|
  {
    var e := Scan(s, sep, Start);
    if e.parts == [] && e.cur == [] then
      if e.rest == [] then LineRead(Ok(None), [], true)
      else LineRead(Ok(Some([""])), e.rest, e.atEof)
    else LineRead(Ok(Some(UnescapeAll(e.parts + [e.cur]))), e.rest, e.atEof)
  }

  function ReadAllFixed(s: string, sep: char): Result<seq<seq<string>>>
    decreases |s|
  {
    var l := ReadLineFixed(s, sep);
    if l.outcome.Fail? then Fail(l.outcome.exc)
    else if l.outcome.value.None? then Ok([])
    else if l.atEnd || s == [] then Ok([l.outcome.value.value])
    else
      var more := ReadAllFixed(l.rest, sep);
      if more.Fail? then more else Ok([l.outcome.value.value] + more.value)
  }

  /** The correction only changes what used to fail. */
  lemma ReadLineFixedAgrees(s: string, sep: char)
    ensures ReadLineSpec(s, sep).outcome.Ok? ==> ReadLineFixed(s, sep) == ReadLineSpec(s, sep)
  {
  }

  /** With the correction a lone '\r' ends an empty line as '\n' does. */
  lemma LoneReturnFixed(more: string, sep: char)
    requires SafeSeparator(sep) && (more == [] || more[0] != '\n')
    ensures ReadLineFixed("\r" + more, sep) == ReadLineFixed("\n" + more, sep)
    ensures more != [] ==> ReadLineFixed("\r" + more, sep) == LineRead(Ok(Some([""])), more, false)
  {
    BreakScan("\r", more, sep, [], "");
    BreakScan("\n", more, sep, [], "");
  }

  lemma {:induction false} LoneReturnDocumentFixed(x: char, y: char, sep: char)
    requires SafeSeparator(sep) && PlainChar(x, sep) && PlainChar(y, sep)
    ensures ReadAllFixed([x, '\r', '\r', y], sep) == Ok([[[x]], [""], [[y]]])
  {
    assert ReadAllFixed([y], sep) == Ok([[[y]]]) by {
      LastCharRow(y, sep);
    }
    assert ReadAllFixed(['\r', y], sep) == Ok([[""], [[y]]]) by {
      LoneReturnFixed([y], sep);
      assert "\r" + [y] == ['\r', y];
      var l := ReadLineFixed(['\r', y], sep);
      assert l == LineRead(Ok(Some([""])), [y], false);
      assert [[""]] + [[[y]]] == [[""], [[y]]];
    }
    assert ReadAllFixed([x, '\r', '\r', y], sep) == Ok([[[x]], [""], [[y]]]) by {
      OneCharRow(x, sep, "\r", ['\r', y]);
      assert [x] + ("\r" + ['\r', y]) == [x, '\r', '\r', y];
      ReadLineFixedAgrees([x, '\r', '\r', y], sep);
      var l := ReadLineFixed([x, '\r', '\r', y], sep);
      assert l == LineRead(Ok(Some([[x]])), ['\r', y], false);
      assert [[[x]]] + [[""], [[y]]] == [[[x]], [""], [[y]]];
    }
  }
}
