/** CsvWriter: fields are quoted only when they contain the separator or a line
    feed, a line is the escaped fields joined by the separator plus '\n', and a
    writer accepts rows of one class only. */
module CsvWriting {
  import opened Wrappers
  import opened JavaText

  const DEFAULT_SEPARATOR: char := ';'

  /** Every '"' doubled, every other character kept. */
  function DoubleQuotes(s: string): (r: string)
    ensures |r| >= |s|
  {
    if s == [] then "" else DoubleQuotes(s[..|s| - 1]) + QuoteChar(s[|s| - 1])
  }

  function QuoteChar(c: char): string
  {
    if c == '"' then "\"\"" else [c]
  }

  predicate NeedsQuotes(field: string, sep: char)
  {
    sep in field || '\n' in field
  }

  /** escape: a field holding the separator or '\n' is wrapped in quotes with its
      own quotes doubled; any other field is written unchanged. */
  function Escape(field: string, sep: char): (r: string)
  {
    if NeedsQuotes(field, sep) then "\"" + DoubleQuotes(field) + "\"" else field
  }

  /** The fields of a line after escaping. */
  function Escaped(fields: seq<string>, sep: char): (r: seq<string>)
    ensures |r| == |fields|
  {
    seq(|fields|, i requires 0 <= i < |fields| => Escape(fields[i], sep))
  }

  /** writeLine: the escaped fields joined by the separator, then '\n'; with no
      fields, deleting the trailing separator fails. */
  function LineText(fields: seq<string>, sep: char): (r: Result<string>)
  {
    if fields == [] then Fail(StringIndexOutOfBoundsException)
    else Ok(Join(Escaped(fields, sep), [sep]) + "\n")
  }

  lemma DoubleQuotesStep(s: string, k: nat)
    requires k < |s|
    ensures DoubleQuotes(s[..k + 1]) == DoubleQuotes(s[..k]) + QuoteChar(s[k])
    ensures (DoubleQuotes(s[..k]) + s[k..])[|DoubleQuotes(s[..k])|] == s[k]
  {
    assert s[..k + 1][..k] == s[..k];
  }

  /** One pass of the loop of escape: the quote at the cursor, if any, is
      doubled and the cursor moves past the processed character. */
  lemma InsertQuotesStep(field: string, done: nat, before: string, after: string, i: nat)
    requires done < |field|
    requires before == DoubleQuotes(field[..done]) + field[done..]
    requires var j := |DoubleQuotes(field[..done])|;
      (before[j] == '"' ==> after == before[..j] + ['"'] + before[j..] && i == j + 2) &&
      (before[j] != '"' ==> after == before && i == j + 1)
    ensures i == |DoubleQuotes(field[..done + 1])|
    ensures after == DoubleQuotes(field[..done + 1]) + field[done + 1..]
  {
    DoubleQuotesStep(field, done);
    if field[done] == '"' {
      InsertQuoteAt(field, done, before);
    } else {
      assert field[done..] == [field[done]] + field[done + 1..];
    }
  }

  lemma InsertQuoteAt(field: string, done: nat, before: string)
    requires done < |field| && field[done] == '"'
    requires before == DoubleQuotes(field[..done]) + field[done..]
    ensures var j := |DoubleQuotes(field[..done])|;
      before[..j] + ['"'] + before[j..] == DoubleQuotes(field[..done + 1]) + field[done + 1..]
  {
    var d := DoubleQuotes(field[..done]);
    var j := |d|;
    DoubleQuotesStep(field, done);
    assert before[..j] == d;
    assert before[j..] == field[done..] == ['"'] + field[done + 1..];
  }

  lemma {:induction false} DoubleQuotesNoQuote(s: string)
    requires '"' !in s
    ensures DoubleQuotes(s) == s
  {
    if s != [] {
      DoubleQuotesNoQuote(s[..|s| - 1]);
      assert s[..|s| - 1] + [s[|s| - 1]] == s;
    }
  }

  /** The escaped text is never shorter, and a field is changed exactly when it
      needs quotes. */
  lemma EscapeChanges(field: string, sep: char)
    ensures |Escape(field, sep)| >= |field|
    ensures Escape(field, sep) == field <==> !NeedsQuotes(field, sep)
  {
  }

  /** Quoting keeps the line feeds and separators of a field inside the quotes
      and adds no bare '\n' outside them. */
  lemma {:induction false} DoubleQuotesKeeps(s: string, c: char)
    requires c != '"'
    ensures c in DoubleQuotes(s) <==> c in s
  {
    if s != [] {
      DoubleQuotesKeeps(s[..|s| - 1], c);
      assert s == s[..|s| - 1] + [s[|s| - 1]];
    }
  }

  // ---------------------------------------------------------------------------
  // Row objects

  /** A field of a row class carrying @TableElement(index, name). */
  datatype TableElement = TableElement(index: int, name: string, field: string)

  /** A row class: whether it carries @TableRow, and its annotated fields in
      declaration order. */
  datatype RowClass = RowClass(name: string, isTableRow: bool, elements: seq<TableElement>)

  /** A row object: its class, the toString() of each non-null field, and its
      own toString(). */
  datatype RowObject = RowObject(cls: RowClass, values: map<string, string>, text: string)

  /** TreeMap.put keyed by index on a list sorted by index. */
  function InsertByIndex(sorted: seq<TableElement>, e: TableElement): (r: seq<TableElement>)
  {
    if sorted == [] then [e]
    else if e.index < sorted[0].index then [e] + sorted
    else if e.index == sorted[0].index then [e] + sorted[1..]
    else [sorted[0]] + InsertByIndex(sorted[1..], e)
  }

  /** The annotated fields ordered by index, a later field replacing an earlier
      one with the same index (the TreeMap of writeHeader). */
  function ByIndex(elements: seq<TableElement>): seq<TableElement>
  {
    if elements == [] then []
    else InsertByIndex(ByIndex(elements[..|elements| - 1]), elements[|elements| - 1])
  }

  predicate StrictlySorted(es: seq<TableElement>)
  {
    forall i, j :: 0 <= i < j < |es| ==> es[i].index < es[j].index
  }

  /** The field declared last with the given index, if any. */
  function LastWithIndex(es: seq<TableElement>, t: int): Option<TableElement>
  {
    if es == [] then None
    else if es[|es| - 1].index == t then Some(es[|es| - 1])
    else LastWithIndex(es[..|es| - 1], t)
  }

  lemma {:induction false} InsertByIndexMembers(sorted: seq<TableElement>, e: TableElement)
    requires StrictlySorted(sorted)
    ensures forall x :: x in InsertByIndex(sorted, e) <==> x == e || (x in sorted && x.index != e.index)
    decreases |sorted|
  {
    if sorted != [] && e.index > sorted[0].index {
      var tail := sorted[1..];
      InsertByIndexMembers(tail, e);
      assert InsertByIndex(sorted, e) == [sorted[0]] + InsertByIndex(tail, e);
      assert sorted == [sorted[0]] + tail;
    } else if sorted != [] && e.index == sorted[0].index {
      InsertReplacesHead(sorted, e);
    } else if sorted != [] {
      assert InsertByIndex(sorted, e) == [e] + sorted;
      forall x | x in sorted ensures x.index != e.index {
        var k :| 0 <= k < |sorted| && sorted[k] == x;
        assert k == 0 || sorted[0].index < sorted[k].index;
      }
    }
  }

  lemma InsertReplacesHead(sorted: seq<TableElement>, e: TableElement)
    requires StrictlySorted(sorted)
    requires sorted != [] && e.index == sorted[0].index
    ensures forall x :: x in InsertByIndex(sorted, e) <==> x == e || (x in sorted && x.index != e.index)
  {
    var r := [e] + sorted[1..];
    assert InsertByIndex(sorted, e) == r;
    forall x ensures x in r <==> x == e || (x in sorted && x.index != e.index) {
      if x in sorted && x.index != e.index {
        var k :| 0 <= k < |sorted| && sorted[k] == x;
        assert k > 0 && r[k] == x;
      }
      if x in r && x != e {
        var k :| 0 <= k < |r| && r[k] == x;
        assert k > 0 && sorted[k] == x && sorted[0].index < sorted[k].index;
      }
    }
  }

  lemma {:induction false} InsertByIndexSorted(sorted: seq<TableElement>, e: TableElement)
    requires StrictlySorted(sorted)
    ensures StrictlySorted(InsertByIndex(sorted, e))
    decreases |sorted|
  {
    if sorted != [] && e.index > sorted[0].index {
      var tail := sorted[1..];
      InsertByIndexSorted(tail, e);
      HeadBelowInsert(sorted, e);
      ConsSorted(sorted[0], InsertByIndex(tail, e));
    }
  }

  lemma HeadBelowInsert(sorted: seq<TableElement>, e: TableElement)
    requires StrictlySorted(sorted) && sorted != [] && e.index > sorted[0].index
    ensures forall x :: x in InsertByIndex(sorted[1..], e) ==> sorted[0].index < x.index
  {
    InsertByIndexMembers(sorted[1..], e);
    forall x | x in sorted[1..] ensures sorted[0].index < x.index {
      var k :| 0 <= k < |sorted[1..]| && sorted[1..][k] == x;
      assert sorted[k + 1] == x;
    }
  }

  lemma ConsSorted(h: TableElement, rest: seq<TableElement>)
    requires StrictlySorted(rest)
    requires forall x :: x in rest ==> h.index < x.index
    ensures StrictlySorted([h] + rest)
  {
    var r := [h] + rest;
    forall i, j | 0 <= i < j < |r| ensures r[i].index < r[j].index {
      assert r[j] == rest[j - 1];
      if i > 0 {
        assert r[i] == rest[i - 1];
      }
    }
  }

  /** The writer's fields are the annotated fields ordered by index, one per
      index: for each index the field declared last with it (what putting them
      into a TreeMap in declaration order keeps). */
  lemma {:induction false} ByIndexProps(elements: seq<TableElement>)
    ensures StrictlySorted(ByIndex(elements))
    ensures forall x :: x in ByIndex(elements) <==> LastWithIndex(elements, x.index) == Some(x)
  {
    if elements != [] {
      var init := elements[..|elements| - 1];
      var e := elements[|elements| - 1];
      ByIndexProps(init);
      InsertByIndexSorted(ByIndex(init), e);
      InsertByIndexMembers(ByIndex(init), e);
    }
  }

  function Names(es: seq<TableElement>): (r: seq<string>)
    ensures |r| == |es|
  {
    seq(|es|, i requires 0 <= i < |es| => es[i].name)
  }

  /** The value of each header field in a row; a null field makes toString()
      throw. */
  function FieldValues(fields: seq<TableElement>, row: RowObject): (r: Result<seq<string>>)
    ensures r.Ok? ==> |r.value| == |fields|
    ensures r.Ok? <==> forall i :: 0 <= i < |fields| ==> fields[i].field in row.values
    ensures r.Ok? ==> forall i :: 0 <= i < |fields| ==> r.value[i] == row.values[fields[i].field]
    ensures r.Fail? ==> r.exc == NullPointerException
  {
    if forall i :: 0 <= i < |fields| ==> fields[i].field in row.values
    then Ok(seq(|fields|, i requires 0 <= i < |fields| => row.values[fields[i].field]))
    else Fail(NullPointerException)
  }

  class CsvWriter {
    var out: string
    var separator: char
    var rowClass: Option<RowClass>
    var fields: Option<seq<TableElement>>

    constructor (separator: char)
      ensures out == "" && this.separator == separator
      ensures rowClass == None && fields == None
    {
      out := "";
      this.separator := separator;
      rowClass := None;
      fields := None;
    }

    /** escape: a field holding the separator or '\n' is quoted, its quotes
        doubled. */
    method EscapeField(field: string) returns (r: string)
      ensures r == Escape(field, separator)
    {
      var mustBeEscaped := MustBeEscaped(field);
      r := field;
      if mustBeEscaped {
        var str := InsertQuotes(field);
        r := "\"" + str + "\"";
      }
    }

    /** The first loop of escape: looks for the separator or '\n'. */
    method MustBeEscaped(field: string) returns (b: bool)
      ensures b == NeedsQuotes(field, separator)
    {
      b := false;
      var k := 0;
      while k < |field|
        invariant 0 <= k <= |field|
        invariant separator !in field[..k] && '\n' !in field[..k]
      {
        if field[k] == separator || field[k] == '\n' {
          return true;
        }
        assert field[..k + 1] == field[..k] + [field[k]];
        k := k + 1;
      }
      assert field[..k] == field;
    }

    /** The second loop of escape: inserts a '"' in front of every '"'. */
    static method InsertQuotes(field: string) returns (str: string)
      ensures str == DoubleQuotes(field)
    {
      str := field;
      var i := 0;
      ghost var done := 0;
      while i < |str|
        invariant 0 <= done <= |field|
        invariant i == |DoubleQuotes(field[..done])|
        invariant str == DoubleQuotes(field[..done]) + field[done..]
        invariant |str| == i + |field| - done
        decreases |field| - done
      {
        ghost var before := str;
        str, i := QuoteAt(str, i);
        InsertQuotesStep(field, done, before, str, i);
        done := done + 1;
      }
      assert field[..done] == field;
    }

    /** One pass of the second loop of escape. */
    static method QuoteAt(str: string, i: nat) returns (str': string, i': nat)
      requires i < |str|
      ensures str[i] == '"' ==> str' == str[..i] + ['"'] + str[i..] && i' == i + 2
      ensures str[i] != '"' ==> str' == str && i' == i + 1
    {
      str', i' := str, i;
      if str'[i'] == '"' {
        str' := str'[..i'] + ['"'] + str'[i'..];
        i' := i' + 1;
      }
      i' := i' + 1;
    }

    /** writeLine: appends the escaped fields joined by the separator and a line
        feed; with no fields nothing is written and the deletion of the trailing
        separator fails. */
    method WriteLine(fs: seq<string>) returns (r: Result<()>)
      modifies this
      ensures r == LineText(fs, separator).Discard()
      ensures out == old(out) + (if r.Ok? then LineText(fs, separator).value else "")
      ensures separator == old(separator) && rowClass == old(rowClass) && fields == old(fields)
    {
      ghost var parts := Escaped(fs, separator);
      var line := "";
      var i := 0;
      while i < |fs|
        invariant 0 <= i <= |fs|
        invariant JoinedSoFar(line, "", parts, i, [separator])
        invariant unchanged(this)
      {
        var e := EscapeField(fs[i]);
        JoinedStep(line, "", parts, i, [separator]);
        line := line + e + [separator];
        i := i + 1;
      }
      if |line| == 0 {
        return Fail(StringIndexOutOfBoundsException);
      }
      JoinedDone(line, "", parts, [separator]);
      line := line[..|line| - 1];
      line := line + "\n";
      out := out + line;
      r := Ok(());
    }

    /** writeHeader: the annotated fields go into a map keyed by index, then are
        read back in index order as the writer's fields and header names. */
    method WriteHeader(row: RowObject) returns (r: Result<()>)
      modifies this
      ensures fields == Some(ByIndex(row.cls.elements))
      ensures r == LineText(Names(ByIndex(row.cls.elements)), separator).Discard()
      ensures out == old(out) + (if r.Ok? then LineText(Names(ByIndex(row.cls.elements)), separator).value else "")
      ensures separator == old(separator) && rowClass == old(rowClass)
    {
      var declared := row.cls.elements;
      var tree: seq<TableElement> := [];
      var k := 0;
      while k < |declared|
        invariant 0 <= k <= |declared|
        invariant tree == ByIndex(declared[..k])
      {
        assert declared[..k + 1][..k] == declared[..k];
        tree := InsertByIndex(tree, declared[k]);
        k := k + 1;
      }
      assert declared[..k] == declared;
      var headers: seq<string> := [];
      var index := 0;
      while index < |tree|
        invariant 0 <= index <= |tree|
        invariant headers == Names(tree)[..index]
      {
        headers := headers + [tree[index].name];
        index := index + 1;
      }
      assert headers == Names(tree);
      fields := Some(tree);
      r := WriteLine(headers);
    }

    /** writeRow: the first row fixes the class; a row of another class is
        rejected; a @TableRow row is written field by field (with the header
        first, once), any other row as its toString(). */
    method WriteRow(row: RowObject) returns (r: Result<()>)
      modifies this
      ensures rowClass == if old(rowClass).None? then Some(row.cls) else old(rowClass)
      ensures separator == old(separator)
      ensures !SameClass(old(rowClass), row) ==>
        r == Fail(IllegalArgumentException) && out == old(out) && fields == old(fields)
      ensures SameClass(old(rowClass), row) ==>
        var w := RowOutput(old(fields), row, separator);
        r == w.outcome && out == old(out) + w.text && fields == w.fields
    {
      if rowClass.None? {
        rowClass := Some(row.cls);
      }
      if rowClass.value != row.cls {
        return Fail(IllegalArgumentException);
      }
      if row.cls.isTableRow {
        r := WriteTableRow(row);
      } else {
        r := WriteLine([row.text]);
      }
    }

    /** The @TableRow branch of writeRow: the header first if the fields are not
        known yet, then the row's values. */
    method WriteTableRow(row: RowObject) returns (r: Result<()>)
      requires row.cls.isTableRow
      modifies this
      ensures var w := RowOutput(old(fields), row, separator);
        r == w.outcome && out == old(out) + w.text && fields == w.fields
      ensures separator == old(separator) && rowClass == old(rowClass)
    {
      if fields.None? {
        r := WriteFirstTableRow(row);
      } else {
        r := WriteAnnotatedRow(row);
      }
    }

    /** The first @TableRow row: the header, then the row's values unless the
        header failed. */
    method WriteFirstTableRow(row: RowObject) returns (r: Result<()>)
      requires row.cls.isTableRow && fields.None?
      modifies this
      ensures var w := RowOutput(None, row, separator);
        r == w.outcome && out == old(out) + w.text && fields == w.fields
      ensures separator == old(separator) && rowClass == old(rowClass)
    {
      r := WriteHeader(row);
      if r.Fail? {
        return;
      }
      ghost var header := LineText(Names(ByIndex(row.cls.elements)), separator).value;
      ghost var afterHeader := out;
      assert afterHeader == old(out) + header;
      r := WriteAnnotatedRow(row);
      ghost var line := out[|afterHeader|..];
      assert out == afterHeader + line;
      assert out == old(out) + (header + line);
    }

    /** writeAnnotatedRow: the toString() of each header field of the row, in
        header order, written as one line. */
    method WriteAnnotatedRow(row: RowObject) returns (r: Result<()>)
      requires fields.Some?
      modifies this
      ensures FieldValues(old(fields).value, row).Fail? ==>
        r == Fail(NullPointerException) && out == old(out)
      ensures FieldValues(old(fields).value, row).Ok? ==>
        var line := LineText(FieldValues(old(fields).value, row).value, separator);
        r == line.Discard() && out == old(out) + (if r.Ok? then line.value else "")
      ensures separator == old(separator) && rowClass == old(rowClass) && fields == old(fields)
    {
      var fs := fields.value;
      var values: seq<string> := [];
      var index := 0;
      while index < |fs|
        invariant 0 <= index <= |fs|
        invariant |values| == index
        invariant forall i :: 0 <= i < index ==> fs[i].field in row.values && values[i] == row.values[fs[i].field]
      {
        if fs[index].field !in row.values {
          return Fail(NullPointerException);
        }
        values := values + [row.values[fs[index].field]];
        index := index + 1;
      }
      assert values == FieldValues(fs, row).value;
      r := WriteLine(values);
    }
  }

  predicate SameClass(rowClass: Option<RowClass>, row: RowObject)
  {
    rowClass.None? || rowClass.value == row.cls
  }

  /** What writing one row of the writer's class produces: its outcome, the text
      appended and the writer's fields afterwards. */
  datatype Written = Written(outcome: Result<()>, text: string, fields: Option<seq<TableElement>>)

  function RowOutput(fields: Option<seq<TableElement>>, row: RowObject, sep: char): Written
  {
    if !row.cls.isTableRow then
      var line := LineText([row.text], sep);
      Written(line.Discard(), if line.Ok? then line.value else "", fields)
    else
      var fs := if fields.None? then ByIndex(row.cls.elements) else fields.value;
      var header := if fields.None? then LineText(Names(fs), sep) else Ok("");
      if header.Fail? then Written(Fail(header.exc), "", Some(fs))
      else
        var vs := FieldValues(fs, row);
        if vs.Fail? then Written(Fail(vs.exc), header.value, Some(fs))
        else
          var line := LineText(vs.value, sep);
          Written(line.Discard(), header.value + (if line.Ok? then line.value else ""), Some(fs))
  }

  /** A row class without @TableRow is written as one field: its toString(),
      escaped, then '\n'. */
  lemma PlainRowIsOneField(fields: Option<seq<TableElement>>, row: RowObject, sep: char)
    requires !row.cls.isTableRow
    ensures RowOutput(fields, row, sep).outcome == Ok(())
    ensures RowOutput(fields, row, sep).text == Escape(row.text, sep) + "\n"
  {
    assert Escaped([row.text], sep) == [Escape(row.text, sep)];
  }

  /** The first @TableRow row writes the header line then its values line; later
      rows of the class write only their values. */
  lemma HeaderOnlyOnce(row: RowObject, sep: char)
    requires row.cls.isTableRow
    requires var fs := ByIndex(row.cls.elements); fs != [] && FieldValues(fs, row).Ok?
    ensures var w := RowOutput(None, row, sep);
      var w2 := RowOutput(w.fields, row, sep);
      w.outcome.Ok? && w2.outcome.Ok? &&
      w.text == LineText(Names(ByIndex(row.cls.elements)), sep).value + w2.text
  {
  }
}
