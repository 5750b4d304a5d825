/** JsonPrettyPrinter: a visitor that prints an element over several lines,
    one list element or object member per line, each nesting level indented by
    one more tab. */
module JsonPretty {
  import opened JavaText
  import opened JsonStrings
  import opened JsonValues

  /** String.split("\n"). */
  function Lines(text: string): seq<string>
  {
    JavaSplit(text, {'\n'})
  }

  /** Every line with a tab in front. */
  function Tabbed(lines: seq<string>): (r: seq<string>)
    ensures |r| == |lines|
  {
    seq(|lines|, k requires 0 <= k < |lines| => "\t" + lines[k])
  }

  /** Every line but the first with a tab in front. */
  function TabbedAfterFirst(lines: seq<string>): (r: seq<string>)
    ensures |r| == |lines|
  {
    seq(|lines|, k requires 0 <= k < |lines| => if k == 0 then lines[k] else "\t" + lines[k])
  }

  /** One list element as visitList writes it: every line of its printed form
      indented. */
  function ListEntry(text: string): string
  {
    Join(Tabbed(Lines(text)), "\n")
  }

  /** One object member as visitObject writes it: a tab, the quoted key, ": ",
      then the lines of the printed value, all but the first indented. */
  function ObjectEntry(key: string, text: string): string
  {
    "\t" + Quote(key) + ": " + Join(TabbedAfterFirst(Lines(text)), "\n")
  }

  /** What the visitor returns for an element. A Double prints its text. */
  function Pretty(j: Json): string
    decreases j, 1
  {
    match j
    case JNull => "null"
    case JBool(b) => if b then "true" else "false"
    case JInt(i) => IntToString(i)
    case JLong(l) => IntToString(l)
    case JDouble(t) => t
    case JString(s) => Quote(s)
    case JList(xs) => if xs == [] then "[]" else "[\n" + Join(ListEntries(xs), ",\n") + "\n]"
    case JObject(ms) => if ms == [] then "{}" else "{\n" + Join(ObjectEntries(ms), ",\n") + "\n}"
  }

  /** The entries of a printed list, one per element. */
  function ListEntries(xs: seq<Json>): (r: seq<string>)
    ensures |r| == |xs|
    decreases JList(xs), 0
  {
    seq(|xs|, i requires 0 <= i < |xs| => ListEntry(Pretty(xs[i])))
  }

  /** The entries of a printed object, one per member. */
  function ObjectEntries(ms: seq<Member>): (r: seq<string>)
    ensures |r| == |ms|
    decreases JObject(ms), 0
  {
    seq(|ms|, i requires 0 <= i < |ms| => ObjectEntry(ms[i].key, Pretty(ms[i].value)))
  }

  /** Every Double's text is non-empty and has no line break, as the output of
      Double.toString always is. */
  predicate Printable(j: Json)
    decreases j
  {
    match j
    case JDouble(t) => t != [] && '\n' !in t
    case JList(xs) => forall i :: 0 <= i < |xs| ==> Printable(xs[i])
    case JObject(ms) => forall i :: 0 <= i < |ms| ==> Printable(ms[i].value)
    case _ => true
  }

  predicate IsScalar(j: Json) {
    !j.JList? && !j.JObject?
  }

  // ---------------------------------------------------------------------------
  // The visitor

  /** accept(this): the printed form of an element. */
  method Visit(j: Json) returns (text: string)
    requires Printable(j)
    ensures text == Pretty(j)
    decreases j, 1
  {
    match j
    case JNull => text := "null";
    case JBool(b) => text := if b then "true" else "false";
    case JInt(i) => text := IntToString(i);
    case JLong(l) => text := IntToString(l);
    case JDouble(t) => text := t;
    case JString(s) => text := VisitString(s);
    case JList(xs) => text := VisitList(xs);
    case JObject(ms) => text := VisitObject(ms);
  }

  /** visitString: the escaped value between quotes. */
  method VisitString(s: string) returns (text: string)
    ensures text == Quote(s)
  {
    var escaped := JsonEscape(s);
    text := "\"" + escaped + "\"";
  }

  /** visitList: "[]" when empty; otherwise "[", a line break, each element's
      lines indented and ended by a line break, with the last break of each
      element replaced by ",\n", the last ",\n" deleted and "\n]" appended. */
  method VisitList(xs: seq<Json>) returns (text: string)
    requires forall i :: 0 <= i < |xs| ==> Printable(xs[i])
    ensures text == Pretty(JList(xs))
    decreases JList(xs), 0
  {
    if |xs| == 0 {
      return "[]";
    }
    ghost var parts := ListEntries(xs);
    var result := "[\n";
    var i := 0;
    while i < |xs|
      invariant 0 <= i <= |xs|
      invariant JoinedSoFar(result, "[\n", parts, i, ",\n")
    {
      ghost var before := result;
      result := VisitListEntry(result, xs, i);
      JoinedStep(before, "[\n", parts, i, ",\n");
      i := i + 1;
    }
    JoinedDone(result, "[\n", parts, ",\n");
    result := result[..|result| - 2];
    text := result + "\n]";
  }

  /** visitObject: "{}" when empty; otherwise "{", a line break, each member as
      tab, quoted key, ": " and the value's lines (all but the first indented),
      separated by ",\n", then "\n}". */
  method VisitObject(ms: seq<Member>) returns (text: string)
    requires forall i :: 0 <= i < |ms| ==> Printable(ms[i].value)
    ensures text == Pretty(JObject(ms))
    decreases JObject(ms), 0
  {
    if |ms| == 0 {
      return "{}";
    }
    ghost var parts := ObjectEntries(ms);
    var result := "{\n";
    var i := 0;
    while i < |ms|
      invariant 0 <= i <= |ms|
      invariant JoinedSoFar(result, "{\n", parts, i, ",\n")
    {
      ghost var before := result;
      result := VisitMember(result, ms, i);
      JoinedStep(before, "{\n", parts, i, ",\n");
      i := i + 1;
    }
    JoinedDone(result, "{\n", parts, ",\n");
    result := result[..|result| - 2];
    text := result + "\n}";
  }

  /** One pass of the loop of visitList: the element's lines, each indented,
      the last line break replaced by ",\n". */
  method VisitListEntry(prefix: string, xs: seq<Json>, i: nat) returns (result: string)
    requires i < |xs| && Printable(xs[i])
    ensures result == prefix + ListEntries(xs)[i] + ",\n"
    decreases xs[i], 2
  {
    var x := xs[i];
    var inner := Visit(x);
    var lines := Lines(inner);
    PrettyShape(x);
    LinesOfShaped(inner);
    result := AppendTabbed(prefix, lines);
    result := result[..|result| - 1];
    result := result + ",\n";
  }

  /** One pass of the loop of visitObject: tab, quoted key, ": ", the value's
      lines with all but the first indented, the last line break replaced by
      ",\n". */
  method VisitMember(prefix: string, ms: seq<Member>, i: nat) returns (result: string)
    requires i < |ms| && Printable(ms[i].value)
    ensures result == prefix + ObjectEntries(ms)[i] + ",\n"
    decreases ms[i].value, 3
  {
    var m := ms[i];
    assert ObjectEntries(ms)[i] == ObjectEntry(m.key, Pretty(m.value));
    var quoted := VisitString(m.key);
    result := AppendMemberValue(prefix + "\t" + quoted + ": ", m.value);
    result := result + ",\n";
  }

  /** The value part of a member: its lines, all but the first indented. */
  method AppendMemberValue(head: string, v: Json) returns (result: string)
    requires Printable(v)
    ensures result == head + Join(TabbedAfterFirst(Lines(Pretty(v))), "\n")
    decreases v, 2
  {
    var inner := Visit(v);
    var lines := Lines(inner);
    PrettyShape(v);
    LinesOfShaped(inner);
    result := AppendTabbedAfterFirst(head, lines);
    result := result[..|result| - 1];
  }

  /** The inner loop of visitList: each line with a tab in front and a line
      break after it. */
  method AppendTabbed(prefix: string, lines: seq<string>) returns (result: string)
    requires lines != []
    ensures |result| > |prefix| && result[..|result| - 1] == prefix + Join(Tabbed(lines), "\n")
  {
    result := prefix;
    var k := 0;
    while k < |lines|
      invariant 0 <= k <= |lines|
      invariant JoinedSoFar(result, prefix, Tabbed(lines), k, "\n")
    {
      JoinedStep(result, prefix, Tabbed(lines), k, "\n");
      result := result + "\t" + lines[k] + "\n";
      k := k + 1;
    }
    JoinedDone(result, prefix, Tabbed(lines), "\n");
  }

  /** The inner loop of visitObject: each line followed by a line break, every
      line but the first with a tab in front. */
  method AppendTabbedAfterFirst(prefix: string, lines: seq<string>) returns (result: string)
    requires lines != []
    ensures |result| > |prefix| && result[..|result| - 1] == prefix + Join(TabbedAfterFirst(lines), "\n")
  {
    result := prefix;
    var k := 0;
    while k < |lines|
      invariant 0 <= k <= |lines|
      invariant JoinedSoFar(result, prefix, TabbedAfterFirst(lines), k, "\n")
    {
      JoinedStep(result, prefix, TabbedAfterFirst(lines), k, "\n");
      ghost var before := result;
      if k > 0 {
        result := result + "\t";
      }
      result := result + lines[k] + "\n";
      assert result == before + TabbedAfterFirst(lines)[k] + "\n";
      k := k + 1;
    }
    JoinedDone(result, prefix, TabbedAfterFirst(lines), "\n");
  }

  // ---------------------------------------------------------------------------
  // Properties of the printed form

  /** The printed form is never empty and never ends in a line break. */
  lemma PrettyShape(j: Json)
    requires Printable(j)
    ensures Pretty(j) != [] && Pretty(j)[|Pretty(j)| - 1] != '\n'
  {
  }

  /** Splitting such a text gives at least one line, the last one non-empty. */
  lemma LinesOfShaped(text: string)
    requires text != [] && text[|text| - 1] != '\n'
    ensures Lines(text) != [] && Lines(text)[|Lines(text)| - 1] != []
  {
    if CountIn(text, {'\n'}) != 0 {
      SplitAllLast(text, '\n');
    }
  }

  /** A scalar prints on one line. */
  lemma ScalarOneLine(j: Json)
    requires IsScalar(j) && Printable(j)
    ensures '\n' !in Pretty(j)
    ensures Lines(Pretty(j)) == [Pretty(j)]
  {
    match j
    case JString(s) =>
      EscapeHasNoRawBreaks(s);
      NoSeparatorNoCount(Pretty(j), {'\n'});
    case JInt(i) =>
      assert '\n' !in NatToDigits(if i < 0 then -i else i);
      NoSeparatorNoCount(Pretty(j), {'\n'});
    case JLong(l) =>
      assert '\n' !in NatToDigits(if l < 0 then -l else l);
      NoSeparatorNoCount(Pretty(j), {'\n'});
    case _ =>
      NoSeparatorNoCount(Pretty(j), {'\n'});
  }

  /** A list of scalars prints as "[", then one line per element, indented by a
      tab and followed by ',' except for the last, then "]". */
  lemma ListOfScalarsLines(xs: seq<Json>)
    requires xs != []
    requires forall i :: 0 <= i < |xs| ==> IsScalar(xs[i]) && Printable(xs[i])
    ensures Lines(Pretty(JList(xs))) ==
      ["["] + seq(|xs|, i requires 0 <= i < |xs| =>
        if i < |xs| - 1 then "\t" + Pretty(xs[i]) + "," else "\t" + Pretty(xs[i])) + ["]"]
  {
    var parts := ListEntries(xs);
    var lines := seq(|xs|, i requires 0 <= i < |xs| =>
      if i < |xs| - 1 then "\t" + Pretty(xs[i]) + "," else "\t" + Pretty(xs[i]));
    forall i | 0 <= i < |xs|
      ensures parts[i] == "\t" + Pretty(xs[i])
      ensures '\n' !in parts[i]
    {
      ScalarOneLine(xs[i]);
      assert Tabbed([Pretty(xs[i])]) == ["\t" + Pretty(xs[i])];
    }
    forall i | 0 <= i < |xs|
      ensures lines[i] == (if i < |parts| - 1 then parts[i] + "," else parts[i])
    {
    }
    assert Pretty(JList(xs)) == ['[', '\n'] + Join(parts, ",\n") + ['\n', ']'];
    WrappedLines('[', parts, ']', lines);
  }

  /** An object whose values are scalars prints as "{", then one line per
      member: a tab, the quoted key, ": " and the value, followed by ',' except
      for the last, then "}". */
  lemma ObjectOfScalarsLines(ms: seq<Member>)
    requires ms != []
    requires forall i :: 0 <= i < |ms| ==> IsScalar(ms[i].value) && Printable(ms[i].value)
    ensures Lines(Pretty(JObject(ms))) ==
      ["{"] + seq(|ms|, i requires 0 <= i < |ms| =>
        var line := "\t" + Quote(ms[i].key) + ": " + Pretty(ms[i].value);
        if i < |ms| - 1 then line + "," else line) + ["}"]
  {
    var parts := ObjectEntries(ms);
    var lines := seq(|ms|, i requires 0 <= i < |ms| =>
        var line := "\t" + Quote(ms[i].key) + ": " + Pretty(ms[i].value);
        if i < |ms| - 1 then line + "," else line);
    forall i | 0 <= i < |ms|
      ensures parts[i] == "\t" + Quote(ms[i].key) + ": " + Pretty(ms[i].value)
    {
      ScalarOneLine(ms[i].value);
      assert TabbedAfterFirst([Pretty(ms[i].value)]) == [Pretty(ms[i].value)];
    }
    forall i | 0 <= i < |ms|
      ensures lines[i] == (if i < |parts| - 1 then parts[i] + "," else parts[i])
    {
    }
    forall i | 0 <= i < |ms|
      ensures '\n' !in parts[i]
    {
      ScalarOneLine(ms[i].value);
      EscapeHasNoRawBreaks(ms[i].key);
    }
    assert Pretty(JObject(ms)) == ['{', '\n'] + Join(parts, ",\n") + ['\n', '}'];
    WrappedLines('{', parts, '}', lines);
  }

  /** The open bracket, a line break, the parts joined with ",\n", a line break
      and the close bracket split into the open line, the parts with ',' after
      all but the last, and the close line. */
  lemma WrappedLines(open: char, parts: seq<string>, close: char, lines: seq<string>)
    requires parts != [] && |lines| == |parts|
    requires open != '\n' && close != '\n'
    requires forall i :: 0 <= i < |parts| ==> lines[i] == (if i < |parts| - 1 then parts[i] + "," else parts[i])
    requires forall i :: 0 <= i < |parts| ==> '\n' !in parts[i]
    ensures Lines([open, '\n'] + Join(parts, ",\n") + ['\n', close]) == [[open]] + lines + [[close]]
  {
    JoinMarked(parts, lines);
    forall i | 0 <= i < |lines|
      ensures '\n' !in lines[i]
    {
      assert '\n' !in parts[i];
    }
    var all := [[open]] + lines + [[close]];
    WrappedJoin(open, lines, close);
    WrappedNoBreak(open, lines, close);
    JavaSplitJoin(all, '\n');
  }

  /** Joining with ",\n" is joining with "\n" after marking all but the last
      part with ','. */
  lemma JoinMarked(parts: seq<string>, lines: seq<string>)
    requires parts != [] && |lines| == |parts|
    requires forall i :: 0 <= i < |parts| ==> lines[i] == (if i < |parts| - 1 then parts[i] + "," else parts[i])
    ensures Join(parts, ",\n") == Join(lines, "\n")
  {
    assert "," + "\n" == ",\n";
    JoinSplitSeparator(parts, ",", "\n");
    var marked := seq(|parts|, i requires 0 <= i < |parts| => if i < |parts| - 1 then parts[i] + "," else parts[i]);
    assert marked == lines;
  }

  lemma WrappedJoin(open: char, lines: seq<string>, close: char)
    requires lines != []
    ensures Join([[open]] + lines + [[close]], "\n") == [open, '\n'] + Join(lines, "\n") + ['\n', close]
  {
    JoinAppend(lines, [close], "\n");
    JoinCons([open], lines + [[close]], "\n");
    assert [[open]] + lines + [[close]] == [[open]] + (lines + [[close]]);
  }

  lemma WrappedNoBreak(open: char, lines: seq<string>, close: char)
    requires open != '\n' && close != '\n'
    requires forall i :: 0 <= i < |lines| ==> '\n' !in lines[i]
    ensures forall k :: 0 <= k < |[[open]] + lines + [[close]]| ==> '\n' !in ([[open]] + lines + [[close]])[k]
  {
    var all := [[open]] + lines + [[close]];
    forall k | 0 <= k < |all|
      ensures '\n' !in all[k]
    {
      if 0 < k < |all| - 1 {
        assert all[k] == lines[k - 1];
      }
    }
  }

  /** Nesting indents by one more tab: the lines of a list element's entry are
      the lines of its printed form, each with a tab in front. */
  lemma EntryIndentsLines(text: string)
    requires text != [] && text[|text| - 1] != '\n'
    ensures Lines(ListEntry(text)) == Tabbed(Lines(text))
  {
    var ls := Lines(text);
    LinesOfShaped(text);
    forall k | 0 <= k < |ls| ensures '\n' !in Tabbed(ls)[k] {
      LinesHaveNoBreak(text, k);
    }
    JavaSplitJoin(Tabbed(ls), '\n');
  }

  lemma LinesHaveNoBreak(text: string, k: nat)
    requires k < |Lines(text)|
    ensures '\n' !in Lines(text)[k]
  {
    if CountIn(text, {'\n'}) != 0 {
      assert Lines(text) <= SplitAll(text, {'\n'});
      assert Lines(text)[k] == SplitAll(text, {'\n'})[k];
    } else {
      if '\n' in text {
        var i :| 0 <= i < |text| && text[i] == '\n';
        CountPositive(text, i, '\n');
      }
    }
  }

  lemma {:induction false} CountPositive(s: string, i: nat, c: char)
    requires i < |s| && s[i] == c
    ensures CountIn(s, {c}) > 0
  {
    if i > 0 {
      CountPositive(s[1..], i - 1, c);
    }
  }
}
