/** CodeModelCache.read and readLine: the lines of a cache file read one by one,
    each element nested under the open element one level up, with a stack of the
    elements still open. A pure reader over positions states what the imperative
    one builds. */
module CodeModelReading {
  import opened Wrappers
  import opened JavaText
  import opened Formulas
  import opened SyntaxElements
  import opened SyntaxElementCsv
  import opened CodeModelCaching

  // ---------------------------------------------------------------------------
  // The reader over positions

  /** The reader's progress: the elements read so far in order, for each the
      position of the element it is nested in (-1 for the file's top level), and
      the positions of the elements on the nesting stack, bottom first. */
  datatype ReadState = ReadState(datas: seq<ElementData>, parents: seq<int>, stack: seq<nat>)

  const START: ReadState := ReadState([], [], [])

  /** The stack after popping while the level is below its size. */
  function Kept<T>(stack: seq<T>, level: nat): (r: seq<T>)
    ensures |r| == if level < |stack| then level else |stack|
    ensures r == stack[..|r|]
  {
    if level < |stack| then stack[..level] else stack
  }

  /** Every element is nested in an element read before it, and the stack holds
      positions of elements read. */
  ghost predicate WellFormed(st: ReadState) {
    && |st.datas| == |st.parents|
    && (forall j :: 0 <= j < |st.parents| ==> -1 <= st.parents[j] < j)
    && (forall k :: 0 <= k < |st.stack| ==> st.stack[k] < |st.datas|)
  }

  /** readLine after the element's creation: pop while the level is below the stack
      size (a negative level empties the stack and pops once more), nest the element
      under the stack top unless the level is 0 (peek on an empty stack), push it.
      Both failures are EmptyStackException. */
  function Attach(st: ReadState, level: int, d: ElementData): (r: Result<ReadState>)
    ensures r.Fail? <==> level < 0 || (level > 0 && st.stack == [])
    ensures r.Fail? ==> r.exc == EmptyStackException
  {
    if level < 0 then Fail(EmptyStackException)
    else
      var kept := Kept(st.stack, level);
      if level > 0 && kept == [] then Fail(EmptyStackException)
      else
        var parent := if level == 0 then -1 else kept[|kept| - 1];
        Ok(ReadState(st.datas + [d], st.parents + [parent], kept + [|st.datas|]))
  }

  /** Placing an element keeps the state well formed. */
  lemma AttachWellFormed(st: ReadState, level: int, d: ElementData)
    requires WellFormed(st) && Attach(st, level, d).Ok?
    ensures WellFormed(Attach(st, level, d).value)
  {
  }

  /** readLine: the line's element, then its place. */
  function ReadStep(st: ReadState, line: string, split: FieldSplit, knownTypes: set<string>): (r: Result<ReadState>)
  {
    var (level, d) :- ReadCacheLine(line, split, knownTypes);
    Attach(st, level, d)
  }

  /** The loop of read: every line in order, stopping at the first exception. */
  function ReadFrom(st: ReadState, lines: seq<string>, split: FieldSplit, knownTypes: set<string>)
    : (r: Result<ReadState>)
    decreases |lines|
  {
    if lines == [] then Ok(st)
    else
      var next :- ReadStep(st, lines[0], split, knownTypes);
      ReadFrom(next, lines[1..], split, knownTypes)
  }

  /** The same loop seen from its start: the state after the first lines, or the
      first exception among them. */
  function ReadPrefix(lines: seq<string>, split: FieldSplit, knownTypes: set<string>): (r: Result<ReadState>)
    decreases |lines|
  {
    if lines == [] then Ok(START)
    else
      var st :- ReadPrefix(lines[..|lines| - 1], split, knownTypes);
      ReadStep(st, lines[|lines| - 1], split, knownTypes)
  }

  /** After the first i lines the reader continues from the state they lead to, or
      has already stopped at their first exception. */
  lemma {:induction false} ReadPrefixFrom(lines: seq<string>, i: nat, split: FieldSplit, knownTypes: set<string>)
    requires i <= |lines|
    ensures ReadPrefix(lines[..i], split, knownTypes).Ok? ==>
      ReadFrom(START, lines, split, knownTypes) == ReadFrom(ReadPrefix(lines[..i], split, knownTypes).value, lines[i..], split, knownTypes)
    ensures ReadPrefix(lines[..i], split, knownTypes).Fail? ==>
      ReadFrom(START, lines, split, knownTypes) == Fail(ReadPrefix(lines[..i], split, knownTypes).exc)
  {
    if i == 0 {
      assert lines[..0] == [] && lines[0..] == lines;
    } else {
      ReadPrefixFrom(lines, i - 1, split, knownTypes);
      assert lines[..i][..i - 1] == lines[..i - 1] && lines[..i][i - 1] == lines[i - 1];
      var before := ReadPrefix(lines[..i - 1], split, knownTypes);
      if before.Ok? {
        assert lines[i - 1..][0] == lines[i - 1] && lines[i - 1..][1..] == lines[i..];
      }
    }
  }

  /** Line i of the lines read from the start, after the state st of the lines
      before it: when it cannot be read, or its element cannot be placed, reading
      the lines stops with that exception; otherwise the lines up to it lead to the
      state Attach gives. */
  lemma ReadPrefixStep(lines: seq<string>, i: nat, st: ReadState, parsed: Result<(int, ElementData)>,
                       split: FieldSplit, knownTypes: set<string>)
    requires i < |lines| && ReadPrefix(lines[..i], split, knownTypes) == Ok(st)
    requires ReadCacheLine(lines[i], split, knownTypes) == parsed
    ensures parsed.Fail? ==> ReadFrom(START, lines, split, knownTypes) == Fail(parsed.exc)
    ensures parsed.Ok? ==>
      && ReadPrefix(lines[..i + 1], split, knownTypes) == Attach(st, parsed.value.0, parsed.value.1)
      && (Attach(st, parsed.value.0, parsed.value.1).Fail? ==>
            ReadFrom(START, lines, split, knownTypes) == Fail(EmptyStackException))
  {
    ReadPrefixLast(lines, i, st, split, knownTypes);
    ReadPrefixFrom(lines, i + 1, split, knownTypes);
    var stepped := ReadStep(st, lines[i], split, knownTypes);
    if parsed.Fail? {
      assert stepped == Fail(parsed.exc);
    } else {
      assert stepped == Attach(st, parsed.value.0, parsed.value.1);
    }
  }

  /** Reading one more line from the start is one more ReadStep. */
  lemma ReadPrefixLast(lines: seq<string>, i: nat, st: ReadState, split: FieldSplit, knownTypes: set<string>)
    requires i < |lines| && ReadPrefix(lines[..i], split, knownTypes) == Ok(st)
    ensures ReadPrefix(lines[..i + 1], split, knownTypes) == ReadStep(st, lines[i], split, knownTypes)
  {
    var upTo := lines[..i + 1];
    assert upTo[..|upTo| - 1] == lines[..i] && upTo[|upTo| - 1] == lines[i];
  }

  /** Once every line is read from the start, reading the lines ends in the same state. */
  lemma ReadPrefixDone(lines: seq<string>, i: nat, st: ReadState, split: FieldSplit, knownTypes: set<string>)
    requires i == |lines| && ReadPrefix(lines[..i], split, knownTypes) == Ok(st)
    ensures ReadFrom(START, lines, split, knownTypes) == Ok(st)
  {
    ReadPrefixFrom(lines, i, split, knownTypes);
    assert lines[|lines|..] == [];
  }

  /** The reader keeps its state well formed, from any well-formed start. */
  lemma {:induction false} ReadFromWellFormed(st: ReadState, lines: seq<string>, split: FieldSplit, knownTypes: set<string>)
    requires WellFormed(st) && ReadFrom(st, lines, split, knownTypes).Ok?
    ensures WellFormed(ReadFrom(st, lines, split, knownTypes).value)
    decreases |lines|
  {
    if lines != [] {
      var (level, d) := ReadCacheLine(lines[0], split, knownTypes).value;
      AttachWellFormed(st, level, d);
      ReadFromWellFormed(ReadStep(st, lines[0], split, knownTypes).value, lines[1..], split, knownTypes);
    }
  }

  // ---------------------------------------------------------------------------
  // Reading back what write wrote

  /** Every line of a forest written from the given level reads back. */
  predicate ForestFits(forest: seq<ElementTree>, level: int, split: FieldSplit, knownTypes: set<string>)
    decreases forest
  {
    forest != [] ==>
      && LineFits(level, forest[0].data, split, knownTypes)
      && ForestFits(forest[0].children, level + 1, split, knownTypes)
      && ForestFits(forest[1..], level, split, knownTypes)
  }

  /** The element a line of the given level is nested in. */
  function ParentAt(st: ReadState, level: nat): int
    requires level <= |st.stack|
  {
    if level == 0 then -1 else st.stack[level - 1]
  }

  /** Each line's own reading, in order. */
  function Parses(lines: seq<string>, split: FieldSplit, knownTypes: set<string>): (r: seq<Result<(int, ElementData)>>)
    ensures |r| == |lines|
    decreases |lines|
  {
    if lines == [] then [] else [ReadCacheLine(lines[0], split, knownTypes)] + Parses(lines[1..], split, knownTypes)
  }

  /** The reader over lines already read one by one: the first exception in line
      order wins, whether the line did not parse or did not fit the stack. */
  function Replay(st: ReadState, entries: seq<Result<(int, ElementData)>>): (r: Result<ReadState>)
    decreases |entries|
  {
    if entries == [] then Ok(st)
    else
      var (level, d) :- entries[0];
      var next :- Attach(st, level, d);
      Replay(next, entries[1..])
  }

  /** Reading lines is replaying their readings. */
  lemma {:induction false} ReadFromReplays(st: ReadState, lines: seq<string>, split: FieldSplit, knownTypes: set<string>)
    ensures ReadFrom(st, lines, split, knownTypes) == Replay(st, Parses(lines, split, knownTypes))
    decreases |lines|
  {
    if lines != [] {
      if ReadStep(st, lines[0], split, knownTypes).Ok? {
        ReadFromReplays(ReadStep(st, lines[0], split, knownTypes).value, lines[1..], split, knownTypes);
      }
    }
  }

  lemma {:induction false} ParsesAppend(a: seq<string>, b: seq<string>, split: FieldSplit, knownTypes: set<string>)
    ensures Parses(a + b, split, knownTypes) == Parses(a, split, knownTypes) + Parses(b, split, knownTypes)
    decreases |a|
  {
    if a == [] {
      assert a + b == b;
    } else {
      assert (a + b)[0] == a[0] && (a + b)[1..] == a[1..] + b;
      ParsesAppend(a[1..], b, split, knownTypes);
    }
  }

  lemma {:induction false} ReplayAppend(st: ReadState, a: seq<Result<(int, ElementData)>>, b: seq<Result<(int, ElementData)>>)
    requires Replay(st, a).Ok?
    ensures Replay(st, a + b) == Replay(Replay(st, a).value, b)
    decreases |a|
  {
    if a == [] {
      assert a + b == b;
    } else {
      assert (a + b)[0] == a[0] && (a + b)[1..] == a[1..] + b;
      var (level, d) := a[0].value;
      ReplayAppend(Attach(st, level, d).value, a[1..], b);
    }
  }

  /** What write puts into the file, as the reader reads each line back. */
  function Entries(forest: seq<ElementTree>, level: int): (r: seq<Result<(int, ElementData)>>)
    ensures |r| == |Preorder(forest)|
    decreases forest
  {
    if forest == [] then []
    else [Ok((level, forest[0].data))] + (Entries(forest[0].children, level + 1) + Entries(forest[1..], level))
  }

  lemma ParseOneLine(level: int, d: ElementData, split: FieldSplit, knownTypes: set<string>)
    requires LineFits(level, d, split, knownTypes)
    ensures Parses([Line(level, d)], split, knownTypes) == [Ok((level, d))]
  {
    LineRoundTrip(level, d, split, knownTypes);
  }

  /** Every line write writes for a readable forest reads back as its element and level. */
  lemma {:induction false} LinesParse(forest: seq<ElementTree>, level: int, split: FieldSplit, knownTypes: set<string>)
    requires ForestFits(forest, level, split, knownTypes)
    ensures Parses(Lines(forest, level), split, knownTypes) == Entries(forest, level)
    decreases forest
  {
    if forest != [] {
      var line := Line(level, forest[0].data);
      var inner := Lines(forest[0].children, level + 1);
      var after := Lines(forest[1..], level);
      ParsesAppend([line] + inner, after, split, knownTypes);
      ParsesAppend([line], inner, split, knownTypes);
      ParseOneLine(level, forest[0].data, split, knownTypes);
      LinesParse(forest[0].children, level + 1, split, knownTypes);
      LinesParse(forest[1..], level, split, knownTypes);
      Associate([Ok((level, forest[0].data))], Entries(forest[0].children, level + 1), Entries(forest[1..], level));
    }
  }

  /** The state after the line of an element at a level the stack reaches. */
  function Pushed(st: ReadState, level: nat, d: ElementData): ReadState
    requires level <= |st.stack|
  {
    ReadState(st.datas + [d], st.parents + [ParentAt(st, level)], st.stack[..level] + [|st.datas|])
  }

  lemma ReplayOne(st: ReadState, level: nat, d: ElementData, rest: seq<Result<(int, ElementData)>>)
    requires level <= |st.stack|
    ensures Replay(st, [Ok((level, d))] + rest) == Replay(Pushed(st, level, d), rest)
  {
    assert ([Ok((level, d))] + rest)[1..] == rest;
  }

  /** Replaying a forest written at a level appends the forest's elements in
      depth-first order, each nested in its parent (the top of the forest in the
      element open one level up), and leaves the stack below that level as it was. */
  lemma {:induction false} ReplayForest(forest: seq<ElementTree>, level: nat, st: ReadState)
    requires level <= |st.stack| && |st.datas| == |st.parents|
    ensures Replay(st, Entries(forest, level)).Ok?
    ensures var end := Replay(st, Entries(forest, level)).value;
      && end.datas == st.datas + Preorder(forest)
      && end.parents == st.parents + ParentsOf(forest, ParentAt(st, level), |st.parents|)
      && level <= |end.stack| && end.stack[..level] == st.stack[..level]
    decreases forest
  {
    if forest == [] {
      assert st.datas + [] == st.datas && st.parents + [] == st.parents;
    } else {
      var t := forest[0];
      var st1 := Pushed(st, level, t.data);
      ReplayForest(t.children, level + 1, st1);
      var inner := Entries(t.children, level + 1);
      var after := Entries(forest[1..], level);
      ReplaySplit(st, level, t.data, inner, after);
      var st2 := Replay(st1, inner).value;
      assert level + 1 <= |st2.stack| && st2.stack[..level + 1] == st1.stack[..level + 1];
      StackStep(st, t.data, st1, st2, level);
      assert |st2.parents| == |st1.parents| + |Preorder(t.children)| == |st2.datas|;
      ReplayForest(forest[1..], level, st2);
      var st3 := Replay(st2, after).value;
      var pa := ParentAt(st, level);
      DatasStitch(forest, st.datas, st2.datas, st3.datas);
      ParentsStitch(forest, pa, st.parents, st2.parents, st3.parents);
      assert Replay(st, Entries(forest, level)) == Ok(st3);
    }
  }

  /** An element's own line, then its descendants' lines, then the lines after them. */
  lemma ReplaySplit(st: ReadState, level: nat, d: ElementData, inner: seq<Result<(int, ElementData)>>,
                    after: seq<Result<(int, ElementData)>>)
    requires level <= |st.stack| && Replay(Pushed(st, level, d), inner).Ok?
    ensures Replay(st, [Ok((level, d))] + (inner + after))
      == Replay(Replay(Pushed(st, level, d), inner).value, after)
  {
    ReplayOne(st, level, d, inner + after);
    ReplayAppend(Pushed(st, level, d), inner, after);
  }

  /** After an element's descendants, the stack below its level is as before it. */
  lemma StackStep(st: ReadState, d: ElementData, st1: ReadState, st2: ReadState, level: nat)
    requires level <= |st.stack| && st1 == Pushed(st, level, d)
    requires level + 1 <= |st2.stack| && st2.stack[..level + 1] == st1.stack[..level + 1]
    ensures st2.stack[..level] == st.stack[..level]
    ensures ParentAt(st2, level) == ParentAt(st, level)
    ensures ParentAt(st1, level + 1) == |st.datas|
  {
    assert st2.stack[..level] == st2.stack[..level + 1][..level];
    if level > 0 {
      assert st2.stack[level - 1] == st2.stack[..level + 1][level - 1];
    }
  }

  /** read of a file that write wrote: the elements come back in depth-first order,
      each nested in the element it was nested in. */
  lemma ReadWritten(forest: seq<ElementTree>, split: FieldSplit, knownTypes: set<string>)
    requires ForestFits(forest, 0, split, knownTypes)
    ensures ReadFrom(START, Lines(forest, 0), split, knownTypes).Ok?
    ensures var end := ReadFrom(START, Lines(forest, 0), split, knownTypes).value;
      end.datas == Preorder(forest) && end.parents == ParentsOf(forest, -1, 0)
  {
    ReadFromReplays(START, Lines(forest, 0), split, knownTypes);
    LinesParse(forest, 0, split, knownTypes);
    ReplayForest(forest, 0, START);
  }

  // ---------------------------------------------------------------------------
  // The reader over objects

  /** A code file: its path and its top-level elements. */
  class SourceFile {
    const path: string
    var elements: seq<SyntaxElement>

    constructor (path: string)
      ensures this.path == path && elements == []
    {
      this.path := path;
      elements := [];
    }

    /** addElement: one more top-level element. */
    method AddElement(element: SyntaxElement)
      modifies this
      ensures elements == old(elements) + [element]
    {
      elements := elements + [element];
    }
  }

  /** The elements at the given positions. */
  function Pick<T>(xs: seq<T>, idx: seq<nat>): (r: seq<T>)
    requires forall i :: 0 <= i < |idx| ==> idx[i] < |xs|
    ensures |r| == |idx| && forall i :: 0 <= i < |idx| ==> r[i] == xs[idx[i]]
  {
    seq(|idx|, i requires 0 <= i < |idx| => xs[idx[i]])
  }

  /** The positions of the elements nested in the element at position k (-1: the
      top-level elements), in reading order. */
  function ChildrenOf(parents: seq<int>, k: int): (r: seq<nat>)
    ensures forall i :: 0 <= i < |r| ==> r[i] < |parents| && parents[r[i]] == k
    ensures forall i, j :: 0 <= i < j < |r| ==> r[i] < r[j]
  {
    if parents == [] then []
    else
      var n := |parents| - 1;
      ChildrenOf(parents[..n], k) + (if parents[n] == k then [n] else [])
  }

  /** Every element nested in the one at position k is among its children. */
  lemma {:induction false} ChildrenOfComplete(parents: seq<int>, k: int, j: nat)
    requires j < |parents| && parents[j] == k
    ensures j in ChildrenOf(parents, k)
  {
    var n := |parents| - 1;
    if j < n {
      ChildrenOfComplete(parents[..n], k, j);
    }
  }

  lemma ChildrenOfAppend(parents: seq<int>, p: int, k: int)
    ensures ChildrenOf(parents + [p], k) == ChildrenOf(parents, k) + (if p == k then [|parents|] else [])
  {
    assert (parents + [p])[..|parents|] == parents;
  }

  /** An element read last has nothing nested in it yet. */
  lemma {:induction false} NoChildrenYet(parents: seq<int>, k: int)
    requires forall j :: 0 <= j < |parents| ==> parents[j] < j
    requires k >= |parents|
    ensures ChildrenOf(parents, k) == []
  {
    if parents != [] {
      NoChildrenYet(parents[..|parents| - 1], k);
    }
  }

  /** What an element shows: its header, its nested elements and their relations. */
  datatype View = View(header: Header, nested: seq<SyntaxElement>, relations: seq<string>)

  ghost function ViewOf(e: SyntaxElement): View
    reads e
  {
    View(e.Head(), e.nested, e.relations)
  }

  ghost function Views(created: seq<SyntaxElement>): (r: seq<View>)
    reads set k | 0 <= k < |created| :: created[k]
    ensures |r| == |created| && forall k :: 0 <= k < |created| ==> r[k] == ViewOf(created[k])
  {
    seq(|created|, k requires 0 <= k < |created| reads set j | 0 <= j < |created| :: created[j] => ViewOf(created[k]))
  }

  /** addNestedElement(element) on what an element shows. */
  function Added(v: View, element: SyntaxElement): View
  {
    View(v.header, v.nested + [element],
         if |v.relations| == |v.nested| then v.relations + [""] else v.relations)
  }

  /** The objects mirror the state read: created[k], showing views[k], is the
      element at position k, with its header, the relations it was read with padded
      to its nested elements, and the elements nested in it in reading order; the
      file's elements tops are the top-level ones. */
  ghost predicate Mirrors(st: ReadState, created: seq<SyntaxElement>, views: seq<View>, tops: seq<SyntaxElement>)
  {
    && WellFormed(st)
    && |created| == |st.datas| && |views| == |created|
    && (forall a, b :: 0 <= a < b < |created| ==> created[a] != created[b])
    && (forall k :: 0 <= k < |views| ==> MirroredAt(st, created, views, k))
    && tops == Pick(created, ChildrenOf(st.parents, -1))
  }

  ghost predicate MirroredAt(st: ReadState, created: seq<SyntaxElement>, views: seq<View>, k: nat)
    requires WellFormed(st) && |created| == |st.datas| && |views| == |created| && k < |views|
  {
    var children := ChildrenOf(st.parents, k);
    && views[k].header == st.datas[k].header
    && views[k].nested == Pick(created, children)
    && views[k].relations == Padded(st.datas[k].relations, |children|)
  }

  /** Elements that mirror a state are valid: each has a relation for every element
      nested in it. */
  lemma MirrorsValid(st: ReadState, created: seq<SyntaxElement>, tops: seq<SyntaxElement>)
    requires Mirrors(st, created, Views(created), tops)
    ensures forall k :: 0 <= k < |created| ==> created[k].Valid()
  {
    forall k | 0 <= k < |created|
      ensures created[k].Valid()
    {
      assert MirroredAt(st, created, Views(created), k);
    }
  }

  /** readLine up to the element's creation: the fields of the line, its level, its
      class, and the element createFromCsv makes from the remaining fields. */
  method CreateFromLine(line: string, split: FieldSplit, knownTypes: set<string>)
    returns (r: Result<(int, SyntaxElement)>)
    ensures ReadCacheLine(line, split, knownTypes)
      == if r.Fail? then Fail(r.exc) else Ok((r.value.0, ElementData(r.value.1.Head(), r.value.1.relations)))
    ensures r.Ok? ==> fresh(r.value.1) && r.value.1.Valid() && r.value.1.nested == []
  {
    var parts := Fields(line, split);
    if |parts| < 2 {
      return Fail(ArrayIndexOutOfBoundsException);
    }
    var levelField := IntField(parts[1]);
    if levelField.Fail? {
      return Fail(FormatException);
    }
    if parts[0] != SYNTAX_ELEMENT_CLASS {
      return Fail(FormatException);
    }
    var made := CsvToElement(parts[2..], knownTypes);
    if made.Fail? {
      return Fail(FormatException);
    }
    return Ok((levelField.value, made.value));
  }

  /** readLine after the element's creation: the elements above its level are
      popped, it is added to the file (level 0) or to the element on top of the
      stack, and pushed. A negative level pops the empty stack and a positive one
      peeks at it: EmptyStackException, before anything changes. The stack is
      returned. */
  method Nest(level: int, created: SyntaxElement, nesting: seq<SyntaxElement>, result: SourceFile)
    returns (r: Result<seq<SyntaxElement>>)
    requires forall k :: 0 <= k < |nesting| ==> nesting[k].Valid()
    modifies result, set k | 0 <= k < |nesting| :: nesting[k]
    ensures r.Fail? <==> level < 0 || (level > 0 && nesting == [])
    ensures r.Fail? ==>
      && r.exc == EmptyStackException
      && unchanged(result)
      && forall k :: 0 <= k < |nesting| ==> unchanged(nesting[k])
    ensures r.Ok? ==> r.value == Kept(nesting, level) + [created]
    ensures r.Ok? && level == 0 ==>
      && result.elements == old(result.elements) + [created]
      && forall k :: 0 <= k < |nesting| ==> unchanged(nesting[k])
    ensures r.Ok? && level > 0 ==>
      && var top := Kept(nesting, level)[|Kept(nesting, level)| - 1];
      && top.nested == old(top.nested) + [created]
      && top.relations == (if |old(top.relations)| == |old(top.nested)| then old(top.relations) + [""] else old(top.relations))
      && top.Head() == old(top.Head())
      && unchanged(result)
      && forall k :: 0 <= k < |nesting| && nesting[k] != top ==> unchanged(nesting[k])
  {
    if level < 0 || (level > 0 && nesting == []) {
      return Fail(EmptyStackException);
    }
    var kept := Kept(nesting, level);
    if level == 0 {
      result.AddElement(created);
    } else {
      kept[|kept| - 1].AddNestedElement(created);
    }
    r := Ok(kept + [created]);
  }

  /** readLine after the element's creation, with the state it mirrors: nesting the
      element made from the line's data d fails exactly when Attach does, and on
      success the objects, the file and the stack mirror the state after the line. */
  method NestMirrored(level: int, e: SyntaxElement, nesting: seq<SyntaxElement>, result: SourceFile,
                      ghost d: ElementData, ghost st: ReadState, ghost created: seq<SyntaxElement>)
    returns (r: Result<seq<SyntaxElement>>)
    requires Mirrors(st, created, Views(created), result.elements)
    requires nesting == Pick(created, st.stack)
    requires e !in created && e.nested == [] && d == ElementData(e.Head(), e.relations)
    modifies result, set k | 0 <= k < |created| :: created[k]
    ensures r.Fail? <==> Attach(st, level, d).Fail?
    ensures r.Fail? ==> r.exc == Attach(st, level, d).exc
    ensures r.Ok? ==>
      && Attach(st, level, d).Ok?
      && Mirrors(Attach(st, level, d).value, created + [e], Views(created + [e]), result.elements)
      && r.value == Pick(created + [e], Attach(st, level, d).value.stack)
  {
    MirrorsValid(st, created, result.elements);
    ghost var views := Views(created);
    ghost var tops := result.elements;
    r := Nest(level, e, nesting, result);
    if r.Fail? {
      return;
    }
    ghost var p := NewParent(st, level, d);
    PickKept(created, st.stack, level);
    assert level > 0 ==> Kept(nesting, level)[|Kept(nesting, level)| - 1] == created[p];
    ghost var made := created + [e];
    ghost var views2 := Views(made);
    forall k | 0 <= k < |created| && k != p
      ensures views2[k] == views[k]
    {
    }
    MirrorsStep(st, created, views, tops, level, d, e, views2, result.elements);
    PickExtend(created, e, Kept(st.stack, level));
  }

  /** ReadStep on a line is its reading followed by Attach. */
  lemma ReadStepIs(st: ReadState, line: string, split: FieldSplit, knownTypes: set<string>)
    ensures var parsed := ReadCacheLine(line, split, knownTypes);
      ReadStep(st, line, split, knownTypes)
        == if parsed.Fail? then Fail(parsed.exc) else Attach(st, parsed.value.0, parsed.value.1)
  {
  }

  /** The position of the element a line of the given level is nested in. */
  function NewParent(st: ReadState, level: int, d: ElementData): int
    requires Attach(st, level, d).Ok?
  {
    Attach(st, level, d).value.parents[|st.parents|]
  }

  lemma PickExtend<T>(xs: seq<T>, x: T, idx: seq<nat>)
    requires forall i :: 0 <= i < |idx| ==> idx[i] < |xs|
    ensures Pick(xs + [x], idx) == Pick(xs, idx)
    ensures Pick(xs + [x], idx + [|xs|]) == Pick(xs, idx) + [x]
  {
    assert Pick(xs + [x], idx + [|xs|])[|idx|] == x;
  }

  lemma PickKept<T>(xs: seq<T>, idx: seq<nat>, level: nat)
    requires forall i :: 0 <= i < |idx| ==> idx[i] < |xs|
    ensures Pick(xs, Kept(idx, level)) == Kept(Pick(xs, idx), level)
  {
  }

  /** One line read keeps the objects mirroring the state read: the element made
      is the next position, nested where Attach puts it. */
  lemma MirrorsStep(st: ReadState, created: seq<SyntaxElement>, views: seq<View>, tops: seq<SyntaxElement>,
                    level: int, d: ElementData, e: SyntaxElement, views2: seq<View>, tops2: seq<SyntaxElement>)
    requires Mirrors(st, created, views, tops) && Attach(st, level, d).Ok? && e !in created
    requires |views2| == |created| + 1 && views2[|created|] == View(d.header, [], d.relations)
    requires forall k :: 0 <= k < |created| && k != NewParent(st, level, d) ==> views2[k] == views[k]
    requires forall k :: 0 <= k < |created| && k == NewParent(st, level, d) ==> views2[k] == Added(views[k], e)
    requires tops2 == if NewParent(st, level, d) == -1 then tops + [e] else tops
    ensures Mirrors(Attach(st, level, d).value, created + [e], views2, tops2)
  {
    AttachWellFormed(st, level, d);
    var next := Attach(st, level, d).value;
    var p := NewParent(st, level, d);
    assert next.datas == st.datas + [d] && next.parents == st.parents + [p];
    forall k | 0 <= k < |views2|
      ensures MirroredAt(next, created + [e], views2, k)
    {
      if k < |created| {
        assert MirroredAt(st, created, views, k);
      }
      MirroredStepAt(st, next, created, views, d, e, views2, p, k);
    }
    ChildrenOfAppend(st.parents, p, -1);
    PickExtend(created, e, ChildrenOf(st.parents, -1));
  }

  /** MirrorsStep at one position k: the new element mirrors its data with nothing
      nested yet, its parent p gains it, and every other position is as before. */
  lemma MirroredStepAt(st: ReadState, next: ReadState, created: seq<SyntaxElement>, views: seq<View>,
                       d: ElementData, e: SyntaxElement, views2: seq<View>, p: int, k: nat)
    requires WellFormed(st) && WellFormed(next)
    requires |created| == |st.datas| && |views| == |created| && |views2| == |created| + 1 && k < |views2|
    requires next.datas == st.datas + [d] && next.parents == st.parents + [p]
    requires k < |created| ==> MirroredAt(st, created, views, k)
    requires k == |created| ==> views2[k] == View(d.header, [], d.relations)
    requires k < |created| && k != p ==> views2[k] == views[k]
    requires k < |created| && k == p ==> views2[k] == Added(views[k], e)
    ensures MirroredAt(next, created + [e], views2, k)
  {
    ChildrenOfAppend(st.parents, p, k);
    if k == |created| {
      NoChildrenYet(st.parents, k);
    } else {
      PickExtend(created, e, ChildrenOf(st.parents, k));
      if k == p {
        PaddedStep(st.datas[k].relations, |ChildrenOf(st.parents, k)|);
      }
    }
  }

  /** readLine up to the element's creation, on line i after the state st of the
      lines before it: an exception is the one reading the lines stops with; on
      success the new element carries the line's data d, and placing it either
      raises the exception reading stops with or gives the state after line i. */
  method CreateAt(lines: seq<string>, i: nat, split: FieldSplit, knownTypes: set<string>, ghost st: ReadState)
    returns (r: Result<(int, SyntaxElement)>, ghost d: ElementData)
    requires i < |lines| && ReadPrefix(lines[..i], split, knownTypes) == Ok(st)
    ensures r.Fail? ==> ReadFrom(START, lines, split, knownTypes) == Fail(r.exc)
    ensures r.Ok? ==>
      var (level, e) := r.value;
      && fresh(e) && e.nested == [] && d == ElementData(e.Head(), e.relations)
      && (Attach(st, level, d).Fail? ==> ReadFrom(START, lines, split, knownTypes) == Fail(EmptyStackException))
      && ReadPrefix(lines[..i + 1], split, knownTypes) == Attach(st, level, d)
  {
    r := CreateFromLine(lines[i], split, knownTypes);
    if r.Fail? {
      d := ElementData(Header(-1, -1, UNKNOWN_FILE, None, True, Named("")), []);
      ReadPrefixStep(lines, i, st, Fail(r.exc), split, knownTypes);
    } else {
      d := ElementData(r.value.1.Head(), r.value.1.relations);
      ReadPrefixStep(lines, i, st, Ok((r.value.0, d)), split, knownTypes);
    }
  }

  /** read: the lines of the cache file for the path (the uncompressed one when both
      exist) read one by one; no cache file gives no source file. The source file
      read holds, through the elements created, exactly what the reader over
      positions reads, and the first exception of that reader is the one raised. */
  method Read(store: map<string, seq<string>>, path: string, split: FieldSplit, knownTypes: set<string>)
    returns (r: Result<Option<SourceFile>>, ghost created: seq<SyntaxElement>)
    ensures CachedLines(store, path).None? ==> r == Ok(None)
    ensures CachedLines(store, path).Some? ==>
      var spec := ReadFrom(START, CachedLines(store, path).value, split, knownTypes);
      && (r.Fail? <==> spec.Fail?)
      && (r.Fail? ==> r.exc == spec.exc)
      && (r.Ok? ==>
           && r.value.Some? && fresh(r.value.value) && r.value.value.path == path
           && (forall k :: 0 <= k < |created| ==> fresh(created[k]) && created[k].Valid())
           && Mirrors(spec.value, created, Views(created), r.value.value.elements))
  {
    var cached := CachedLines(store, path);
    if cached.None? {
      return Ok(None), [];
    }
    var file;
    file, created := ReadLines(cached.value, path, split, knownTypes);
    if file.Fail? {
      return Fail(file.exc), created;
    }
    return Ok(Some(file.value)), created;
  }

  /** One line of read: the element it describes is created and nested, or the
      exception the reader over positions raises at that line is raised. */
  method ReadAt(lines: seq<string>, i: nat, nesting: seq<SyntaxElement>, file: SourceFile,
                split: FieldSplit, knownTypes: set<string>, ghost st: ReadState, ghost created: seq<SyntaxElement>)
    returns (r: Result<(SyntaxElement, seq<SyntaxElement>)>, ghost st2: ReadState)
    requires i < |lines| && ReadPrefix(lines[..i], split, knownTypes) == Ok(st)
    requires Mirrors(st, created, Views(created), file.elements)
    requires nesting == Pick(created, st.stack)
    modifies file, set k | 0 <= k < |created| :: created[k]
    ensures r.Fail? ==> ReadFrom(START, lines, split, knownTypes) == Fail(r.exc)
    ensures r.Ok? ==>
      var (e, stack) := r.value;
      && fresh(e)
      && ReadPrefix(lines[..i + 1], split, knownTypes) == Ok(st2)
      && Mirrors(st2, created + [e], Views(created + [e]), file.elements)
      && stack == Pick(created + [e], st2.stack)
  {
    st2 := st;
    var parsed;
    ghost var d;
    parsed, d := CreateAt(lines, i, split, knownTypes, st);
    if parsed.Fail? {
      return Fail(parsed.exc), st2;
    }
    var (level, e) := parsed.value;
    var stack := NestMirrored(level, e, nesting, file, d, st, created);
    if stack.Fail? {
      return Fail(stack.exc), st2;
    }
    st2 := Attach(st, level, d).value;
    r := Ok((e, stack.value));
  }

  /** The loop of read over the lines of one cache file: a fresh source file whose
      elements mirror what the reader over positions reads, or its first exception. */
  method ReadLines(lines: seq<string>, path: string, split: FieldSplit, knownTypes: set<string>)
    returns (r: Result<SourceFile>, ghost created: seq<SyntaxElement>)
    ensures r.Fail? <==> ReadFrom(START, lines, split, knownTypes).Fail?
    ensures r.Fail? ==> r.exc == ReadFrom(START, lines, split, knownTypes).exc
    ensures r.Ok? ==>
      && fresh(r.value) && r.value.path == path
      && (forall k :: 0 <= k < |created| ==> fresh(created[k]) && created[k].Valid())
      && Mirrors(ReadFrom(START, lines, split, knownTypes).value, created, Views(created), r.value.elements)
  {
    var file := new SourceFile(path);
    var nesting: seq<SyntaxElement> := [];
    ghost var st := START;
    created := [];
    var i := 0;
    assert lines[..i] == [];
    while i < |lines|
      invariant 0 <= i <= |lines|
      invariant fresh(file) && file.path == path
      invariant forall k :: 0 <= k < |created| ==> fresh(created[k])
      invariant Mirrors(st, created, Views(created), file.elements)
      invariant nesting == Pick(created, st.stack)
      invariant ReadPrefix(lines[..i], split, knownTypes) == Ok(st)
    {
      var step;
      ghost var st2;
      step, st2 := ReadAt(lines, i, nesting, file, split, knownTypes, st, created);
      if step.Fail? {
        return Fail(step.exc), created;
      }
      st, created, nesting := st2, created + [step.value.0], step.value.1;
      i := i + 1;
    }
    ReadPrefixDone(lines, i, st, split, knownTypes);
    MirrorsValid(st, created, file.elements);
    return Ok(file), created;
  }
}
