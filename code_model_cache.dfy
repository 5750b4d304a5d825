/** CodeModelCache: a source file's syntax elements stored one per line as
    "class;level;csv...", depth first, and read back by a stack of the elements
    still open. The cache directory is a map from file names to their lines. */
module CodeModelCaching {
  import opened Wrappers
  import opened JavaText
  import opened SyntaxElements
  import opened SyntaxElementCsv

  const CACHE_DELIMITER: char := ';'
  const SEPARATOR: char := '/'
  const CACHE_SUFFIX: string := ".cache"
  const COMPRESSED_SUFFIX: string := ".cache.zip"
  /** The fully qualified name of the simple AST's SyntaxElement class. */
  const SYNTAX_ELEMENT_CLASS: string :=
    "net.ssehub." + "kernel_haven." + "code_model." + "simple_ast." + "SyntaxElement"

  // ---------------------------------------------------------------------------
  // Cache file names

  /** The path with every separator replaced by '.'. */
  function Dotted(path: string): (r: string)
    ensures |r| == |path|
    ensures forall i :: 0 <= i < |path| ==> r[i] == if path[i] == SEPARATOR then '.' else path[i]
  {
    seq(|path|, i requires 0 <= i < |path| => if path[i] == SEPARATOR then '.' else path[i])
  }

  /** getCacheFile and getCompressedCacheFile: the dotted path with ".cache" or
      ".cache.zip" appended. */
  function CacheFileName(path: string, compress: bool): string
  {
    Dotted(path) + (if compress then COMPRESSED_SUFFIX else CACHE_SUFFIX)
  }

  /** A cache file name has no separator, keeps every other character of the path in
      place, and the compressed name is the plain name with ".zip" appended. */
  lemma CacheFileNameShape(path: string)
    ensures SEPARATOR !in CacheFileName(path, false) && SEPARATOR !in CacheFileName(path, true)
    ensures forall i :: 0 <= i < |path| && path[i] != SEPARATOR ==> CacheFileName(path, false)[i] == path[i]
    ensures CacheFileName(path, true) == CacheFileName(path, false) + ".zip"
    ensures CacheFileName(path, true) != CacheFileName(path, false)
  {
    var plain := CacheFileName(path, false);
    var zipped := CacheFileName(path, true);
    assert |zipped| != |plain|;
  }

  /** Paths without '.' get distinct cache files... */
  lemma CacheFileNameInjective(p: string, q: string, compress: bool)
    requires '.' !in p && '.' !in q
    requires CacheFileName(p, compress) == CacheFileName(q, compress)
    ensures p == q
  {
    var suffix := if compress then COMPRESSED_SUFFIX else CACHE_SUFFIX;
    assert Dotted(p) == CacheFileName(p, compress)[..|p|];
    assert Dotted(q) == CacheFileName(q, compress)[..|q|];
    forall i | 0 <= i < |p| ensures p[i] == q[i] {
      assert p[i] in p && q[i] in q;
    }
  }

  /** ...but a '.' in a path name can make two source files share one. */
  lemma CacheFileNamesCollide()
    ensures CacheFileName("a/b.c", false) == CacheFileName("a.b.c", false)
  {
    assert Dotted("a/b.c") == "a.b.c";
    assert Dotted("a.b.c") == "a.b.c";
  }

  // ---------------------------------------------------------------------------
  // Writing

  /** An element as the cache stores it: its header, the relation of every nested
      element, and the nested elements. */
  datatype ElementTree = ElementTree(data: ElementData, children: seq<ElementTree>)

  /** serializeElement for one element: its class, its nesting level and its CSV,
      separated by ';'. */
  function Line(level: int, d: ElementData): string
  {
    Join([SYNTAX_ELEMENT_CLASS, IntToString(level)] + Csv(d), [CACHE_DELIMITER])
  }

  /** serializeElement for one element: the class name and the level, then each
      CSV field after a delimiter. */
  method WriteLine(level: int, d: ElementData) returns (line: string)
    ensures line == Line(level, d)
  {
    line := SYNTAX_ELEMENT_CLASS + [CACHE_DELIMITER] + IntToString(level);
    JoinCons(SYNTAX_ELEMENT_CLASS, [IntToString(level)], [CACHE_DELIMITER]);
    line := AppendParts([SYNTAX_ELEMENT_CLASS, IntToString(level)], line, Csv(d));
  }

  /** The loop of serializeElement: each part written after a delimiter. */
  method AppendParts(written: seq<string>, line0: string, parts: seq<string>) returns (line: string)
    requires written != [] && line0 == Join(written, [CACHE_DELIMITER])
    ensures line == Join(written + parts, [CACHE_DELIMITER])
  {
    line := line0;
    var i := 0;
    assert written + parts[..0] == written;
    while i < |parts|
      invariant 0 <= i <= |parts|
      invariant line == Join(written + parts[..i], [CACHE_DELIMITER])
    {
      assert written + parts[..i + 1] == (written + parts[..i]) + [parts[i]];
      JoinAppend(written + parts[..i], parts[i], [CACHE_DELIMITER]);
      line := line + [CACHE_DELIMITER] + parts[i];
      i := i + 1;
    }
    assert parts[..i] == parts;
  }

  /** The elements of a forest, depth first: each element before its nested ones. */
  function Preorder(forest: seq<ElementTree>): seq<ElementData>
    decreases forest
  {
    if forest == [] then []
    else [forest[0].data] + Preorder(forest[0].children) + Preorder(forest[1..])
  }

  /** write: every top-level element at level 0, each followed by its nested
      elements one level deeper. */
  function Lines(forest: seq<ElementTree>, level: int): (r: seq<string>)
    ensures |r| == |Preorder(forest)|
    decreases forest
  {
    if forest == [] then []
    else [Line(level, forest[0].data)] + Lines(forest[0].children, level + 1) + Lines(forest[1..], level)
  }

  /** For the elements of a forest in depth-first order, the position of the element
      each is nested in, or parent for the top of the forest, when the forest starts
      at position offset. */
  function ParentsOf(forest: seq<ElementTree>, parent: int, offset: int): (r: seq<int>)
    ensures |r| == |Preorder(forest)|
    decreases forest
  {
    if forest == [] then []
    else
      [parent] + ParentsOf(forest[0].children, offset, offset + 1)
        + ParentsOf(forest[1..], parent, offset + 1 + |Preorder(forest[0].children)|)
  }

  /** The parents of a forest, one tree at a time. */
  lemma ParentsOfUnfolds(forest: seq<ElementTree>, pa: int, offset: int, next: int)
    requires forest != [] && next == offset + 1 + |Preorder(forest[0].children)|
    ensures ParentsOf(forest, pa, offset) == [pa] + ParentsOf(forest[0].children, offset, offset + 1)
      + ParentsOf(forest[1..], pa, next)
  {
  }

  /** The elements of a forest's first tree and of the rest, put together. */
  lemma DatasStitch(forest: seq<ElementTree>, datas: seq<ElementData>, datas2: seq<ElementData>, datas3: seq<ElementData>)
    requires forest != []
    requires datas2 == datas + [forest[0].data] + Preorder(forest[0].children)
    requires datas3 == datas2 + Preorder(forest[1..])
    ensures datas3 == datas + Preorder(forest)
  {
    assert Preorder(forest) == [forest[0].data] + Preorder(forest[0].children) + Preorder(forest[1..]);
    Reassociate(datas, forest[0].data, Preorder(forest[0].children), Preorder(forest[1..]));
  }

  /** The parents of a forest's first tree and of the rest, put together. */
  lemma ParentsStitch(forest: seq<ElementTree>, pa: int, parents: seq<int>, parents2: seq<int>, parents3: seq<int>)
    requires forest != []
    requires parents2 == parents + [pa] + ParentsOf(forest[0].children, |parents|, |parents| + 1)
    requires parents3 == parents2 + ParentsOf(forest[1..], pa, |parents2|)
    ensures parents3 == parents + ParentsOf(forest, pa, |parents|)
  {
    var inner := ParentsOf(forest[0].children, |parents|, |parents| + 1);
    assert |parents2| == |parents| + 1 + |Preorder(forest[0].children)|;
    ParentsOfUnfolds(forest, pa, |parents|, |parents2|);
    Reassociate(parents, pa, inner, ParentsOf(forest[1..], pa, |parents2|));
  }

  lemma Associate<T>(a: seq<T>, b: seq<T>, c: seq<T>)
    ensures a + b + c == a + (b + c)
  {
  }

  lemma Reassociate<T>(a: seq<T>, x: T, b: seq<T>, c: seq<T>)
    ensures a + [x] + b + c == a + ([x] + b + c)
  {
  }

  // ---------------------------------------------------------------------------
  // The cache directory

  /** write: with compression the uncompressed file is deleted and the lines go to
      the compressed one; otherwise they go to the uncompressed one. */
  function Write(store: map<string, seq<string>>, path: string, forest: seq<ElementTree>, compress: bool)
    : map<string, seq<string>>
  {
    if compress then (store - {CacheFileName(path, false)})[CacheFileName(path, true) := Lines(forest, 0)]
    else store[CacheFileName(path, false) := Lines(forest, 0)]
  }

  /** read's choice of file: the uncompressed one when it exists, else the
      compressed one, else nothing is cached. */
  function CachedLines(store: map<string, seq<string>>, path: string): Option<seq<string>>
  {
    if CacheFileName(path, false) in store then Some(store[CacheFileName(path, false)])
    else if CacheFileName(path, true) in store then Some(store[CacheFileName(path, true)])
    else None
  }

  /** Whatever was cached before, read finds the lines last written for a path. */
  lemma ReadFindsWritten(store: map<string, seq<string>>, path: string, forest: seq<ElementTree>, compress: bool)
    ensures CachedLines(Write(store, path, forest, compress), path) == Some(Lines(forest, 0))
  {
    CacheFileNameShape(path);
  }

  // ---------------------------------------------------------------------------
  // Reading one line

  /** line.split(";") drops trailing empty fields (as written); split(";", -1) keeps
      them. */
  datatype FieldSplit = AsWrittenSplit | KeepingSplit

  function Fields(line: string, split: FieldSplit): seq<string>
  {
    if split == AsWrittenSplit then JavaSplit(line, {CACHE_DELIMITER}) else SplitAll(line, {CACHE_DELIMITER})
  }

  /** readLine up to the element's creation: a line with fewer than two fields
      raises ArrayIndexOutOfBoundsException; a level that is no int, a class other
      than SyntaxElement, and any exception of createFromCsv (wrapped by the
      reflective call) become FormatException. */
  function ReadCacheLine(line: string, split: FieldSplit, knownTypes: set<string>): (r: Result<(int, ElementData)>)
    ensures r.Fail? ==> r.exc in {ArrayIndexOutOfBoundsException, FormatException}
  {
    ReadParts(Fields(line, split), knownTypes)
  }

  function ReadParts(parts: seq<string>, knownTypes: set<string>): (r: Result<(int, ElementData)>)
    ensures r.Fail? ==> r.exc in {ArrayIndexOutOfBoundsException, FormatException}
  {
    if |parts| < 2 then Fail(ArrayIndexOutOfBoundsException)
    else
      var level :- IntField(parts[1]);
      if parts[0] != SYNTAX_ELEMENT_CLASS then Fail(FormatException)
      else
        match ElementFromCsv(parts[2..], knownTypes)
        case Ok(d) => Ok((level, d))
        case Fail(_) => Fail(FormatException)
  }

  /** The fields of a line as serializeElement writes them. */
  function LineParts(level: int, d: ElementData): (r: seq<string>)
    ensures |r| == 2 + |Csv(d)|
  {
    [SYNTAX_ELEMENT_CLASS, IntToString(level)] + Csv(d)
  }

  /** A line splits back into its fields: no field holds ';', and (when trailing
      empty fields are dropped) the last field is not empty. */
  predicate SplitsBack(d: ElementData, split: FieldSplit) {
    && (forall k :: 0 <= k < |Csv(d)| ==> CACHE_DELIMITER !in Csv(d)[k])
    && (split == AsWrittenSplit && d.relations != [] ==> d.relations[|d.relations| - 1] != "")
  }

  /** What a line needs to read back: an int level, a readable CSV, and fields that
      split back. */
  predicate LineFits(level: int, d: ElementData, split: FieldSplit, knownTypes: set<string>) {
    IsInt(level) && CsvReadable(d, knownTypes) && SplitsBack(d, split)
  }

  lemma IntTextPlain(n: int)
    ensures CACHE_DELIMITER !in IntToString(n)
  {
  }

  lemma ClassNamePlain()
    ensures CACHE_DELIMITER !in SYNTAX_ELEMENT_CLASS
  {
    assert CACHE_DELIMITER !in "net.ssehub.";
    assert CACHE_DELIMITER !in "kernel_haven.";
    assert CACHE_DELIMITER !in "code_model.";
    assert CACHE_DELIMITER !in "simple_ast.";
    assert CACHE_DELIMITER !in "SyntaxElement";
  }

  lemma PartsPlain(level: int, d: ElementData)
    requires forall k :: 0 <= k < |Csv(d)| ==> CACHE_DELIMITER !in Csv(d)[k]
    ensures forall k :: 0 <= k < |LineParts(level, d)| ==> CACHE_DELIMITER !in LineParts(level, d)[k]
  {
    var parts := LineParts(level, d);
    IntTextPlain(level);
    ClassNamePlain();
    forall k | 0 <= k < |parts| ensures CACHE_DELIMITER !in parts[k] {
      if k >= 2 {
        assert parts[k] == Csv(d)[k - 2];
      }
    }
  }

  /** Splitting a written line gives its fields back. */
  lemma FieldsOfLine(level: int, d: ElementData, split: FieldSplit)
    requires SplitsBack(d, split)
    ensures Fields(Line(level, d), split) == LineParts(level, d)
  {
    var parts := LineParts(level, d);
    PartsPlain(level, d);
    if split == AsWrittenSplit {
      if d.relations == [] {
        assert parts[|parts| - 1] == IntToString(0);
      } else {
        assert parts[|parts| - 1] == d.relations[|d.relations| - 1];
      }
      JavaSplitJoin(parts, CACHE_DELIMITER);
    } else {
      SplitAllJoin(parts, CACHE_DELIMITER);
    }
  }

  lemma PartsRoundTrip(level: int, d: ElementData, knownTypes: set<string>)
    requires IsInt(level) && CsvReadable(d, knownTypes)
    ensures ReadParts(LineParts(level, d), knownTypes) == Ok((level, d))
  {
    var parts := LineParts(level, d);
    ParseIntOfToString(level);
    assert parts[2..] == Csv(d);
    CsvRoundTrip(d, knownTypes);
  }

  /** readLine reads back the line serializeElement wrote. */
  lemma LineRoundTrip(level: int, d: ElementData, split: FieldSplit, knownTypes: set<string>)
    requires LineFits(level, d, split, knownTypes)
    ensures ReadCacheLine(Line(level, d), split, knownTypes) == Ok((level, d))
  {
    FieldsOfLine(level, d, split);
    PartsRoundTrip(level, d, knownTypes);
  }

  /** An element whose last nested element was added without a relation writes an
      empty last field; String.split drops it, and reading the relations runs past
      the fields, so the cache cannot be read back. Keeping trailing empty fields
      reads it back. */
  lemma EmptyLastRelationUnreadable(level: int, h: Header, knownTypes: set<string>)
    requires LineFits(level, ElementData(h, [""]), KeepingSplit, knownTypes)
    ensures ReadCacheLine(Line(level, ElementData(h, [""])), AsWrittenSplit, knownTypes) == Fail(FormatException)
    ensures ReadCacheLine(Line(level, ElementData(h, [""])), KeepingSplit, knownTypes) == Ok((level, ElementData(h, [""])))
  {
    var d := ElementData(h, [""]);
    LineRoundTrip(level, d, KeepingSplit, knownTypes);
    DroppedEmptyRelation(level, d);
    ShortLineFails(level, d, knownTypes);
  }

  /** String.split on the line of an element with the one relation "" loses that
      field. */
  lemma DroppedEmptyRelation(level: int, d: ElementData)
    requires d.relations == [""] && SplitsBack(d, KeepingSplit)
    ensures Fields(Line(level, d), AsWrittenSplit) == LineParts(level, d)[..9]
  {
    var line := Line(level, d);
    var all := LineParts(level, d);
    FieldsOfLine(level, d, KeepingSplit);
    assert SplitAll(line, {CACHE_DELIMITER}) == all;
    assert |all| == 10 && all[9] == "";
    assert CountIn(line, {CACHE_DELIMITER}) == 9;
    assert all[..9][8] == IntToString(1);
    assert all[..9] == all[..|all| - 1];
  }

  /** The line without its last field: the relation loop runs past the end of the
      fields. */
  lemma ShortLineFails(level: int, d: ElementData, knownTypes: set<string>)
    requires d.relations == [""] && CsvReadable(d, knownTypes) && IsInt(level)
    ensures ReadParts(LineParts(level, d)[..9], knownTypes) == Fail(FormatException)
  {
    var short := LineParts(level, d)[..9];
    var csv := short[2..];
    assert forall k :: 0 <= k < FIXED_FIELDS ==> csv[k] == Csv(d)[k];
    assert csv == Csv(d)[..FIXED_FIELDS];
    ParseIntOfToString(level);
    HeaderRoundTrip(d, knownTypes);
    HeaderFromCsvPrefix(csv, Csv(d), knownTypes);
  }
}
