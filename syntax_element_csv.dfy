/** SyntaxElementCsvUtil: a syntax element as a row of CSV fields
    [lineStart, lineEnd, path, condition or "null", presence condition, type,
    number of relations, relation...], and the way back. */
module SyntaxElementCsv {
  import opened Wrappers
  import opened JavaText
  import opened Formulas
  import opened FormulaParsing
  import opened SyntaxElements

  const LITERAL_PREFIX: string := "Literal: "
  const ERROR_PREFIX: string := "Error: "
  const NULL_CONDITION: string := "null"

  /** The number of fields before the relations. */
  const FIXED_FIELDS: nat := 7

  // ---------------------------------------------------------------------------
  // Fields

  /** The text elementToCsv writes for a type: the two prefixes, or the name. */
  function TypeText(t: ElementType): string
  {
    match t
    case Literal(c) => LITERAL_PREFIX + c
    case Error(m) => ERROR_PREFIX + m
    case Named(n) => n
  }

  /** The type csvToElement reads: the two prefixes, else a name that
      SyntaxElementTypes.getByName knows (the known names are a parameter), else a
      FormatException. */
  function ReadType(text: string, knownTypes: set<string>): (r: Result<ElementType>)
    ensures r.Fail? <==>
      !StartsWith(text, LITERAL_PREFIX) && !StartsWith(text, ERROR_PREFIX) && text !in knownTypes
    ensures r.Fail? ==> r.exc == FormatException
    ensures r.Ok? ==> TypeText(r.value) == text
  {
    if StartsWith(text, LITERAL_PREFIX) then Ok(Literal(text[|LITERAL_PREFIX|..]))
    else if StartsWith(text, ERROR_PREFIX) then Ok(Error(text[|ERROR_PREFIX|..]))
    else if text in knownTypes then Ok(Named(text))
    else Fail(FormatException)
  }

  /** A type whose text reads back as itself: a name must be known and must not
      look like a literal or an error. */
  predicate TypeReadable(t: ElementType, knownTypes: set<string>) {
    t.Named? ==>
      t.name in knownTypes && !StartsWith(t.name, LITERAL_PREFIX) && !StartsWith(t.name, ERROR_PREFIX)
  }

  lemma TypeRoundTrip(t: ElementType, knownTypes: set<string>)
    requires TypeReadable(t, knownTypes)
    ensures ReadType(TypeText(t), knownTypes) == Ok(t)
  {
    var text := TypeText(t);
    match t
    case Literal(c) =>
      assert text[..|LITERAL_PREFIX|] == LITERAL_PREFIX;
      assert text[|LITERAL_PREFIX|..] == c;
    case Error(m) =>
      assert text[0] == 'E';
      assert text[..|ERROR_PREFIX|] == ERROR_PREFIX;
      assert text[|ERROR_PREFIX|..] == m;
    case Named(n) =>
  }

  /** The condition field: "null" for an element without a condition. */
  function ConditionText(c: Option<Formula>): string
  {
    if c.Some? then ToString(c.value) else NULL_CONDITION
  }

  /** readFormula without a cache: a parse error becomes a FormatException. */
  function ReadFormula(text: string): (r: Result<Formula>)
    ensures r.Fail? ==> r.exc == FormatException
    ensures r.Ok? <==> Parse(text).Ok?
    ensures r.Ok? ==> r.value == Parse(text).value
  {
    match Parse(text)
    case Ok(f) => Ok(f)
    case Fail(_) => Fail(FormatException)
  }

  function ReadCondition(text: string): (r: Result<Option<Formula>>)
    ensures text == NULL_CONDITION ==> r == Ok(None)
  {
    if text == NULL_CONDITION then Ok(None)
    else
      var f :- ReadFormula(text);
      Ok(Some(f))
  }

  /** Integer.parseInt, whose NumberFormatException becomes a FormatException. */
  function IntField(text: string): (r: Result<int>)
    ensures r.Ok? <==> ParseInt(text).Some?
    ensures r.Ok? ==> r.value == ParseInt(text).value
    ensures r.Fail? ==> r.exc == FormatException
  {
    match ParseInt(text)
    case Some(v) => Ok(v)
    case None => Fail(FormatException)
  }

  // ---------------------------------------------------------------------------
  // A formula cache (readFormula with a map)

  /** A cache only ever holds what parsing its key gives. */
  ghost predicate CacheSound(cache: Option<map<string, Formula>>) {
    cache.Some? ==> forall t :: t in cache.value ==> Parse(t) == Ok(cache.value[t])
  }

  /** readFormula with an optional cache: a hit is returned as it is, a miss is
      parsed and stored. */
  function ReadFormulaCached(text: string, cache: Option<map<string, Formula>>)
    : (r: Result<(Formula, Option<map<string, Formula>>)>)
    ensures r.Ok? ==> (r.value.1.Some? <==> cache.Some?)
    ensures r.Ok? && cache.Some? ==> cache.value.Keys <= r.value.1.value.Keys && text in r.value.1.value
  {
    if cache.Some? && text in cache.value then Ok((cache.value[text], cache))
    else
      var f :- ReadFormula(text);
      Ok((f, if cache.Some? then Some(cache.value[text := f]) else None))
  }

  /** With a sound cache, reading through the cache gives what parsing gives, and
      the cache stays sound. */
  lemma CachedReadAgrees(text: string, cache: Option<map<string, Formula>>)
    requires CacheSound(cache)
    ensures ReadFormulaCached(text, cache).Ok? <==> ReadFormula(text).Ok?
    ensures ReadFormulaCached(text, cache).Ok? ==>
      ReadFormulaCached(text, cache).value.0 == ReadFormula(text).value
      && CacheSound(ReadFormulaCached(text, cache).value.1)
  {
    if cache.Some? && text in cache.value {
      assert Parse(text) == Ok(cache.value[text]);
    } else if ReadFormula(text).Ok? && cache.Some? {
      var updated := cache.value[text := ReadFormula(text).value];
      forall t | t in updated ensures Parse(t) == Ok(updated[t]) {
        if t != text {
          assert t in cache.value;
        }
      }
    }
  }

  // ---------------------------------------------------------------------------
  // elementToCsv and csvToElement

  /** The seven fixed fields of an element with n nested elements. */
  function HeaderCsv(h: Header, n: int): (r: seq<string>)
    ensures |r| == FIXED_FIELDS
  {
    [IntToString(h.lineStart), IntToString(h.lineEnd), h.sourceFile, ConditionText(h.condition),
     ToString(h.presenceCondition), TypeText(h.elementType), IntToString(n)]
  }

  /** elementToCsv: the fixed fields, then the relation of every nested element. */
  function Csv(d: ElementData): (r: seq<string>)
    ensures |r| == FIXED_FIELDS + |d.relations|
    ensures r[FIXED_FIELDS..] == d.relations
  {
    HeaderCsv(d.header, |d.relations|) + d.relations
  }

  /** The fixed fields of csvToElement, in the order it reads them, with the
      relation count: a line number or a relation count that is no int, an
      unparsable formula or an unknown type raise FormatException. */
  function HeaderFromCsv(csv: seq<string>, knownTypes: set<string>): (r: Result<(Header, int)>)
    requires |csv| >= FIXED_FIELDS
    ensures r.Fail? ==> r.exc == FormatException
  {
    var lineStart :- IntField(csv[0]);
    var lineEnd :- IntField(csv[1]);
    var condition :- ReadCondition(csv[3]);
    var presenceCondition :- ReadFormula(csv[4]);
    var elementType :- ReadType(csv[5], knownTypes);
    var count :- IntField(csv[6]);
    Ok((Header(lineStart, lineEnd, csv[2], condition, presenceCondition, elementType), count))
  }

  /** The relation list: a negative count makes the list constructor raise
      IllegalArgumentException; fields 7 up to the int sum 7 + count are read, and a
      count past the end of the fields raises ArrayIndexOutOfBoundsException. */
  function RelationsFromCsv(csv: seq<string>, count: int): (r: Result<seq<string>>)
    requires |csv| >= FIXED_FIELDS
    ensures r.Fail? ==> r.exc in {IllegalArgumentException, ArrayIndexOutOfBoundsException}
    ensures r.Ok? ==> count >= 0 && r.value <= csv[FIXED_FIELDS..]
    ensures 0 <= count && FIXED_FIELDS + count <= |csv| && FIXED_FIELDS + count <= INT_MAX ==>
      r == Ok(csv[FIXED_FIELDS..FIXED_FIELDS + count])
  {
    if count < 0 then Fail(IllegalArgumentException)
    else
      var end := WrapInt(FIXED_FIELDS + count);
      if end > |csv| then Fail(ArrayIndexOutOfBoundsException)
      else Ok(if end <= FIXED_FIELDS then [] else csv[FIXED_FIELDS..end])
  }

  /** csvToElement: fewer than seven fields raise FormatException; then the fixed
      fields and the relations. */
  function ElementFromCsv(csv: seq<string>, knownTypes: set<string>): (r: Result<ElementData>)
    ensures |csv| < FIXED_FIELDS ==> r == Fail(FormatException)
    ensures r.Fail? ==> r.exc in {FormatException, IllegalArgumentException, ArrayIndexOutOfBoundsException}
    ensures r.Ok? ==>
      && ParseInt(csv[0]) == Some(r.value.header.lineStart)
      && ParseInt(csv[1]) == Some(r.value.header.lineEnd)
      && r.value.header.sourceFile == csv[2]
      && (r.value.header.condition.None? <==> csv[3] == NULL_CONDITION)
      && TypeText(r.value.header.elementType) == csv[5]
      && r.value.relations <= csv[FIXED_FIELDS..]
  {
    if |csv| < FIXED_FIELDS then Fail(FormatException)
    else
      var (header, count) :- HeaderFromCsv(csv, knownTypes);
      var relations :- RelationsFromCsv(csv, count);
      Ok(ElementData(header, relations))
  }

  /** elementToCsv on an element object: its header and the relations of its nested
      elements. */
  method ElementToCsv(e: SyntaxElement) returns (r: seq<string>)
    requires e.Valid()
    ensures r == Csv(ElementData(e.Head(), e.relations[..|e.nested|]))
  {
    r := HeaderCsv(e.Head(), |e.nested|);
    var i := 0;
    while i < |e.nested|
      invariant 0 <= i <= |e.nested|
      invariant r == HeaderCsv(e.Head(), |e.nested|) + e.relations[..i]
    {
      r := r + [e.relations[i]];
      i := i + 1;
    }
  }

  /** The relation loop of csvToElement. */
  method ReadRelations(csv: seq<string>, count: int) returns (r: Result<seq<string>>)
    requires |csv| >= FIXED_FIELDS
    ensures r == RelationsFromCsv(csv, count)
  {
    if count < 0 {
      return Fail(IllegalArgumentException);
    }
    var relation: seq<string> := [];
    var end := WrapInt(FIXED_FIELDS + count);
    var i := FIXED_FIELDS;
    while i < end
      invariant FIXED_FIELDS <= i && (end > FIXED_FIELDS ==> i <= end) && i <= |csv|
      invariant end <= FIXED_FIELDS ==> i == FIXED_FIELDS
      invariant relation == csv[FIXED_FIELDS..i]
    {
      if i >= |csv| {
        return Fail(ArrayIndexOutOfBoundsException);
      }
      relation := relation + [csv[i]];
      i := i + 1;
    }
    assert end > FIXED_FIELDS ==> i == end;
    assert end <= FIXED_FIELDS ==> relation == [];
    return Ok(relation);
  }

  /** csvToElement on an array of fields: a new element whose relations are set from
      the fields, with no nested elements yet. */
  method CsvToElement(csv: seq<string>, knownTypes: set<string>) returns (r: Result<SyntaxElement>)
    ensures r.Fail? <==> ElementFromCsv(csv, knownTypes).Fail?
    ensures r.Fail? ==> r.exc == ElementFromCsv(csv, knownTypes).exc
    ensures r.Ok? ==>
      && fresh(r.value) && r.value.Valid() && r.value.nested == []
      && ElementData(r.value.Head(), r.value.relations) == ElementFromCsv(csv, knownTypes).value
  {
    if |csv| < FIXED_FIELDS {
      return Fail(FormatException);
    }
    var fixed :- HeaderFromCsv(csv, knownTypes);
    var (header, count) := fixed;
    var relation :- ReadRelations(csv, count);
    var element := new SyntaxElement(header.elementType, header.condition, header.presenceCondition);
    element.lineStart := header.lineStart;
    element.lineEnd := header.lineEnd;
    element.sourceFile := header.sourceFile;
    element.SetDeserializedRelations(relation);
    return Ok(element);
  }

  // ---------------------------------------------------------------------------
  // Round trip

  /** A formula whose text parses back to it. */
  predicate FormulaReadable(f: Formula) {
    Parse(ToString(f)) == Ok(f)
  }

  /** What makes an element's CSV read back as the element: int line numbers, a
      relation count whose sum with 7 is an int, formulas whose text parses back, a
      condition whose text is not "null", and a type whose text reads back. */
  predicate CsvReadable(d: ElementData, knownTypes: set<string>) {
    && IsInt(d.header.lineStart) && IsInt(d.header.lineEnd)
    && FIXED_FIELDS + |d.relations| <= INT_MAX
    && (d.header.condition.Some? ==>
          FormulaReadable(d.header.condition.value) && ToString(d.header.condition.value) != NULL_CONDITION)
    && FormulaReadable(d.header.presenceCondition)
    && TypeReadable(d.header.elementType, knownTypes)
  }

  /** csvToElement undoes elementToCsv. */
  lemma CsvRoundTrip(d: ElementData, knownTypes: set<string>)
    requires CsvReadable(d, knownTypes)
    ensures ElementFromCsv(Csv(d), knownTypes) == Ok(d)
  {
    HeaderRoundTrip(d, knownTypes);
    assert Csv(d)[FIXED_FIELDS..FIXED_FIELDS + |d.relations|] == d.relations;
  }

  lemma HeaderRoundTrip(d: ElementData, knownTypes: set<string>)
    requires CsvReadable(d, knownTypes)
    ensures HeaderFromCsv(Csv(d), knownTypes) == Ok((d.header, |d.relations|))
  {
    var h := d.header;
    var csv := Csv(d);
    assert csv[..FIXED_FIELDS] == HeaderCsv(h, |d.relations|);
    ParseIntOfToString(h.lineStart);
    ParseIntOfToString(h.lineEnd);
    ParseIntOfToString(|d.relations|);
    TypeRoundTrip(h.elementType, knownTypes);
    if h.condition.Some? {
      assert ReadCondition(csv[3]) == Ok(h.condition);
    }
  }

  /** The fixed fields decide HeaderFromCsv. */
  lemma HeaderFromCsvPrefix(a: seq<string>, b: seq<string>, knownTypes: set<string>)
    requires |a| >= FIXED_FIELDS && |b| >= FIXED_FIELDS && a[..FIXED_FIELDS] == b[..FIXED_FIELDS]
    ensures HeaderFromCsv(a, knownTypes) == HeaderFromCsv(b, knownTypes)
  {
    assert forall k :: 0 <= k < FIXED_FIELDS ==> a[k] == a[..FIXED_FIELDS][k] && b[k] == b[..FIXED_FIELDS][k];
  }

  /** A condition that is the variable named "null" is written as "null" and so
      read back as no condition at all. */
  lemma NullVariableConditionLost(d: ElementData, knownTypes: set<string>)
    requires d.header.condition == Some(Var(NULL_CONDITION))
    requires ElementFromCsv(Csv(d), knownTypes).Ok?
    ensures ElementFromCsv(Csv(d), knownTypes).value.header.condition == None
  {
    assert Csv(d)[3] == NULL_CONDITION;
  }
}
