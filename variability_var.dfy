/** VariabilityVariable and SourceLocation: a variable of the variability model with
    its DIMACS number, the source locations it comes from and the variables its
    constraints mention; its equality and hash code; and its JSON form, which names
    the referenced variables in sorted order. */
module VariabilityVariables {
  import opened Wrappers
  import opened JavaText
  import opened JsonValues
  import opened JsonObjects

  /** SourceLocation: a source file, by its path text, and a line in it. */
  datatype SourceLocation = SourceLocation(source: string, lineNumber: int)

  /** The state that equals compares: name, type, DIMACS number and the location
      list, which is null (None) until the first location is added. */
  datatype VarData = VarData(name: string, varType: string, dimacsNumber: int,
                             locations: Option<seq<SourceLocation>>)

  /** The locations of a possibly-null list. */
  function LocationsOf(locations: Option<seq<SourceLocation>>): seq<SourceLocation> {
    if locations.Some? then locations.value else []
  }

  /** The list after addLocation was called with each of added in turn: the list is
      created by the first call and every call appends. */
  function WithLocations(current: Option<seq<SourceLocation>>, added: seq<SourceLocation>): (r: Option<seq<SourceLocation>>)
    ensures added == [] ==> r == current
    ensures added != [] ==> r == Some(LocationsOf(current) + added)
  {
    if added == [] then current else Some(LocationsOf(current) + added)
  }

  /** Adding the locations a and then b is adding a + b. */
  lemma WithLocationsAppend(current: Option<seq<SourceLocation>>, a: seq<SourceLocation>, b: seq<SourceLocation>)
    ensures WithLocations(WithLocations(current, a), b) == WithLocations(current, a + b)
  {
    if a == [] {
      assert a + b == b;
    } else if b != [] {
      assert LocationsOf(current) + a + b == LocationsOf(current) + (a + b);
    } else {
      assert a + b == a;
    }
  }

  // ---------------------------------------------------------------------------
  // SourceLocation as JSON

  /** SourceLocation.toJson: an object with "file" and then "line". */
  function LocationToJson(l: SourceLocation): (r: Json)
    ensures r.JObject? && |r.members| == 2
  {
    JObject(Put(Put([], "file", JString(l.source)), "line", JInt(l.lineNumber)))
  }

  /** SourceLocation.fromJson: an object of exactly two entries, whose "file" is a
      string and whose "line" is an int. */
  function LocationFromJson(ms: seq<Member>): (r: Result<SourceLocation>)
    ensures r.Ok? ==> |ms| == 2
    ensures r.Fail? ==> r.exc == FormatException
  {
    if |ms| != 2 then Fail(FormatException)
    else
      var file :- StringIn(ms, "file");
      var line :- IntIn(ms, "line");
      Ok(SourceLocation(file, line))
  }

  /** fromJson reads back what toJson writes. */
  lemma LocationJsonRoundTrip(l: SourceLocation)
    ensures LocationFromJson(LocationToJson(l).members) == Ok(l)
  {
  }

  /** A list element of "sourceLocations": it must be an object. */
  function ReadLocation(e: Json): (r: Result<SourceLocation>)
    ensures r.Fail? ==> r.exc == FormatException
  {
    if e.JObject? then LocationFromJson(e.members) else Fail(FormatException)
  }

  function LocationsToJson(ls: seq<SourceLocation>): (r: seq<Json>)
    ensures |r| == |ls| && forall i :: 0 <= i < |ls| ==> r[i] == LocationToJson(ls[i])
  {
    seq(|ls|, i requires 0 <= i < |ls| => LocationToJson(ls[i]))
  }

  /** Reading the written location list gives the locations back, in order. */
  lemma LocationsRoundTrip(ls: seq<SourceLocation>)
    ensures MapAll(LocationsToJson(ls), ReadLocation) == Ok(ls)
  {
    var items := LocationsToJson(ls);
    forall k | 0 <= k < |items| ensures ReadLocation(items[k]) == Ok(ls[k]) {
      LocationJsonRoundTrip(ls[k]);
    }
    MapAllOk(items, ReadLocation, ls);
  }

  // ---------------------------------------------------------------------------
  // Sorted names: String.compareTo and Stream.sorted

  /** a.compareTo(b) < 0: the first differing char decides, else the shorter string
      comes first. */
  predicate Below(a: string, b: string)
    decreases |a|
  {
    if a == [] then b != []
    else if b == [] then false
    else if a[0] != b[0] then a[0] < b[0]
    else Below(a[1..], b[1..])
  }

  lemma {:induction false} BelowIrreflexive(a: string)
    ensures !Below(a, a)
    decreases |a|
  {
    if a != [] {
      BelowIrreflexive(a[1..]);
    }
  }

  lemma {:induction false} BelowTransitive(a: string, b: string, c: string)
    requires Below(a, b) && Below(b, c)
    ensures Below(a, c)
    decreases |a|
  {
    if a != [] && a[0] == b[0] && b[0] == c[0] {
      BelowTransitive(a[1..], b[1..], c[1..]);
    }
  }

  lemma {:induction false} BelowTotal(a: string, b: string)
    requires a != b
    ensures Below(a, b) || Below(b, a)
    decreases |a|
  {
    if a != [] && b != [] && a[0] == b[0] {
      assert a == [a[0]] + a[1..] && b == [b[0]] + b[1..];
      BelowTotal(a[1..], b[1..]);
    }
  }

  /** m is the smallest element of s. */
  predicate Least(m: string, s: set<string>) {
    m in s && forall x :: x in s && x != m ==> Below(m, x)
  }

  lemma {:induction false} LeastExists(s: set<string>)
    requires s != {}
    ensures exists m :: Least(m, s)
    decreases |s|
  {
    var y :| y in s;
    if s != {y} {
      var rest := s - {y};
      LeastExists(rest);
      var m :| Least(m, rest);
      if Below(y, m) {
        forall x | x in s && x != y ensures Below(y, x) {
          if x != m {
            BelowTransitive(y, m, x);
          }
        }
        assert Least(y, s);
      } else {
        BelowTotal(y, m);
        assert Least(m, s);
      }
    } else {
      assert Least(y, s);
    }
  }

  lemma LeastUnique(s: set<string>, m1: string, m2: string)
    requires Least(m1, s) && Least(m2, s)
    ensures m1 == m2
  {
    if m1 != m2 {
      BelowTransitive(m1, m2, m1);
      BelowIrreflexive(m1);
    }
  }

  /** The names of a set in the order of Stream.sorted: strictly increasing, each
      name of the set exactly once. */
  function SortedNames(s: set<string>): (r: seq<string>)
    ensures forall i, j :: 0 <= i < j < |r| ==> Below(r[i], r[j])
    ensures forall x :: x in r <==> x in s
    ensures |r| == |s|
    decreases |s|
  {
    if s == {} then []
    else
      LeastExists(s);
      assert forall m1, m2 :: Least(m1, s) && Least(m2, s) ==> m1 == m2 by {
        forall m1, m2 | Least(m1, s) && Least(m2, s) ensures m1 == m2 {
          LeastUnique(s, m1, m2);
        }
      }
      var m :| Least(m, s);
      var rest := SortedNames(s - {m});
      forall j | 0 <= j < |rest| ensures Below(m, rest[j]) {
        assert rest[j] in rest;
      }
      [m] + rest
  }

  /** The names of a set of variables. */
  function Names(vs: set<VariabilityVariable>): (r: set<string>)
    ensures forall v :: v in vs ==> v.name in r
    ensures forall n :: n in r ==> exists v :: v in vs && v.name == n
  {
    set v | v in vs :: v.name
  }

  /** The JSON list of a reference set: its names, sorted, as strings. */
  function NameList(vs: set<VariabilityVariable>): (r: seq<Json>)
    ensures forall i :: 0 <= i < |r| ==> r[i].JString?
  {
    var names := SortedNames(Names(vs));
    seq(|names|, i requires 0 <= i < |names| => JString(names[i]))
  }

  /** A list element naming a variable: it must be a string naming a known variable. */
  function Reference(vars: map<string, VariabilityVariable>): Json -> Result<VariabilityVariable> {
    (e: Json) => if !e.JString? || e.s !in vars then Fail(FormatException) else Ok(vars[e.s])
  }

  function Elements(vs: seq<VariabilityVariable>): set<VariabilityVariable> {
    set v | v in vs
  }

  /** An optional list entry: absent, or present and then it must be a list. */
  function OptionalList(ms: seq<Member>, key: string): (r: Result<Option<seq<Json>>>)
    ensures r.Ok? && r.value.None? <==> Get(ms, key).None?
    ensures r.Ok? && r.value.Some? <==> Get(ms, key).Some? && Get(ms, key).value.JList?
    ensures r.Ok? && r.value.Some? ==> Get(ms, key) == Some(JList(r.value.value))
  {
    if Get(ms, key).None? then Ok(None)
    else
      var items :- ListIn(ms, key);
      Ok(Some(items))
  }

  /** The variables an optional list of names resolves to. */
  function ReadNames(items: Option<seq<Json>>, vars: map<string, VariabilityVariable>): (r: Result<Option<set<VariabilityVariable>>>)
    ensures r.Ok? && r.value.None? <==> items.None?
    ensures r.Fail? ==> r.exc == FormatException
  {
    if items.None? then Ok(None)
    else
      var vs :- MapAll(items.value, Reference(vars));
      Ok(Some(Elements(vs)))
  }

  /** What setJsonData takes from an object: the DIMACS number, the locations to add,
      and the reference sets that replace the current ones. */
  datatype JsonFields = JsonFields(dimacsNumber: int, locations: seq<SourceLocation>,
                                   references: Option<set<VariabilityVariable>>,
                                   referencedBy: Option<set<VariabilityVariable>>)

  /** The "sourceLocations" entry: no locations to add when it is absent. */
  function LocationsEntry(data: seq<Member>): (r: Result<seq<SourceLocation>>)
    ensures r.Fail? ==> r.exc == FormatException
  {
    var items :- OptionalList(data, "sourceLocations");
    if items.Some? then MapAll(items.value, ReadLocation) else Ok([])
  }

  /** A reference entry: None when it is absent. */
  function ReferencesEntry(data: seq<Member>, key: string, vars: map<string, VariabilityVariable>): (r: Result<Option<set<VariabilityVariable>>>)
    ensures r.Fail? ==> r.exc == FormatException
  {
    var items :- OptionalList(data, key);
    ReadNames(items, vars)
  }

  function ReadJson(data: seq<Member>, vars: map<string, VariabilityVariable>): (r: Result<JsonFields>)
    ensures r.Ok? ==> IntIn(data, "dimacsNumber") == Ok(r.value.dimacsNumber)
    ensures r.Fail? ==> r.exc == FormatException
  {
    var dimacs :- IntIn(data, "dimacsNumber");
    var locations :- LocationsEntry(data);
    var references :- ReferencesEntry(data, "references", vars);
    var referencedBy :- ReferencesEntry(data, "referenced-by", vars);
    Ok(JsonFields(dimacs, locations, references, referencedBy))
  }

  /** The variables of a reference list, resolved one after the other. */
  method ResolveNames(items: seq<Json>, vars: map<string, VariabilityVariable>) returns (r: Result<set<VariabilityVariable>>)
    ensures ReadNames(Some(items), vars) == if r.Ok? then Ok(Some(r.value)) else Fail(r.exc)
  {
    var result: set<VariabilityVariable> := {};
    ghost var done: seq<VariabilityVariable> := [];
    var i := 0;
    while i < |items|
      invariant 0 <= i <= |items|
      invariant MapAll(items[..i], Reference(vars)) == Ok(done)
      invariant result == Elements(done)
    {
      var element := items[i];
      MapAllPrefixStep(items, i, Reference(vars), done);
      if !element.JString? || element.s !in vars {
        return Fail(FormatException);
      }
      var v := vars[element.s];
      result := result + {v};
      done := done + [v];
      i := i + 1;
    }
    assert items[..|items|] == items;
    r := Ok(result);
  }

  /** One optional reference list of setJsonData, resolved. */
  method ReadReferences(data: seq<Member>, key: string, vars: map<string, VariabilityVariable>)
    returns (r: Result<Option<set<VariabilityVariable>>>)
    ensures r == ReferencesEntry(data, key, vars)
  {
    var items := OptionalList(data, key);
    if items.Fail? {
      return Fail(FormatException);
    }
    if items.value.None? {
      return Ok(None);
    }
    var resolved := ResolveNames(items.value.value, vars);
    r := if resolved.Ok? then Ok(Some(resolved.value)) else Fail(resolved.exc);
  }

  /** The first three entries toJson puts into a new object: the optional keys stay free. */
  function Header(name: string, varType: string, dimacsNumber: int): (r: seq<Member>)
    ensures Get(r, "dimacsNumber") == Some(JInt(dimacsNumber))
    ensures Get(r, "sourceLocations") == None && Get(r, "references") == None && Get(r, "referenced-by") == None
  {
    var withType := Put(Put([], "name", JString(name)), "type", JString(varType));
    OptionalKeysFree(name, varType, "sourceLocations");
    OptionalKeysFree(name, varType, "references");
    OptionalKeysFree(name, varType, "referenced-by");
    Put(withType, "dimacsNumber", JInt(dimacsNumber))
  }

  /** A key other than name, type and dimacsNumber is free after the first two puts. */
  lemma OptionalKeysFree(name: string, varType: string, key: string)
    requires key in ["sourceLocations", "references", "referenced-by"]
    ensures Get(Put(Put([], "name", JString(name)), "type", JString(varType)), key) == None
    ensures key != "dimacsNumber"
  {
    assert Get([], key) == None;
  }

  /** A putElement done only when the element is not null. */
  function PutWhen(ms: seq<Member>, key: string, v: Option<Json>): (r: seq<Member>)
    ensures v.None? ==> r == ms
    ensures v.Some? ==> Get(r, key) == v
    ensures forall k :: k != key ==> Get(r, k) == Get(ms, k)
  {
    if v.Some? then Put(ms, key, v.value) else ms
  }

  /** The object toJson builds: the header, then each optional entry that is not null. */
  function VariableJson(name: string, varType: string, dimacsNumber: int,
                        locations: Option<Json>, references: Option<Json>, referencedBy: Option<Json>): seq<Member>
  {
    WithOptional(Header(name, varType, dimacsNumber), locations, references, referencedBy)
  }

  function WithOptional(header: seq<Member>, locations: Option<Json>, references: Option<Json>, referencedBy: Option<Json>): seq<Member>
  {
    PutWhen(PutWhen(PutWhen(header, "sourceLocations", locations), "references", references), "referenced-by", referencedBy)
  }

  /** The optional entries land under their keys, and the header's entries stay. */
  lemma NumberKept(header: seq<Member>, locations: Option<Json>, references: Option<Json>, referencedBy: Option<Json>)
    ensures Get(WithOptional(header, locations, references, referencedBy), "dimacsNumber") == Get(header, "dimacsNumber")
  {
  }

  lemma LocationsWritten(header: seq<Member>, locations: Option<Json>, references: Option<Json>, referencedBy: Option<Json>)
    requires Get(header, "sourceLocations") == None
    ensures Get(WithOptional(header, locations, references, referencedBy), "sourceLocations") == locations
  {
  }

  lemma ReferencesWritten(header: seq<Member>, locations: Option<Json>, references: Option<Json>, referencedBy: Option<Json>)
    requires Get(header, "references") == None
    ensures Get(WithOptional(header, locations, references, referencedBy), "references") == references
  {
  }

  lemma ReferencedByWritten(header: seq<Member>, locations: Option<Json>, references: Option<Json>, referencedBy: Option<Json>)
    requires Get(header, "referenced-by") == None
    ensures Get(WithOptional(header, locations, references, referencedBy), "referenced-by") == referencedBy
  {
  }

  // ---------------------------------------------------------------------------
  // The variable

  /** after is before extended by the locations read from the first k items, all of
      which read, for some k: what a location loop leaves behind, even when it stops
      at a malformed item. */
  ghost predicate AddedFromPrefix(before: Option<seq<SourceLocation>>, after: Option<seq<SourceLocation>>, items: seq<Json>) {
    exists k :: 0 <= k <= |items| && MapAll(items[..k], ReadLocation).Ok?
      && after == WithLocations(before, MapAll(items[..k], ReadLocation).value)
  }

  lemma PrefixWitness(items: seq<Json>, k: nat, locations: seq<SourceLocation>)
    requires k <= |items| && MapAll(items[..k], ReadLocation) == Ok(locations)
    ensures forall before :: AddedFromPrefix(before, WithLocations(before, locations), items)
  {
  }

  /** The locations after a failed setJsonData that got as far as the location list:
      those of a prefix of its items were added. */
  ghost predicate LocationsTried(data: seq<Member>, before: Option<seq<SourceLocation>>, after: Option<seq<SourceLocation>>) {
    && IntIn(data, "dimacsNumber").Ok?
    && OptionalList(data, "sourceLocations").Ok?
    && OptionalList(data, "sourceLocations").value.Some?
    && AddedFromPrefix(before, after, OptionalList(data, "sourceLocations").value.value)
  }

  /** The references after a failed setJsonData that replaced them: everything up to
      the "referenced-by" entry read, and that entry failed. */
  ghost predicate ReferencesTried(data: seq<Member>, vars: map<string, VariabilityVariable>,
                                  after: Option<set<VariabilityVariable>>) {
    && LocationsEntry(data).Ok?
    && ReferencesEntry(data, "references", vars).Ok?
    && ReferencesEntry(data, "referenced-by", vars).Fail?
    && after == ReferencesEntry(data, "references", vars).value
  }

  class VariabilityVariable {
    const name: string
    const varType: string
    var dimacsNumber: int
    /** null until the first addLocation. */
    var sourceLocations: Option<seq<SourceLocation>>
    var variablesUsedInConstraints: Option<set<VariabilityVariable>>
    var usedInConstraintsOfOtherVariables: Option<set<VariabilityVariable>>

    /** The location list, once created, is never empty. */
    ghost predicate Valid()
      reads this
    {
      sourceLocations != Some([])
    }

    function Data(): VarData
      reads this
    {
      VarData(name, varType, dimacsNumber, sourceLocations)
    }

    /** A variable with DIMACS number 0, no locations and no references. */
    constructor(name: string, varType: string)
      ensures Valid() && Data() == VarData(name, varType, 0, None)
      ensures variablesUsedInConstraints.None? && usedInConstraintsOfOtherVariables.None?
    {
      this.name := name;
      this.varType := varType;
      dimacsNumber := 0;
      sourceLocations := None;
      variablesUsedInConstraints := None;
      usedInConstraintsOfOtherVariables := None;
    }

    constructor WithNumber(name: string, varType: string, dimacsNumber: int)
      ensures Valid() && Data() == VarData(name, varType, dimacsNumber, None)
      ensures variablesUsedInConstraints.None? && usedInConstraintsOfOtherVariables.None?
    {
      this.name := name;
      this.varType := varType;
      this.dimacsNumber := dimacsNumber;
      sourceLocations := None;
      variablesUsedInConstraints := None;
      usedInConstraintsOfOtherVariables := None;
    }

    /** addLocation: creates the list on first use, then appends. */
    method AddLocation(location: SourceLocation)
      modifies this
      ensures Valid()
      ensures sourceLocations == Some(LocationsOf(old(sourceLocations)) + [location])
      ensures dimacsNumber == old(dimacsNumber)
      ensures variablesUsedInConstraints == old(variablesUsedInConstraints)
      ensures usedInConstraintsOfOtherVariables == old(usedInConstraintsOfOtherVariables)
    {
      var list := if sourceLocations.None? then [] else sourceLocations.value;
      sourceLocations := Some(list + [location]);
    }

    method SetDimacsNumber(dimacsNumber: int)
      modifies this
      ensures Data() == old(Data()).(dimacsNumber := dimacsNumber)
      ensures variablesUsedInConstraints == old(variablesUsedInConstraints)
      ensures usedInConstraintsOfOtherVariables == old(usedInConstraintsOfOtherVariables)
    {
      this.dimacsNumber := dimacsNumber;
    }

    method SetVariablesUsedInConstraints(vs: set<VariabilityVariable>)
      modifies this
      ensures Data() == old(Data()) && variablesUsedInConstraints == Some(vs)
      ensures usedInConstraintsOfOtherVariables == old(usedInConstraintsOfOtherVariables)
    {
      variablesUsedInConstraints := Some(vs);
    }

    method SetUsedInConstraintsOfOtherVariables(vs: set<VariabilityVariable>)
      modifies this
      ensures Data() == old(Data()) && usedInConstraintsOfOtherVariables == Some(vs)
      ensures variablesUsedInConstraints == old(variablesUsedInConstraints)
    {
      usedInConstraintsOfOtherVariables := Some(vs);
    }

    /** getDimacsMapping: the mapping gains this variable's number, mapped to its name. */
    function DimacsMapping(mapping: map<int, string>): (r: map<int, string>)
      reads this
      ensures r.Keys == mapping.Keys + {dimacsNumber} && r[dimacsNumber] == name
      ensures forall k :: k in mapping && k != dimacsNumber ==> r[k] == mapping[k]
    {
      mapping[dimacsNumber := name]
    }

    /** equals: name, type, DIMACS number and locations, with a null list equal only
        to a null list; the reference sets play no part. */
    function Equals(other: VariabilityVariable): (b: bool)
      reads this, other
      ensures b <==> Data() == other.Data()
    {
      var result := other.name == name && other.varType == varType && other.dimacsNumber == dimacsNumber;
      if sourceLocations.None? then result && other.sourceLocations.None?
      else result && other.sourceLocations.Some? && sourceLocations.value == other.sourceLocations.value
    }

    /** hashCode: the 32-bit sum of the name's and the type's hash and the number. */
    function HashCode(): (h: int)
      reads this
      ensures IsInt(h)
    {
      WrapInt(StringHash(name) + StringHash(varType) + dimacsNumber)
    }

    /** toJson: name, type and number, then the locations and the two reference lists
        where they are not null, each list of names sorted. */
    function ToJson(): (r: seq<Member>)
      reads this
    {
      VariableJson(name, varType, dimacsNumber, LocationsJson(sourceLocations), NamesJson(variablesUsedInConstraints),
                   NamesJson(usedInConstraintsOfOtherVariables))
    }

    /** The location loop of setJsonData: each element must be an object that
        fromJson accepts, and is added in turn. */
    method AddLocations(items: seq<Json>) returns (r: Result<()>)
      modifies this
      ensures old(Valid()) ==> Valid()
      ensures r.Ok? <==> MapAll(items, ReadLocation).Ok?
      ensures r.Ok? ==> sourceLocations == WithLocations(old(sourceLocations), MapAll(items, ReadLocation).value)
      ensures AddedFromPrefix(old(sourceLocations), sourceLocations, items)
      ensures dimacsNumber == old(dimacsNumber)
      ensures variablesUsedInConstraints == old(variablesUsedInConstraints)
      ensures usedInConstraintsOfOtherVariables == old(usedInConstraintsOfOtherVariables)
    {
      ghost var locations: seq<SourceLocation> := [];
      var i := 0;
      while i < |items|
        invariant 0 <= i <= |items|
        invariant MapAll(items[..i], ReadLocation) == Ok(locations)
        invariant sourceLocations == WithLocations(old(sourceLocations), locations)
        invariant old(Valid()) ==> Valid()
        invariant dimacsNumber == old(dimacsNumber)
        invariant variablesUsedInConstraints == old(variablesUsedInConstraints)
        invariant usedInConstraintsOfOtherVariables == old(usedInConstraintsOfOtherVariables)
      {
        var element := items[i];
        MapAllPrefixStep(items, i, ReadLocation, locations);
        if !element.JObject? {
          assert AddedFromPrefix(old(sourceLocations), sourceLocations, items) by { PrefixWitness(items, i, locations); }
          return Fail(FormatException);
        }
        var location := LocationFromJson(element.members);
        if location.Fail? {
          assert AddedFromPrefix(old(sourceLocations), sourceLocations, items) by { PrefixWitness(items, i, locations); }
          return Fail(FormatException);
        }
        AddLocation(location.value);
        WithLocationsAppend(old(sourceLocations), locations, [location.value]);
        locations := locations + [location.value];
        i := i + 1;
      }
      assert items[..|items|] == items;
      assert AddedFromPrefix(old(sourceLocations), sourceLocations, items) by { PrefixWitness(items, i, locations); }
      r := Ok(());
    }

    /** setJsonData: sets the DIMACS number, adds the listed locations and replaces
        each listed reference set; a missing or wrongly typed entry, a non-object
        location, a non-string reference or an unknown name is a FormatException. */
    method SetJsonData(data: seq<Member>, vars: map<string, VariabilityVariable>) returns (r: Result<()>)
      modifies this
      ensures old(Valid()) ==> Valid()
      ensures r.Ok? <==> ReadJson(data, vars).Ok?
      ensures r.Fail? ==> r.exc == FormatException
      ensures r.Ok? ==>
        var f := ReadJson(data, vars).value;
        && dimacsNumber == f.dimacsNumber
        && sourceLocations == WithLocations(old(sourceLocations), f.locations)
        && variablesUsedInConstraints == (if f.references.Some? then f.references else old(variablesUsedInConstraints))
        && usedInConstraintsOfOtherVariables == (if f.referencedBy.Some? then f.referencedBy else old(usedInConstraintsOfOtherVariables))
      ensures r.Fail? ==> usedInConstraintsOfOtherVariables == old(usedInConstraintsOfOtherVariables)
      ensures r.Fail? ==> dimacsNumber == if IntIn(data, "dimacsNumber").Ok? then IntIn(data, "dimacsNumber").value else old(dimacsNumber)
      ensures r.Fail? ==> sourceLocations == old(sourceLocations) || LocationsTried(data, old(sourceLocations), sourceLocations)
      ensures r.Fail? ==> variablesUsedInConstraints == old(variablesUsedInConstraints)
                          || ReferencesTried(data, vars, variablesUsedInConstraints)
    {
      var dimacs := IntIn(data, "dimacsNumber");
      if dimacs.Fail? {
        return Fail(FormatException);
      }
      dimacsNumber := dimacs.value;

      var locationItems := OptionalList(data, "sourceLocations");
      if locationItems.Fail? {
        return Fail(FormatException);
      }
      if locationItems.value.Some? {
        var added := AddLocations(locationItems.value.value);
        if added.Fail? {
          return Fail(FormatException);
        }
      }
      assert LocationsEntry(data).Ok?;

      var references := ReadReferences(data, "references", vars);
      if references.Fail? {
        return Fail(FormatException);
      }
      if references.value.Some? {
        SetVariablesUsedInConstraints(references.value.value);
      }

      var referencedBy := ReadReferences(data, "referenced-by", vars);
      if referencedBy.Fail? {
        return Fail(FormatException);
      }
      if referencedBy.value.Some? {
        SetUsedInConstraintsOfOtherVariables(referencedBy.value.value);
      }
      r := Ok(());
    }
  }

  /** Equal variables have equal hash codes. */
  lemma EqualsSameHash(a: VariabilityVariable, b: VariabilityVariable)
    requires a.Equals(b)
    ensures a.HashCode() == b.HashCode()
  {
  }

  /** The referenced variables of v are known under their own names. */
  predicate Resolvable(vs: Option<set<VariabilityVariable>>, vars: map<string, VariabilityVariable>) {
    vs.Some? ==> forall u :: u in vs.value ==> u.name in vars && vars[u.name] == u
  }

  /** The sorted name list of a reference set resolves to that same set. */
  lemma NameListRoundTrip(vs: set<VariabilityVariable>, vars: map<string, VariabilityVariable>)
    requires Resolvable(Some(vs), vars)
    ensures ReadNames(Some(NameList(vs)), vars) == Ok(Some(vs))
  {
    var names := SortedNames(Names(vs));
    var items := NameList(vs);
    NamesKnown(vs, vars, names);
    var resolved := seq(|names|, i requires 0 <= i < |names| => vars[names[i]]);
    forall k | 0 <= k < |items| ensures Reference(vars)(items[k]) == Ok(resolved[k]) {
      assert items[k] == JString(names[k]);
    }
    MapAllOk(items, Reference(vars), resolved);
    ResolvedIsSet(vs, vars, names, resolved);
  }

  lemma NamesKnown(vs: set<VariabilityVariable>, vars: map<string, VariabilityVariable>, names: seq<string>)
    requires Resolvable(Some(vs), vars)
    requires forall n :: n in names <==> n in Names(vs)
    ensures forall k :: 0 <= k < |names| ==> names[k] in vars
  {
    forall k | 0 <= k < |names| ensures names[k] in vars {
      assert names[k] in names;
      var u :| u in vs && u.name == names[k];
    }
  }

  lemma ResolvedIsSet(vs: set<VariabilityVariable>, vars: map<string, VariabilityVariable>,
                      names: seq<string>, resolved: seq<VariabilityVariable>)
    requires Resolvable(Some(vs), vars)
    requires forall n :: n in names <==> n in Names(vs)
    requires |resolved| == |names|
    requires forall k :: 0 <= k < |names| ==> names[k] in vars && resolved[k] == vars[names[k]]
    ensures Elements(resolved) == vs
  {
    forall u | u in vs ensures u in Elements(resolved) {
      assert u.name in names;
      var k :| 0 <= k < |names| && names[k] == u.name;
      assert resolved[k] == u;
    }
    forall u | u in Elements(resolved) ensures u in vs {
      var k :| 0 <= k < |resolved| && resolved[k] == u;
      assert names[k] in names;
      var w :| w in vs && w.name == names[k];
    }
  }

  /** The entry toJson writes for an optional list of locations. */
  function LocationsJson(ls: Option<seq<SourceLocation>>): Option<Json> {
    if ls.Some? then Some(JList(LocationsToJson(ls.value))) else None
  }

  /** The entry toJson writes for an optional reference set. */
  function NamesJson(vs: Option<set<VariabilityVariable>>): Option<Json> {
    if vs.Some? then Some(JList(NameList(vs.value))) else None
  }

  /** Any object holding the entries toJson writes is read back to the values written. */
  lemma ReadEntries(data: seq<Member>, vars: map<string, VariabilityVariable>, dimacsNumber: int,
                    ls: Option<seq<SourceLocation>>, references: Option<set<VariabilityVariable>>,
                    referencedBy: Option<set<VariabilityVariable>>)
    requires Get(data, "dimacsNumber") == Some(JInt(dimacsNumber))
    requires Get(data, "sourceLocations") == LocationsJson(ls)
    requires Get(data, "references") == NamesJson(references)
    requires Get(data, "referenced-by") == NamesJson(referencedBy)
    requires Resolvable(references, vars) && Resolvable(referencedBy, vars)
    ensures ReadJson(data, vars) == Ok(JsonFields(dimacsNumber, LocationsOf(ls), references, referencedBy))
  {
    LocationsRead(data, ls);
    ReferencesRead(data, "references", vars, references);
    ReferencesRead(data, "referenced-by", vars, referencedBy);
  }

  lemma LocationsRead(data: seq<Member>, ls: Option<seq<SourceLocation>>)
    requires Get(data, "sourceLocations") == LocationsJson(ls)
    ensures LocationsEntry(data) == Ok(LocationsOf(ls))
  {
    if ls.Some? {
      LocationsRoundTrip(ls.value);
    }
  }

  lemma ReferencesRead(data: seq<Member>, key: string, vars: map<string, VariabilityVariable>,
                       vs: Option<set<VariabilityVariable>>)
    requires Get(data, key) == NamesJson(vs)
    requires Resolvable(vs, vars)
    ensures ReferencesEntry(data, key, vars) == Ok(vs)
  {
    if vs.Some? {
      NameListRoundTrip(vs.value, vars);
    }
  }

  /** setJsonData reads back what toJson writes: the number, the locations, and the
      reference sets, provided every referenced variable is known by its name. */
  lemma JsonRoundTrip(v: VariabilityVariable, vars: map<string, VariabilityVariable>)
    requires Resolvable(v.variablesUsedInConstraints, vars)
    requires Resolvable(v.usedInConstraintsOfOtherVariables, vars)
    ensures ReadJson(v.ToJson(), vars)
      == Ok(JsonFields(v.dimacsNumber, LocationsOf(v.sourceLocations),
                       v.variablesUsedInConstraints, v.usedInConstraintsOfOtherVariables))
  {
    var header := Header(v.name, v.varType, v.dimacsNumber);
    var locations, references, referencedBy :=
      LocationsJson(v.sourceLocations), NamesJson(v.variablesUsedInConstraints), NamesJson(v.usedInConstraintsOfOtherVariables);
    var data := v.ToJson();
    assert data == WithOptional(header, locations, references, referencedBy);
    assert Get(data, "dimacsNumber") == Some(JInt(v.dimacsNumber)) by {
      NumberKept(header, locations, references, referencedBy);
    }
    assert Get(data, "sourceLocations") == locations by {
      LocationsWritten(header, locations, references, referencedBy);
    }
    assert Get(data, "references") == references by {
      ReferencesWritten(header, locations, references, referencedBy);
    }
    assert Get(data, "referenced-by") == referencedBy by {
      ReferencedByWritten(header, locations, references, referencedBy);
    }
    ReadEntries(data, vars, v.dimacsNumber, v.sourceLocations, v.variablesUsedInConstraints,
                v.usedInConstraintsOfOtherVariables);
  }

  /** A new variable given the JSON of a valid variable ends up equal to it. */
  lemma JsonRestoresData(v: VariabilityVariable)
    requires v.Valid()
    ensures WithLocations(None, LocationsOf(v.sourceLocations)) == v.sourceLocations
  {
    if v.sourceLocations.Some? {
      assert [] + v.sourceLocations.value == v.sourceLocations.value;
    }
  }
}
