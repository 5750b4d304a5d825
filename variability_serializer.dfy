/** VariabilityVariableSerializer: a variable as four CSV fields (name, type, DIMACS
    number, locations) and back. Locations are written as "file>line", joined by
    '|', or "null" for a variable that never got a location. */
module VariableSerialization {
  import opened Wrappers
  import opened JavaText
  import opened VariabilityVariables

  /** The number of fields the default format has. */
  const DEFAULT_SIZE: nat := 4

  /** One location as "file>line". */
  function LocationText(l: SourceLocation): (r: string)
    ensures |r| > |l.source| && r[|l.source|] == '>'
  {
    l.source + ">" + IntToString(l.lineNumber)
  }

  function LocationTexts(ls: seq<SourceLocation>): (r: seq<string>)
    ensures |r| == |ls| && forall i :: 0 <= i < |ls| ==> r[i] == LocationText(ls[i])
  {
    seq(|ls|, i requires 0 <= i < |ls| => LocationText(ls[i]))
  }

  /** The fourth field: "null" for a null list, else the location texts joined by '|'. */
  function LocationsText(locations: Option<seq<SourceLocation>>): string {
    if locations.None? then "null" else Join(LocationTexts(locations.value), "|")
  }

  /** What serializeImpl produces for a variable in the given state. */
  function Serialized(d: VarData): (r: seq<string>)
    ensures |r| == DEFAULT_SIZE
  {
    [d.name, d.varType, IntToString(d.dimacsNumber), LocationsText(d.locations)]
  }

  /** serializeImpl: the three plain fields, then the locations. */
  method SerializeImpl(variable: VariabilityVariable) returns (result: seq<string>)
    ensures result == Serialized(variable.Data())
  {
    result := [variable.name, variable.varType, IntToString(variable.dimacsNumber)];
    var sourceLocations := LocationsField(variable.sourceLocations);
    result := result + [sourceLocations];
  }

  /** The locations field of serializeImpl: each location followed by a '|' unless it
      is the last, or "null" for a null list. */
  method LocationsField(locations: Option<seq<SourceLocation>>) returns (text: string)
    ensures text == LocationsText(locations)
  {
    if locations.None? {
      return "null";
    }
    var list := locations.value;
    ghost var texts := LocationTexts(list);
    text := "";
    var i := 0;
    while i < |list|
      invariant 0 <= i <= |list|
      invariant i < |list| ==> JoinedSoFar(text, "", texts, i, "|")
      invariant i == |list| ==> text == Join(texts, "|")
    {
      var location := list[i].source + ">" + IntToString(list[i].lineNumber);
      FieldStep(text, texts, i);
      if i < |list| - 1 {
        text := text + location + "|";
      } else {
        text := text + location;
      }
      i := i + 1;
    }
  }

  /** One location appended by the loop of LocationsField. */
  lemma FieldStep(text: string, texts: seq<string>, i: nat)
    requires i < |texts| && JoinedSoFar(text, "", texts, i, "|")
    ensures i < |texts| - 1 ==> JoinedSoFar(text + texts[i] + "|", "", texts, i + 1, "|")
    ensures i == |texts| - 1 ==> text + texts[i] == Join(texts, "|")
  {
    if i < |texts| - 1 {
      JoinedStep(text, "", texts, i, "|");
    } else {
      JoinedLast(text, "", texts, "|");
    }
  }

  /** checkLength: anything but four fields is a FormatException. */
  function CheckLength(csv: seq<string>): (r: Result<()>)
    ensures r.Ok? <==> |csv| == DEFAULT_SIZE
    ensures r.Fail? ==> r.exc == FormatException
  {
    if |csv| != DEFAULT_SIZE then Fail(FormatException) else Ok(())
  }

  /** One location read back: exactly two '>'-pieces, the second an int. */
  function ParseLocation(text: string): (r: Result<SourceLocation>)
    ensures r.Ok? <==> |JavaSplit(text, {'>'})| == 2 && ParseInt(JavaSplit(text, {'>'})[1]).Some?
    ensures r.Ok? ==> r.value == SourceLocation(JavaSplit(text, {'>'})[0], ParseInt(JavaSplit(text, {'>'})[1]).value)
    ensures r.Fail? ==> r.exc == FormatException
  {
    var parts := JavaSplit(text, {'>'});
    if |parts| != 2 then Fail(FormatException)
    else
      var line := ParseInt(parts[1]);
      if line.None? then Fail(FormatException) else Ok(SourceLocation(parts[0], line.value))
  }

  /** The fourth field read back: "null" leaves the list null; otherwise each
      '|'-piece is added in order, so a field that splits into no pieces also leaves
      it null. */
  function LocationsFromText(text: string): (r: Result<Option<seq<SourceLocation>>>)
    ensures text == "null" ==> r == Ok(None)
    ensures r.Fail? ==> r.exc == FormatException
  {
    if text == "null" then Ok(None)
    else
      var ls :- MapAll(JavaSplit(text, {'|'}), ParseLocation);
      Ok(WithLocations(None, ls))
  }

  /** deserializeImpl on fields the length check let through. */
  function DeserializedImpl(csv: seq<string>): (r: Result<VarData>)
    requires |csv| >= DEFAULT_SIZE
    ensures r.Ok? ==> r.value.name == csv[0] && r.value.varType == csv[1]
    ensures r.Ok? ==> ParseInt(csv[2]) == Some(r.value.dimacsNumber)
    ensures r.Fail? ==> r.exc == FormatException
  {
    var number := ParseInt(csv[2]);
    if number.None? then Fail(FormatException)
    else
      var locations :- LocationsFromText(csv[3]);
      Ok(VarData(csv[0], csv[1], number.value, locations))
  }

  /** deserialize: the length check, then deserializeImpl. */
  function Deserialized(csv: seq<string>): (r: Result<VarData>)
    ensures |csv| != DEFAULT_SIZE ==> r == Fail(FormatException)
    ensures r.Fail? ==> r.exc == FormatException
  {
    var _ :- CheckLength(csv);
    DeserializedImpl(csv)
  }

  /** deserialize, building the variable and adding the locations one by one. */
  method Deserialize(csv: seq<string>) returns (r: Result<VariabilityVariable>)
    ensures r.Ok? <==> Deserialized(csv).Ok?
    ensures r.Fail? ==> r.exc == FormatException
    ensures r.Ok? ==> fresh(r.value) && r.value.Valid() && r.value.Data() == Deserialized(csv).value
    ensures r.Ok? ==> r.value.variablesUsedInConstraints.None? && r.value.usedInConstraintsOfOtherVariables.None?
  {
    if |csv| != DEFAULT_SIZE {
      return Fail(FormatException);
    }
    var number := ParseInt(csv[2]);
    if number.None? {
      return Fail(FormatException);
    }
    var variable := new VariabilityVariable.WithNumber(csv[0], csv[1], number.value);
    if csv[3] != "null" {
      var pieces := JavaSplit(csv[3], {'|'});
      ghost var added: seq<SourceLocation> := [];
      var i := 0;
      while i < |pieces|
        invariant 0 <= i <= |pieces|
        invariant MapAll(pieces[..i], ParseLocation) == Ok(added)
        invariant variable.Valid() && variable.sourceLocations == WithLocations(None, added)
        invariant variable.name == csv[0] && variable.varType == csv[1] && variable.dimacsNumber == number.value
        invariant variable.variablesUsedInConstraints.None? && variable.usedInConstraintsOfOtherVariables.None?
      {
        MapAllPrefixStep(pieces, i, ParseLocation, added);
        var location := ParseLocation(pieces[i]);
        if location.Fail? {
          return Fail(FormatException);
        }
        variable.AddLocation(location.value);
        WithLocationsAppend(None, added, [location.value]);
        added := added + [location.value];
        i := i + 1;
      }
      assert pieces[..|pieces|] == pieces;
    }
    r := Ok(variable);
  }

  // ---------------------------------------------------------------------------
  // The round trip

  /** The state serialization can carry: every number fits an int, no path contains
      one of the two separators, and a created location list is not empty. */
  predicate Serializable(d: VarData) {
    && IsInt(d.dimacsNumber)
    && (d.locations.Some? ==>
          && d.locations.value != []
          && forall l :: l in d.locations.value ==> IsInt(l.lineNumber) && '|' !in l.source && '>' !in l.source)
  }

  /** A printed number holds only digits and '-'. */
  lemma NumberChars(n: int)
    ensures forall c :: c in IntToString(n) ==> IsDigit(c) || c == '-'
  {
    var digits := NatToDigits(if n < 0 then -n else n);
    forall c | c in IntToString(n) ensures IsDigit(c) || c == '-' {
      if c != '-' {
        assert c in digits;
      }
    }
  }

  /** A location written by serializeImpl reads back as itself. */
  lemma LocationRoundTrip(l: SourceLocation)
    requires IsInt(l.lineNumber) && '>' !in l.source
    ensures ParseLocation(LocationText(l)) == Ok(l)
  {
    var number := IntToString(l.lineNumber);
    NumberChars(l.lineNumber);
    assert Join([l.source, number], ">") == LocationText(l);
    JavaSplitJoin([l.source, number], '>');
    ParseIntOfToString(l.lineNumber);
  }

  /** Joined location texts split back at '|' into the texts. */
  lemma TextsSplit(ls: seq<SourceLocation>)
    requires ls != []
    requires forall l :: l in ls ==> '|' !in l.source
    ensures JavaSplit(Join(LocationTexts(ls), "|"), {'|'}) == LocationTexts(ls)
  {
    var texts := LocationTexts(ls);
    forall k | 0 <= k < |texts| ensures '|' !in texts[k] {
      assert ls[k] in ls;
      NumberChars(ls[k].lineNumber);
    }
    JavaSplitJoin(texts, '|');
  }

  /** A non-empty join begins with its first part. */
  lemma {:induction false} JoinStartsWithFirst(parts: seq<string>, sep: string)
    requires parts != []
    ensures |Join(parts, sep)| >= |parts[0]| && Join(parts, sep)[..|parts[0]|] == parts[0]
  {
  }

  /** A created location list is never written as "null". */
  lemma LocationsNotNull(ls: seq<SourceLocation>)
    requires ls != []
    ensures Join(LocationTexts(ls), "|") != "null"
  {
    var texts := LocationTexts(ls);
    var joined := Join(texts, "|");
    JoinStartsWithFirst(texts, "|");
    var k := |ls[0].source|;
    assert joined[k] == texts[0][k] == '>';
    assert "null"[0] != '>' && "null"[1] != '>' && "null"[2] != '>' && "null"[3] != '>';
  }

  /** deserialize(serialize(v)) restores name, type, DIMACS number and locations. */
  lemma RoundTrip(d: VarData)
    requires Serializable(d)
    ensures Deserialized(Serialized(d)) == Ok(d)
  {
    var csv := Serialized(d);
    ParseIntOfToString(d.dimacsNumber);
    if d.locations.Some? {
      var ls := d.locations.value;
      LocationsNotNull(ls);
      TextsSplit(ls);
      var texts := LocationTexts(ls);
      forall k | 0 <= k < |texts| ensures ParseLocation(texts[k]) == Ok(ls[k]) {
        assert ls[k] in ls;
        LocationRoundTrip(ls[k]);
      }
      MapAllOk(texts, ParseLocation, ls);
      assert [] + ls == ls;
      assert LocationsFromText(csv[3]) == Ok(d.locations);
    }
  }

  /** A path containing '>' breaks the round trip: its location splits into at
      least three pieces. */
  lemma ArrowInPathFails(l: SourceLocation)
    requires '>' in l.source
    ensures ParseLocation(LocationText(l)).Fail?
  {
    var number := IntToString(l.lineNumber);
    var text := LocationText(l);
    var i :| 0 <= i < |l.source| && l.source[i] == '>';
    CountInPositive(l.source, {'>'}, i);
    CountInPositive(">", {'>'}, 0);
    CountInAppend(l.source, ">", {'>'});
    CountInAppend(l.source + ">", number, {'>'});
    NumberChars(l.lineNumber);
    assert text[|text| - 1] == number[|number| - 1];
    SplitAllLast(text, '>');
    var pieces := SplitAll(text, {'>'});
    assert DropTrailingEmpty(pieces) == pieces;
  }

  /** So a variable whose single location has such a path is not read back. */
  lemma ArrowInPathBreaksRoundTrip(d: VarData)
    requires d.locations.Some? && |d.locations.value| == 1
    requires '>' in d.locations.value[0].source && '|' !in d.locations.value[0].source
    ensures Deserialized(Serialized(d)).Fail?
  {
    var l := d.locations.value[0];
    var texts := LocationTexts(d.locations.value);
    assert Join(texts, "|") == LocationText(l);
    NumberChars(l.lineNumber);
    assert '|' !in LocationText(l);
    NoSeparatorNoCount(LocationText(l), {'|'});
    ArrowInPathFails(l);
    assert LocationText(l) != "null" by {
      assert |LocationText(l)| > |l.source|;
      LocationsNotNull(d.locations.value);
    }
  }

  /** A fourth field that is a lone '|' splits into no pieces: no location is added
      and the list stays null. */
  lemma LoneBarNoLocations()
    ensures Deserialized(["x", "bool", "1", "|"]) == Ok(VarData("x", "bool", 1, None))
  {
    assert JavaSplit("|", {'|'}) == [];
    assert ParseInt("1") == Some(1);
  }
}
