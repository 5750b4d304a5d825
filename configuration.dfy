/** Configuration: the registry of settings over a properties map. Registering a
    setting reads and converts its value once; later reads and writes go through the
    values map. Also the merge of included property files and the unused-key report. */
module Configurations {
  import opened Wrappers
  import opened JavaText
  import opened Settings

  /** A converted setting value: Java's null, String, Integer, File (by its path),
      Boolean, Pattern (by its source text), an enum constant (by its name) or a list. */
  datatype Value =
    | Null
    | Str(text: string)
    | Int(number: int)
    | Path(path: string)
    | Bool(truth: bool)
    | Pattern(regex: string)
    | EnumConstant(name: string)
    | ListValue(items: seq<Value>)

  /** What the configuration asks of the outside world: which paths are existing
      directories and files, and which texts compile as regular expressions. */
  datatype Environment = Environment(directories: set<string>, files: set<string>, isPattern: string -> bool)

  const SOURCE_TREE: string := "source_tree"
  const INCLUDE_FILE: string := "include_file"

  /** Everything reading one value depends on: the properties, whether checks are on,
      the environment, and the value already registered for source_tree, if any. */
  datatype Context = Context(properties: map<string, string>, doChecks: bool, environment: Environment,
                             sourceTree: Option<Value>)

  // ---------------------------------------------------------------------------
  // Indexed keys: key.0, key.1, ...

  function IndexedKey(base: string, i: nat): string {
    base + "." + IntToString(i)
  }

  lemma IndexedKeyInjective(base: string, i: nat, j: nat)
    requires IndexedKey(base, i) == IndexedKey(base, j)
    ensures i == j
  {
    var n := |base| + 1;
    assert IndexedKey(base, i)[n..] == NatToDigits(i);
    assert IndexedKey(base, j)[n..] == NatToDigits(j);
    DigitsRoundTrip(i);
    DigitsRoundTrip(j);
  }

  function IndexedKeys(base: string, n: nat): set<string> {
    set j | 0 <= j < n :: IndexedKey(base, j)
  }

  lemma NotEarlier(base: string, n: nat)
    ensures IndexedKey(base, n) !in IndexedKeys(base, n)
  {
    if IndexedKey(base, n) in IndexedKeys(base, n) {
      var j :| 0 <= j < n && IndexedKey(base, j) == IndexedKey(base, n);
      IndexedKeyInjective(base, j, n);
    }
  }

  lemma {:induction false} IndexedKeysCount(base: string, n: nat)
    ensures |IndexedKeys(base, n)| == n
  {
    if n > 0 {
      IndexedKeysCount(base, n - 1);
      NotEarlier(base, n - 1);
      IndexedKeysNext(base, n - 1);
    }
  }

  /** A run of present keys key.0 .. key.(n-1) cannot be longer than the map. */
  lemma RunBound(properties: map<string, string>, base: string, n: nat)
    requires forall j :: 0 <= j < n ==> IndexedKey(base, j) in properties
    ensures n <= |properties|
  {
    IndexedKeysCount(base, n);
    assert IndexedKeys(base, n) <= properties.Keys;
    SubsetSize(IndexedKeys(base, n), properties.Keys);
  }

  lemma SubsetSize(a: set<string>, b: set<string>)
    requires a <= b
    ensures |a| <= |b|
  {
    assert b == a + (b - a);
  }

  /** The values under key.i, key.(i+1), ... up to the first missing key. */
  function Run(properties: map<string, string>, base: string, i: nat): (r: seq<string>)
    decreases |properties| - i
  {
    if i < |properties| && IndexedKey(base, i) in properties then
      [properties[IndexedKey(base, i)]] + Run(properties, base, i + 1)
    else []
  }

  /** The run from key.i is the values under key.i, key.(i+1), ... when exactly those
      keys up to the first missing one are present. */
  lemma {:induction false} RunOf(properties: map<string, string>, base: string, values: seq<string>, i: nat)
    requires i <= |values|
    requires forall j :: 0 <= j < |values| ==>
      IndexedKey(base, j) in properties && properties[IndexedKey(base, j)] == values[j]
    requires IndexedKey(base, |values|) !in properties
    ensures Run(properties, base, i) == values[i..]
    decreases |values| - i
  {
    if i < |values| {
      RunBound(properties, base, i + 1);
      RunOf(properties, base, values, i + 1);
      assert values[i..] == [values[i]] + values[i + 1..];
    }
  }

  // ---------------------------------------------------------------------------
  // Reading one value

  /** java.io.File.isAbsolute on a Unix path. */
  predicate IsAbsolute(path: string) {
    path != [] && path[0] == '/'
  }

  /** new File(parent, child), where the parent is the value registered for
      source_tree: a null parent leaves the child as it is, and a value that is not a
      File fails the cast. */
  function Child(parent: Value, child: string): Result<string> {
    if parent.Path? then Ok(parent.path + "/" + child)
    else if parent.Null? then Ok(child)
    else Fail(ClassCastException)
  }

  /** readFileValue: an existing file; otherwise a relative path is retried below
      source_tree; if still no file, an error with checks on, else the path as given. */
  function FileValue(ctx: Context, value: string): (r: Result<Value>)
    ensures r.Ok? ==> r.value.Path?
    ensures r.Ok? && r.value.path != value ==> r.value.path in ctx.environment.files
    ensures r.Fail? ==> r.exc == SetUpException || r.exc == ClassCastException
  {
    if value in ctx.environment.files then Ok(Path(value))
    else
      var candidate :- if !IsAbsolute(value) && ctx.sourceTree.Some? then Child(ctx.sourceTree.value, value)
                       else Ok(value);
      if candidate in ctx.environment.files then Ok(Path(candidate))
      else if ctx.doChecks then Fail(SetUpException)
      else Ok(Path(value))
  }

  /** parseValue: a missing value is an error only for a mandatory setting with checks
      on; a present value is trimmed and converted by the setting type. */
  function ParseValue(ctx: Context, value: Option<string>, t: SettingType, mandatory: bool): (r: Result<Value>)
    ensures value.None? ==> (r.Fail? <==> mandatory && ctx.doChecks)
    ensures r.Fail? ==> r.exc == SetUpException || r.exc == ClassCastException
    ensures r.Ok? && value.Some? ==> r.value != Null && !r.value.ListValue? && !r.value.EnumConstant?
    ensures value.Some? && (t == LIST || t == ENUM) ==> r == Fail(SetUpException)
    ensures r.Ok? && value.Some? && t == INTEGER ==> r.value.Int? && IsInt(r.value.number)
  {
    if value.None? then
      if mandatory && ctx.doChecks then Fail(SetUpException) else Ok(Null)
    else
      Convert(ctx, Trim(value.value), t)
  }

  /** The switch of parseValue on the setting type, applied to the trimmed text. */
  function Convert(ctx: Context, v: string, t: SettingType): (r: Result<Value>)
    ensures r.Fail? ==> r.exc == SetUpException || r.exc == ClassCastException
    ensures r.Ok? ==> r.value != Null && !r.value.ListValue? && !r.value.EnumConstant?
    ensures t == LIST || t == ENUM ==> r == Fail(SetUpException)
    ensures r.Ok? && t == INTEGER ==> r.value.Int? && IsInt(r.value.number)
  {
    match t
    case STRING => Ok(Str(v))
    case INTEGER =>
      var n := ParseInt(v);
      if n.Some? then Ok(Int(n.value)) else Fail(SetUpException)
    case DIRECTORY =>
      if v !in ctx.environment.directories && ctx.doChecks then Fail(SetUpException) else Ok(Path(v))
    case FILE => FileValue(ctx, v)
    case PATH => Ok(Path(v))
    case BOOLEAN => Ok(Bool(ToLower(v) == "true"))
    case REGEX => if ctx.environment.isPattern(v) then Ok(Pattern(v)) else Fail(SetUpException)
    case LIST => Fail(SetUpException)
    case ENUM => Fail(SetUpException)
  }

  /** parseValue trims what it is given, so trimming first changes nothing. */
  lemma TrimmedValue(ctx: Context, text: string, t: SettingType, mandatory: bool)
    ensures ParseValue(ctx, Some(Trim(text)), t, mandatory) == ParseValue(ctx, Some(text), t, mandatory)
  {
    TrimIdentity(Trim(text));
  }

  /** An int printed by String.valueOf reads back as the same Integer. */
  lemma IntegerRoundTrip(ctx: Context, n: int, mandatory: bool)
    requires IsInt(n)
    ensures ParseValue(ctx, Some(IntToString(n)), INTEGER, mandatory) == Ok(Int(n))
  {
    var text := IntToString(n);
    var digits := NatToDigits(if n < 0 then -n else n);
    assert IsDigit(digits[|digits| - 1]);
    assert text[|text| - 1] == digits[|digits| - 1];
    assert text[0] == '-' || text[0] == digits[0];
    TrimIdentity(text);
    ParseIntOfToString(n);
  }

  lemma AppendAssoc<T>(front: seq<T>, x: T, back: seq<T>)
    ensures front + ([x] + back) == front + [x] + back
  {
  }

  /** The state of a loop that walks key.0, key.1, ... mapping each value with f:
      index keys are present, done is the start of the run, and its results are items. */
  ghost predicate RunMapped<U>(properties: map<string, string>, base: string, f: string -> Result<U>,
                               index: nat, done: seq<string>, items: seq<U>)
  {
    && (forall j :: 0 <= j < index ==> IndexedKey(base, j) in properties)
    && Run(properties, base, 0) == done + Run(properties, base, index)
    && |done| == index
    && MapAll(done, f) == Ok(items)
  }

  lemma RunMappedStep<U>(properties: map<string, string>, base: string, f: string -> Result<U>,
                         index: nat, done: seq<string>, items: seq<U>)
    requires RunMapped(properties, base, f, index, done, items)
    requires IndexedKey(base, index) in properties
    ensures index < |properties|
    ensures var v := properties[IndexedKey(base, index)];
      && (f(v).Fail? ==> MapAll(Run(properties, base, 0), f) == Fail(f(v).exc))
      && (f(v).Ok? ==> RunMapped(properties, base, f, index + 1, done + [v], items + [f(v).value]))
  {
    var v := properties[IndexedKey(base, index)];
    var rest := RunStep(properties, base, index);
    RunBound(properties, base, index + 1);
    MapAllAppend(done, v, f);
    AppendAssoc(done, v, rest);
    if f(v).Fail? {
      MapAllFailed(done + [v], rest, f);
    }
  }

  lemma RunMappedDone<U>(properties: map<string, string>, base: string, f: string -> Result<U>,
                         index: nat, done: seq<string>, items: seq<U>)
    requires RunMapped(properties, base, f, index, done, items)
    requires IndexedKey(base, index) !in properties
    ensures done == Run(properties, base, 0)
    ensures MapAll(Run(properties, base, 0), f) == Ok(items)
  {
    NoRunAt(properties, base, index);
  }

  /** The conversion of one list element: parseValue of the present text as mandatory. */
  function Element(ctx: Context, t: SettingType): string -> Result<Value> {
    part => ParseValue(ctx, Some(part), t, true)
  }

  /** String.split(",") followed by trim on every part. */
  function SplitList(text: string): (r: seq<string>)
    ensures |r| == |JavaSplit(text, {','})|
  {
    var parts := JavaSplit(text, {','});
    seq(|parts|, k requires 0 <= k < |parts| => Trim(parts[k]))
  }

  /** A part of a default list text: not empty, unchanged by trim and free of commas. */
  predicate ListElement(e: string) {
    e != [] && Trimmed(e) && ',' !in e
  }

  /** The parts after the first, each preceded by the space of the ", " separator. */
  function Prefixed(parts: seq<string>): (r: seq<string>)
    ensures |r| == |parts| && forall k :: 0 <= k < |parts| ==> r[k] == " " + parts[k]
  {
    seq(|parts|, k requires 0 <= k < |parts| => " " + parts[k])
  }

  lemma {:induction false} PrefixedJoin(parts: seq<string>)
    requires parts != []
    ensures " " + Join(parts, ", ") == Join(Prefixed(parts), ",")
    decreases |parts|
  {
    if |parts| > 1 {
      var rest := parts[1..];
      PrefixedJoin(rest);
      assert Prefixed(parts) == [" " + parts[0]] + Prefixed(rest);
      JoinCons(" " + parts[0], Prefixed(rest), ",");
      assert Join(parts, ", ") == parts[0] + ", " + Join(rest, ", ");
    }
  }

  lemma TrimSpaced(e: string)
    requires ListElement(e)
    ensures Trim(" " + e) == e
  {
    var spaced := " " + e;
    assert spaced != [] && spaced[0] <= ' ' && spaced[1..] == e;
    assert TrimStart(spaced) == TrimStart(e);
    assert TrimStart(e) == e;
    assert TrimEnd(e) == e;
  }

  /** The text ListSetting writes for a default list, ", " between the elements, is
      split by readListSetting back into the same elements. */
  lemma ListTextRoundTrip(elements: seq<string>)
    requires elements != []
    requires forall k :: 0 <= k < |elements| ==> ListElement(elements[k])
    ensures SplitList(Join(elements, ", ")) == elements
  {
    var parts := CommaParts(elements);
    JavaSplitJoin(parts, ',');
    forall k | 0 <= k < |elements|
      ensures Trim(parts[k]) == elements[k]
    {
      if k == 0 {
        TrimIdentity(elements[0]);
      } else {
        TrimSpaced(elements[k]);
      }
    }
  }

  /** The default text ListSetting builds from a list of present elements reads back
      as the elements' texts. */
  lemma DefaultTextRoundTrip(list: seq<Option<string>>)
    requires list != []
    requires forall k :: 0 <= k < |list| ==> list[k].Some? && ListElement(list[k].value)
    ensures DefaultText(list).Ok? && SplitList(DefaultText(list).value) == ElementTexts(list)
  {
    var texts := ElementTexts(list);
    assert forall k :: 0 <= k < |list| ==> !HasComma(list[k]);
    assert forall k :: 0 <= k < |texts| ==> ListElement(texts[k]);
    ListTextRoundTrip(texts);
  }

  /** A list of trimmed texts read as String elements. */
  function Strings(texts: seq<string>): (r: seq<Value>)
    ensures |r| == |texts| && forall k :: 0 <= k < |texts| ==> r[k] == Str(texts[k])
  {
    seq(|texts|, k requires 0 <= k < |texts| => Str(texts[k]))
  }

  lemma StringElements(ctx: Context, texts: seq<string>)
    requires forall k :: 0 <= k < |texts| ==> Trimmed(texts[k])
    ensures MapAll(texts, Element(ctx, STRING)) == Ok(Strings(texts))
  {
    var f := Element(ctx, STRING);
    var values := Strings(texts);
    forall k | 0 <= k < |texts|
      ensures f(texts[k]) == Ok(values[k])
    {
      StringElement(ctx, texts[k]);
    }
    MapAllOk(texts, f, values);
  }

  lemma StringElement(ctx: Context, text: string)
    requires Trimmed(text)
    ensures Element(ctx, STRING)(text) == Ok(Str(text))
  {
    TrimIdentity(text);
  }

  /** A String list setting with neither its key nor key.0 in the properties reads
      back the elements of its default list. */
  lemma DefaultListRead(ctx: Context, setting: Setting, elements: seq<string>)
    requires setting.declaration == ListOf(STRING)
    requires setting.key !in ctx.properties && IndexedKey(setting.key, 0) !in ctx.properties
    requires setting.defaultValue == Some(Join(elements, ", "))
    requires elements != [] && forall k :: 0 <= k < |elements| ==> ListElement(elements[k])
    ensures ListValueOf(ctx, setting) == Ok(ListValue(Strings(elements)))
  {
    ListTextRoundTrip(elements);
    StringElements(ctx, elements);
  }

  /** An empty default list has the text "", which String.split turns into one empty
      part: the setting reads back as a list holding one empty String. */
  lemma EmptyDefaultList(ctx: Context, setting: Setting)
    requires setting.declaration == ListOf(STRING)
    requires setting.key !in ctx.properties && IndexedKey(setting.key, 0) !in ctx.properties
    requires setting.defaultValue == Some(Join([], ", "))
    ensures ListValueOf(ctx, setting) == Ok(ListValue([Str("")]))
  {
    assert SplitList("") == [""];
    StringElements(ctx, [""]);
    assert Strings([""]) == [Str("")];
  }

  /** The pieces between the commas of a ", "-joined text. */
  lemma CommaParts(elements: seq<string>) returns (parts: seq<string>)
    requires elements != []
    requires forall k :: 0 <= k < |elements| ==> ListElement(elements[k])
    ensures Join(elements, ", ") == Join(parts, ",")
    ensures |parts| == |elements| && parts[0] == elements[0]
    ensures forall k :: 1 <= k < |parts| ==> parts[k] == " " + elements[k]
    ensures forall k :: 0 <= k < |parts| ==> ',' !in parts[k]
    ensures parts[|parts| - 1] != []
  {
    var e0 := elements[0];
    if |elements| == 1 {
      parts := [e0];
    } else {
      var rest := Prefixed(elements[1..]);
      parts := [e0] + rest;
      PrefixedJoin(elements[1..]);
      JoinCons(e0, rest, ",");
      assert Join(elements, ", ") == e0 + ", " + Join(elements[1..], ", ");
      forall k | 1 <= k < |parts|
        ensures parts[k] == " " + elements[k] && ',' !in parts[k]
      {
        assert parts[k] == rest[k - 1];
        assert ListElement(elements[k]);
      }
    }
  }

  /** Properties.getProperty(key, default). */
  function Lookup(properties: map<string, string>, key: string, default: Option<string>): Option<string> {
    if key in properties then Some(properties[key]) else default
  }

  /** readListSetting: the comma list under the key, else the values under key.0,
      key.1, ... up to the first gap, else the comma list of the default; with none of
      these, an empty list, or an error for a mandatory setting with checks on. */
  function ListValueOf(ctx: Context, setting: Setting): (r: Result<Value>)
    ensures r.Ok? ==> r.value.ListValue?
  {
    if !setting.declaration.ListOf? then Fail(SetUpException)
    else
      var nested := setting.declaration.nestedType;
      var base := setting.key;
      if nested == LIST then Fail(SetUpException)
      else if base in ctx.properties then
        var items :- MapAll(SplitList(ctx.properties[base]), Element(ctx, nested));
        Ok(ListValue(items))
      else if IndexedKey(base, 0) in ctx.properties then
        var items :- MapAll(Run(ctx.properties, base, 0), Element(ctx, nested));
        Ok(ListValue(items))
      else if setting.defaultValue.Some? then
        var items :- MapAll(SplitList(setting.defaultValue.value), Element(ctx, nested));
        Ok(ListValue(items))
      else if ctx.doChecks && setting.mandatory then Fail(SetUpException)
      else Ok(ListValue([]))
  }

  /** readEnumSetting: the value (not trimmed) upper-cased must name a constant. */
  function EnumValueOf(ctx: Context, setting: Setting): (r: Result<Value>)
    ensures r.Ok? && r.value.EnumConstant? ==>
      setting.declaration.EnumOf? && r.value.name in setting.declaration.constants
  {
    if !setting.declaration.EnumOf? then Fail(SetUpException)
    else
      var value := Lookup(ctx.properties, setting.key, setting.defaultValue);
      if value.None? then
        if setting.mandatory && ctx.doChecks then Fail(SetUpException) else Ok(Null)
      else if ToUpper(value.value) in setting.declaration.constants then Ok(EnumConstant(ToUpper(value.value)))
      else Fail(SetUpException)
  }

  /** The value registerSetting stores for a newly registered setting. */
  function ReadSetting(ctx: Context, setting: Setting): Result<Value> {
    if setting.settingType == LIST then ListValueOf(ctx, setting)
    else if setting.settingType == ENUM then EnumValueOf(ctx, setting)
    else ParseValue(ctx, Lookup(ctx.properties, setting.key, setting.defaultValue), setting.settingType,
                    setting.mandatory)
  }

  // ---------------------------------------------------------------------------
  // Unused keys

  /** Removes key.i, key.(i+1), ... up to the first key that is not in the set. */
  function RemoveRun(keys: set<string>, base: string, i: nat): (r: set<string>)
    ensures r <= keys
    decreases |keys|
  {
    if IndexedKey(base, i) in keys then RemoveRun(keys - {IndexedKey(base, i)}, base, i + 1) else keys
  }

  /** RemoveRun takes away only indexed keys of its base, from index i on. */
  lemma {:induction false} RemoveRunOnlyIndexed(keys: set<string>, base: string, i: nat, k: string)
    requires k in keys && k !in RemoveRun(keys, base, i)
    ensures exists j :: i <= j && k == IndexedKey(base, j)
    decreases |keys|
  {
    if IndexedKey(base, i) in keys && k != IndexedKey(base, i) {
      RemoveRunOnlyIndexed(keys - {IndexedKey(base, i)}, base, i + 1, k);
    }
  }

  /** When key.i .. key.(n-1) are all in the set, RemoveRun takes all of them away. */
  lemma {:induction false} RemoveRunRemoves(keys: set<string>, base: string, i: nat, n: nat, j: nat)
    requires forall m :: i <= m < n ==> IndexedKey(base, m) in keys
    requires i <= j < n
    ensures IndexedKey(base, j) !in RemoveRun(keys, base, i)
    decreases |keys|
  {
    var rest := keys - {IndexedKey(base, i)};
    if j > i {
      forall m | i + 1 <= m < n
        ensures IndexedKey(base, m) in rest
      {
        if IndexedKey(base, m) == IndexedKey(base, i) {
          IndexedKeyInjective(base, m, i);
        }
      }
      RemoveRunRemoves(rest, base, i + 1, n, j);
    }
  }

  /** The loop of getUnusedKeys over key.0, key.1, ... for a list setting. */
  method RemoveIndexedKeys(keys: set<string>, base: string) returns (result: set<string>)
    ensures result == RemoveRun(keys, base, 0)
  {
    result := keys;
    var index: nat := 0;
    while IndexedKey(base, index) in result
      invariant RemoveRun(keys, base, 0) == RemoveRun(result, base, index)
      decreases |result|
    {
      result := result - {IndexedKey(base, index)};
      index := index + 1;
    }
  }

  /** What one registered setting removes from the unused keys: for a list setting
      whose key is not there, its run of indexed keys; otherwise its key. */
  function RemoveSetting(keys: set<string>, setting: Setting): (r: set<string>)
    ensures r <= keys && setting.key !in r
  {
    if setting.settingType == LIST && setting.key !in keys then RemoveRun(keys, setting.key, 0)
    else keys - {setting.key}
  }

  /** The unused keys after going through the settings in the given order. */
  function UnusedKeys(keys: set<string>, settings: seq<Setting>): (r: set<string>)
    ensures r <= keys
  {
    if settings == [] then keys
    else RemoveSetting(UnusedKeys(keys, settings[..|settings| - 1]), settings[|settings| - 1])
  }

  /** No registered setting's key is reported as unused. */
  lemma {:induction false} SettingKeysUsed(keys: set<string>, settings: seq<Setting>, i: nat)
    requires i < |settings|
    ensures settings[i].key !in UnusedKeys(keys, settings)
    decreases |settings|
  {
    var n := |settings| - 1;
    if i < n {
      SettingKeysUsed(keys, settings[..n], i);
    }
  }

  /** A key no setting uses, neither as its key nor, for a list setting, as one of its
      indexed keys, is reported as unused. */
  lemma {:induction false} OtherKeysUnused(keys: set<string>, settings: seq<Setting>, k: string)
    requires k in keys
    requires forall i :: 0 <= i < |settings| ==> k != settings[i].key
    requires forall i, j :: 0 <= i < |settings| && settings[i].settingType == LIST ==>
      k != IndexedKey(settings[i].key, j)
    ensures k in UnusedKeys(keys, settings)
    decreases |settings|
  {
    if settings != [] {
      var n := |settings| - 1;
      var init := settings[..n];
      assert forall i :: 0 <= i < n ==> init[i] == settings[i];
      OtherKeysUnused(keys, init, k);
      var before := UnusedKeys(keys, init);
      var setting := settings[n];
      if setting.settingType == LIST && setting.key !in before && k !in RemoveRun(before, setting.key, 0) {
        RemoveRunOnlyIndexed(before, setting.key, 0, k);
      }
    }
  }

  // ---------------------------------------------------------------------------
  // Included property files

  /** Properties.putIfAbsent for every entry of other. */
  function PutAbsent(properties: map<string, string>, other: map<string, string>): map<string, string> {
    other + properties
  }

  /** The merge of the included properties, from the highest index down. */
  function Merge(properties: map<string, string>, included: seq<map<string, string>>): map<string, string>
    decreases |included|
  {
    if included == [] then properties
    else Merge(PutAbsent(properties, included[|included| - 1]), included[..|included| - 1])
  }

  /** The merged keys are the file's own keys and those of every included file. */
  lemma {:induction false} MergeKeys(properties: map<string, string>, included: seq<map<string, string>>, k: string)
    ensures k in Merge(properties, included) <==>
      k in properties || exists i :: 0 <= i < |included| && k in included[i]
    decreases |included|
  {
    if included != [] {
      var n := |included| - 1;
      MergeKeys(PutAbsent(properties, included[n]), included[..n], k);
      if k in included[n] {
        assert k in PutAbsent(properties, included[n]);
      }
      if exists i :: 0 <= i < |included| && k in included[i] {
        var i :| 0 <= i < |included| && k in included[i];
        if i < n {
          assert k in included[..n][i];
        }
      }
    }
  }

  /** Keys the file sets itself keep their own values. */
  lemma {:induction false} MergeOwnFirst(properties: map<string, string>, included: seq<map<string, string>>,
                                         k: string)
    requires k in properties
    ensures k in Merge(properties, included) && Merge(properties, included)[k] == properties[k]
    decreases |included|
  {
    if included != [] {
      var n := |included| - 1;
      MergeOwnFirst(PutAbsent(properties, included[n]), included[..n], k);
    }
  }

  /** Any other key takes its value from the included file with the highest index that
      sets it. */
  lemma {:induction false} MergeHighestIndex(properties: map<string, string>, included: seq<map<string, string>>,
                                             k: string, i: nat)
    requires k !in properties && i < |included| && k in included[i]
    requires forall j :: i < j < |included| ==> k !in included[j]
    ensures k in Merge(properties, included) && Merge(properties, included)[k] == included[i][k]
    decreases |included|
  {
    var n := |included| - 1;
    var next := PutAbsent(properties, included[n]);
    if i == n {
      MergeOwnFirst(next, included[..n], k);
    } else {
      assert k !in included[n];
      assert forall j :: i < j < n ==> included[..n][j] == included[j];
      MergeHighestIndex(next, included[..n], k, i);
    }
  }

  /** loadFile once the file itself is read: the include_file.0, include_file.1, ...
      entries are removed and loaded in order, then merged below the file's own keys. */
  function Loaded(own: map<string, string>, load: string -> Result<map<string, string>>): Result<map<string, string>> {
    var paths := Run(own, INCLUDE_FILE, 0);
    var included :- MapAll(paths, load);
    Ok(Merge(own - IndexedKeys(INCLUDE_FILE, |paths|), included))
  }

  /** Properties.putAll of the absent entries, one key of other at a time. */
  method PutAllAbsent(properties: map<string, string>, other: map<string, string>)
    returns (result: map<string, string>)
    ensures result == PutAbsent(properties, other)
  {
    result := properties;
    var remaining := other.Keys;
    while remaining != {}
      invariant remaining <= other.Keys
      invariant result == PutAbsent(properties, Without(other, remaining))
      decreases |remaining|
    {
      var k :| k in remaining;
      WithoutStep(properties, other, remaining, k);
      if k !in result {
        result := result[k := other[k]];
      }
      remaining := remaining - {k};
    }
    assert Without(other, {}) == other;
  }

  /** other without the given keys. */
  function Without(other: map<string, string>, keys: set<string>): map<string, string> {
    map k | k in other.Keys - keys :: other[k]
  }

  lemma WithoutStep(properties: map<string, string>, other: map<string, string>, remaining: set<string>,
                    k: string)
    requires k in remaining && remaining <= other.Keys
    ensures var before := PutAbsent(properties, Without(other, remaining));
      PutAbsent(properties, Without(other, remaining - {k})) ==
        if k in before then before else before[k := other[k]]
  {
    var before := PutAbsent(properties, Without(other, remaining));
    var after := PutAbsent(properties, Without(other, remaining - {k}));
    assert Without(other, remaining - {k}) == Without(other, remaining)[k := other[k]];
    if k in before {
      assert k in properties;
      assert after == before;
    } else {
      assert after == before[k := other[k]];
    }
  }

  /** Configuration.loadFile after Properties.load: collects and loads the included
      files, then merges them from the highest index down with putIfAbsent. */
  method LoadProperties(own: map<string, string>, load: string -> Result<map<string, string>>)
    returns (r: Result<map<string, string>>)
    ensures r == Loaded(own, load)
  {
    var properties := own;
    var included: seq<map<string, string>> := [];
    var index: nat := 0;
    ghost var paths: seq<string> := [];
    while IndexedKey(INCLUDE_FILE, index) in properties
      invariant Collected(own, load, properties, index, paths, included)
      decreases |own| - index
    {
      var key := IndexedKey(INCLUDE_FILE, index);
      var includeFile := properties[key];
      CollectStep(own, load, properties, index, paths, included);
      var loaded := load(includeFile);
      if loaded.Fail? {
        return Fail(loaded.exc);
      }
      properties := properties - {key};
      included := included + [loaded.value];
      paths := paths + [includeFile];
      index := index + 1;
    }
    CollectDone(own, load, properties, index, paths, included);
    properties := MergeIncluded(properties, included);
    return Ok(properties);
  }

  /** The state of loadFile's include loop after index entries: those keys are removed,
      their paths are the start of the run, and their files are loaded. */
  ghost predicate Collected(own: map<string, string>, load: string -> Result<map<string, string>>,
                            properties: map<string, string>, index: nat, paths: seq<string>,
                            included: seq<map<string, string>>)
  {
    && properties == own - IndexedKeys(INCLUDE_FILE, index)
    && RunMapped(own, INCLUDE_FILE, load, index, paths, included)
  }

  lemma CollectStep(own: map<string, string>, load: string -> Result<map<string, string>>,
                    properties: map<string, string>, index: nat, paths: seq<string>,
                    included: seq<map<string, string>>)
    requires Collected(own, load, properties, index, paths, included)
    requires IndexedKey(INCLUDE_FILE, index) in properties
    ensures index < |own|
    ensures var key := IndexedKey(INCLUDE_FILE, index);
      var file := properties[key];
      && (load(file).Fail? ==> Loaded(own, load) == Fail(load(file).exc))
      && (load(file).Ok? ==>
            Collected(own, load, properties - {key}, index + 1, paths + [file], included + [load(file).value]))
  {
    RunMappedStep(own, INCLUDE_FILE, load, index, paths, included);
    IndexedKeysNext(INCLUDE_FILE, index);
  }

  lemma CollectDone(own: map<string, string>, load: string -> Result<map<string, string>>,
                    properties: map<string, string>, index: nat, paths: seq<string>,
                    included: seq<map<string, string>>)
    requires Collected(own, load, properties, index, paths, included)
    requires IndexedKey(INCLUDE_FILE, index) !in properties
    ensures Loaded(own, load) == Ok(Merge(properties, included))
  {
    NotEarlier(INCLUDE_FILE, index);
    RunMappedDone(own, INCLUDE_FILE, load, index, paths, included);
  }

  /** One step along a run: the value at key.i, then the rest of the run. */
  lemma RunStep(properties: map<string, string>, base: string, i: nat) returns (rest: seq<string>)
    requires forall j :: 0 <= j < i ==> IndexedKey(base, j) in properties
    requires IndexedKey(base, i) in properties
    ensures rest == Run(properties, base, i + 1)
    ensures Run(properties, base, i) == [properties[IndexedKey(base, i)]] + rest
  {
    RunBound(properties, base, i + 1);
    rest := Run(properties, base, i + 1);
  }

  lemma NoRunAt(properties: map<string, string>, base: string, i: nat)
    requires IndexedKey(base, i) !in properties
    ensures Run(properties, base, i) == []
  {
  }

  lemma IndexedKeysNext(base: string, n: nat)
    ensures IndexedKeys(base, n + 1) == IndexedKeys(base, n) + {IndexedKey(base, n)}
  {
  }

  /** The merge loop of loadFile, from the last included file down to the first. */
  method MergeIncluded(properties: map<string, string>, included: seq<map<string, string>>)
    returns (result: map<string, string>)
    ensures result == Merge(properties, included)
  {
    result := properties;
    var i := |included|;
    assert included[..i] == included;
    while i > 0
      invariant 0 <= i <= |included|
      invariant Merge(properties, included) == Merge(result, included[..i])
    {
      i := i - 1;
      assert included[..i + 1][..i] == included[..i];
      result := PutAllAbsent(result, included[i]);
    }
    assert included[..0] == [];
  }

  // ---------------------------------------------------------------------------
  // The registry

  class Configuration {
    const properties: map<string, string>
    const doChecks: bool
    const environment: Environment
    /** The converted value of every registered setting that was read successfully. */
    var values: map<string, Value>
    /** The registered settings by key. */
    var settings: map<string, Setting>
    /** The registered keys in registration order, the order in which getUnusedKeys
        visits the settings. */
    var registered: seq<string>

    ghost predicate Valid()
      reads this
    {
      values.Keys <= settings.Keys &&
      (forall k :: k in settings <==> k in registered) &&
      (forall i, j :: 0 <= i < j < |registered| ==> registered[i] != registered[j]) &&
      (forall k :: k in settings ==> settings[k].key == k)
    }

    /** The context a value is read in: it sees the value of source_tree if that is
        registered. */
    function Ctx(): Context
      reads this
    {
      Context(properties, doChecks, environment, if SOURCE_TREE in values then Some(values[SOURCE_TREE]) else None)
    }

    constructor (properties: map<string, string>, doChecks: bool, environment: Environment)
      ensures Valid()
      ensures this.properties == properties && this.doChecks == doChecks && this.environment == environment
      ensures values == map[] && settings == map[] && registered == []
    {
      this.properties := properties;
      this.doChecks := doChecks;
      this.environment := environment;
      values := map[];
      settings := map[];
      registered := [];
    }

    /** registerSetting: the same setting object again is a no-op and another setting
        with a registered key is an error. A new setting is recorded before its value
        is read, so it stays registered, without a value, when reading fails. */
    method RegisterSetting(setting: Setting) returns (r: Result<()>)
      requires Valid()
      modifies this
      ensures Valid()
      ensures setting.key in old(settings) ==>
        unchanged(this) && r == if old(settings)[setting.key] == setting then Ok(()) else Fail(SetUpException)
      ensures setting.key !in old(settings) ==>
        settings == old(settings)[setting.key := setting] && registered == old(registered) + [setting.key]
      ensures setting.key !in old(settings) ==>
        var v := ReadSetting(old(Ctx()), setting);
        (v.Ok? ==> r == Ok(()) && values == old(values)[setting.key := v.value]) &&
        (v.Fail? ==> r == Fail(v.exc) && values == old(values))
    {
      var key := setting.key;
      if key in settings {
        if settings[key] != setting {
          return Fail(SetUpException);
        } else {
          return Ok(());
        }
      }
      ghost var ctx := Ctx();
      settings := settings[key := setting];
      registered := registered + [key];
      var value: Result<Value>;
      if setting.settingType == LIST {
        value := ReadListSetting(setting);
      } else if setting.settingType == ENUM {
        value := EnumValueOf(Ctx(), setting);
      } else {
        value := ParseValue(Ctx(), Lookup(properties, key, setting.defaultValue), setting.settingType,
                            setting.mandatory);
      }
      assert value == ReadSetting(ctx, setting);
      if value.Fail? {
        return Fail(value.exc);
      }
      values := values[key := value.value];
      return Ok(());
    }

    /** getValue: the stored value of a registered setting, looked up by its key. */
    method GetValue(setting: Setting) returns (r: Result<Value>)
      ensures r.Fail? <==> setting.key !in values
      ensures r.Fail? ==> r.exc == IllegalArgumentException
      ensures r.Ok? ==> r.value == values[setting.key]
    {
      if setting.key !in values {
        return Fail(IllegalArgumentException);
      }
      return Ok(values[setting.key]);
    }

    /** setValue: overwrites the value of a setting that has one, without any check on
        the new value. */
    method SetValue(setting: Setting, value: Value) returns (r: Result<()>)
      requires Valid()
      modifies this
      ensures Valid()
      ensures settings == old(settings) && registered == old(registered)
      ensures r.Fail? <==> setting.key !in old(values)
      ensures r.Fail? ==> r.exc == IllegalArgumentException && values == old(values)
      ensures r.Ok? ==> values == old(values)[setting.key := value]
    {
      if setting.key !in values {
        return Fail(IllegalArgumentException);
      }
      values := values[setting.key := value];
      return Ok(());
    }

    /** The comma-separated branch of readListSetting. */
    method ParseCommaList(text: string, nested: SettingType) returns (r: Result<seq<Value>>)
      ensures r == MapAll(SplitList(text), Element(Ctx(), nested))
    {
      var parts := JavaSplit(text, {','});
      ghost var trimmed := SplitList(text);
      ghost var f := Element(Ctx(), nested);
      var items: seq<Value> := [];
      for i := 0 to |parts|
        invariant MapAll(trimmed[..i], f) == Ok(items)
      {
        var item := ParseValue(Ctx(), Some(Trim(parts[i])), nested, true);
        assert item == f(trimmed[i]);
        MapAllPrefixStep(trimmed, i, f, items);
        if item.Fail? {
          return Fail(item.exc);
        }
        items := items + [item.value];
      }
      assert trimmed[..|parts|] == trimmed;
      return Ok(items);
    }

    /** The key.0, key.1, ... branch of readListSetting. */
    method ParseIndexedList(base: string, nested: SettingType) returns (r: Result<seq<Value>>)
      ensures r == MapAll(Run(properties, base, 0), Element(Ctx(), nested))
    {
      var f := Element(Ctx(), nested);
      var items: seq<Value> := [];
      var index: nat := 0;
      ghost var done: seq<string> := [];
      while IndexedKey(base, index) in properties
        invariant RunMapped(properties, base, f, index, done, items)
        decreases |properties| - index
      {
        var value := properties[IndexedKey(base, index)];
        RunMappedStep(properties, base, f, index, done, items);
        var item := f(value);
        if item.Fail? {
          return Fail(item.exc);
        }
        items := items + [item.value];
        done := done + [value];
        index := index + 1;
      }
      RunMappedDone(properties, base, f, index, done, items);
      return Ok(items);
    }

    /** readListSetting. */
    method ReadListSetting(setting: Setting) returns (r: Result<Value>)
      ensures r == ListValueOf(Ctx(), setting)
    {
      if !setting.declaration.ListOf? {
        return Fail(SetUpException);
      }
      var nested := setting.declaration.nestedType;
      var base := setting.key;
      if nested == LIST {
        return Fail(SetUpException);
      }
      var items: Result<seq<Value>>;
      if base in properties {
        items := ParseCommaList(properties[base], nested);
      } else if IndexedKey(base, 0) in properties {
        items := ParseIndexedList(base, nested);
      } else if setting.defaultValue.Some? {
        items := ParseCommaList(setting.defaultValue.value, nested);
      } else if doChecks && setting.mandatory {
        return Fail(SetUpException);
      } else {
        items := Ok([]);
      }
      if items.Fail? {
        return Fail(items.exc);
      }
      return Ok(ListValue(items.value));
    }

    /** The registered settings in registration order. */
    ghost function InOrder(): (r: seq<Setting>)
      requires Valid()
      reads this
      ensures |r| == |registered|
    {
      seq(|registered|, i requires 0 <= i < |registered| && Valid() reads this => settings[registered[i]])
    }

    /** getUnusedKeys: the property keys minus what each registered setting uses. */
    method GetUnusedKeys() returns (result: set<string>)
      requires Valid()
      ensures result == UnusedKeys(properties.Keys, InOrder())
    {
      result := properties.Keys;
      ghost var order := InOrder();
      for i := 0 to |registered|
        invariant result == UnusedKeys(properties.Keys, order[..i])
      {
        var setting := settings[registered[i]];
        assert order[..i + 1][..i] == order[..i];
        if setting.settingType == LIST && setting.key !in result {
          result := RemoveIndexedKeys(result, setting.key);
        } else {
          result := result - {setting.key};
        }
      }
      assert order[..|registered|] == order;
    }
  }
}
