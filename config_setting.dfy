/** Setting, ListSetting and EnumSetting: the declaration of one configuration key,
    its type, whether it is mandatory, and its default value as text. */
module Settings {
  import opened Wrappers
  import opened JavaText

  /** The setting types the configuration reads. */
  datatype SettingType = STRING | INTEGER | DIRECTORY | FILE | PATH | BOOLEAN | REGEX | LIST | ENUM

  /** Which class declared the setting: a plain Setting, a ListSetting with the type of
      its elements, or an EnumSetting with the names of its enum constants. */
  datatype Declaration = Plain | ListOf(nestedType: SettingType) | EnumOf(constants: seq<string>)

  /** A setting object. Its fields never change; the configuration tells settings apart
      by object identity, which a Dafny class reference gives directly. */
  class Setting {
    const key: string
    const settingType: SettingType
    const mandatory: bool
    const defaultValue: Option<string>
    const description: string
    const declaration: Declaration

    constructor (key: string, settingType: SettingType, mandatory: bool, defaultValue: Option<string>,
                 description: string)
      ensures this.key == key && this.settingType == settingType && this.mandatory == mandatory
      ensures this.defaultValue == defaultValue && this.description == description
      ensures declaration == Plain
    {
      this.key := key;
      this.settingType := settingType;
      this.mandatory := mandatory;
      this.defaultValue := defaultValue;
      this.description := description;
      this.declaration := Plain;
    }

    /** ListSetting(key, nestedType, mandatory, description): a list setting without a
        default value. */
    constructor List(key: string, nestedType: SettingType, mandatory: bool, description: string)
      ensures this.key == key && settingType == LIST && this.mandatory == mandatory
      ensures defaultValue == None && this.description == description
      ensures declaration == ListOf(nestedType)
    {
      this.key := key;
      this.settingType := LIST;
      this.mandatory := mandatory;
      this.defaultValue := None;
      this.description := description;
      this.declaration := ListOf(nestedType);
    }

    /** The ListSetting constructor with a default list, once that list has been turned
        into its default text; such a setting is always mandatory. */
    constructor ListWithDefault(key: string, nestedType: SettingType, defaultText: string, description: string)
      ensures this.key == key && settingType == LIST && mandatory
      ensures defaultValue == Some(defaultText) && this.description == description
      ensures declaration == ListOf(nestedType)
    {
      this.key := key;
      this.settingType := LIST;
      this.mandatory := true;
      this.defaultValue := Some(defaultText);
      this.description := description;
      this.declaration := ListOf(nestedType);
    }

    /** EnumSetting(key, enumClass, mandatory, defaultValue, description): the default
        value is the name of the default constant, if there is one. */
    constructor Enum(key: string, constants: seq<string>, mandatory: bool, defaultValue: Option<string>,
                     description: string)
      ensures this.key == key && settingType == ENUM && this.mandatory == mandatory
      ensures this.defaultValue == defaultValue && this.description == description
      ensures declaration == EnumOf(constants)
    {
      this.key := key;
      this.settingType := ENUM;
      this.mandatory := mandatory;
      this.defaultValue := defaultValue;
      this.description := description;
      this.declaration := EnumOf(constants);
    }
  }

  /** The text of one default element: its toString, or "null" for a null element. */
  function ElementText(element: Option<string>): string {
    if element.Some? then element.value else "null"
  }

  function ElementTexts(list: seq<Option<string>>): (r: seq<string>)
    ensures |r| == |list| && forall k :: 0 <= k < |list| ==> r[k] == ElementText(list[k])
  {
    seq(|list|, k requires 0 <= k < |list| => ElementText(list[k]))
  }

  predicate HasComma(element: Option<string>) {
    element.Some? && ',' in element.value
  }

  /** The default text of a list: its elements joined by ", ", or a RuntimeException if
      a non-null element contains a comma. */
  function DefaultText(list: seq<Option<string>>): (r: Result<string>)
  {
    if exists k :: 0 <= k < |list| && HasComma(list[k]) then Fail(RuntimeException)
    else Ok(Join(ElementTexts(list), ", "))
  }

  /** ListSetting.defaultToString: appends every element followed by ", ", failing on the
      first element with a comma, then deletes the trailing ", ". */
  method DefaultToString(list: seq<Option<string>>) returns (r: Result<string>)
    ensures r == DefaultText(list)
  {
    var texts := ElementTexts(list);
    var result := "";
    for i := 0 to |list|
      invariant JoinedSoFar(result, "", texts, i, ", ")
      invariant forall k :: 0 <= k < i ==> !HasComma(list[k])
    {
      if list[i].Some? && IndexOf(list[i].value, ',') != -1 {
        return Fail(RuntimeException);
      }
      JoinedStep(result, "", texts, i, ", ");
      result := result + texts[i] + ", ";
    }
    assert |result| > 0 <==> list != [];
    if |result| > 0 {
      JoinedDone(result, "", texts, ", ");
      result := result[..|result| - 2];
    }
    assert result == Join(texts, ", ");
    assert !exists k :: 0 <= k < |list| && HasComma(list[k]);
    return Ok(result);
  }

  /** The ListSetting constructor with a default list: the default text is computed
      first, so a comma in an element means no setting is created. */
  method NewListSetting(key: string, nestedType: SettingType, defaultList: seq<Option<string>>,
                        description: string) returns (r: Result<Setting>)
    ensures r.Fail? <==> DefaultText(defaultList).Fail?
    ensures r.Fail? ==> r.exc == RuntimeException
    ensures r.Ok? ==> fresh(r.value) && r.value.key == key && r.value.settingType == LIST
    ensures r.Ok? ==> r.value.mandatory && r.value.declaration == ListOf(nestedType)
    ensures r.Ok? ==> r.value.defaultValue == Some(DefaultText(defaultList).value)
  {
    var text := DefaultToString(defaultList);
    if text.Fail? {
      return Fail(text.exc);
    }
    var setting := new Setting.ListWithDefault(key, nestedType, text.value, description);
    return Ok(setting);
  }

  /** An empty default list has the empty default text. */
  lemma EmptyDefault()
    ensures DefaultText([]) == Ok("")
  {
  }
}
