/** ConfiguredPipelineAnalysis: the analysis pipeline is written as nested component
    names, each followed by its bracketed, comma-separated parameter components. */
module PipelineConfiguration {
  import opened Wrappers
  import opened JavaText

  // ---------------------------------------------------------------------------
  // getParameterParts

  /** Opening minus closing brackets in s. */
  function Depth(s: string): int
    decreases |s|
  {
    if s == [] then 0
    else Depth(s[..|s| - 1]) + (if s[|s| - 1] == '(' then 1 else if s[|s| - 1] == ')' then -1 else 0)
  }

  /** The commas of s that no bracket encloses. */
  function TopCommas(s: string): nat
    decreases |s|
  {
    if s == [] then 0
    else
      var init := s[..|s| - 1];
      TopCommas(init) + (if s[|s| - 1] == ',' && Depth(init) == 0 then 1 else 0)
  }

  /** The state of the splitting loop: the parts completed so far, the position of the
      comma that ended the last of them (-1 before any), and the bracket depth. */
  datatype Split = Split(parts: seq<string>, previous: int, depth: int)

  /** The state after the loop has seen the first i characters of s. */
  function Scan(s: string, i: nat): (st: Split)
    requires i <= |s|
    ensures -1 <= st.previous < i
    decreases i
  {
    if i == 0 then Split([], -1, 0)
    else
      var st := Scan(s, i - 1);
      var c := s[i - 1];
      if c == '(' then st.(depth := st.depth + 1)
      else if c == ')' then st.(depth := st.depth - 1)
      else if c == ',' && st.depth == 0 then Split(st.parts + [s[st.previous + 1..i - 1]], i - 1, st.depth)
      else st
  }

  /** The parts of s at the commas outside brackets; the last part runs to the end. */
  function ParameterParts(s: string): seq<string> {
    var st := Scan(s, |s|);
    st.parts + [s[st.previous + 1..]]
  }

  /** getParameterParts: one pass over the characters with a depth counter. */
  method GetParameterParts(parameterString: string) returns (result: seq<string>)
    ensures result == ParameterParts(parameterString)
  {
    result := [];
    var depth := 0;
    var previous := -1;
    var current := -1;
    while current + 1 < |parameterString|
      invariant -1 <= current < |parameterString|
      invariant Scan(parameterString, current + 1) == Split(result, previous, depth)
    {
      current := current + 1;
      var c := parameterString[current];
      if c == '(' {
        depth := depth + 1;
      } else if c == ')' {
        depth := depth - 1;
      } else if c == ',' {
        if depth == 0 {
          result := result + [parameterString[previous + 1..current]];
          previous := current;
        }
      }
    }
    result := result + [parameterString[previous + 1..]];
  }

  /** What the loop state means: the parts so far and the open part join to the text
      read, there is one completed part per comma outside brackets, and depth counts
      the brackets still open. */
  lemma {:induction false} ScanMeaning(s: string, i: nat)
    requires i <= |s|
    ensures Meaning(s, i, Scan(s, i))
    decreases i
  {
    if i == 0 {
      assert [] + [s[0..0]] == [""];
    } else {
      ScanMeaning(s, i - 1);
      ScanStep(s, i);
    }
  }

  /** The meaning of the loop state at i characters. */
  predicate Meaning(s: string, i: nat, st: Split)
    requires i <= |s| && -1 <= st.previous < i
  {
    Join(st.parts + [s[st.previous + 1..i]], ",") == s[..i] &&
    |st.parts| == TopCommas(s[..i]) &&
    st.depth == Depth(s[..i])
  }

  lemma ScanStep(s: string, i: nat)
    requires 0 < i <= |s|
    requires Meaning(s, i - 1, Scan(s, i - 1))
    ensures Meaning(s, i, Scan(s, i))
  {
    var st := Scan(s, i - 1);
    PrefixStep(s, i);
    if s[i - 1] == ',' && st.depth == 0 {
      ScanComma(s, i, st);
    } else {
      ScanOther(s, i, st, Scan(s, i));
    }
  }

  lemma ScanComma(s: string, i: nat, st: Split)
    requires 0 < i <= |s| && -1 <= st.previous < i - 1
    requires s[i - 1] == ',' && st.depth == 0
    requires Meaning(s, i - 1, st)
    requires s[..i] == s[..i - 1] + [s[i - 1]]
    requires TopCommas(s[..i]) == TopCommas(s[..i - 1]) + 1 && Depth(s[..i]) == Depth(s[..i - 1])
    ensures Meaning(s, i, Split(st.parts + [s[st.previous + 1..i - 1]], i - 1, st.depth))
  {
    var open := s[st.previous + 1..i - 1];
    assert s[i..i] == "";
    assert st.parts + [open] + [s[i..i]] == st.parts + [open] + [""];
    JoinOpenComma(st.parts, open, s[..i - 1]);
  }

  lemma ScanOther(s: string, i: nat, st: Split, next: Split)
    requires 0 < i <= |s| && -1 <= st.previous < i - 1
    requires next.parts == st.parts && next.previous == st.previous
    requires !(s[i - 1] == ',' && st.depth == 0)
    requires Meaning(s, i - 1, st)
    requires s[..i] == s[..i - 1] + [s[i - 1]]
    requires TopCommas(s[..i]) == TopCommas(s[..i - 1])
    requires next.depth == Depth(s[..i])
    ensures Meaning(s, i, next)
  {
    var c := s[i - 1];
    var open := s[st.previous + 1..i - 1];
    assert s[st.previous + 1..i] == open + [c];
    assert st.parts + [s[st.previous + 1..i]] == st.parts + [open + [c]];
    JoinOpenChar(st.parts, open, c, s[..i - 1]);
  }

  lemma PrefixStep(s: string, i: nat)
    requires 0 < i <= |s|
    ensures s[..i] == s[..i - 1] + [s[i - 1]]
    ensures var c := s[i - 1];
      Depth(s[..i]) == Depth(s[..i - 1]) + (if c == '(' then 1 else if c == ')' then -1 else 0)
    ensures TopCommas(s[..i]) == TopCommas(s[..i - 1]) + (if s[i - 1] == ',' && Depth(s[..i - 1]) == 0 then 1 else 0)
  {
    assert s[..i][..i - 1] == s[..i - 1];
  }

  /** A comma outside brackets completes the open part and opens an empty one. */
  lemma JoinOpenComma(parts: seq<string>, open: string, text: string)
    requires Join(parts + [open], ",") == text
    ensures Join(parts + [open] + [""], ",") == text + [',']
  {
    JoinAppend(parts + [open], "", ",");
  }

  /** Any other character extends the open part. */
  lemma JoinOpenChar(parts: seq<string>, open: string, c: char, text: string)
    requires Join(parts + [open], ",") == text
    ensures Join(parts + [open + [c]], ",") == text + [c]
  {
    if parts == [] {
    } else {
      JoinAppend(parts, open, ",");
      JoinAppend(parts, open + [c], ",");
    }
  }

  /** Joining the parts with "," gives back the parameter text. */
  lemma PartsJoin(s: string)
    ensures Join(ParameterParts(s), ",") == s
  {
    ScanMeaning(s, |s|);
    assert s[..|s|] == s;
  }

  /** There is one part more than there are commas outside brackets. */
  lemma PartsCount(s: string)
    ensures |ParameterParts(s)| == TopCommas(s) + 1
  {
    ScanMeaning(s, |s|);
    assert s[..|s|] == s;
  }

  /** Every part is a piece of the text, so no part is longer than it. */
  lemma PartsShorter(s: string)
    ensures forall k :: 0 <= k < |ParameterParts(s)| ==> |ParameterParts(s)[k]| <= |s|
  {
    PartsJoin(s);
    forall k | 0 <= k < |ParameterParts(s)|
      ensures |ParameterParts(s)[k]| <= |s|
    {
      JoinLength(ParameterParts(s), k, ",");
    }
  }

  lemma {:induction false} JoinLength(parts: seq<string>, k: nat, sep: string)
    requires k < |parts|
    ensures |parts[k]| <= |Join(parts, sep)|
    decreases |parts|
  {
    if |parts| > 1 && k > 0 {
      JoinLength(parts[1..], k - 1, sep);
    }
  }

  // ---------------------------------------------------------------------------
  // createComponent

  /** The component a configuration string describes: one of the three extractor
      inputs, or a class to instantiate with its parameter components. */
  datatype Component =
    | CodeModelInput
    | BuildModelInput
    | VariabilityModelInput
    | Instance(className: string, parameters: seq<Component>)

  /** The three names that stand for extractor inputs when they have no parameters. */
  function Input(className: string): (r: Option<Component>)
    ensures r.Some? ==> !r.value.Instance?
  {
    if className == "cmComponent" then Some(CodeModelInput)
    else if className == "bmComponent" then Some(BuildModelInput)
    else if className == "vmComponent" then Some(VariabilityModelInput)
    else None
  }

  /** The class name and the parameter text of a configuration string, or an error for
      a missing bracket or text after the last ')'. */
  function Brackets(text: string): (r: Result<(string, string)>)
    ensures r.Ok? ==> |r.value.1| < |text|
  {
    var opening := IndexOf(text, '(');
    var closing := LastIndexOf(text, ')');
    if opening == -1 || closing == -1 then Fail(SetUpException)
    else if closing != |text| - 1 then Fail(SetUpException)
    else
      OpeningFirst(text, opening, closing);
      Ok((Trim(text[..opening]), Trim(text[opening + 1..closing])))
  }

  lemma OpeningFirst(text: string, opening: int, closing: int)
    requires 0 <= opening < |text| && closing == |text| - 1
    requires text[opening] == '(' && text[closing] == ')'
    ensures opening < closing
  {
  }

  /** createComponent: the parameter components are created first, left to right, and
      the first failure among them is the result. */
  function CreateComponent(configuration: string): Result<Component>
    decreases |configuration| + 1, 0, 0
  {
    var b := Brackets(Trim(configuration));
    if b.Fail? then Fail(b.exc) else Named(b.value.0, b.value.1, |configuration|)
  }

  /** The component of a class name and its trimmed parameter text: the three extractor
      inputs by name when there are no parameters, otherwise an instance of the class. */
  function Named(className: string, parameterString: string, bound: nat): Result<Component>
    requires |parameterString| < bound
    decreases bound, 1, 0
  {
    PartsShorter(parameterString);
    var parameters :- if parameterString == [] then Ok([])
                      else CreateAll(ParameterParts(parameterString), bound);
    if parameters == [] && Input(className).Some? then Ok(Input(className).value)
    else Ok(Instance(className, parameters))
  }

  function CreateAll(parts: seq<string>, bound: nat): (r: Result<seq<Component>>)
    requires forall k :: 0 <= k < |parts| ==> |parts[k]| < bound
    ensures r.Ok? ==> |r.value| == |parts|
    decreases bound, 0, |parts|
  {
    if parts == [] then Ok([])
    else
      var first :- CreateComponent(parts[0]);
      var rest :- CreateAll(parts[1..], bound);
      Ok([first] + rest)
  }

  /** Text without a comma outside brackets is a single parameter. */
  lemma OnePart(s: string)
    requires TopCommas(s) == 0
    ensures ParameterParts(s) == [s]
  {
    PartsCount(s);
    PartsJoin(s);
  }

  /** A configuration string is rejected exactly when it lacks a '(' or does not end
      in ')'. */
  lemma BracketsRejected(text: string)
    ensures Brackets(text).Fail? <==> '(' !in text || text == [] || text[|text| - 1] != ')'
    ensures Brackets(text).Fail? ==> Brackets(text).exc == SetUpException
  {
    if text != [] && text[|text| - 1] == ')' {
      assert ')' in text;
    }
  }

  /** The class name is the trimmed text before the first '(' and the parameter text
      the trimmed text between it and the final ')'. */
  lemma BracketsOf(name: string, parameters: string)
    requires '(' !in name
    ensures Brackets(name + "(" + parameters + ")") == Ok((Trim(name), Trim(parameters)))
  {
    var text := name + "(" + parameters + ")";
    assert text[..|name|] == name;
    FirstAt(text, '(', |name|);
    LastAt(text, ')', |text| - 1);
    assert text[|name| + 1..|text| - 1] == parameters;
  }

  lemma FirstAt(s: string, c: char, p: nat)
    requires p < |s| && s[p] == c && c !in s[..p]
    ensures IndexOf(s, c) == p
  {
  }

  lemma LastAt(s: string, c: char, p: nat)
    requires p == |s| - 1 && s[p] == c
    ensures LastIndexOf(s, c) == p
  {
  }

  /** A component without parameters: one of the three extractor inputs by its name,
      otherwise an instance of the named class with no parameter components. */
  lemma NoParameters(name: string)
    requires '(' !in name && Trimmed(name)
    ensures CreateComponent(name + "()") ==
      if Input(name).Some? then Ok(Input(name).value) else Ok(Instance(name, []))
  {
    EmptyCall(name);
    NamedEmpty(name, |name| + 2);
  }

  lemma EmptyCall(name: string)
    requires '(' !in name && Trimmed(name)
    ensures CreateComponent(name + "()") == Named(name, "", |name| + 2)
  {
    CallTrimmed(name);
    CreateTrimmed(name + "()");
    EmptyBrackets(name);
  }

  lemma CallTrimmed(name: string)
    requires Trimmed(name)
    ensures Trim(name + "()") == name + "()"
  {
    var text := name + "()";
    assert text[|text| - 1] == ')';
    assert name != [] ==> text[0] == name[0];
    TrimIdentity(text);
  }

  lemma EmptyBrackets(name: string)
    requires '(' !in name && Trimmed(name)
    ensures Brackets(name + "()") == Ok((name, ""))
  {
    assert name + "()" == name + "(" + "" + ")";
    BracketsOf(name, "");
    TrimIdentity(name);
    TrimIdentity("");
  }

  lemma CreateTrimmed(text: string)
    requires Trim(text) == text
    ensures Brackets(text).Fail? ==> CreateComponent(text) == Fail(Brackets(text).exc)
    ensures Brackets(text).Ok? ==>
      CreateComponent(text) == Named(Brackets(text).value.0, Brackets(text).value.1, |text|)
  {
  }

  lemma NamedEmpty(className: string, bound: nat)
    requires 0 < bound
    ensures Named(className, "", bound) ==
      if Input(className).Some? then Ok(Input(className).value) else Ok(Instance(className, []))
  {
  }

  /** A parameter text yields one parameter component per comma outside brackets, plus
      one. */
  lemma ParameterCount(className: string, parameterString: string, bound: nat)
    requires |parameterString| < bound
    requires Named(className, parameterString, bound).Ok?
    requires Named(className, parameterString, bound).value.Instance?
    ensures |Named(className, parameterString, bound).value.parameters| ==
      if parameterString == [] then 0 else TopCommas(parameterString) + 1
  {
    if parameterString != [] {
      PartsCount(parameterString);
    }
  }
}
