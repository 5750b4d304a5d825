/** DIMACSVariabilityModelExtractor: the variables of a DIMACS file come from its
    comment lines "c <number> <name> [<type>]"; a later line for the same name
    replaces an earlier one. The lines of the file are a parameter. */
module DimacsExtraction {
  import opened Wrappers
  import opened JavaText
  import opened VariabilityVariables

  const UNKNOWN_VARIABLE_TYPE: string := "unknown"

  /** The characters the pattern \s matches: space, \t, \n, \u000B, \f, \r. */
  const WHITESPACE: set<char> := {' ', '\t', '\n', 11 as char, 12 as char, '\r'}

  datatype VariableType = BOOLEAN | FINITE_INTEGER
  datatype ConstraintFileType = UNSPECIFIED | DIMACS
  datatype Descriptor = Descriptor(variableType: VariableType, constraintFileType: ConstraintFileType)

  /** parseLine: at least three tokens give a variable named by token 2, numbered by
      token 1 (or -1 when that is no int) and typed by token 3 (or "unknown"). */
  function ParseLine(tokens: seq<string>): (r: Option<VarData>)
    ensures r.Some? <==> |tokens| > 2
    ensures r.Some? ==> r.value.name == tokens[2] && r.value.locations == None
  {
    if |tokens| <= 2 then None
    else
      var number := ParseInt(tokens[1]);
      var id := if number.Some? then number.value else -1;
      var varType := if |tokens| > 3 then tokens[3] else UNKNOWN_VARIABLE_TYPE;
      Some(VarData(tokens[2], varType, id, None))
  }

  /** One line of the file: only a line starting with "c " is split at whitespace
      and parsed. */
  function Parsed(line: string): (r: Option<VarData>)
    ensures r.Some? ==> StartsWith(line, "c ")
  {
    if StartsWith(line, "c ") then ParseLine(JavaSplit(line, WHITESPACE)) else None
  }

  /** The variables after the given lines, each parsed line putting its variable under
      its name. */
  function Extracted(lines: seq<string>): map<string, VarData>
  {
    if lines == [] then map[]
    else
      var before := Extracted(lines[..|lines| - 1]);
      var v := Parsed(lines[|lines| - 1]);
      if v.Some? then before[v.value.name := v.value] else before
  }

  /** runOnFile: the lines in order, then the descriptor BOOLEAN / DIMACS. */
  method RunOnLines(lines: seq<string>) returns (variables: map<string, VariabilityVariable>, descriptor: Descriptor)
    ensures variables.Keys == Extracted(lines).Keys
    ensures forall name :: name in variables ==>
      variables[name].Data() == Extracted(lines)[name] && variables[name].Valid() && fresh(variables[name])
    ensures descriptor == Descriptor(BOOLEAN, DIMACS)
  {
    variables := map[];
    var i := 0;
    while i < |lines|
      invariant 0 <= i <= |lines|
      invariant variables.Keys == Extracted(lines[..i]).Keys
      invariant forall name :: name in variables ==>
        variables[name].Data() == Extracted(lines[..i])[name] && variables[name].Valid() && fresh(variables[name])
    {
      assert lines[..i + 1][..i] == lines[..i];
      var line := lines[i];
      if StartsWith(line, "c ") {
        var parsed := ParseLine(JavaSplit(line, WHITESPACE));
        if parsed.Some? {
          var d := parsed.value;
          var v := new VariabilityVariable.WithNumber(d.name, d.varType, d.dimacsNumber);
          variables := variables[d.name := v];
        }
      }
      i := i + 1;
    }
    assert lines[..i] == lines;
    descriptor := Descriptor(BOOLEAN, DIMACS);
  }

  // ---------------------------------------------------------------------------
  // Properties

  /** Line i puts a variable named name. */
  predicate NamedAt(lines: seq<string>, i: int, name: string)
    requires 0 <= i < |lines|
  {
    Parsed(lines[i]).Some? && Parsed(lines[i]).value.name == name
  }

  /** A name is extracted exactly when some comment line yields a variable of that
      name. */
  lemma {:induction false} ExtractedNames(lines: seq<string>, name: string)
    ensures name in Extracted(lines) <==> exists i :: 0 <= i < |lines| && NamedAt(lines, i, name)
  {
    if lines != [] {
      var last := |lines| - 1;
      var prefix := lines[..last];
      ExtractedNames(prefix, name);
      if NamedAt(lines, last, name) {
        assert name in Extracted(lines);
      } else {
        assert (name in Extracted(lines)) == (name in Extracted(prefix));
        PrefixNamed(lines, prefix, name);
      }
    }
  }

  /** Without the last line naming it, a name is put by some line exactly when it is
      put by some line of the prefix. */
  lemma PrefixNamed(lines: seq<string>, prefix: seq<string>, name: string)
    requires lines != [] && prefix == lines[..|lines| - 1] && !NamedAt(lines, |lines| - 1, name)
    ensures (exists i :: 0 <= i < |lines| && NamedAt(lines, i, name))
      <==> (exists i :: 0 <= i < |prefix| && NamedAt(prefix, i, name))
  {
    if i :| 0 <= i < |lines| && NamedAt(lines, i, name) {
      assert i < |prefix|;
      SameLineNamed(prefix, lines, i, name);
      assert exists k :: 0 <= k < |prefix| && NamedAt(prefix, k, name);
    } else if i :| 0 <= i < |prefix| && NamedAt(prefix, i, name) {
      SameLineNamed(prefix, lines, i, name);
      assert false;
    }
  }

  lemma SameLineNamed(prefix: seq<string>, lines: seq<string>, i: nat, name: string)
    requires i < |prefix| <= |lines| && prefix[i] == lines[i]
    ensures NamedAt(prefix, i, name) == NamedAt(lines, i, name)
  {
  }

  /** The variable kept for a name is the one of the last line with that name. */
  lemma {:induction false} LastLineWins(lines: seq<string>, i: nat)
    requires i < |lines| && Parsed(lines[i]).Some?
    requires forall j :: i < j < |lines| ==> !NamedAt(lines, j, Parsed(lines[i]).value.name)
    ensures var v := Parsed(lines[i]).value; v.name in Extracted(lines) && Extracted(lines)[v.name] == v
  {
    var last := |lines| - 1;
    if i < last {
      var prefix := lines[..last];
      LaterUnnamed(lines, prefix, i);
      LastLineWins(prefix, i);
      assert !NamedAt(lines, last, Parsed(lines[i]).value.name);
    }
  }

  /** The hypothesis of LastLineWins carries over to the prefix without the last line. */
  lemma LaterUnnamed(lines: seq<string>, prefix: seq<string>, i: nat)
    requires i < |lines| - 1 && prefix == lines[..|lines| - 1] && Parsed(lines[i]).Some?
    requires forall j :: i < j < |lines| ==> !NamedAt(lines, j, Parsed(lines[i]).value.name)
    ensures Parsed(prefix[i]) == Parsed(lines[i])
    ensures forall j :: i < j < |prefix| ==> !NamedAt(prefix, j, Parsed(prefix[i]).value.name)
  {
    forall j | i < j < |prefix| ensures !NamedAt(prefix, j, Parsed(prefix[i]).value.name) {
      assert prefix[j] == lines[j] && prefix[i] == lines[i];
      assert !NamedAt(lines, j, Parsed(lines[i]).value.name);
    }
  }

  /** A line that does not start with "c " changes nothing. */
  lemma NonCommentIgnored(lines: seq<string>, line: string)
    requires !StartsWith(line, "c ")
    ensures Extracted(lines + [line]) == Extracted(lines)
  {
    assert (lines + [line])[..|lines|] == lines;
  }

  /** The number comes from token 1 when it is an int, else it is -1; the type is
      token 3, or "unknown" when the line has only three tokens. */
  lemma ParsedFields(tokens: seq<string>)
    requires |tokens| > 2
    ensures var v := ParseLine(tokens).value;
      && (v.dimacsNumber == if ParseInt(tokens[1]).Some? then ParseInt(tokens[1]).value else -1)
      && (v.varType == if |tokens| > 3 then tokens[3] else UNKNOWN_VARIABLE_TYPE)
      && (ParseInt(tokens[1]).None? ==> v.dimacsNumber == -1)
  {
  }
}
