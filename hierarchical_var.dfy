/** HierarchicalVariable: a variability variable with a parent, a set of children
    and a nesting depth; setParent keeps both ends of the parent link in step, and
    the deprecated string-list serialization puts the hierarchy ahead of the data of
    the plain variable. */
module HierarchicalVariables {
  import opened Wrappers
  import opened JavaText
  import opened VariabilityVariables

  /** A variable in the name-to-variable map of setSerializationData: only a
      hierarchical one can be a parent or a child. */
  datatype Known = Plain(plain: VariabilityVariable) | Hierarchical(variable: HierarchicalVariable)

  /** The entries setSerializationData reads ahead of the plain variable's data: the
      parent to set (None for "null", which leaves the parent as it was), the
      children to add, the nesting depth, and what is left for the plain variable. */
  datatype HierarchyFields = HierarchyFields(parent: Option<HierarchicalVariable>,
                                             children: seq<HierarchicalVariable>,
                                             depth: int, rest: seq<string>)

  class HierarchicalVariable {
    /** The VariabilityVariable this one extends: name, type, DIMACS number, locations. */
    const variable: VariabilityVariable
    var parent: HierarchicalVariable?
    var children: set<HierarchicalVariable>
    var nestingDepth: int

    function Name(): string {
      variable.name
    }

    constructor(name: string, varType: string)
      ensures variable.Data() == VarData(name, varType, 0, None) && variable.Valid()
      ensures parent == null && children == {} && nestingDepth == 0
    {
      variable := new VariabilityVariable(name, varType);
      parent := null;
      children := {};
      nestingDepth := 0;
    }

    constructor WithNumber(name: string, varType: string, dimacsNumber: int)
      ensures variable.Data() == VarData(name, varType, dimacsNumber, None) && variable.Valid()
      ensures parent == null && children == {} && nestingDepth == 0
    {
      variable := new VariabilityVariable.WithNumber(name, varType, dimacsNumber);
      parent := null;
      children := {};
      nestingDepth := 0;
    }

    /** The copy constructor: name, type and number, then each location added in turn. */
    constructor Copy(v: VariabilityVariable)
      ensures variable.Data() == VarData(v.name, v.varType, v.dimacsNumber, WithLocations(None, LocationsOf(v.sourceLocations)))
      ensures variable.Valid() && fresh(variable)
      ensures parent == null && children == {} && nestingDepth == 0
    {
      var base := new VariabilityVariable.WithNumber(v.name, v.varType, v.dimacsNumber);
      variable := base;
      parent := null;
      children := {};
      nestingDepth := 0;
      new;
      var locations := LocationsOf(v.sourceLocations);
      var i := 0;
      while i < |locations|
        invariant 0 <= i <= |locations|
        invariant fresh(base) && base == variable
        invariant base.Valid() && base.Data() == VarData(v.name, v.varType, v.dimacsNumber, WithLocations(None, locations[..i]))
        invariant parent == null && children == {} && nestingDepth == 0
        modifies base
      {
        base.AddLocation(locations[i]);
        WithLocationsAppend(None, locations[..i], [locations[i]]);
        assert locations[..i + 1] == locations[..i] + [locations[i]];
        i := i + 1;
      }
      assert locations[..i] == locations;
    }

    /** setParent: this leaves the children of its previous parent, joins those of the
        new one and takes the new parent's depth plus one (in int arithmetic), or
        depth 0 without a parent. Parent links and children sets that agreed
        across a family of variables still agree. */
    method SetParent(p: HierarchicalVariable?, ghost family: set<HierarchicalVariable>)
      requires this in family && (p != null ==> p in family)
      modifies this, parent, p
      ensures old(Consistent(family)) ==> Consistent(family)
      ensures parent == p
      ensures p != null ==> p.children == old(p.children) + {this} && nestingDepth == WrapInt(old(p.nestingDepth) + 1)
      ensures p == null ==> nestingDepth == 0
      ensures old(parent) != null && old(parent) != p ==> old(parent).children == old(parent.children) - {this}
      ensures this != p && this != old(parent) ==> children == old(children)
      ensures forall o: HierarchicalVariable? | o in {old(parent), p} && o != null && o != this ::
        o.parent == old(o.parent) && o.nestingDepth == old(o.nestingDepth)
    {
      var previousParent := parent;
      if previousParent != null {
        previousParent.children := previousParent.children - {this};
      }
      parent := p;
      if p != null {
        p.children := p.children + {this};
        nestingDepth := WrapInt(p.nestingDepth + 1);
      } else {
        nestingDepth := 0;
      }
    }

    /** setNestingDepth: overrides the depth and nothing else. */
    method SetNestingDepth(depth: int)
      modifies this
      ensures nestingDepth == depth && parent == old(parent) && children == old(children)
    {
      nestingDepth := depth;
    }

    /** getSerializationData on top of the plain variable's data: the depth is put in
        front, then each child in iteration order (so the children end up reversed),
        then the number of children, then the parent's name or "null". */
    method GetSerializationData(base: seq<string>, order: seq<HierarchicalVariable>) returns (result: seq<string>)
      requires IterationOrder(order, children)
      ensures result == Layout(ParentName(parent), Reversed(NamesOf(order)), nestingDepth, base)
    {
      result := [IntToString(nestingDepth)] + base;
      var i := 0;
      while i < |order|
        invariant 0 <= i <= |order|
        invariant result == Reversed(NamesOf(order[..i])) + ([IntToString(nestingDepth)] + base)
      {
        PrependStep(order, i, [IntToString(nestingDepth)] + base);
        result := [order[i].Name()] + result;
        i := i + 1;
      }
      assert order[..i] == order;
      result := [IntToString(|children|)] + result;
      result := [if parent != null then parent.Name() else "null"] + result;
    }

    /** setSerializationData up to the call into the plain variable: sets the parent
        unless it is "null", adds the listed children, sets the depth and returns the
        rest of the data. Every malformed entry is a FormatException. */
    method SetSerializationData(data: seq<string>, variables: map<string, Known>) returns (r: Result<seq<string>>)
      modifies this
      ensures r.Ok? <==> ReadHierarchy(data, variables).Ok?
      ensures r.Fail? ==> r.exc == FormatException
      ensures r.Ok? ==>
        var f := ReadHierarchy(data, variables).value;
        && r.value == f.rest
        && parent == (if f.parent.Some? then f.parent.value else old(parent))
        && children == old(children) + Members(f.children)
        && nestingDepth == f.depth
      ensures r.Fail? ==> nestingDepth == old(nestingDepth)
      ensures r.Fail? ==> parent == ParentAfterFailure(data, variables, old(parent))
      ensures old(children) <= children
      ensures forall c | c in children - old(children) :: Hierarchical(c) in variables.Values
    {
      if |data| == 0 {
        return Fail(FormatException);
      }
      var parentName := data[0];
      var rest := data[1..];
      if parentName != "null" {
        var found := Lookup(variables)(parentName);
        if found.Fail? {
          return Fail(FormatException);
        }
        parent := found.value;
      }
      if |rest| == 0 {
        return Fail(FormatException);
      }
      var size := ParseInt(rest[0]);
      rest := rest[1..];
      if size.None? {
        return Fail(FormatException);
      }
      if |rest| < size.value {
        return Fail(FormatException);
      }
      var count := Count(size.value);
      var added := AddChildren(rest[..count], variables);
      if added.Fail? {
        return Fail(FormatException);
      }
      rest := rest[count..];
      if |rest| == 0 {
        return Fail(FormatException);
      }
      var depth := ParseInt(rest[0]);
      if depth.None? {
        return Fail(FormatException);
      }
      nestingDepth := depth.value;
      r := Ok(rest[1..]);
    }

    /** The children loop of setSerializationData: each listed name must denote a
        hierarchical variable, which joins the children. */
    method AddChildren(names: seq<string>, variables: map<string, Known>) returns (r: Result<()>)
      modifies this
      ensures r.Ok? <==> MapAll(names, Lookup(variables)).Ok?
      ensures r.Ok? ==> children == old(children) + Members(MapAll(names, Lookup(variables)).value)
      ensures parent == old(parent) && nestingDepth == old(nestingDepth)
      ensures old(children) <= children
      ensures forall c | c in children - old(children) :: Hierarchical(c) in variables.Values
    {
      ghost var added: seq<HierarchicalVariable> := [];
      var i := 0;
      while i < |names|
        invariant 0 <= i <= |names|
        invariant MapAll(names[..i], Lookup(variables)) == Ok(added)
        invariant children == old(children) + Members(added)
        invariant parent == old(parent) && nestingDepth == old(nestingDepth)
        invariant forall c | c in Members(added) :: Hierarchical(c) in variables.Values
      {
        MapAllPrefixStep(names, i, Lookup(variables), added);
        var child := Lookup(variables)(names[i]);
        if child.Fail? {
          return Fail(FormatException);
        }
        assert variables[names[i]] == Hierarchical(child.value);
        children := children + {child.value};
        added := added + [child.value];
        i := i + 1;
      }
      assert names[..i] == names;
      r := Ok(());
    }
  }

  // ---------------------------------------------------------------------------
  // The layout

  /** The order a HashSet is iterated in: each element exactly once. */
  predicate IterationOrder(order: seq<HierarchicalVariable>, elements: set<HierarchicalVariable>) {
    |order| == |elements| && Members(order) == elements
  }

  function NamesOf(vs: seq<HierarchicalVariable>): (r: seq<string>)
    ensures |r| == |vs| && forall i :: 0 <= i < |vs| ==> r[i] == vs[i].Name()
  {
    seq(|vs|, i requires 0 <= i < |vs| => vs[i].Name())
  }

  function Members(vs: seq<HierarchicalVariable>): set<HierarchicalVariable> {
    set v | v in vs
  }

  function Reversed<T>(s: seq<T>): (r: seq<T>)
    ensures |r| == |s| && forall i :: 0 <= i < |s| ==> r[i] == s[|s| - 1 - i]
  {
    if s == [] then [] else Reversed(s[1..]) + [s[0]]
  }

  lemma ReversedAppend<T>(s: seq<T>, x: T)
    ensures Reversed(s + [x]) == [x] + Reversed(s)
  {
  }

  /** One more child name put in front by getSerializationData. */
  lemma PrependStep(order: seq<HierarchicalVariable>, i: nat, tail: seq<string>)
    requires i < |order|
    ensures [order[i].Name()] + (Reversed(NamesOf(order[..i])) + tail) == Reversed(NamesOf(order[..i + 1])) + tail
  {
    assert NamesOf(order[..i + 1]) == NamesOf(order[..i]) + [order[i].Name()];
    ReversedAppend(NamesOf(order[..i]), order[i].Name());
  }

  lemma ReversedElements(vs: seq<HierarchicalVariable>)
    ensures Members(Reversed(vs)) == Members(vs)
  {
    var r := Reversed(vs);
    forall v | v in vs ensures v in r {
      var i :| 0 <= i < |vs| && vs[i] == v;
      assert r[|vs| - 1 - i] == v;
    }
  }

  function ParentName(parent: HierarchicalVariable?): string {
    if parent != null then parent.Name() else "null"
  }

  /** The entries getSerializationData puts ahead of the plain variable's data. */
  function Layout(parentName: string, childNames: seq<string>, depth: int, base: seq<string>): (r: seq<string>)
    ensures |r| == |childNames| + 3 + |base|
    ensures r[0] == parentName && r[1] == IntToString(|childNames|) && r[|childNames| + 2] == IntToString(depth)
    ensures r[2..|childNames| + 2] == childNames && r[|childNames| + 3..] == base
  {
    [parentName] + ([IntToString(|childNames|)] + (childNames + ([IntToString(depth)] + base)))
  }

  /** A name that must denote a hierarchical variable. */
  function Lookup(variables: map<string, Known>): string -> Result<HierarchicalVariable> {
    (name: string) =>
      if name in variables && variables[name].Hierarchical? then Ok(variables[name].variable) else Fail(FormatException)
  }

  /** How many children a size entry makes the loop read: none for a negative size. */
  function Count(size: int): nat {
    if size < 0 then 0 else size
  }

  /** The parent after a failed setSerializationData: the parent entry was already
      applied when it named a known hierarchical variable. */
  function ParentAfterFailure(data: seq<string>, variables: map<string, Known>, previous: HierarchicalVariable?): HierarchicalVariable? {
    if |data| > 0 && ReadParent(data[0], variables).Ok? && ReadParent(data[0], variables).value.Some?
    then ReadParent(data[0], variables).value.value else previous
  }

  /** What setSerializationData reads, with its error cases. */
  function ReadHierarchy(data: seq<string>, variables: map<string, Known>): (r: Result<HierarchyFields>)
    ensures r.Fail? ==> r.exc == FormatException
    ensures r.Ok? ==> |r.value.rest| < |data|
  {
    if |data| == 0 then Fail(FormatException)
    else
      var parent :- ReadParent(data[0], variables);
      ReadChildren(data[1..], variables, parent)
  }

  /** The parent entry: "null" sets no parent, any other name must be known. */
  function ReadParent(name: string, variables: map<string, Known>): (r: Result<Option<HierarchicalVariable>>)
    ensures r == if name == "null" then Ok(None)
                 else if Lookup(variables)(name).Ok? then Ok(Some(Lookup(variables)(name).value))
                 else Fail(FormatException)
  {
    if name == "null" then Ok(None)
    else
      var p :- Lookup(variables)(name);
      Ok(Some(p))
  }

  /** The size entry, the children and the depth. */
  function ReadChildren(data: seq<string>, variables: map<string, Known>, parent: Option<HierarchicalVariable>)
    : (r: Result<HierarchyFields>)
    ensures r.Fail? ==> r.exc == FormatException
    ensures r.Ok? ==> |r.value.rest| < |data|
  {
    if |data| == 0 then Fail(FormatException)
    else
      var size := ParseInt(data[0]);
      if size.None? || |data| - 1 < size.value then Fail(FormatException)
      else
        var count := Count(size.value);
        var listed := data[1..];
        var children :- MapAll(listed[..count], Lookup(variables));
        var rest := listed[count..];
        if |rest| == 0 then Fail(FormatException)
        else
          var depth := ParseInt(rest[0]);
          if depth.None? then Fail(FormatException) else Ok(HierarchyFields(parent, children, depth.value, rest[1..]))
  }

  // ---------------------------------------------------------------------------
  // Properties

  /** Every hierarchical variable the data names is known under its name. */
  predicate KnownAs(v: HierarchicalVariable, variables: map<string, Known>) {
    v.Name() in variables && variables[v.Name()] == Hierarchical(v)
  }

  lemma LookupKnown(v: HierarchicalVariable, variables: map<string, Known>)
    requires KnownAs(v, variables)
    ensures Lookup(variables)(v.Name()) == Ok(v)
  {
  }

  /** Reading the layout back restores the parent, the children (in reverse) and the
      depth, and leaves exactly the plain variable's data. */
  lemma LayoutRoundTrip(parent: HierarchicalVariable?, order: seq<HierarchicalVariable>, depth: int,
                        base: seq<string>, variables: map<string, Known>)
    requires IsInt(depth) && IsInt(|order|)
    requires parent != null ==> KnownAs(parent, variables) && parent.Name() != "null"
    requires forall c :: c in order ==> KnownAs(c, variables)
    ensures ReadHierarchy(Layout(ParentName(parent), Reversed(NamesOf(order)), depth, base), variables)
      == Ok(HierarchyFields(if parent != null then Some(parent) else None, Reversed(order), depth, base))
  {
    var names := Reversed(NamesOf(order));
    var data := Layout(ParentName(parent), names, depth, base);
    NamesResolve(order, variables);
    ChildrenRoundTrip(data[1..], names, depth, base, variables, Reversed(order), if parent != null then Some(parent) else None);
  }

  /** The written child names, read back in the same order, are the children. */
  lemma NamesResolve(order: seq<HierarchicalVariable>, variables: map<string, Known>)
    requires forall c :: c in order ==> KnownAs(c, variables)
    ensures MapAll(Reversed(NamesOf(order)), Lookup(variables)) == Ok(Reversed(order))
  {
    var names := Reversed(NamesOf(order));
    var kids := Reversed(order);
    forall k | 0 <= k < |names| ensures Lookup(variables)(names[k]) == Ok(kids[k]) {
      var j := |order| - 1 - k;
      assert names[k] == NamesOf(order)[j] == order[j].Name();
      assert kids[k] == order[j] && order[j] in order;
      LookupKnown(order[j], variables);
    }
    MapAllOk(names, Lookup(variables), kids);
  }

  lemma ChildrenRoundTrip(data: seq<string>, names: seq<string>, depth: int, base: seq<string>,
                          variables: map<string, Known>, kids: seq<HierarchicalVariable>,
                          parent: Option<HierarchicalVariable>)
    requires IsInt(depth) && IsInt(|names|)
    requires data == [IntToString(|names|)] + (names + ([IntToString(depth)] + base))
    requires MapAll(names, Lookup(variables)) == Ok(kids)
    ensures ReadChildren(data, variables, parent) == Ok(HierarchyFields(parent, kids, depth, base))
  {
    ParseIntOfToString(|names|);
    ParseIntOfToString(depth);
    var listed := data[1..];
    assert listed == names + ([IntToString(depth)] + base);
    assert listed[..|names|] == names;
    assert listed[|names|..] == [IntToString(depth)] + base;
  }

  /** The parent entry is a name, so a parent named "null" is read as no parent at
      all: the round trip loses it. */
  lemma NullNamedParentLost(parent: HierarchicalVariable, depth: int, base: seq<string>, variables: map<string, Known>)
    requires parent.Name() == "null" && IsInt(depth)
    ensures ReadHierarchy(Layout(ParentName(parent), [], depth, base), variables).Ok?
    ensures ReadHierarchy(Layout(ParentName(parent), [], depth, base), variables).value.parent == None
  {
    MapAllOk([], Lookup(variables), []);
    ChildrenRoundTrip(Layout(ParentName(parent), [], depth, base)[1..], [], depth, base, variables, [], None);
  }

  /** The children read back are the children that were written. */
  lemma ChildrenRestored(order: seq<HierarchicalVariable>, children: set<HierarchicalVariable>)
    requires IterationOrder(order, children)
    ensures Members(Reversed(order)) == children
  {
    ReversedElements(order);
  }

  /** The parent links of a set of variables agree with their children sets. */
  ghost predicate Consistent(vs: set<HierarchicalVariable>)
    reads vs
  {
    forall v :: v in vs ==>
      && (v.parent != null ==> v.parent in vs && v in v.parent.children)
      && (forall c :: c in v.children ==> c in vs && c.parent == v)
  }
}
