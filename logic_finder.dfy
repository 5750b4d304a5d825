/** VariableFinder: a visitor that collects the variables of every formula it visits
    into one set, until clear() empties it. Variables are identified by name. */
module VariableFinding {
  import opened Formulas

  class VariableFinder {
    var variables: set<string>

    constructor()
      ensures variables == {}
    {
      variables := {};
    }

    /** visit(formula): adds every variable of f (constants add nothing) and returns
        the accumulated set. */
    method Visit(f: Formula) returns (r: set<string>)
      modifies this
      ensures variables == old(variables) + Vars(f)
      ensures r == variables
      decreases f
    {
      match f {
        case Var(n) =>
          variables := variables + {n};
        case Not(g) =>
          var _ := Visit(g);
        case And(lhs, rhs) =>
          var _ := Visit(lhs);
          var _ := Visit(rhs);
        case Or(lhs, rhs) =>
          var _ := Visit(lhs);
          var _ := Visit(rhs);
        case _ =>
      }
      r := variables;
    }

    /** getVariableNames(): one name per collected variable, none twice. */
    method GetVariableNames() returns (names: seq<string>)
      ensures forall n :: n in names <==> n in variables
      ensures |names| == |variables|
      ensures forall i, j :: 0 <= i < j < |names| ==> names[i] != names[j]
    {
      names := [];
      var rest := variables;
      while rest != {}
        invariant rest <= variables
        invariant forall n :: n in names <==> n in variables && n !in rest
        invariant |names| + |rest| == |variables|
        invariant forall i, j :: 0 <= i < j < |names| ==> names[i] != names[j]
        decreases |rest|
      {
        var n :| n in rest;
        names := names + [n];
        rest := rest - {n};
      }
    }

    /** clear(): the finder can be reused from an empty set. */
    method Clear()
      modifies this
      ensures variables == {}
    {
      variables := {};
    }
  }
}
