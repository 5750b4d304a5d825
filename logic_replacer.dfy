/** VariableValueReplacer: rebuilds a formula with every matching variable replaced
    by a constant; matching is by exact name or by name prefix. */
module VariableReplacement {
  import opened Wrappers
  import opened Formulas
  import opened FormulaEvaluation
  import JavaText

  /** Whether the replacer replaces a variable of this name. */
  predicate Matches(name: string, target: string, exactMatch: bool) {
    if exactMatch then name == target else JavaText.StartsWith(name, target)
  }

  function Constant(value: bool): Formula {
    if value then True else False
  }

  /** The visitor's result: constants stay, matching variables become the constant,
      and every Negation, Conjunction and Disjunction is rebuilt around the replaced
      operands without any simplification. */
  function Replace(f: Formula, target: string, value: bool, exactMatch: bool): Formula
  {
    match f
    case Var(n) => if Matches(n, target, exactMatch) then Constant(value) else f
    case Not(g) => Not(Replace(g, target, value, exactMatch))
    case And(l, r) => And(Replace(l, target, value, exactMatch), Replace(r, target, value, exactMatch))
    case Or(l, r) => Or(Replace(l, target, value, exactMatch), Replace(r, target, value, exactMatch))
    case _ => f
  }

  /** Replacing is substitution: evaluating the result under any assignment gives what
      the original gives once the matching variables are set to the constant. */
  lemma {:induction false} ReplaceEval(f: Formula, target: string, value: bool, exactMatch: bool,
                                       values: map<string, bool>, substituted: map<string, bool>)
    requires forall n :: n in Vars(f) ==>
      Lookup(substituted, n) == (if Matches(n, target, exactMatch) then Some(value) else Lookup(values, n))
    ensures Eval(Replace(f, target, value, exactMatch), values) == Eval(f, substituted)
  {
    match f {
      case Not(g) =>
        ReplaceEval(g, target, value, exactMatch, values, substituted);
      case And(l, r) =>
        ReplaceEval(l, target, value, exactMatch, values, substituted);
        ReplaceEval(r, target, value, exactMatch, values, substituted);
      case Or(l, r) =>
        ReplaceEval(l, target, value, exactMatch, values, substituted);
        ReplaceEval(r, target, value, exactMatch, values, substituted);
      case Var(n) =>
        assert n in Vars(f);
      case _ =>
    }
  }

  /** Exactly the non-matching variables survive. */
  lemma {:induction false} ReplaceVars(f: Formula, target: string, value: bool, exactMatch: bool)
    ensures Vars(Replace(f, target, value, exactMatch))
         == set n | n in Vars(f) && !Matches(n, target, exactMatch)
  {
    match f {
      case Not(g) =>
        ReplaceVars(g, target, value, exactMatch);
      case And(l, r) =>
        ReplaceVars(l, target, value, exactMatch);
        ReplaceVars(r, target, value, exactMatch);
      case Or(l, r) =>
        ReplaceVars(l, target, value, exactMatch);
        ReplaceVars(r, target, value, exactMatch);
      case _ =>
    }
  }

  /** Without a matching variable the formula comes back unchanged. */
  lemma {:induction false} NoMatchUnchanged(f: Formula, target: string, value: bool, exactMatch: bool)
    requires forall n :: n in Vars(f) ==> !Matches(n, target, exactMatch)
    ensures Replace(f, target, value, exactMatch) == f
  {
    match f {
      case Not(g) =>
        NoMatchUnchanged(g, target, value, exactMatch);
      case And(l, r) =>
        NoMatchUnchanged(l, target, value, exactMatch);
        NoMatchUnchanged(r, target, value, exactMatch);
      case Or(l, r) =>
        NoMatchUnchanged(l, target, value, exactMatch);
        NoMatchUnchanged(r, target, value, exactMatch);
      case Var(n) =>
        assert n in Vars(f);
      case _ =>
    }
  }

  /** Exact matching replaces a subset of what prefix matching replaces. */
  lemma ExactIsPrefix(name: string, target: string)
    requires Matches(name, target, true)
    ensures Matches(name, target, false)
  {
  }

  /** The connectives are kept: no constant is folded away, so the literal count only
      drops by the replaced occurrences. */
  lemma {:induction false} ReplaceKeepsShape(f: Formula, target: string, value: bool, exactMatch: bool)
    ensures LiteralSize(Replace(f, target, value, exactMatch))
         == LiteralSize(f) - |MatchingOccurrences(Occurrences(f), target, exactMatch)|
  {
    match f {
      case Not(g) =>
        ReplaceKeepsShape(g, target, value, exactMatch);
      case And(l, r) =>
        ReplaceKeepsShape(l, target, value, exactMatch);
        ReplaceKeepsShape(r, target, value, exactMatch);
        MatchingConcat(Occurrences(l), Occurrences(r), target, exactMatch);
      case Or(l, r) =>
        ReplaceKeepsShape(l, target, value, exactMatch);
        ReplaceKeepsShape(r, target, value, exactMatch);
        MatchingConcat(Occurrences(l), Occurrences(r), target, exactMatch);
      case _ =>
    }
  }

  function MatchingOccurrences(names: seq<string>, target: string, exactMatch: bool): (r: seq<string>)
    ensures |r| <= |names|
  {
    if names == [] then []
    else (if Matches(names[0], target, exactMatch) then [names[0]] else [])
         + MatchingOccurrences(names[1..], target, exactMatch)
  }

  lemma {:induction false} MatchingConcat(a: seq<string>, b: seq<string>, target: string, exactMatch: bool)
    ensures MatchingOccurrences(a + b, target, exactMatch)
         == MatchingOccurrences(a, target, exactMatch) + MatchingOccurrences(b, target, exactMatch)
  {
    if a != [] {
      assert (a + b)[1..] == a[1..] + b;
      MatchingConcat(a[1..], b, target, exactMatch);
    } else {
      assert a + b == b;
    }
  }
}
