/** FormulaEvaluator: three-valued (Kleene) evaluation of a formula under a partial
    assignment of variables; an unmapped variable is undefined (Java's null). */
module FormulaEvaluation {
  import opened Wrappers
  import opened Formulas

  /** Negation of a possibly undefined value. */
  function KNot(a: Option<bool>): (r: Option<bool>)
    ensures r.None? <==> a.None?
    ensures a.Some? ==> r.value == !a.value
  {
    match a
    case None => None
    case Some(b) => Some(!b)
  }

  /** visitDisjunction: true as soon as one side is true, otherwise undefined when one
      side is undefined, otherwise false. */
  function KOr(a: Option<bool>, b: Option<bool>): (r: Option<bool>)
    ensures r == Some(true) <==> (a == Some(true) || b == Some(true))
    ensures r == Some(false) <==> (a == Some(false) && b == Some(false))
  {
    if a == Some(true) || b == Some(true) then Some(true)
    else if a.None? || b.None? then None
    else assert !a.value && !b.value; Some(false)
  }

  /** visitConjunction: false as soon as one side is false, otherwise undefined when
      one side is undefined, otherwise true. */
  function KAnd(a: Option<bool>, b: Option<bool>): (r: Option<bool>)
    ensures r == Some(false) <==> (a == Some(false) || b == Some(false))
    ensures r == Some(true) <==> (a == Some(true) && b == Some(true))
  {
    if a == Some(false) || b == Some(false) then Some(false)
    else if a.None? || b.None? then None
    else assert a.value && b.value; Some(true)
  }

  function Lookup(values: map<string, bool>, name: string): Option<bool> {
    if name in values then Some(values[name]) else None
  }

  /** The evaluator's result: None stands for null. */
  function Eval(f: Formula, values: map<string, bool>): Option<bool>
  {
    match f
    case False => Some(false)
    case True => Some(true)
    case Var(n) => Lookup(values, n)
    case Not(g) => KNot(Eval(g, values))
    case And(l, r) => KAnd(Eval(l, values), Eval(r, values))
    case Or(l, r) => KOr(Eval(l, values), Eval(r, values))
  }

  /** Classical two-valued semantics, for assignments that cover every variable. */
  function Value(f: Formula, values: map<string, bool>): bool
    requires Vars(f) <= values.Keys
  {
    match f
    case False => false
    case True => true
    case Var(n) => values[n]
    case Not(g) => !Value(g, values)
    case And(l, r) => Value(l, values) && Value(r, values)
    case Or(l, r) => Value(l, values) || Value(r, values)
  }

  /** With every variable mapped, the evaluator never answers null and agrees with
      classical logic. */
  lemma {:induction false} EvalTotal(f: Formula, values: map<string, bool>)
    requires Vars(f) <= values.Keys
    ensures Eval(f, values) == Some(Value(f, values))
  {
    match f {
      case Not(g) => EvalTotal(g, values);
      case And(l, r) => EvalTotal(l, values); EvalTotal(r, values);
      case Or(l, r) => EvalTotal(l, values); EvalTotal(r, values);
      case _ =>
    }
  }

  predicate Extends(bigger: map<string, bool>, smaller: map<string, bool>) {
    forall n :: n in smaller ==> n in bigger && bigger[n] == smaller[n]
  }

  /** A defined result is final: mapping more variables never changes it. */
  lemma {:induction false} EvalMonotone(f: Formula, small: map<string, bool>, big: map<string, bool>)
    requires Extends(big, small)
    requires Eval(f, small).Some?
    ensures Eval(f, big) == Eval(f, small)
  {
    match f {
      case Not(g) =>
        EvalMonotone(g, small, big);
      case And(l, r) =>
        if Eval(l, small).Some? { EvalMonotone(l, small, big); }
        if Eval(r, small).Some? { EvalMonotone(r, small, big); }
      case Or(l, r) =>
        if Eval(l, small).Some? { EvalMonotone(l, small, big); }
        if Eval(r, small).Some? { EvalMonotone(r, small, big); }
      case _ =>
    }
  }

  /** A null result is only possible when some variable of the formula is unmapped. */
  lemma {:induction false} UndefinedNeedsUnmapped(f: Formula, values: map<string, bool>)
    requires Eval(f, values).None?
    ensures exists n :: n in Vars(f) && n !in values
  {
    if Vars(f) <= values.Keys {
      EvalTotal(f, values);
    } else {
      var n :| n in Vars(f) && n !in values.Keys;
    }
  }
}
