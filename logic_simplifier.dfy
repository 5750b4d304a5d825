/** FormulaSimplifier's default simplifier: one bottom-up pass that removes double
    negations, folds constants and collapses a binary operator over two equal
    operands. */
module FormulaSimplification {
  import opened Wrappers
  import opened Formulas
  import opened FormulaEvaluation

  /** visitNegation, given the already simplified operand. */
  function SimplifyNot(nested: Formula): Formula {
    if nested.Not? then nested.inner
    else if nested.True? then False
    else if nested.False? then True
    else Not(nested)
  }

  /** visitDisjunction, given the already simplified operands. */
  function SimplifyOr(l: Formula, r: Formula): Formula {
    if l.True? || r.True? then True
    else if l.False? && r.False? then False
    else if l.False? then r
    else if r.False? then l
    else if l == r then l
    else Or(l, r)
  }

  /** visitConjunction, given the already simplified operands. */
  function SimplifyAnd(l: Formula, r: Formula): Formula {
    if l.False? || r.False? then False
    else if l.True? && r.True? then True
    else if l.True? then r
    else if r.True? then l
    else if l == r then l
    else And(l, r)
  }

  /** defaultSimplifier(formula). */
  function Simplify(f: Formula): Formula
  {
    match f
    case Not(g) => SimplifyNot(Simplify(g))
    case And(l, r) => SimplifyAnd(Simplify(l), Simplify(r))
    case Or(l, r) => SimplifyOr(Simplify(l), Simplify(r))
    case _ => f
  }

  /** No constant occurs anywhere in f. */
  predicate ConstantFree(f: Formula) {
    match f
    case False => false
    case True => false
    case Var(_) => true
    case Not(g) => ConstantFree(g)
    case And(l, r) => ConstantFree(l) && ConstantFree(r)
    case Or(l, r) => ConstantFree(l) && ConstantFree(r)
  }

  /** A formula none of the rules applies to: no constants, no double negation and no
      binary operator over two equal operands. */
  predicate Reduced(f: Formula) {
    match f
    case False => false
    case True => false
    case Var(_) => true
    case Not(g) => !g.Not? && Reduced(g)
    case And(l, r) => l != r && Reduced(l) && Reduced(r)
    case Or(l, r) => l != r && Reduced(l) && Reduced(r)
  }

  /** What the simplifier promises to return: True, False, or a reduced formula. */
  predicate Simplified(f: Formula) {
    IsConstant(f) || Reduced(f)
  }

  lemma {:induction false} ReducedIsConstantFree(f: Formula)
    requires Reduced(f)
    ensures ConstantFree(f)
  {
    match f {
      case Not(g) => ReducedIsConstantFree(g);
      case And(l, r) => ReducedIsConstantFree(l); ReducedIsConstantFree(r);
      case Or(l, r) => ReducedIsConstantFree(l); ReducedIsConstantFree(r);
      case _ =>
    }
  }

  lemma SimplifyNotSimplified(n: Formula)
    requires Simplified(n)
    ensures Simplified(SimplifyNot(n))
  {
  }

  /** Every result of the simplifier is True, False or reduced; in particular no
      constant is left inside a larger formula. */
  lemma {:induction false} SimplifyResult(f: Formula)
    ensures Simplified(Simplify(f))
    ensures !IsConstant(Simplify(f)) ==> ConstantFree(Simplify(f))
  {
    match f {
      case Not(g) =>
        SimplifyResult(g);
        SimplifyNotSimplified(Simplify(g));
      case And(l, r) =>
        SimplifyResult(l);
        SimplifyResult(r);
      case Or(l, r) =>
        SimplifyResult(l);
        SimplifyResult(r);
      case _ =>
    }
    if !IsConstant(Simplify(f)) {
      ReducedIsConstantFree(Simplify(f));
    }
  }

  /** A formula the rules do not apply to comes back unchanged (the source returns
      the very same object in that case). */
  lemma {:induction false} ReducedUnchanged(f: Formula)
    requires Reduced(f)
    ensures Simplify(f) == f
  {
    match f {
      case Not(g) => ReducedUnchanged(g);
      case And(l, r) => ReducedUnchanged(l); ReducedUnchanged(r);
      case Or(l, r) => ReducedUnchanged(l); ReducedUnchanged(r);
      case _ =>
    }
  }

  /** Simplifying twice gives nothing new. */
  lemma SimplifyIdempotent(f: Formula)
    ensures Simplify(Simplify(f)) == Simplify(f)
  {
    SimplifyResult(f);
    if !IsConstant(Simplify(f)) {
      ReducedUnchanged(Simplify(f));
    }
  }

  lemma StepNot(n: Formula, values: map<string, bool>)
    ensures Eval(SimplifyNot(n), values) == KNot(Eval(n, values))
  {
    if n.Not? {
      assert Eval(n, values) == KNot(Eval(n.inner, values));
    }
  }

  lemma StepOr(l: Formula, r: Formula, values: map<string, bool>)
    ensures Eval(SimplifyOr(l, r), values) == KOr(Eval(l, values), Eval(r, values))
  {
    var a, b := Eval(l, values), Eval(r, values);
    if l.True? || r.True? {
      assert a == Some(true) || b == Some(true);
    } else if l.False? && r.False? {
    } else if l.False? {
      assert a == Some(false);
      assert KOr(a, b) == b;
    } else if r.False? {
      assert b == Some(false);
      assert KOr(a, b) == a;
    } else if l == r {
      assert KOr(a, a) == a;
    }
  }

  lemma StepAnd(l: Formula, r: Formula, values: map<string, bool>)
    ensures Eval(SimplifyAnd(l, r), values) == KAnd(Eval(l, values), Eval(r, values))
  {
    var a, b := Eval(l, values), Eval(r, values);
    if l.False? || r.False? {
      assert a == Some(false) || b == Some(false);
    } else if l.True? && r.True? {
    } else if l.True? {
      assert a == Some(true);
      assert KAnd(a, b) == b;
    } else if r.True? {
      assert b == Some(true);
      assert KAnd(a, b) == a;
    } else if l == r {
      assert KAnd(a, a) == a;
    }
  }

  /** The result is logically equal to the input, even in three-valued logic: under
      every partial assignment both evaluate to the same value (or both to null). */
  lemma {:induction false} SimplifyPreservesEval(f: Formula, values: map<string, bool>)
    ensures Eval(Simplify(f), values) == Eval(f, values)
  {
    match f {
      case Not(g) =>
        SimplifyPreservesEval(g, values);
        StepNot(Simplify(g), values);
      case And(l, r) =>
        SimplifyPreservesEval(l, values);
        SimplifyPreservesEval(r, values);
        StepAnd(Simplify(l), Simplify(r), values);
      case Or(l, r) =>
        SimplifyPreservesEval(l, values);
        SimplifyPreservesEval(r, values);
        StepOr(Simplify(l), Simplify(r), values);
      case _ =>
    }
  }

  /** Simplification never introduces a variable. */
  lemma {:induction false} SimplifyVars(f: Formula)
    ensures Vars(Simplify(f)) <= Vars(f)
  {
    match f {
      case Not(g) => SimplifyVars(g);
      case And(l, r) => SimplifyVars(l); SimplifyVars(r);
      case Or(l, r) => SimplifyVars(l); SimplifyVars(r);
      case _ =>
    }
  }

  /** NOT(NOT(a)) simplifies like a. */
  lemma DoubleNegation(g: Formula)
    ensures Simplify(Not(Not(g))) == Simplify(g)
  {
    SimplifyResult(g);
    var s := Simplify(g);
    if s.Not? {
      assert Reduced(s.inner);
      ReducedUnchanged(s.inner);
    }
  }

  /** a OR a and a AND a simplify like a. */
  lemma SameOperands(g: Formula)
    ensures Simplify(Or(g, g)) == Simplify(g)
    ensures Simplify(And(g, g)) == Simplify(g)
  {
  }
}
