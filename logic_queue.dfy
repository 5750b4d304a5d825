/** DisjunctionQueue: collects formulas and folds them into one balanced disjunction.
    With simplification on it drops repeated formulas and short-cuts to True once True
    was added; getDisjunction always resets the queue. */
module DisjunctionQueues {
  import opened Wrappers
  import opened Formulas
  import opened FormulaEvaluation

  /** The fold of getDisjunction's while loop: the first two formulas are taken from
      the front and their disjunction is appended at the back, until one is left. */
  function Balanced(q: seq<Formula>): Formula
    requires |q| >= 1
    decreases |q|
  {
    if |q| == 1 then q[0] else Balanced(q[2..] + [Or(q[0], q[1])])
  }

  /** The three-valued disjunction of every formula of q. */
  function AnyOf(q: seq<Formula>, values: map<string, bool>): Option<bool>
  {
    if q == [] then Some(false) else KOr(Eval(q[0], values), AnyOf(q[1..], values))
  }

  /** The variable occurrences of the formulas of q, one after the other. */
  function AllOccurrences(q: seq<Formula>): seq<string>
  {
    if q == [] then [] else Occurrences(q[0]) + AllOccurrences(q[1..])
  }

  lemma KOrAssociative(a: Option<bool>, b: Option<bool>, c: Option<bool>)
    ensures KOr(a, KOr(b, c)) == KOr(KOr(a, b), c)
  {
  }

  lemma KOrCommutative(a: Option<bool>, b: Option<bool>)
    ensures KOr(a, b) == KOr(b, a)
  {
  }

  lemma {:induction false} AnyOfConcat(a: seq<Formula>, b: seq<Formula>, values: map<string, bool>)
    ensures AnyOf(a + b, values) == KOr(AnyOf(a, values), AnyOf(b, values))
    decreases |a|
  {
    if a == [] {
      assert a + b == b;
      var x := AnyOf(b, values);
      assert KOr(Some(false), x) == x;
    } else {
      assert (a + b)[1..] == a[1..] + b;
      AnyOfConcat(a[1..], b, values);
      KOrAssociative(Eval(a[0], values), AnyOf(a[1..], values), AnyOf(b, values));
    }
  }

  /** One round of the loop does not change the value of the disjunction. */
  lemma AnyOfRound(q: seq<Formula>, values: map<string, bool>)
    requires |q| >= 2
    ensures AnyOf(q[2..] + [Or(q[0], q[1])], values) == AnyOf(q, values)
  {
    var e0, e1, rest := Eval(q[0], values), Eval(q[1], values), AnyOf(q[2..], values);
    AnyOfConcat(q[2..], [Or(q[0], q[1])], values);
    assert [Or(q[0], q[1])][1..] == [];
    assert AnyOf([Or(q[0], q[1])], values) == KOr(KOr(e0, e1), Some(false));
    assert KOr(KOr(e0, e1), Some(false)) == KOr(e0, e1);
    assert q[1..][1..] == q[2..];
    assert AnyOf(q, values) == KOr(e0, KOr(e1, rest));
    KOrAssociative(e0, e1, rest);
    KOrCommutative(rest, KOr(e0, e1));
  }

  /** The folded formula is the disjunction of exactly the queued formulas: it
      evaluates like their disjunction under every partial assignment. */
  lemma {:induction false} BalancedEval(q: seq<Formula>, values: map<string, bool>)
    requires |q| >= 1
    ensures Eval(Balanced(q), values) == AnyOf(q, values)
    decreases |q|
  {
    if |q| == 1 {
      assert q[1..] == [];
      var x := Eval(q[0], values);
      assert KOr(x, Some(false)) == x;
    } else {
      BalancedEval(q[2..] + [Or(q[0], q[1])], values);
      AnyOfRound(q, values);
    }
  }

  /** The disjunction is true iff one of the queued formulas is true. */
  lemma {:induction false} AnyOfTrue(q: seq<Formula>, values: map<string, bool>)
    ensures AnyOf(q, values) == Some(true) <==> exists i :: 0 <= i < |q| && Eval(q[i], values) == Some(true)
  {
    if q != [] {
      AnyOfTrue(q[1..], values);
      if Eval(q[0], values) != Some(true) && AnyOf(q, values) != Some(true) {
        forall i | 0 <= i < |q| ensures Eval(q[i], values) != Some(true) {
          if i > 0 { assert q[i] == q[1..][i - 1]; }
        }
      }
      if AnyOf(q[1..], values) == Some(true) {
        var i :| 0 <= i < |q[1..]| && Eval(q[1..][i], values) == Some(true);
        assert q[i + 1] == q[1..][i];
      }
    }
  }

  lemma {:induction false} AllOccurrencesConcat(a: seq<Formula>, b: seq<Formula>)
    ensures AllOccurrences(a + b) == AllOccurrences(a) + AllOccurrences(b)
    decreases |a|
  {
    if a == [] {
      assert a + b == b;
    } else {
      assert (a + b)[1..] == a[1..] + b;
      AllOccurrencesConcat(a[1..], b);
    }
  }

  /** Every queued formula is used exactly once: the variable occurrences of the fold
      are those of the queue, rearranged. */
  lemma {:induction false} BalancedOccurrences(q: seq<Formula>)
    requires |q| >= 1
    ensures multiset(Occurrences(Balanced(q))) == multiset(AllOccurrences(q))
    decreases |q|
  {
    if |q| == 1 {
      assert q[1..] == [];
      assert AllOccurrences(q) == Occurrences(q[0]) + [];
    } else {
      BalancedOccurrences(q[2..] + [Or(q[0], q[1])]);
      RoundOccurrences(q);
    }
  }

  /** One round of the loop keeps the occurrences, up to order. */
  lemma RoundOccurrences(q: seq<Formula>)
    requires |q| >= 2
    ensures multiset(AllOccurrences(q[2..] + [Or(q[0], q[1])])) == multiset(AllOccurrences(q))
  {
    AllOccurrencesConcat(q[2..], [Or(q[0], q[1])]);
    assert AllOccurrences([Or(q[0], q[1])]) == Occurrences(Or(q[0], q[1])) + [];
    assert q[1..][1..] == q[2..];
    assert AllOccurrences(q) == Occurrences(q[0]) + (Occurrences(q[1]) + AllOccurrences(q[2..]));
  }

  predicate NoDuplicates(q: seq<Formula>) {
    forall i, j :: 0 <= i < j < |q| ==> q[i] != q[j]
  }

  class DisjunctionQueue {
    var isTrue: bool
    var queue: seq<Formula>
    var conditions: set<Formula>
    const simplify: bool
    const simplifier: Option<Formula -> Formula>

    /** With simplification on, the queue holds each formula of conditions exactly
        once and never True; with it off, the set and the flag stay unused. */
    ghost predicate Valid()
      reads this
    {
      Configured() &&
      if simplify then
        NoDuplicates(queue) && conditions == (set i | 0 <= i < |queue| :: queue[i]) && True !in conditions
      else
        !isTrue && conditions == {}
    }

    /** A simplifier is only kept when simplification is on. */
    ghost predicate Configured()
    {
      !simplify ==> simplifier.None?
    }

    /** DisjunctionQueue(simplify, simplifier): the simplifier is dropped when
        simplification is off. */
    constructor(simplify: bool, simplifier: Option<Formula -> Formula>)
      ensures Valid()
      ensures this.simplify == simplify
      ensures this.simplifier == (if simplify then simplifier else None)
      ensures !isTrue && queue == [] && conditions == {}
    {
      this.simplify := simplify;
      this.simplifier := if simplify then simplifier else None;
      isTrue := false;
      queue := [];
      conditions := {};
    }

    /** add(condition): null is ignored; with simplification on, nothing is added once
        True was seen, True only sets the flag and a repeated formula is skipped; with
        it off every formula is queued. */
    method Add(condition: Option<Formula>)
      requires Valid()
      modifies this
      ensures Valid()
      ensures condition.None? ==> unchanged(this)
      ensures condition.Some? && !simplify ==> queue == old(queue) + [condition.value] && !isTrue
      ensures condition.Some? && simplify && (old(isTrue) || condition.value in old(conditions)) ==> unchanged(this)
      ensures condition.Some? && simplify && !old(isTrue) && condition.value !in old(conditions) ==>
        if condition.value.True? then isTrue && queue == old(queue) && conditions == old(conditions)
        else !isTrue && queue == old(queue) + [condition.value] && conditions == old(conditions) + {condition.value}
    {
      if condition.Some? {
        var c := condition.value;
        if simplify {
          if !isTrue && c !in conditions {
            if c.True? {
              isTrue := true;
            } else {
              assert forall i :: 0 <= i < |queue| ==> queue[i] in conditions;
              conditions := conditions + {c};
              queue := queue + [c];
              assert (set i | 0 <= i < |queue| :: queue[i]) == old(conditions) + {c} by {
                assert queue[|queue| - 1] == c;
                forall x | x in old(conditions) ensures x in (set i | 0 <= i < |queue| :: queue[i]) {
                  var i :| 0 <= i < |old(queue)| && old(queue)[i] == x;
                  assert queue[i] == x;
                }
              }
            }
          }
        } else {
          queue := queue + [c];
        }
      }
    }

    /** getDisjunction(): True if True was added, False for an empty queue, otherwise
        the fold of the queue (passed through the simplifier when one is set); the
        queue is reset in every case. */
    method GetDisjunction() returns (r: Formula)
      requires Valid()
      modifies this
      ensures Valid()
      ensures !isTrue && queue == [] && conditions == {}
      ensures old(isTrue) ==> r == True
      ensures !old(isTrue) && old(queue) == [] ==> r == False
      ensures !old(isTrue) && old(queue) != [] ==>
        r == (if simplifier.Some? then simplifier.value(Balanced(old(queue))) else Balanced(old(queue)))
    {
      if isTrue {
        r := True;
      } else if queue == [] {
        r := False;
      } else {
        while |queue| > 1
          invariant |queue| >= 1
          invariant Balanced(queue) == Balanced(old(queue))
          invariant isTrue == old(isTrue)
          decreases |queue|
        {
          queue := queue[2..] + [Or(queue[0], queue[1])];
        }
        r := queue[0];
        queue := [];
        if simplifier.Some? {
          r := simplifier.value(r);
        }
      }
      Reset();
    }

    /** reset(): back to the state of a new queue. */
    method Reset()
      requires Configured()
      modifies this
      ensures Valid()
      ensures !isTrue && queue == [] && conditions == {}
    {
      queue := [];
      conditions := {};
      isTrue := false;
    }
  }
}
