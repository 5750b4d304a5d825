/** The OperatorResolver of CppParser: each expression list is split at an operator of
    lowest precedence, whose operands are the resolved parts of the list around it. */
module CppResolution {
  import opened Wrappers
  import opened JavaText
  import opened CppOperators
  import opened CppAst

  /** Which operator of a list of equal lowest precedence is chosen: AsWritten keeps the
      first one found, which groups binary operators to the right ("A - B + C" as
      A - (B + C)); LeftToRight takes the last binary one, which groups them to the
      left as C does ((A - B) + C). Unary operators are taken first in both. */
  datatype Grouping = AsWritten | LeftToRight

  /** The precedence of the operator found so far, Integer.MAX_VALUE before any. */
  function BestPrecedence(items: seq<CppExpr>, best: int): int
    requires -1 <= best < |items| && (best >= 0 ==> items[best].Operator?)
  {
    if best == -1 then INT_MAX else Precedence(items[best].op)
  }

  /** Whether operator op is chosen over the one found so far, of precedence bound. */
  predicate Prefers(op: CppOperator, bound: int, g: Grouping) {
    Precedence(op) < bound || (g == LeftToRight && Precedence(op) == bound && IsBinary(op))
  }

  /** The position of the operator the list is split at, or -1 if it has none. */
  function Lowest(items: seq<CppExpr>, g: Grouping): (p: int)
    ensures -1 <= p < |items|
    ensures p >= 0 ==> items[p].Operator?
    decreases |items|
  {
    if items == [] then -1
    else
      var init := items[..|items| - 1];
      var best := Lowest(init, g);
      var last := items[|items| - 1];
      if last.Operator? && Prefers(last.op, BestPrecedence(init, best), g) then |items| - 1 else best
  }

  lemma LowestPrefix(items: seq<CppExpr>, i: nat, g: Grouping)
    requires i < |items|
    ensures var best := Lowest(items[..i], g);
      Lowest(items[..i + 1], g) ==
        if items[i].Operator? && Prefers(items[i].op, BestPrecedence(items[..i], best), g) then i else best
  {
    assert items[..i + 1][..i] == items[..i];
  }

  /** The search loop of visitExpressionList. */
  method FindLowestOperator(items: seq<CppExpr>, g: Grouping) returns (pos: int)
    ensures pos == Lowest(items, g)
  {
    pos := -1;
    var precedence := INT_MAX;
    var i := 0;
    while i < |items|
      invariant 0 <= i <= |items|
      invariant pos == Lowest(items[..i], g)
      invariant precedence == BestPrecedence(items[..i], pos)
    {
      LowestPrefix(items, i, g);
      var current := items[i];
      if current.Operator? {
        var p := Precedence(current.op);
        if p < precedence || (g == LeftToRight && p == precedence && IsBinary(current.op)) {
          pos := i;
          precedence := p;
        }
      }
      i := i + 1;
      assert pos >= 0 ==> items[..i][pos] == items[pos];
    }
    assert items[..i] == items;
  }

  predicate NoOperator(items: seq<CppExpr>) {
    forall k :: 0 <= k < |items| ==> !items[k].Operator?
  }

  /** Every operator at a position in [lo, hi) has precedence at least bound. */
  predicate NoneBelow(items: seq<CppExpr>, lo: int, hi: int, bound: int) {
    forall k :: 0 <= k < |items| && lo <= k < hi && items[k].Operator? ==> bound <= Precedence(items[k].op)
  }

  /** The operator the list is split at has the lowest precedence of the list's
      operators; AsWritten takes the first of them, LeftToRight the last when they are
      binary and the first when they are unary; no position means no operator. */
  predicate LowestAt(items: seq<CppExpr>, p: int, g: Grouping)
    requires -1 <= p < |items| && (p >= 0 ==> items[p].Operator?)
  {
    (p == -1 <==> NoOperator(items)) &&
    (p >= 0 ==>
       var q := Precedence(items[p].op);
       NoneBelow(items, 0, |items|, q) &&
       ((g == AsWritten || IsUnary(items[p].op)) ==> NoneBelow(items, 0, p, q + 1)) &&
       ((g == LeftToRight && IsBinary(items[p].op)) ==> NoneBelow(items, p + 1, |items|, q + 1)))
  }

  lemma NoOperatorExtend(items: seq<CppExpr>)
    requires items != [] && NoOperator(items[..|items| - 1]) && !items[|items| - 1].Operator?
    ensures NoOperator(items)
  {
    var init := items[..|items| - 1];
    forall k | 0 <= k < |items| - 1
      ensures !items[k].Operator?
    {
      assert init[k] == items[k];
    }
  }

  /** A bound on the operators of all but the last element extends to the whole list
      when the last element keeps it. */
  lemma NoneBelowExtend(items: seq<CppExpr>, lo: int, hi: int, bound: int, before: int)
    requires items != [] && bound <= before
    requires NoneBelow(items[..|items| - 1], lo, hi, before)
    requires lo <= |items| - 1 < hi && items[|items| - 1].Operator? ==> bound <= Precedence(items[|items| - 1].op)
    ensures NoneBelow(items, lo, hi, bound)
  {
    var init := items[..|items| - 1];
    forall k | 0 <= k < |items| - 1 && lo <= k < hi && items[k].Operator?
      ensures bound <= Precedence(items[k].op)
    {
      assert init[k] == items[k];
    }
  }

  /** An operator-free list is below no bound. */
  lemma NoOperatorNoneBelow(items: seq<CppExpr>, lo: int, hi: int, bound: int)
    requires NoOperator(items)
    ensures NoneBelow(items, lo, hi, bound)
  {
  }

  /** The last element is chosen over the operator found in the rest of the list. */
  lemma LowestAtLast(items: seq<CppExpr>, b: int, g: Grouping)
    requires items != [] && b == Lowest(items[..|items| - 1], g)
    requires LowestAt(items[..|items| - 1], b, g)
    requires items[|items| - 1].Operator?
    requires Prefers(items[|items| - 1].op, BestPrecedence(items[..|items| - 1], b), g)
    ensures LowestAt(items, |items| - 1, g)
  {
    var n := |items|;
    var init := items[..n - 1];
    var pl := Precedence(items[n - 1].op);
    if b == -1 {
      NoOperatorNoneBelow(init, 0, n, pl + 1);
      NoneBelowExtend(items, 0, n, pl, pl + 1);
      NoneBelowExtend(items, 0, n - 1, pl + 1, pl + 1);
    } else {
      var pb := Precedence(init[b].op);
      assert pl <= pb;
      NoneBelowExtend(items, 0, n, pl, pb);
      if g == AsWritten || IsUnary(items[n - 1].op) {
        assert pl < pb;
        NoneBelowExtend(items, 0, n - 1, pl + 1, pb);
      }
    }
  }

  /** The operator found in the rest of the list stays chosen. */
  lemma LowestAtKept(items: seq<CppExpr>, b: int, g: Grouping)
    requires items != [] && b == Lowest(items[..|items| - 1], g)
    requires LowestAt(items[..|items| - 1], b, g)
    requires !(items[|items| - 1].Operator? &&
               Prefers(items[|items| - 1].op, BestPrecedence(items[..|items| - 1], b), g))
    ensures LowestAt(items, b, g)
  {
    var n := |items|;
    var init := items[..n - 1];
    var last := items[n - 1];
    if b == -1 {
      assert !last.Operator?;
      NoOperatorExtend(items);
    } else {
      var pb := Precedence(init[b].op);
      assert init[b] == items[b];
      assert !NoOperator(items) by {
        assert items[b].Operator?;
      }
      NoneBelowExtend(items, 0, n, pb, pb);
      if g == AsWritten || IsUnary(items[b].op) {
        NoneBelowExtend(items, 0, b, pb + 1, pb + 1);
      }
      if g == LeftToRight && IsBinary(items[b].op) {
        NoneBelowExtend(items, b + 1, n, pb + 1, pb + 1);
      }
    }
  }

  lemma LowestAtStep(items: seq<CppExpr>, g: Grouping)
    requires items != []
    requires LowestAt(items[..|items| - 1], Lowest(items[..|items| - 1], g), g)
    ensures LowestAt(items, Lowest(items, g), g)
  {
    var b := Lowest(items[..|items| - 1], g);
    var last := items[|items| - 1];
    if last.Operator? && Prefers(last.op, BestPrecedence(items[..|items| - 1], b), g) {
      LowestAtLast(items, b, g);
    } else {
      LowestAtKept(items, b, g);
    }
  }

  lemma {:induction false} LowestCharacterised(items: seq<CppExpr>, g: Grouping)
    ensures LowestAt(items, Lowest(items, g), g)
    decreases |items|
  {
    if items != [] {
      LowestCharacterised(items[..|items| - 1], g);
      LowestAtStep(items, g);
    }
  }

  // ---------------------------------------------------------------------------
  // Resolving

  /** A unary operator must stand first, except that ++ and -- may stand last. */
  predicate UnaryInPlace(op: CppOperator, p: nat, size: nat) {
    p == 0 || ((op == IntDec || op == IntInc) && p == size - 1)
  }

  function Resolve(e: CppExpr, g: Grouping): Result<CppExpr>
    decreases e, 2
  {
    match e
    case ExpressionList(items) => ResolveList(items, g)
    case FunctionCall(name, argument) =>
      if argument.None? then Ok(e)
      else
        var a :- Resolve(argument.value, g);
        Ok(FunctionCall(name, Some(a)))
    case _ => Ok(e)
  }

  /** visitExpressionList: an empty list has no variable, a single element is resolved
      on its own, and a longer list needs an operator to split at. */
  function ResolveList(items: seq<CppExpr>, g: Grouping): Result<CppExpr>
    decreases items, 1
  {
    if |items| == 0 then Fail(ExpressionFormatException)
    else if |items| == 1 then Resolve(items[0], g)
    else
      var p := Lowest(items, g);
      if p == -1 then Fail(ExpressionFormatException)
      else SplitAt(items, p, g)
  }

  /** parseParameters: a unary operator takes the rest of the list as its one operand,
      a binary operator the parts on its left and on its right. */
  function SplitAt(items: seq<CppExpr>, p: nat, g: Grouping): Result<CppExpr>
    requires p < |items| && items[p].Operator?
    decreases items, 0
  {
    var node := items[p];
    if IsUnary(node.op) then
      if !UnaryInPlace(node.op, p, |items|) then Fail(ExpressionFormatException)
      else
        var operand :- ResolveList(items[..p] + items[p + 1..], g);
        Ok(node.(left := Some(operand)))
    else if p == 0 || p == |items| - 1 then Fail(ExpressionFormatException)
    else
      var left :- ResolveList(items[..p], g);
      var right :- ResolveList(items[p + 1..], g);
      Ok(node.(left := Some(left), right := Some(right)))
  }

  /** The OperatorResolver visitor. */
  method VisitResolve(e: CppExpr, g: Grouping) returns (r: Result<CppExpr>)
    ensures r == Resolve(e, g)
    decreases e, 2
  {
    match e {
      case ExpressionList(items) =>
        r := VisitList(items, g);
      case FunctionCall(name, argument) =>
        if argument.None? {
          return Ok(e);
        }
        var a := VisitResolve(argument.value, g);
        if a.Fail? {
          return Fail(a.exc);
        }
        r := Ok(FunctionCall(name, Some(a.value)));
      case Variable(_) =>
        r := Ok(e);
      case Operator(_, _, _) =>
        r := Ok(e);
      case IntegerLiteral(_) =>
        r := Ok(e);
    }
  }

  method VisitList(items: seq<CppExpr>, g: Grouping) returns (r: Result<CppExpr>)
    ensures r == ResolveList(items, g)
    decreases items, 1
  {
    if |items| == 0 {
      return Fail(ExpressionFormatException);
    } else if |items| == 1 {
      r := VisitResolve(items[0], g);
      return;
    }
    var pos := FindLowestOperator(items, g);
    if pos == -1 {
      return Fail(ExpressionFormatException);
    }
    r := ParseParameters(items, pos, g);
  }

  /** Splits the list around the operator. */
  method ParseParameters(items: seq<CppExpr>, p: nat, g: Grouping) returns (r: Result<CppExpr>)
    requires p < |items| && items[p].Operator?
    ensures r == SplitAt(items, p, g)
    decreases items, 0
  {
    var node := items[p];
    if IsUnary(node.op) {
      if p != 0 && !((node.op == IntDec || node.op == IntInc) && p == |items| - 1) {
        return Fail(ExpressionFormatException);
      }
      var rest := items[..p] + items[p + 1..];
      var operand := VisitList(rest, g);
      if operand.Fail? {
        return Fail(operand.exc);
      }
      r := Ok(node.(left := Some(operand.value)));
    } else {
      if p == 0 || p == |items| - 1 {
        return Fail(ExpressionFormatException);
      }
      var leftSide, rightSide := Sides(items, p);
      var left := VisitList(leftSide, g);
      if left.Fail? {
        return Fail(left.exc);
      }
      var right := VisitList(rightSide, g);
      if right.Fail? {
        return Fail(right.exc);
      }
      r := Ok(node.(left := Some(left.value), right := Some(right.value)));
    }
  }

  /** The parts of the list left and right of position p, collected by one pass. */
  method Sides(items: seq<CppExpr>, p: nat) returns (leftSide: seq<CppExpr>, rightSide: seq<CppExpr>)
    requires p < |items|
    ensures leftSide == items[..p] && rightSide == items[p + 1..]
  {
    leftSide := [];
    rightSide := [];
    var i := 0;
    while i < |items|
      invariant 0 <= i <= |items|
      invariant leftSide == items[..if i < p then i else p]
      invariant rightSide == if i <= p then [] else items[p + 1..i]
    {
      if i < p {
        assert items[..i + 1] == items[..i] + [items[i]];
        leftSide := leftSide + [items[i]];
      } else if i > p {
        assert items[p + 1..i + 1] == items[p + 1..i] + [items[i]];
        rightSide := rightSide + [items[i]];
      }
      i := i + 1;
    }
  }

  // ---------------------------------------------------------------------------
  // What resolving keeps

  /** Resolving only arranges the operands and operators into a tree: the operands keep
      their left-to-right order and no operator is lost or added. */
  lemma {:induction false} ResolveKeeps(e: CppExpr, g: Grouping)
    requires BareOperators(e) && Resolve(e, g).Ok?
    ensures Operands(Resolve(e, g).value) == Operands(e)
    ensures OperatorsIn(Resolve(e, g).value) == OperatorsIn(e)
    decreases e, 2
  {
    match e {
      case ExpressionList(items) =>
        ResolveListKeeps(items, g);
      case FunctionCall(_, argument) =>
        if argument.Some? {
          ResolveKeeps(argument.value, g);
        }
      case _ =>
    }
  }

  lemma {:induction false} ResolveListKeeps(items: seq<CppExpr>, g: Grouping)
    requires forall k :: 0 <= k < |items| ==> BareOperators(items[k])
    requires ResolveList(items, g).Ok?
    ensures Operands(ResolveList(items, g).value) == OperandsOf(items)
    ensures OperatorsIn(ResolveList(items, g).value) == OperatorsOf(items)
    decreases items, 1
  {
    if |items| == 1 {
      ResolveKeeps(items[0], g);
      assert items[1..] == [];
    } else {
      SplitAtKeeps(items, Lowest(items, g), g);
    }
  }

  lemma {:induction false} SplitAtKeeps(items: seq<CppExpr>, p: nat, g: Grouping)
    requires p < |items| && items[p].Operator?
    requires forall k :: 0 <= k < |items| ==> BareOperators(items[k])
    requires SplitAt(items, p, g).Ok?
    ensures Operands(SplitAt(items, p, g).value) == OperandsOf(items)
    ensures OperatorsIn(SplitAt(items, p, g).value) == OperatorsOf(items)
    decreases items, 0
  {
    if IsUnary(items[p].op) {
      var rest := items[..p] + items[p + 1..];
      BareWithout(items, p);
      ResolveListKeeps(rest, g);
      UnaryOperands(items, p, ResolveList(rest, g).value);
    } else {
      BareAfter(items, p);
      ResolveListKeeps(items[..p], g);
      ResolveListKeeps(items[p + 1..], g);
      BinaryOperands(items, p, ResolveList(items[..p], g).value, ResolveList(items[p + 1..], g).value);
    }
  }

  lemma BareWithout(items: seq<CppExpr>, p: nat)
    requires p < |items| && forall k :: 0 <= k < |items| ==> BareOperators(items[k])
    ensures var rest := items[..p] + items[p + 1..]; forall k :: 0 <= k < |rest| ==> BareOperators(rest[k])
  {
    var rest := items[..p] + items[p + 1..];
    forall k | 0 <= k < |rest|
      ensures BareOperators(rest[k])
    {
      if k < p {
        assert rest[k] == items[k];
      } else {
        assert rest[k] == items[k + 1];
      }
    }
  }

  lemma BareAfter(items: seq<CppExpr>, p: nat)
    requires p < |items| && forall k :: 0 <= k < |items| ==> BareOperators(items[k])
    ensures var after := items[p + 1..]; forall k :: 0 <= k < |after| ==> BareOperators(after[k])
  {
    var after := items[p + 1..];
    forall k | 0 <= k < |after|
      ensures BareOperators(after[k])
    {
      assert after[k] == items[p + 1 + k];
    }
  }

  /** A bare unary operator given the rest of its list as operand keeps the list's
      operands and operators. */
  lemma UnaryOperands(items: seq<CppExpr>, p: nat, operand: CppExpr)
    requires p < |items| && items[p].Operator? && BareOperators(items[p])
    requires Operands(operand) == OperandsOf(items[..p] + items[p + 1..])
    requires OperatorsIn(operand) == OperatorsOf(items[..p] + items[p + 1..])
    ensures Operands(items[p].(left := Some(operand))) == OperandsOf(items)
    ensures OperatorsIn(items[p].(left := Some(operand))) == OperatorsOf(items)
  {
    var node := items[p];
    var before, after := items[..p], items[p + 1..];
    assert node.(left := Some(operand)) == Operator(node.op, Some(operand), None);
    assert Operands(node) == [] && OperatorsIn(node) == multiset{node.op};
    SplitOperands(items, p);
    NodeParts(node.op, operand, None);
    OperandsOfAppend(before, after);
    OperatorsOfAppend(before, after);
    Regroup(Operands(operand), OperandsOf(before), OperandsOf(after),
            OperatorsIn(operand), OperatorsOf(before), OperatorsOf(after), node.op);
  }

  lemma Regroup(xs: seq<Operand>, front: seq<Operand>, back: seq<Operand>,
                x: multiset<CppOperator>, a: multiset<CppOperator>, b: multiset<CppOperator>, op: CppOperator)
    requires xs == front + back && x == a + b
    ensures xs + [] == front + ([] + back)
    ensures x + (multiset{op} + multiset{}) == a + (multiset{op} + b)
  {
  }

  /** A bare binary operator given the parts on its two sides keeps the list's operands
      and operators. */
  lemma BinaryOperands(items: seq<CppExpr>, p: nat, left: CppExpr, right: CppExpr)
    requires p < |items| && items[p].Operator? && BareOperators(items[p])
    requires Operands(left) == OperandsOf(items[..p]) && Operands(right) == OperandsOf(items[p + 1..])
    requires OperatorsIn(left) == OperatorsOf(items[..p]) && OperatorsIn(right) == OperatorsOf(items[p + 1..])
    ensures Operands(items[p].(left := Some(left), right := Some(right))) == OperandsOf(items)
    ensures OperatorsIn(items[p].(left := Some(left), right := Some(right))) == OperatorsOf(items)
  {
    var node := items[p];
    assert Operands(node) == [] && OperatorsIn(node) == multiset{node.op};
    SplitOperands(items, p);
    NodeParts(node.op, left, Some(right));
    assert [] + OperandsOf(items[p + 1..]) == OperandsOf(items[p + 1..]);
  }

  /** The operands and operators of an operator node with a left side. */
  lemma NodeParts(op: CppOperator, left: CppExpr, right: Option<CppExpr>)
    ensures Operands(Operator(op, Some(left), right)) ==
      Operands(left) + (if right.Some? then Operands(right.value) else [])
    ensures OperatorsIn(Operator(op, Some(left), right)) ==
      OperatorsIn(left) + (multiset{op} + (if right.Some? then OperatorsIn(right.value) else multiset{}))
  {
  }

  /** No expression list is left: the tree consists of calls, variables, literals and
      operators only. */
  predicate NoLists(e: CppExpr)
    decreases e
  {
    match e
    case ExpressionList(_) => false
    case FunctionCall(_, argument) => argument.Some? ==> NoLists(argument.value)
    case Operator(_, left, right) =>
      (left.Some? ==> NoLists(left.value)) && (right.Some? ==> NoLists(right.value))
    case _ => true
  }

  /** After the resolver no expression list is left. */
  lemma {:induction false} ResolveLeavesNoLists(e: CppExpr, g: Grouping)
    requires BareOperators(e) && Resolve(e, g).Ok?
    ensures NoLists(Resolve(e, g).value)
    decreases e, 2
  {
    match e {
      case ExpressionList(items) =>
        ResolveListLeavesNoLists(items, g);
      case FunctionCall(_, argument) =>
        if argument.Some? {
          ResolveLeavesNoLists(argument.value, g);
        }
      case _ =>
    }
  }

  lemma {:induction false} ResolveListLeavesNoLists(items: seq<CppExpr>, g: Grouping)
    requires forall k :: 0 <= k < |items| ==> BareOperators(items[k])
    requires ResolveList(items, g).Ok?
    ensures NoLists(ResolveList(items, g).value)
    decreases items, 1
  {
    if |items| == 1 {
      ResolveLeavesNoLists(items[0], g);
    } else {
      SplitAtLeavesNoLists(items, Lowest(items, g), g);
    }
  }

  lemma {:induction false} SplitAtLeavesNoLists(items: seq<CppExpr>, p: nat, g: Grouping)
    requires p < |items| && items[p].Operator?
    requires forall k :: 0 <= k < |items| ==> BareOperators(items[k])
    requires SplitAt(items, p, g).Ok?
    ensures NoLists(SplitAt(items, p, g).value)
    decreases items, 0
  {
    if IsUnary(items[p].op) {
      BareWithout(items, p);
      ResolveListLeavesNoLists(items[..p] + items[p + 1..], g);
    } else {
      BareAfter(items, p);
      ResolveListLeavesNoLists(items[..p], g);
      ResolveListLeavesNoLists(items[p + 1..], g);
    }
  }

  /** A list of two or more elements resolves to the operator it is split at, one of
      lowest precedence in the list, with its operands filled in. */
  lemma ResolvedRoot(items: seq<CppExpr>, g: Grouping)
    requires |items| >= 2 && ResolveList(items, g).Ok?
    ensures var p := Lowest(items, g); var r := ResolveList(items, g).value;
      p >= 0 && LowestAt(items, p, g) &&
      r.Operator? && r.op == items[p].op && r.left.Some? &&
      (IsBinary(r.op) ==> r.right.Some?)
  {
    LowestCharacterised(items, g);
  }

  /** A list of two or more elements without an operator is rejected. */
  lemma NoOperatorRejected(items: seq<CppExpr>, g: Grouping)
    requires |items| >= 2 && NoOperator(items)
    ensures ResolveList(items, g) == Fail(ExpressionFormatException)
  {
    LowestCharacterised(items, g);
  }

  // ---------------------------------------------------------------------------
  // Grouping of operators of equal precedence

  /** The list of A - B + C. */
  function MinusPlus(): seq<CppExpr> {
    [Variable("A"), Bare(IntSub), Variable("B"), Bare(IntAdd), Variable("C")]
  }

  /** As written, the resolver splits at the first of the two operators and so reads
      A - B + C as A - (B + C), which differs from C's (A - B) + C. */
  lemma GroupsToTheRight()
    ensures ResolveList(MinusPlus(), AsWritten) ==
      Ok(Operator(IntSub, Some(Variable("A")), Some(Operator(IntAdd, Some(Variable("B")), Some(Variable("C"))))))
  {
    var items := MinusPlus();
    assert Lowest(items[..1], AsWritten) == -1;
    assert items[..2][..1] == items[..1];
    assert Lowest(items[..2], AsWritten) == 1;
    assert items[..3][..2] == items[..2];
    assert Lowest(items[..3], AsWritten) == 1;
    assert items[..4][..3] == items[..3];
    assert Lowest(items[..4], AsWritten) == 1;
    assert items[..5] == items;
    assert Lowest(items, AsWritten) == 1;
    var right := items[2..];
    assert Lowest(right[..1], AsWritten) == -1;
    assert right[..2][..1] == right[..1];
    assert right[..3] == right;
    assert Lowest(right, AsWritten) == 1;
  }

  /** Taking the last binary operator of lowest precedence reads A - B + C as (A - B) + C. */
  lemma GroupsToTheLeft()
    ensures ResolveList(MinusPlus(), LeftToRight) ==
      Ok(Operator(IntAdd, Some(Operator(IntSub, Some(Variable("A")), Some(Variable("B")))), Some(Variable("C"))))
  {
    var items := MinusPlus();
    assert Lowest(items[..1], LeftToRight) == -1;
    assert items[..2][..1] == items[..1];
    assert Lowest(items[..2], LeftToRight) == 1;
    assert items[..3][..2] == items[..2];
    assert Lowest(items[..3], LeftToRight) == 1;
    assert items[..4][..3] == items[..3];
    assert Lowest(items[..4], LeftToRight) == 3;
    assert items[..5] == items;
    assert Lowest(items, LeftToRight) == 3;
    var left := items[..3];
    assert Lowest(left, LeftToRight) == 1;
  }
}
