/** The abstract syntax of C preprocessor expressions: nested expression lists, function
    calls, variables, operators with their operands, and integer literals. */
module CppAst {
  import opened Wrappers
  import opened CppOperators

  /** An operator node has no operands while the parser passes run; the resolver fills
      in the left side (the only side of a unary operator) and the right side. */
  datatype CppExpr =
    | ExpressionList(items: seq<CppExpr>)
    | FunctionCall(name: string, argument: Option<CppExpr>)
    | Variable(name: string)
    | Operator(op: CppOperator, left: Option<CppExpr>, right: Option<CppExpr>)
    | IntegerLiteral(value: int)

  /** A fresh operator node, as the bracket pass creates it. */
  function Bare(op: CppOperator): CppExpr {
    Operator(op, None, None)
  }

  /** Operators carry no operands yet, as before the resolver runs. */
  predicate BareOperators(e: CppExpr)
    decreases e
  {
    match e
    case ExpressionList(items) => forall k :: 0 <= k < |items| ==> BareOperators(items[k])
    case FunctionCall(_, argument) => argument.Some? ==> BareOperators(argument.value)
    case Operator(_, left, right) => left.None? && right.None?
    case _ => true
  }

  /** The operands of an expression, left to right: variables, literals and calls. */
  datatype Operand = VariableOperand(name: string) | LiteralOperand(value: int) | CallOperand(name: string)

  /** The operands of e in their left-to-right order, and of a call its name followed
      by the operands of its argument. */
  function Operands(e: CppExpr): seq<Operand>
    decreases e
  {
    match e
    case ExpressionList(items) => OperandsOf(items)
    case FunctionCall(name, argument) =>
      [CallOperand(name)] + (if argument.Some? then Operands(argument.value) else [])
    case Variable(name) => [VariableOperand(name)]
    case Operator(_, left, right) =>
      (if left.Some? then Operands(left.value) else []) + (if right.Some? then Operands(right.value) else [])
    case IntegerLiteral(value) => [LiteralOperand(value)]
  }

  function OperandsOf(items: seq<CppExpr>): seq<Operand>
    decreases items
  {
    if items == [] then [] else Operands(items[0]) + OperandsOf(items[1..])
  }

  /** The operators of e, counted with multiplicity. */
  function OperatorsIn(e: CppExpr): multiset<CppOperator>
    decreases e
  {
    match e
    case ExpressionList(items) => OperatorsOf(items)
    case FunctionCall(_, argument) => if argument.Some? then OperatorsIn(argument.value) else multiset{}
    case Variable(_) => multiset{}
    case Operator(op, left, right) =>
      multiset{op} + (if left.Some? then OperatorsIn(left.value) else multiset{})
      + (if right.Some? then OperatorsIn(right.value) else multiset{})
    case IntegerLiteral(_) => multiset{}
  }

  function OperatorsOf(items: seq<CppExpr>): multiset<CppOperator>
    decreases items
  {
    if items == [] then multiset{} else OperatorsIn(items[0]) + OperatorsOf(items[1..])
  }

  lemma {:induction false} OperandsOfAppend(xs: seq<CppExpr>, ys: seq<CppExpr>)
    ensures OperandsOf(xs + ys) == OperandsOf(xs) + OperandsOf(ys)
    decreases |xs|
  {
    if xs == [] {
      assert xs + ys == ys;
    } else {
      var zs := xs + ys;
      assert zs[0] == xs[0] && zs[1..] == xs[1..] + ys;
      OperandsOfAppend(xs[1..], ys);
      calc {
        OperandsOf(zs);
        Operands(xs[0]) + OperandsOf(xs[1..] + ys);
        Operands(xs[0]) + (OperandsOf(xs[1..]) + OperandsOf(ys));
      }
    }
  }

  lemma {:induction false} OperatorsOfAppend(xs: seq<CppExpr>, ys: seq<CppExpr>)
    ensures OperatorsOf(xs + ys) == OperatorsOf(xs) + OperatorsOf(ys)
    decreases |xs|
  {
    if xs == [] {
      assert xs + ys == ys;
    } else {
      var zs := xs + ys;
      assert zs[0] == xs[0] && zs[1..] == xs[1..] + ys;
      OperatorsOfAppend(xs[1..], ys);
    }
  }

  /** The operands and operators of a list around its element at p. */
  lemma SplitOperands(items: seq<CppExpr>, p: nat)
    requires p < |items|
    ensures OperandsOf(items) == OperandsOf(items[..p]) + (Operands(items[p]) + OperandsOf(items[p + 1..]))
    ensures OperatorsOf(items) == OperatorsOf(items[..p]) + (OperatorsIn(items[p]) + OperatorsOf(items[p + 1..]))
  {
    var back := items[p..];
    assert items[..p] + back == items;
    assert back[0] == items[p] && back[1..] == items[p + 1..];
    OperandsOfAppend(items[..p], back);
    OperatorsOfAppend(items[..p], back);
  }
}
