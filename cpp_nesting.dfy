/** The first stage of CppParser.parse: the token sequence becomes nested expression
    lists, one per bracket pair, kept on a stack of the lists still open. */
module CppNesting {
  import opened Wrappers
  import opened CppOperators
  import opened CppLexing
  import opened CppAst

  // ---------------------------------------------------------------------------
  // The stack of open lists, innermost last

  type Stack = s: seq<seq<CppExpr>> | |s| >= 1 witness [[]]

  /** Adds x to the innermost open list. */
  function Add(stack: Stack, x: CppExpr): (r: Stack)
    ensures |r| == |stack|
  {
    stack[..|stack| - 1] + [stack[|stack| - 1] + [x]]
  }

  /** One token: '(' opens a new list, ')' closes the innermost list into its parent
      (too many closing brackets when no parent is left), and an identifier or an
      operator is added to the innermost list. */
  function NestStep(stack: Stack, t: Token): (r: Result<Stack>)
  {
    match t
    case Bracket(closing) =>
      if !closing then Ok(stack + [[]])
      else if |stack| == 1 then Fail(ExpressionFormatException)
      else Ok(Add(stack[..|stack| - 1], ExpressionList(stack[|stack| - 1])))
    case Identifier(name) => Ok(Add(stack, Variable(name)))
    case OperatorToken(op) => Ok(Add(stack, Bare(op)))
  }

  function Nest(ts: seq<Token>, stack: Stack): Result<Stack>
    decreases |ts|
  {
    if ts == [] then Ok(stack)
    else
      var next :- NestStep(stack, ts[0]);
      Nest(ts[1..], next)
  }

  /** The outermost list, or an error for unbalanced brackets. */
  function Nested(ts: seq<Token>): Result<seq<CppExpr>> {
    var stack :- Nest(ts, [[]]);
    if |stack| != 1 then Fail(ExpressionFormatException) else Ok(stack[0])
  }

  /** A list of one element stands for that element. */
  function Unwrap(items: seq<CppExpr>): CppExpr {
    if |items| == 1 then items[0] else ExpressionList(items)
  }

  /** The result of the bracket stage of parse. */
  function Bracketed(ts: seq<Token>): Result<CppExpr> {
    var items :- Nested(ts);
    Ok(Unwrap(items))
  }

  lemma NestNext(ts: seq<Token>, i: nat, stack: Stack)
    requires i < |ts| && NestStep(stack, ts[i]).Ok?
    ensures Nest(ts[i..], stack) == Nest(ts[i + 1..], NestStep(stack, ts[i]).value)
  {
    assert ts[i..][0] == ts[i];
    assert ts[i..][1..] == ts[i + 1..];
  }

  lemma NestStops(ts: seq<Token>, i: nat, stack: Stack)
    requires i < |ts| && NestStep(stack, ts[i]).Fail?
    ensures Nest(ts[i..], stack) == Fail(ExpressionFormatException)
  {
    assert ts[i..][0] == ts[i];
  }

  /** parse's loop over the tokens, with the Deque of open lists as a sequence whose
      last element is the top; the new list that '(' opens is added to its parent when
      it is closed, at the same position the parent's reference to it has. */
  method NestBrackets(tokens: seq<Token>) returns (r: Result<CppExpr>)
    ensures r == Bracketed(tokens)
  {
    var stack: Stack := [[]];
    var i := 0;
    while i < |tokens|
      invariant 0 <= i <= |tokens|
      invariant Nest(tokens[i..], stack) == Nest(tokens, [[]])
    {
      ghost var old_stack := stack;
      match tokens[i] {
        case Bracket(closing) =>
          if !closing {
            stack := stack + [[]];
          } else {
            if |stack| == 1 {
              NestStops(tokens, i, stack);
              return Fail(ExpressionFormatException);
            }
            var top := stack[|stack| - 1];
            var parent: Stack := stack[..|stack| - 1];
            stack := Add(parent, ExpressionList(top));
          }
        case Identifier(name) =>
          stack := Add(stack, Variable(name));
        case OperatorToken(op) =>
          stack := Add(stack, Bare(op));
      }
      NestNext(tokens, i, old_stack);
      i := i + 1;
    }
    assert tokens[i..] == [];
    if |stack| != 1 {
      return Fail(ExpressionFormatException);
    }
    var result := stack[0];
    if |result| == 1 {
      r := Ok(result[0]);
    } else {
      r := Ok(ExpressionList(result));
    }
  }

  // ---------------------------------------------------------------------------
  // Balanced brackets

  function Change(t: Token): int {
    if t == Bracket(false) then 1 else if t == Bracket(true) then -1 else 0
  }

  /** Opening minus closing brackets. */
  function Depth(ts: seq<Token>): int
    decreases |ts|
  {
    if ts == [] then 0 else Depth(ts[..|ts| - 1]) + Change(ts[|ts| - 1])
  }

  /** No prefix closes more brackets than it opens, and the whole opens as many as it
      closes. */
  predicate Balanced(ts: seq<Token>) {
    (forall k :: 0 <= k <= |ts| ==> Depth(ts[..k]) >= 0) && Depth(ts) == 0
  }

  lemma {:induction false} DepthFront(ts: seq<Token>, k: nat)
    requires 1 <= k <= |ts|
    ensures Depth(ts[..k]) == Change(ts[0]) + Depth(ts[1..][..k - 1])
    decreases k
  {
    if k > 1 {
      DepthFront(ts, k - 1);
      assert ts[..k][..k - 1] == ts[..k - 1];
      assert ts[1..][..k - 1][..k - 2] == ts[1..][..k - 2];
    } else {
      assert ts[..1][..0] == [];
    }
  }

  /** Nest succeeds exactly when no prefix closes more lists than are open, and then
      leaves as many open lists as the brackets leave unclosed. */
  lemma {:induction false} NestDepth(ts: seq<Token>, stack: Stack)
    ensures Nest(ts, stack).Ok? <==> forall k :: 0 <= k <= |ts| ==> |stack| - 1 + Depth(ts[..k]) >= 0
    ensures Nest(ts, stack).Ok? ==> |Nest(ts, stack).value| == |stack| + Depth(ts)
    decreases |ts|
  {
    if ts == [] {
      assert forall k :: 0 <= k <= |ts| ==> ts[..k] == [];
    } else {
      var t, rest := ts[0], ts[1..];
      assert ts[..0] == [];
      assert ts[..|ts|] == ts;
      var step := NestStep(stack, t);
      if step.Fail? {
        assert Depth(ts[..1]) == -1 by { DepthFront(ts, 1); assert rest[..0] == []; }
      } else {
        NestDepth(rest, step.value);
        assert |step.value| == |stack| + Change(t);
        forall k | 1 <= k <= |ts|
          ensures Depth(ts[..k]) == Change(t) + Depth(rest[..k - 1])
        {
          DepthFront(ts, k);
        }
        if forall k :: 0 <= k <= |ts| ==> |stack| - 1 + Depth(ts[..k]) >= 0 {
          forall j | 0 <= j <= |rest|
            ensures |step.value| - 1 + Depth(rest[..j]) >= 0
          {
            assert |stack| - 1 + Depth(ts[..j + 1]) >= 0;
          }
        }
        if forall j :: 0 <= j <= |rest| ==> |step.value| - 1 + Depth(rest[..j]) >= 0 {
          forall k | 0 <= k <= |ts|
            ensures |stack| - 1 + Depth(ts[..k]) >= 0
          {
            if k > 0 {
              assert |step.value| - 1 + Depth(rest[..k - 1]) >= 0;
            }
          }
        }
      }
    }
  }

  /** The bracket stage succeeds exactly on balanced token sequences. */
  lemma BracketedBalanced(ts: seq<Token>)
    ensures Bracketed(ts).Ok? <==> Balanced(ts)
  {
    NestDepth(ts, [[]]);
  }

  // ---------------------------------------------------------------------------
  // The lists give back the tokens

  /** The tokens of a bracket tree: an expression list in brackets, a variable as its
      identifier and an operator as its symbol token. Calls and literals do not occur at
      this stage and give no tokens. */
  function Render(e: CppExpr): seq<Token>
    decreases e
  {
    match e
    case ExpressionList(items) => [Bracket(false)] + RenderList(items) + [Bracket(true)]
    case Variable(name) => [Identifier(name)]
    case Operator(op, _, _) => [OperatorToken(op)]
    case _ => []
  }

  function RenderList(items: seq<CppExpr>): seq<Token>
    decreases items
  {
    if items == [] then [] else Render(items[0]) + RenderList(items[1..])
  }

  /** The tokens read so far: the outermost list, then each open list after the '('
      that opened it. */
  function RenderStack(stack: Stack): seq<Token>
    decreases |stack|
  {
    if |stack| == 1 then RenderList(stack[0])
    else RenderStack(stack[..|stack| - 1]) + [Bracket(false)] + RenderList(stack[|stack| - 1])
  }

  lemma {:induction false} RenderListAppend(items: seq<CppExpr>, x: CppExpr)
    ensures RenderList(items + [x]) == RenderList(items) + Render(x)
    decreases |items|
  {
    if items == [] {
      assert [x][1..] == [];
    } else {
      RenderListAppend(items[1..], x);
      assert (items + [x])[1..] == items[1..] + [x];
    }
  }

  lemma RenderAdd(stack: Stack, x: CppExpr)
    ensures RenderStack(Add(stack, x)) == RenderStack(stack) + Render(x)
  {
    var n := |stack|;
    var added := Add(stack, x);
    RenderListAppend(stack[n - 1], x);
    if n > 1 {
      assert added[..n - 1] == stack[..n - 1];
    }
  }

  lemma RenderStep(stack: Stack, t: Token)
    requires NestStep(stack, t).Ok?
    ensures RenderStack(NestStep(stack, t).value) == RenderStack(stack) + [t]
  {
    match t
    case Bracket(closing) =>
      if !closing {
        var pushed := stack + [[]];
        assert pushed[..|pushed| - 1] == stack;
      } else {
        var n := |stack|;
        var parent: Stack := stack[..n - 1];
        var top := stack[n - 1];
        RenderAdd(parent, ExpressionList(top));
      }
    case Identifier(name) => RenderAdd(stack, Variable(name));
    case OperatorToken(op) => RenderAdd(stack, Bare(op));
  }

  lemma {:induction false} NestRender(ts: seq<Token>, stack: Stack)
    requires Nest(ts, stack).Ok?
    ensures RenderStack(Nest(ts, stack).value) == RenderStack(stack) + ts
    decreases |ts|
  {
    if ts != [] {
      RenderStep(stack, ts[0]);
      NestRender(ts[1..], NestStep(stack, ts[0]).value);
      assert [ts[0]] + ts[1..] == ts;
    }
  }

  /** The outermost list gives back exactly the tokens it was built from. */
  lemma NestedRoundTrip(ts: seq<Token>)
    requires Nested(ts).Ok?
    ensures RenderList(Nested(ts).value) == ts
  {
    NestRender(ts, [[]]);
  }
}
