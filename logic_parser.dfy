/** The formula parser over the C-style Boolean grammar: a recursive parser over token
    ranges that makes the "highest" operator the root of each range. */
module FormulaParsing {
  import opened Wrappers
  import opened Formulas
  import opened BooleanGrammar
  import opened FormulaLexing

  // ---------------------------------------------------------------------------
  // Parsing

  /** HighestOperatorData: the bracket level, position and operator of the best
      operator seen so far (level and position -1 while none was seen). */
  datatype Highest = Highest(level: int, pos: int, op: Option<Operator>)

  const NoOperator := Highest(-1, -1, None)

  predicate WellFormedHighest(ho: Highest, i: int) {
    ho == NoOperator || (ho.op.Some? && 0 <= ho.pos < i && ho.level >= 0)
  }

  /** The test of the scan: an operator becomes the new root when none was found yet,
      when it is less deeply nested, or when it is as deeply nested and has a higher
      precedence number. */
  predicate Replaces(ho: Highest, depth: int, op: Operator) {
    ho.op.None? || depth < ho.level || (ho.level == depth && op.precedence > ho.op.value.precedence)
  }

  /** One token of the scan: brackets move the depth (below 0 is an error), operators
      may become the root. */
  function ScanStep(t: Token, i: int, depth: int, ho: Highest): (r: Result<(int, Highest)>)
  {
    match t
    case Bracket(closing) =>
      var d := if closing then depth - 1 else depth + 1;
      if d < 0 then Fail(ExpressionFormatException) else Ok((d, ho))
    case OpToken(op) =>
      Ok((depth, if Replaces(ho, depth, op) then Highest(depth, i, Some(op)) else ho))
    case Ident(_) => Ok((depth, ho))
  }

  /** The scan over ts from position i on, returning the final depth and root. */
  function ScanFrom(ts: seq<Token>, i: nat, depth: int, ho: Highest): (r: Result<(int, Highest)>)
    requires i <= |ts|
    requires depth >= 0 && WellFormedHighest(ho, i)
    ensures r.Ok? ==> r.value.0 >= 0 && WellFormedHighest(r.value.1, |ts|)
    ensures r.Fail? ==> r.exc == ExpressionFormatException
    decreases |ts| - i
  {
    if i == |ts| then Ok((depth, ho))
    else
      var next :- ScanStep(ts[i], i, depth, ho);
      ScanFrom(ts, i + 1, next.0, next.1)
  }

  /** How createResult splits a range of at least two tokens. */
  datatype Split =
    | Leaf(f: Formula)
    | Binary(op: Operator, lhs: seq<Token>, rhs: seq<Token>)
    | Unary(op: Operator, operand: seq<Token>)
    | Unwrap(inner: seq<Token>)

  /** parse(tokens, min, max) up to the recursive calls: an empty range and a single
      non-identifier are errors, a single identifier is a leaf; otherwise the scan
      picks the root, brackets must balance, a root at level 0 splits the range
      (a unary root must come first), and without one the range must be one bracketed
      group, which is unwrapped. */
  function Root(ts: seq<Token>): (r: Result<Split>)
    ensures r.Fail? ==> r.exc == ExpressionFormatException
    ensures r.Ok? && r.value.Binary? ==> |r.value.lhs| < |ts| && |r.value.rhs| < |ts|
    ensures r.Ok? && r.value.Unary? ==> |r.value.operand| < |ts|
    ensures r.Ok? && r.value.Unwrap? ==> |r.value.inner| < |ts|
  {
    if |ts| == 0 then Fail(ExpressionFormatException)
    else if |ts| == 1 then
      if ts[0].Ident? then Ok(Leaf(MakeIdentifierFormula(ts[0].name))) else Fail(ExpressionFormatException)
    else
      var scan :- ScanFrom(ts, 0, 0, NoOperator);
      if scan.0 != 0 then Fail(ExpressionFormatException)
      else SplitAt(ts, scan.1)
  }

  /** The split of a range of at least two tokens with balanced brackets, given the
      root the scan found. */
  function SplitAt(ts: seq<Token>, ho: Highest): (r: Result<Split>)
    requires |ts| >= 2 && WellFormedHighest(ho, |ts|)
    ensures r.Fail? ==> r.exc == ExpressionFormatException
    ensures r.Ok? && r.value.Binary? ==> |r.value.lhs| < |ts| && |r.value.rhs| < |ts|
    ensures r.Ok? && r.value.Unary? ==> |r.value.operand| < |ts|
    ensures r.Ok? && r.value.Unwrap? ==> |r.value.inner| < |ts|
  {
    if ho.level == 0 then
      if ho.op.value.binary then Ok(Binary(ho.op.value, ts[..ho.pos], ts[ho.pos + 1..]))
      else if ho.pos != 0 then Fail(ExpressionFormatException)
      else Ok(Unary(ho.op.value, ts[1..]))
    else if !ts[0].Bracket? || !ts[|ts| - 1].Bracket? then Fail(ExpressionFormatException)
    else if ts[0].closing || !ts[|ts| - 1].closing then Fail(ExpressionFormatException)
    else Ok(Unwrap(ts[1..|ts| - 1]))
  }

  /** The formula a token range denotes; every error is an ExpressionFormatException. */
  function ParseTokens(ts: seq<Token>): (r: Result<Formula>)
    ensures r.Fail? ==> r.exc == ExpressionFormatException
    decreases |ts|
  {
    var split :- Root(ts);
    match split
    case Leaf(f) => Ok(f)
    case Binary(op, lhs, rhs) =>
      var left :- ParseTokens(lhs);
      var right :- ParseTokens(rhs);
      MakeBinaryFormula(op, left, right)
    case Unary(op, operand) =>
      var child :- ParseTokens(operand);
      MakeUnaryFormula(op, child)
    case Unwrap(inner) => ParseTokens(inner)
  }

  /** parse(expression): lex, then parse the whole token array. */
  function Parse(expression: string): (r: Result<Formula>)
    ensures r.Fail? ==> r.exc == ExpressionFormatException
  {
    var ts :- Lexed(expression);
    ParseTokens(ts)
  }

  function Shift(ho: Highest, offset: int): Highest {
    if ho.op.Some? then ho.(pos := ho.pos + offset) else ho
  }

  /** The scan loop of parse(tokens, min, max), over the absolute positions min..max. */
  method FindHighest(tokens: seq<Token>, min: int, max: int) returns (r: Result<(int, Highest)>)
    requires 0 <= min <= max < |tokens|
    ensures ScanFrom(tokens[min..max + 1], 0, 0, NoOperator).Fail? ==> r.Fail?
    ensures ScanFrom(tokens[min..max + 1], 0, 0, NoOperator).Ok? ==>
      r.Ok? && r.value.0 == ScanFrom(tokens[min..max + 1], 0, 0, NoOperator).value.0
      && r.value.1 == Shift(ScanFrom(tokens[min..max + 1], 0, 0, NoOperator).value.1, min)
  {
    ghost var range := tokens[min..max + 1];
    ghost var rel := NoOperator;
    var ho := NoOperator;
    var depth := 0;
    var i := min;
    while i <= max
      invariant min <= i <= max + 1
      invariant depth >= 0 && WellFormedHighest(rel, i - min)
      invariant ho == Shift(rel, min)
      invariant ScanFrom(range, i - min, depth, rel) == ScanFrom(range, 0, 0, NoOperator)
      decreases max - i
    {
      var e := tokens[i];
      assert e == range[i - min];
      if e.Bracket? {
        if e.closing {
          depth := depth - 1;
        } else {
          depth := depth + 1;
        }
        if depth < 0 {
          return Fail(ExpressionFormatException);
        }
      } else if e.OpToken? {
        if Replaces(ho, depth, e.op) {
          rel := Highest(depth, i - min, Some(e.op));
          ho := Highest(depth, i, Some(e.op));
        }
      }
      i := i + 1;
    }
    r := Ok((depth, ho));
  }

  /** A slice of a slice is a slice. */
  lemma SubRange(s: seq<Token>, lo: int, hi: int, a: int, b: int)
    requires 0 <= lo <= hi <= |s| && 0 <= a <= b <= hi - lo
    ensures s[lo..hi][a..b] == s[lo + a..lo + b]
  {
    var x, y := s[lo..hi][a..b], s[lo + a..lo + b];
    assert |x| == |y|;
    forall k | 0 <= k < |x| ensures x[k] == y[k] {
      assert x[k] == s[lo..hi][a + k] == s[lo + a + k];
    }
  }

  /** parse(tokens, min, max): the range is inclusive and may be empty (max = min - 1). */
  method ParseRange(tokens: seq<Token>, min: int, max: int) returns (r: Result<Formula>)
    requires 0 <= min <= max + 1 <= |tokens|
    ensures r == ParseTokens(tokens[min..max + 1])
    decreases max - min, 3
  {
    if max - min < 0 {
      return Fail(ExpressionFormatException);
    }
    if max - min == 0 {
      if !tokens[min].Ident? {
        return Fail(ExpressionFormatException);
      }
      return Ok(MakeIdentifierFormula(tokens[min].name));
    }
    var scan := FindHighest(tokens, min, max);
    if scan.Fail? {
      return Fail(ExpressionFormatException);
    }
    if scan.value.0 != 0 {
      return Fail(ExpressionFormatException);
    }
    RootBySplit(tokens[min..max + 1]);
    r := CreateResult(tokens, min, max, scan.value.1);
  }

  /** createResult: recurses into the parts the root operator (or the outer brackets)
      leave, and lets the grammar build the formula. */
  method CreateResult(tokens: seq<Token>, min: int, max: int, ho: Highest) returns (r: Result<Formula>)
    requires 0 <= min < max < |tokens|
    requires WellFormedHighest(Shift(ho, -min), max + 1 - min)
    requires Root(tokens[min..max + 1]) == SplitAt(tokens[min..max + 1], Shift(ho, -min))
    ensures r == ParseTokens(tokens[min..max + 1])
    decreases max - min, 2
  {
    ghost var range := tokens[min..max + 1];
    if ho.level == 0 {
      r := CreateOperatorResult(tokens, min, max, ho);
    } else {
      assert range[0] == tokens[min] && range[|range| - 1] == tokens[max];
      if !tokens[min].Bracket? || !tokens[max].Bracket? || tokens[min].closing || !tokens[max].closing {
        FailedRoot(range);
        r := Fail(ExpressionFormatException);
      } else {
        SubRange(tokens, min, max + 1, 1, max - min);
        assert tokens[min + 1..max - 1 + 1] == range[1..|range| - 1];
        UnwrappedRoot(range);
        r := ParseRange(tokens, min + 1, max - 1);
      }
    }
  }

  /** createResult when the root operator is not nested in brackets. */
  method CreateOperatorResult(tokens: seq<Token>, min: int, max: int, ho: Highest) returns (r: Result<Formula>)
    requires 0 <= min < max < |tokens| && ho.level == 0
    requires WellFormedHighest(Shift(ho, -min), max + 1 - min)
    requires Root(tokens[min..max + 1]) == SplitAt(tokens[min..max + 1], Shift(ho, -min))
    ensures r == ParseTokens(tokens[min..max + 1])
    decreases max - min, 1
  {
    ghost var range := tokens[min..max + 1];
    ghost var rel := Shift(ho, -min);
    assert rel.op.Some? && ho.pos == rel.pos + min;
    if ho.op.value.binary {
      assert SplitAt(range, rel) == Ok(Binary(ho.op.value, range[..rel.pos], range[rel.pos + 1..]));
      SubRange(tokens, min, max + 1, 0, rel.pos);
      SubRange(tokens, min, max + 1, rel.pos + 1, max + 1 - min);
      assert range[..rel.pos] == tokens[min..ho.pos];
      assert range[rel.pos + 1..] == range[rel.pos + 1..max + 1 - min];
      r := CreateBinary(tokens, min, max, ho.pos, ho.op.value);
    } else if ho.pos != min {
      FailedRoot(range);
      r := Fail(ExpressionFormatException);
    } else {
      SubRange(tokens, min, max + 1, 1, max + 1 - min);
      r := CreateUnary(tokens, min, max, ho.op.value);
    }
  }

  lemma RootBySplit(ts: seq<Token>)
    requires |ts| >= 2 && ScanFrom(ts, 0, 0, NoOperator).Ok? && ScanFrom(ts, 0, 0, NoOperator).value.0 == 0
    ensures Root(ts) == SplitAt(ts, ScanFrom(ts, 0, 0, NoOperator).value.1)
  {
  }

  lemma FailedRoot(ts: seq<Token>)
    requires Root(ts).Fail?
    ensures ParseTokens(ts) == Fail(ExpressionFormatException)
  {
  }

  lemma UnwrappedRoot(ts: seq<Token>)
    requires |ts| >= 2 && Root(ts) == Ok(Unwrap(ts[1..|ts| - 1]))
    ensures ParseTokens(ts) == ParseTokens(ts[1..|ts| - 1])
  {
  }

  /** createResult for a binary root at position pos. */
  method CreateBinary(tokens: seq<Token>, min: int, max: int, pos: int, op: Operator) returns (r: Result<Formula>)
    requires 0 <= min <= pos <= max < |tokens|
    requires Root(tokens[min..max + 1]) == Ok(Binary(op, tokens[min..pos], tokens[pos + 1..max + 1]))
    ensures r == ParseTokens(tokens[min..max + 1])
    decreases max - min, 0, 1
  {
    LeftOperandRange(tokens, min, pos);
    var leftTree := ParseRange(tokens, min, pos - 1);
    if leftTree.Fail? {
      BinaryLeftFails(tokens[min..max + 1], op, tokens[min..pos], tokens[pos + 1..max + 1], leftTree);
      return leftTree;
    }
    r := CreateBinaryRight(tokens, min, max, pos, op, leftTree.value);
  }

  /** The rest of createResult for a binary root, once the left part parsed to left. */
  method CreateBinaryRight(tokens: seq<Token>, min: int, max: int, pos: int, op: Operator, left: Formula)
    returns (r: Result<Formula>)
    requires 0 <= min <= pos <= max < |tokens|
    requires Root(tokens[min..max + 1]) == Ok(Binary(op, tokens[min..pos], tokens[pos + 1..max + 1]))
    requires ParseTokens(tokens[min..pos]) == Ok(left)
    ensures r == ParseTokens(tokens[min..max + 1])
    decreases max - min, 0, 0
  {
    var rightTree := ParseRange(tokens, pos + 1, max);
    if rightTree.Fail? {
      BinaryRightFails(tokens[min..max + 1], op, tokens[min..pos], tokens[pos + 1..max + 1], Ok(left), rightTree);
      return rightTree;
    }
    r := MakeBinaryFormula(op, left, rightTree.value);
    BinaryMade(tokens[min..max + 1], op, tokens[min..pos], tokens[pos + 1..max + 1], Ok(left), rightTree, r);
  }

  lemma BinaryLeftFails(ts: seq<Token>, op: Operator, lhs: seq<Token>, rhs: seq<Token>, left: Result<Formula>)
    requires Root(ts) == Ok(Binary(op, lhs, rhs)) && left == ParseTokens(lhs) && left.Fail?
    ensures left == ParseTokens(ts)
  {
    BinaryRoot(ts, op, lhs, rhs);
  }

  lemma BinaryRightFails(ts: seq<Token>, op: Operator, lhs: seq<Token>, rhs: seq<Token>, left: Result<Formula>, right: Result<Formula>)
    requires Root(ts) == Ok(Binary(op, lhs, rhs)) && left == ParseTokens(lhs) && left.Ok?
    requires right == ParseTokens(rhs) && right.Fail?
    ensures right == ParseTokens(ts)
  {
    BinaryRoot(ts, op, lhs, rhs);
  }

  lemma BinaryMade(ts: seq<Token>, op: Operator, lhs: seq<Token>, rhs: seq<Token>, left: Result<Formula>, right: Result<Formula>, r: Result<Formula>)
    requires Root(ts) == Ok(Binary(op, lhs, rhs)) && left == ParseTokens(lhs) && left.Ok?
    requires right == ParseTokens(rhs) && right.Ok? && r == MakeBinaryFormula(op, left.value, right.value)
    ensures r == ParseTokens(ts)
  {
    BinaryRoot(ts, op, lhs, rhs);
  }

  /** The tokens left of a binary root at pos, as ParseRange(tokens, min, pos - 1) reads them. */
  lemma LeftOperandRange(tokens: seq<Token>, min: int, pos: int)
    requires 0 <= min <= pos <= |tokens|
    ensures ParseTokens(tokens[min..pos - 1 + 1]) == ParseTokens(tokens[min..pos])
  {
    assert tokens[min..pos - 1 + 1] == tokens[min..pos];
  }

  lemma BinaryRoot(ts: seq<Token>, op: Operator, lhs: seq<Token>, rhs: seq<Token>)
    requires Root(ts) == Ok(Binary(op, lhs, rhs))
    ensures ParseTokens(lhs).Fail? ==> ParseTokens(ts) == ParseTokens(lhs)
    ensures ParseTokens(lhs).Ok? && ParseTokens(rhs).Fail? ==> ParseTokens(ts) == ParseTokens(rhs)
    ensures ParseTokens(lhs).Ok? && ParseTokens(rhs).Ok? ==>
      ParseTokens(ts) == MakeBinaryFormula(op, ParseTokens(lhs).value, ParseTokens(rhs).value)
  {
  }

  /** createResult for a unary root in the first position. */
  method CreateUnary(tokens: seq<Token>, min: int, max: int, op: Operator) returns (r: Result<Formula>)
    requires 0 <= min <= max < |tokens|
    requires Root(tokens[min..max + 1]) == Ok(Unary(op, tokens[min + 1..max + 1]))
    ensures r == ParseTokens(tokens[min..max + 1])
    decreases max - min, 0
  {
    var childFormula := ParseRange(tokens, min + 1, max);
    if childFormula.Fail? {
      return childFormula;
    }
    r := MakeUnaryFormula(op, childFormula.value);
  }

  /** parse(expression). */
  method ParseExpression(expression: string) returns (r: Result<Formula>)
    ensures r == Parse(expression)
  {
    var tokens := Lex(expression);
    if tokens.Fail? {
      return Fail(tokens.exc);
    }
    r := ParseRange(tokens.value, 0, |tokens.value| - 1);
    assert tokens.value[0..|tokens.value|] == tokens.value;
  }

  // ---------------------------------------------------------------------------
  // What the scan finds

  /** The change of bracket depth a token makes. */
  function Delta(t: Token): int {
    if t.Bracket? then (if t.closing then -1 else 1) else 0
  }

  /** The bracket depth in front of position j. */
  function DepthBefore(ts: seq<Token>, j: nat): int
    requires j <= |ts|
  {
    if j == 0 then 0 else DepthBefore(ts, j - 1) + Delta(ts[j - 1])
  }

  /** No prefix of the first i tokens closes more brackets than it opens. */
  predicate NonNegativeDepths(ts: seq<Token>, i: nat)
    requires i <= |ts|
  {
    forall k :: 1 <= k <= i ==> DepthBefore(ts, k) >= 0
  }

  /** The root ho is at least as good as the operator at position j: not deeper, and
      at the same depth of no lower precedence number, and of a strictly higher one
      if j comes first. */
  predicate Beats(ts: seq<Token>, ho: Highest, j: nat)
    requires j < |ts| && ts[j].OpToken? && ho.op.Some?
  {
    ho.level <= DepthBefore(ts, j) &&
    (DepthBefore(ts, j) == ho.level ==>
       ts[j].op.precedence <= ho.op.value.precedence &&
       (j < ho.pos ==> ts[j].op.precedence < ho.op.value.precedence))
  }

  /** ho is the root among the first i tokens: none when there is no operator there,
      otherwise an operator at its own position and depth that beats every other. */
  predicate RootAmong(ts: seq<Token>, ho: Highest, i: nat)
    requires i <= |ts|
  {
    (ho.op.None? ==> ho == NoOperator && forall j :: 0 <= j < i ==> !ts[j].OpToken?) &&
    (ho.op.Some? ==>
       0 <= ho.pos < i && ts[ho.pos] == OpToken(ho.op.value) && ho.level == DepthBefore(ts, ho.pos) &&
       forall j :: 0 <= j < i && ts[j].OpToken? ==> Beats(ts, ho, j))
  }

  /** One step of the scan keeps the root characterised. */
  lemma ScanStepRoot(ts: seq<Token>, i: nat, ho: Highest)
    requires i < |ts| && ts[i].OpToken? && RootAmong(ts, ho, i)
    ensures var ho' := if Replaces(ho, DepthBefore(ts, i), ts[i].op)
                       then Highest(DepthBefore(ts, i), i, Some(ts[i].op)) else ho;
            RootAmong(ts, ho', i + 1)
  {
    var depth, op := DepthBefore(ts, i), ts[i].op;
    if Replaces(ho, depth, op) {
      var ho' := Highest(depth, i, Some(op));
      forall j | 0 <= j < i + 1 && ts[j].OpToken? ensures Beats(ts, ho', j) {
        if j < i {
          assert Beats(ts, ho, j);
        }
      }
    } else {
      assert Beats(ts, ho, i);
    }
  }

  /** The scan from position i on: it fails exactly when some later prefix closes too
      many brackets, and otherwise ends at the final depth with the root of all
      tokens. */
  lemma {:induction false} ScanCharacterised(ts: seq<Token>, i: nat, depth: int, ho: Highest)
    requires i <= |ts| && depth == DepthBefore(ts, i) && NonNegativeDepths(ts, i)
    requires depth >= 0 && WellFormedHighest(ho, i) && RootAmong(ts, ho, i)
    ensures ScanFrom(ts, i, depth, ho).Ok? <==> NonNegativeDepths(ts, |ts|)
    ensures ScanFrom(ts, i, depth, ho).Ok? ==>
      ScanFrom(ts, i, depth, ho).value.0 == DepthBefore(ts, |ts|) &&
      RootAmong(ts, ScanFrom(ts, i, depth, ho).value.1, |ts|)
    decreases |ts| - i
  {
    if i < |ts| {
      var step := ScanStep(ts[i], i, depth, ho);
      assert DepthBefore(ts, i + 1) == depth + Delta(ts[i]);
      if step.Fail? {
        assert DepthBefore(ts, i + 1) < 0;
      } else {
        var ho' := step.value.1;
        if ts[i].OpToken? {
          ScanStepRoot(ts, i, ho);
        } else {
          assert RootAmong(ts, ho', i + 1);
        }
        ScanCharacterised(ts, i + 1, step.value.0, ho');
      }
    }
  }

  /** The whole scan of a range: it fails exactly when a prefix closes too many
      brackets; otherwise it reports the final depth and, as root, the first operator
      among those at the shallowest depth with the highest precedence number. */
  lemma RootOperator(ts: seq<Token>)
    ensures ScanFrom(ts, 0, 0, NoOperator).Ok? <==> NonNegativeDepths(ts, |ts|)
    ensures ScanFrom(ts, 0, 0, NoOperator).Ok? ==>
      ScanFrom(ts, 0, 0, NoOperator).value.0 == DepthBefore(ts, |ts|) &&
      RootAmong(ts, ScanFrom(ts, 0, 0, NoOperator).value.1, |ts|)
  {
    ScanCharacterised(ts, 0, 0, NoOperator);
  }

  /** Every range the parser splits (or unwraps) has balanced brackets. */
  lemma SplitRangesBalanced(ts: seq<Token>)
    requires |ts| >= 2 && Root(ts).Ok?
    ensures NonNegativeDepths(ts, |ts|) && DepthBefore(ts, |ts|) == 0
  {
    RootOperator(ts);
  }

  /** A range whose root operator is nested inside brackets is parsed as its one
      bracketed group with the outer brackets removed, or rejected. */
  lemma NestedRootUnwraps(ts: seq<Token>)
    requires |ts| >= 2 && NonNegativeDepths(ts, |ts|) && DepthBefore(ts, |ts|) == 0
    requires forall j :: 0 <= j < |ts| && ts[j].OpToken? ==> DepthBefore(ts, j) > 0
    ensures ParseTokens(ts) ==
      if ts[0] == Bracket(false) && ts[|ts| - 1] == Bracket(true) then ParseTokens(ts[1..|ts| - 1])
      else Fail(ExpressionFormatException)
  {
    RootOperator(ts);
    var ho := ScanFrom(ts, 0, 0, NoOperator).value.1;
    if ho.op.Some? {
      assert DepthBefore(ts, ho.pos) > 0;
    }
  }

  /** A unary root must be the first token of its range. */
  lemma UnaryRootFirst(ts: seq<Token>)
    requires Root(ts).Ok? && Root(ts).value.Unary?
    ensures |ts| >= 2 && ts[0] == OpToken(Root(ts).value.op) && Root(ts).value.operand == ts[1..]
    ensures !Root(ts).value.op.binary
  {
    RootOperator(ts);
  }
}
