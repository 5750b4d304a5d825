/** Boolean formulas: the Formula class hierarchy (False, True, Variable, Negation,
    Conjunction, Disjunction) as one datatype, with the structural operations the
    classes implement: precedence, toString with its parenthesising rule, equals,
    hashCode and the literal count. */
module Formulas {
  import opened JavaText

  datatype Formula =
    | False
    | True
    | Var(name: string)
    | Not(inner: Formula)
    | And(left: Formula, right: Formula)
    | Or(left: Formula, right: Formula)

  predicate IsConstant(f: Formula) { f.True? || f.False? }

  /** getPrecedence(): Disjunction 1, Negation 2. Conjunction shares the
      Disjunction rule (1); atoms bind tightest (3). */
  function Precedence(f: Formula): (p: int)
    ensures 1 <= p <= 3
    ensures p == 3 <==> (f.False? || f.True? || f.Var?)
  {
    match f
    case Or(_, _) => 1
    case And(_, _) => 1
    case Not(_) => 2
    case _ => 3
  }

  /** The instanceof test of the toString methods: an operand of the same class as
      its parent is never wrapped. */
  predicate SameKind(child: Formula, parent: Formula) {
    (child.Or? && parent.Or?) || (child.And? && parent.And?) || (child.Not? && parent.Not?)
  }

  /** An operand is wrapped in brackets when it is of another class and does not bind
      tighter than its parent. */
  predicate NeedsParens(child: Formula, parent: Formula) {
    !SameKind(child, parent) && Precedence(child) <= Precedence(parent)
  }

  function Wrap(s: string, paren: bool): string {
    if paren then "(" + s + ")" else s
  }

  /** toString(): the C-style text of the formula. */
  function ToString(f: Formula): string
  {
    match f
    case False => "0"
    case True => "1"
    case Var(n) => n
    case Not(g) => "!" + Wrap(ToString(g), NeedsParens(g, f))
    case And(l, r) => Wrap(ToString(l), NeedsParens(l, f)) + " && " + Wrap(ToString(r), NeedsParens(r, f))
    case Or(l, r) => Wrap(ToString(l), NeedsParens(l, f)) + " || " + Wrap(ToString(r), NeedsParens(r, f))
  }

  /** The bracketing rule in the source's own terms: inside a Disjunction (or a
      Conjunction) only an operand of the other binary class gets brackets; inside a
      Negation only a binary operand does. */
  lemma ParensRule(child: Formula, parent: Formula)
    requires parent.And? || parent.Or? || parent.Not?
    ensures parent.Or? ==> (NeedsParens(child, parent) <==> child.And?)
    ensures parent.And? ==> (NeedsParens(child, parent) <==> child.Or?)
    ensures parent.Not? ==> (NeedsParens(child, parent) <==> child.And? || child.Or?)
  {
  }

  /** toString(StringBuilder): appends to sb exactly the text toString() returns. */
  method AppendTo(f: Formula, sb: string) returns (r: string)
    ensures r == sb + ToString(f)
    decreases f, 2
  {
    match f {
      case False =>
        r := sb + "0";
      case True =>
        r := sb + "1";
      case Var(n) =>
        r := sb + n;
      case Not(g) =>
        r := AppendNegation(f, sb);
      case And(_, _) =>
        r := AppendBinary(f, sb);
      case Or(_, _) =>
        r := AppendBinary(f, sb);
    }
  }

  /** The negation case: '!' and the operand. */
  method AppendNegation(f: Formula, sb: string) returns (r: string)
    requires f.Not?
    ensures r == sb + ToString(f)
    decreases f, 1
  {
    ghost var a := Wrap(ToString(f.inner), NeedsParens(f.inner, f));
    assert ToString(f) == "!" + a;
    r := sb + "!";
    r := AppendOperand(f.inner, f, r);
    Regroup(sb, "!", a, "");
  }

  /** The binary case: left operand, operator, right operand. */
  method AppendBinary(f: Formula, sb: string) returns (r: string)
    requires f.And? || f.Or?
    ensures r == sb + ToString(f)
    decreases f, 1
  {
    var op := if f.And? then " && " else " || ";
    ghost var a := Wrap(ToString(f.left), NeedsParens(f.left, f));
    ghost var b := Wrap(ToString(f.right), NeedsParens(f.right, f));
    assert ToString(f) == a + op + b;
    r := AppendOperand(f.left, f, sb);
    r := r + op;
    r := AppendOperand(f.right, f, r);
    Regroup(sb, a, op, b);
  }

  lemma Regroup(w: string, x: string, y: string, z: string)
    ensures w + x + y + z == w + (x + y + z)
  {
  }

  /** One operand of parent, bracketed when the rule says so. */
  method AppendOperand(child: Formula, parent: Formula, sb: string) returns (r: string)
    requires child < parent
    ensures r == sb + Wrap(ToString(child), NeedsParens(child, parent))
    decreases parent, 0
  {
    if NeedsParens(child, parent) {
      r := sb + "(";
      r := AppendTo(child, r);
      r := r + ")";
    } else {
      r := AppendTo(child, sb);
    }
  }

  /** equals(): same classes in the same hierarchy with the same variable names. */
  function Equals(a: Formula, b: Formula): (r: bool)
    ensures r <==> a == b
  {
    match a
    case False => b.False?
    case True => b.True?
    case Var(n) => b.Var? && n == b.name
    case Not(g) => b.Not? && Equals(g, b.inner)
    case And(l, r) => b.And? && Equals(l, b.left) && Equals(r, b.right)
    case Or(l, r) => b.Or? && Equals(l, b.left) && Equals(r, b.right)
  }

  /** hashCode(): Negation multiplies the inner hash by 123 and Disjunction
      multiplies the sum of its operands' hashes by 213, both in 32-bit arithmetic.
      The other classes' hash codes come from atomHash. */
  function Hash(f: Formula, atomHash: Formula -> int): (h: int)
    ensures IsInt(h)
  {
    match f
    case Not(g) => NegationHash(Hash(g, atomHash))
    case Or(l, r) => DisjunctionHash(Hash(l, atomHash), Hash(r, atomHash))
    case _ => WrapInt(atomHash(f))
  }

  function NegationHash(inner: int): int {
    WrapInt(inner * 123)
  }

  function DisjunctionHash(left: int, right: int): int {
    WrapInt(WrapInt(left + right) * 213)
  }

  /** Disjunction's hash ignores operand order, although equals does not: two
      different disjunctions collide whenever their operands are swapped. */
  lemma DisjunctionHashSymmetric(a: Formula, b: Formula, atomHash: Formula -> int)
    requires a != b
    ensures !Equals(Or(a, b), Or(b, a))
    ensures Hash(Or(a, b), atomHash) == Hash(Or(b, a), atomHash)
  {
    var ha, hb := Hash(a, atomHash), Hash(b, atomHash);
    assert ha + hb == hb + ha;
    assert DisjunctionHash(ha, hb) == DisjunctionHash(hb, ha);
  }

  /** The variable occurrences of f, left to right. */
  function Occurrences(f: Formula): seq<string>
  {
    match f
    case Var(n) => [n]
    case Not(g) => Occurrences(g)
    case And(l, r) => Occurrences(l) + Occurrences(r)
    case Or(l, r) => Occurrences(l) + Occurrences(r)
    case _ => []
  }

  /** The names of the variables that occur in f. */
  function Vars(f: Formula): set<string>
  {
    match f
    case Var(n) => {n}
    case Not(g) => Vars(g)
    case And(l, r) => Vars(l) + Vars(r)
    case Or(l, r) => Vars(l) + Vars(r)
    case _ => {}
  }

  /** getLiteralSize(): a variable counts 1, a constant 0, and a binary formula the
      sum of its operands, so the result is the number of variable occurrences. */
  function LiteralSize(f: Formula): (n: nat)
    ensures n == |Occurrences(f)|
  {
    match f
    case Var(_) => 1
    case Not(g) => LiteralSize(g)
    case And(l, r) => LiteralSize(l) + LiteralSize(r)
    case Or(l, r) => LiteralSize(l) + LiteralSize(r)
    case _ => 0
  }

  lemma {:induction false} VarsAreOccurrences(f: Formula)
    ensures forall v :: v in Vars(f) <==> v in Occurrences(f)
  {
    match f {
      case Not(g) =>
        VarsAreOccurrences(g);
      case And(l, r) =>
        VarsAreOccurrences(l);
        VarsAreOccurrences(r);
      case Or(l, r) =>
        VarsAreOccurrences(l);
        VarsAreOccurrences(r);
      case _ =>
    }
  }
}
