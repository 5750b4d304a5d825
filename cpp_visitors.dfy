/** The three rewriting passes of CppParser that run after the bracket stage: the
    LiteralFinder, the FunctionCallTranslator and the UnaryOperatorFinder. Each visitor
    rewrites the elements of an expression list in place, left to right; here each is
    a recursive method over a local copy of the list, proved equal to a recursive
    function that states the rewrite. */
module CppVisitors {
  import opened Wrappers
  import opened JavaText
  import opened NumberUtils
  import opened CppOperators
  import opened CppAst

  /** A list result with done put in front of it. */
  function Prepend(done: seq<CppExpr>, r: Result<seq<CppExpr>>): Result<seq<CppExpr>> {
    if r.Fail? then r else Ok(done + r.value)
  }

  lemma PrependNothing(r: Result<seq<CppExpr>>)
    ensures Prepend([], r) == r
  {
    if r.Ok? {
      assert [] + r.value == r.value;
    }
  }

  // ---------------------------------------------------------------------------
  // LiteralFinder

  /** The text of a literal once lower-cased and stripped of one "ul", "ull" or "l"
      suffix, tested in that order. */
  function LiteralText(name: string): string {
    StripSuffix(ToLower(name))
  }

  function StripSuffix(lower: string): string {
    if EndsWith(lower, "ul") then lower[..|lower| - 2]
    else if EndsWith(lower, "ull") then lower[..|lower| - 3]
    else if EndsWith(lower, "l") then lower[..|lower| - 1]
    else lower
  }

  /** The value of a digit-led name: it must convert to a Long, otherwise the literal
      cannot be parsed. A Double, even an integral one turned into a Long by
      convertToNumber, counts only through that Long. */
  function LiteralValue(name: string, parseDouble: string -> Option<Double>): (r: Result<int>)
    ensures r.Ok? ==> IsLong(r.value)
    ensures r.Fail? ==> r.exc == ExpressionFormatException
  {
    match ConvertToNumber(LiteralText(name), parseDouble, AsWritten)
    case Some(LongNumber(v)) => Ok(v)
    case _ => Fail(ExpressionFormatException)
  }

  /** visitVariable: a name whose first character is a digit is an integer literal; the
      first character of an empty name does not exist. */
  function LiteralOf(name: string, parseDouble: string -> Option<Double>): (r: Result<CppExpr>)
  {
    if |name| == 0 then Fail(StringIndexOutOfBoundsException)
    else if IsDigit(name[0]) then
      var v :- LiteralValue(name, parseDouble);
      Ok(IntegerLiteral(v))
    else Ok(Variable(name))
  }

  function FindLiterals(e: CppExpr, parseDouble: string -> Option<Double>): Result<CppExpr>
    decreases e
  {
    match e
    case ExpressionList(items) =>
      var xs :- FindLiteralsIn(items, parseDouble);
      Ok(ExpressionList(xs))
    case FunctionCall(name, argument) =>
      if argument.None? then Ok(e)
      else
        var a :- FindLiterals(argument.value, parseDouble);
        Ok(FunctionCall(name, Some(a)))
    case Variable(name) => LiteralOf(name, parseDouble)
    case _ => Ok(e)
  }

  function FindLiteralsIn(items: seq<CppExpr>, parseDouble: string -> Option<Double>): Result<seq<CppExpr>>
    decreases items
  {
    if items == [] then Ok([])
    else
      var x :- FindLiterals(items[0], parseDouble);
      var rest :- FindLiteralsIn(items[1..], parseDouble);
      Ok([x] + rest)
  }

  lemma FindLiteralsInStep(items: seq<CppExpr>, done: seq<CppExpr>, i: nat, parseDouble: string -> Option<Double>)
    requires i < |items|
    requires FindLiterals(items[i], parseDouble).Ok?
    ensures Prepend(done, FindLiteralsIn(items[i..], parseDouble))
         == Prepend(done + [FindLiterals(items[i], parseDouble).value], FindLiteralsIn(items[i + 1..], parseDouble))
  {
    assert items[i..][0] == items[i];
    assert items[i..][1..] == items[i + 1..];
    var rest := FindLiteralsIn(items[i + 1..], parseDouble);
    if rest.Ok? {
      assert done + ([FindLiterals(items[i], parseDouble).value] + rest.value)
          == done + [FindLiterals(items[i], parseDouble).value] + rest.value;
    }
  }

  lemma FindLiteralsInStops(items: seq<CppExpr>, i: nat, parseDouble: string -> Option<Double>)
    requires i < |items|
    requires FindLiterals(items[i], parseDouble).Fail?
    ensures FindLiteralsIn(items[i..], parseDouble) == Fail(FindLiterals(items[i], parseDouble).exc)
  {
    assert items[i..][0] == items[i];
  }

  /** The LiteralFinder visitor. */
  method VisitLiterals(e: CppExpr, parseDouble: string -> Option<Double>) returns (r: Result<CppExpr>)
    ensures r == FindLiterals(e, parseDouble)
    decreases e
  {
    match e {
      case ExpressionList(items) =>
        var list := items;
        var i := 0;
        assert list[..0] == [] && items[0..] == items;
        PrependNothing(FindLiteralsIn(items, parseDouble));
        while i < |list|
          invariant 0 <= i <= |list| == |items|
          invariant list[i..] == items[i..]
          invariant FindLiteralsIn(items, parseDouble) == Prepend(list[..i], FindLiteralsIn(items[i..], parseDouble))
        {
          assert list[i] == items[i];
          var x := VisitLiterals(list[i], parseDouble);
          if x.Fail? {
            FindLiteralsInStops(items, i, parseDouble);
            return Fail(x.exc);
          }
          FindLiteralsInStep(items, list[..i], i, parseDouble);
          list := list[i := x.value];
          assert list[..i + 1] == list[..i] + [x.value];
          assert list[i + 1..] == items[i + 1..];
          i := i + 1;
        }
        assert items[i..] == [] && list[..i] == list && list + [] == list;
        r := Ok(ExpressionList(list));
      case FunctionCall(name, argument) =>
        if argument.None? {
          return Ok(e);
        }
        var a := VisitLiterals(argument.value, parseDouble);
        if a.Fail? {
          return Fail(a.exc);
        }
        r := Ok(FunctionCall(name, Some(a.value)));
      case Variable(name) =>
        r := LiteralOf(name, parseDouble);
      case Operator(_, _, _) =>
        r := Ok(e);
      case IntegerLiteral(_) =>
        r := Ok(e);
    }
  }

  /** No variable is named by a digit-led name. */
  predicate NoNumberNames(e: CppExpr)
    decreases e
  {
    match e
    case ExpressionList(items) => forall k :: 0 <= k < |items| ==> NoNumberNames(items[k])
    case FunctionCall(_, argument) => argument.Some? ==> NoNumberNames(argument.value)
    case Variable(name) => |name| > 0 && !IsDigit(name[0])
    case Operator(_, left, right) =>
      (left.Some? ==> NoNumberNames(left.value)) && (right.Some? ==> NoNumberNames(right.value))
    case IntegerLiteral(_) => true
  }

  /** After a successful LiteralFinder every digit-led name has become a literal. */
  lemma {:induction false} FindLiteralsLeavesNoNumberNames(e: CppExpr, parseDouble: string -> Option<Double>)
    requires BareOperators(e)
    requires FindLiterals(e, parseDouble).Ok?
    ensures NoNumberNames(FindLiterals(e, parseDouble).value)
    decreases e, 1
  {
    match e {
      case ExpressionList(items) =>
        FindLiteralsInLeavesNoNumberNames(items, parseDouble);
      case FunctionCall(_, argument) =>
        if argument.Some? {
          FindLiteralsLeavesNoNumberNames(argument.value, parseDouble);
        }
      case _ =>
    }
  }

  lemma {:induction false} FindLiteralsInLeavesNoNumberNames(items: seq<CppExpr>, parseDouble: string -> Option<Double>)
    requires forall k :: 0 <= k < |items| ==> BareOperators(items[k])
    requires FindLiteralsIn(items, parseDouble).Ok?
    ensures |FindLiteralsIn(items, parseDouble).value| == |items|
    ensures forall k :: 0 <= k < |items| ==> NoNumberNames(FindLiteralsIn(items, parseDouble).value[k])
    decreases items, 0
  {
    if items != [] {
      FindLiteralsLeavesNoNumberNames(items[0], parseDouble);
      FindLiteralsInLeavesNoNumberNames(items[1..], parseDouble);
    }
  }

  lemma LowerAppend(text: string, suffix: string)
    requires NoCapitals(text)
    ensures ToLower(text + suffix) == text + ToLower(suffix)
  {
    var lower := ToLower(text + suffix);
    assert forall k :: 0 <= k < |lower| ==> lower[k] == (text + ToLower(suffix))[k];
  }

  /** Stripping a suffix off a text that ends in neither 'l' nor 'u' leaves the text. */
  lemma StripAddedSuffix(text: string, suffix: string)
    requires |text| >= 1 && text[|text| - 1] != 'l' && text[|text| - 1] != 'u'
    requires suffix == "" || suffix == "l" || suffix == "ul" || suffix == "ull"
    ensures StripSuffix(text + suffix) == text
  {
    var lower := text + suffix;
    var n := |lower|;
    if suffix == "" {
      assert lower == text;
      assert !EndsWith(lower, "ul") && !EndsWith(lower, "ull") && !EndsWith(lower, "l") by {
        assert lower[n - 1] == text[|text| - 1];
      }
    } else if suffix == "l" {
      assert lower[n - 1] == 'l' && lower[n - 2] == text[|text| - 1];
      assert !EndsWith(lower, "ul") && !EndsWith(lower, "ull");
      assert lower[n - 1..] == "l";
      assert lower[..n - 1] == text;
    } else if suffix == "ul" {
      assert lower[n - 2..] == "ul";
      assert lower[..n - 2] == text;
    } else {
      assert lower[n - 1] == 'l' && lower[n - 2] == 'l';
      assert !EndsWith(lower, "ul");
      assert lower[n - 3..] == "ull";
      assert lower[..n - 3] == text;
    }
  }

  /** A spelling of one of the suffixes l, ul and ull, or none. */
  predicate LongSuffix(suffix: string) {
    var lower := ToLower(suffix);
    lower == "" || lower == "l" || lower == "ul" || lower == "ull"
  }

  /** The decimal text of a long, followed by a suffix, is the literal of that long. */
  lemma DecimalLiteral(n: nat, suffix: string, parseDouble: string -> Option<Double>)
    requires n <= LONG_MAX && LongSuffix(suffix)
    ensures LiteralValue(NatToDigits(n) + suffix, parseDouble) == Ok(n)
  {
    var digits := NatToDigits(n);
    assert IsDigit(digits[|digits| - 1]);
    LowerAppend(digits, suffix);
    StripAddedSuffix(digits, ToLower(suffix));
    ConvertDigitsRoundTrip(n, parseDouble, AsWritten);
  }

  /** "0x" and the hexadecimal digits of a non-negative long, followed by a suffix,
      is the literal of that long. */
  lemma HexLiteral(n: nat, suffix: string, parseDouble: string -> Option<Double>)
    requires n <= LONG_MAX && LongSuffix(suffix)
    ensures LiteralValue("0x" + NatToRadix(n, 16) + suffix, parseDouble) == Ok(n)
  {
    var digits := NatToRadix(n, 16);
    var text := "0x" + digits;
    assert NoCapitals(text) by {
      RadixLowerCase(n, 16);
      assert forall k :: 2 <= k < |text| ==> text[k] == digits[k - 2];
    }
    assert text[|text| - 1] == digits[|digits| - 1];
    assert CharDigit(digits[|digits| - 1], 16) >= 0;
    LowerAppend(text, suffix);
    StripAddedSuffix(text, ToLower(suffix));
    ConvertHexRoundTrip(n, parseDouble, AsWritten);
  }

  // ---------------------------------------------------------------------------
  // FunctionCallTranslator

  /** A call's argument: the single element of a one-element list, nothing for an
      empty list, and the list itself otherwise. */
  function Argument(list: CppExpr): Option<CppExpr> {
    if list.ExpressionList? && |list.items| == 1 then Some(list.items[0])
    else if list.ExpressionList? && |list.items| == 0 then None
    else Some(list)
  }

  /** The translator meets no calls; one would be an internal error. */
  function TranslateCalls(e: CppExpr): (r: Result<CppExpr>)
    ensures r.Ok? && e.ExpressionList? ==> r.value.ExpressionList?
    decreases e
  {
    match e
    case ExpressionList(items) =>
      var xs :- TranslateCallsIn(items);
      Ok(ExpressionList(xs))
    case FunctionCall(_, _) => Fail(ExpressionFormatException)
    case _ => Ok(e)
  }

  /** A name followed by a list is a call of that list, and the element after the call
      is passed over unvisited; "defined" followed by a name is a call of that name;
      every other element is visited. */
  function TranslateCallsIn(items: seq<CppExpr>): Result<seq<CppExpr>>
    decreases items
  {
    if items == [] then Ok([])
    else if items[0].Variable? && |items| >= 2 && items[1].ExpressionList? then
      var arg :- TranslateCalls(items[1]);
      var call := FunctionCall(items[0].name, Argument(arg));
      if |items| == 2 then Ok([call])
      else Prepend([call, items[2]], TranslateCallsIn(items[3..]))
    else if items[0] == Variable("defined") && |items| >= 2 && items[1].Variable? then
      Prepend([FunctionCall("defined", Some(items[1]))], TranslateCallsIn(items[2..]))
    else
      var x :- TranslateCalls(items[0]);
      Prepend([x], TranslateCallsIn(items[1..]))
  }

  lemma SuffixDrop(items: seq<CppExpr>, j: nat, n: nat)
    requires j + n <= |items|
    ensures items[j..][n..] == items[j + n..]
  {
  }

  lemma PrependPrepend(done: seq<CppExpr>, xs: seq<CppExpr>, r: Result<seq<CppExpr>>)
    ensures Prepend(done, Prepend(xs, r)) == Prepend(done + xs, r)
  {
    if r.Ok? {
      assert done + (xs + r.value) == done + xs + r.value;
    }
  }

  /** A name followed by a list at the front of rest. */
  predicate CallAhead(rest: seq<CppExpr>) {
    |rest| >= 2 && rest[0].Variable? && rest[1].ExpressionList?
  }

  /** "defined" followed by a name at the front of rest. */
  predicate DefinedAhead(rest: seq<CppExpr>) {
    |rest| >= 2 && rest[0] == Variable("defined") && rest[1].Variable?
  }

  lemma CallsOfCall(done: seq<CppExpr>, rest: seq<CppExpr>, arg: CppExpr)
    requires CallAhead(rest) && TranslateCalls(rest[1]) == Ok(arg)
    ensures Prepend(done, TranslateCallsIn(rest)) ==
      if |rest| == 2 then Ok(done + [FunctionCall(rest[0].name, Argument(arg))])
      else Prepend(done + [FunctionCall(rest[0].name, Argument(arg)), rest[2]], TranslateCallsIn(rest[3..]))
  {
    if |rest| > 2 {
      PrependPrepend(done, [FunctionCall(rest[0].name, Argument(arg)), rest[2]], TranslateCallsIn(rest[3..]));
    }
  }

  lemma CallsOfDefined(done: seq<CppExpr>, rest: seq<CppExpr>)
    requires !CallAhead(rest) && DefinedAhead(rest)
    ensures Prepend(done, TranslateCallsIn(rest)) ==
      Prepend(done + [FunctionCall("defined", Some(rest[1]))], TranslateCallsIn(rest[2..]))
  {
    PrependPrepend(done, [FunctionCall("defined", Some(rest[1]))], TranslateCallsIn(rest[2..]));
  }

  lemma CallsOfOther(done: seq<CppExpr>, rest: seq<CppExpr>, x: CppExpr)
    requires rest != [] && !CallAhead(rest) && !DefinedAhead(rest) && TranslateCalls(rest[0]) == Ok(x)
    ensures Prepend(done, TranslateCallsIn(rest)) == Prepend(done + [x], TranslateCallsIn(rest[1..]))
  {
    PrependPrepend(done, [x], TranslateCallsIn(rest[1..]));
  }

  lemma CallsFail(done: seq<CppExpr>, rest: seq<CppExpr>)
    requires rest != []
    requires if CallAhead(rest) then TranslateCalls(rest[1]).Fail?
             else !DefinedAhead(rest) && TranslateCalls(rest[0]).Fail?
    ensures Prepend(done, TranslateCallsIn(rest)) ==
      Fail(if CallAhead(rest) then TranslateCalls(rest[1]).exc else TranslateCalls(rest[0]).exc)
  {
  }

  /** The FunctionCallTranslator visitor. The list being rewritten is done + rest: the
      elements before the index are in done, the ones from the index on in rest;
      replacing a name and its list by a call and stepping over the element after it
      moves all three to done. */
  method VisitCalls(e: CppExpr) returns (r: Result<CppExpr>)
    ensures r == TranslateCalls(e)
    decreases e
  {
    match e {
      case ExpressionList(items) =>
        var done: seq<CppExpr> := [];
        var rest := items;
        ghost var j: nat := 0;
        PrependNothing(TranslateCallsIn(items));
        while rest != []
          invariant j <= |items| && rest == items[j..]
          invariant TranslateCallsIn(items) == Prepend(done, TranslateCallsIn(rest))
          decreases |rest|
        {
          var current := rest[0];
          assert current == items[j];
          var found := false;
          if current.Variable? && 1 < |rest| {
            var next := rest[1];
            if next.ExpressionList? {
              found := true;
              assert next == items[j + 1];
              var arg := VisitCalls(next);
              if arg.Fail? {
                CallsFail(done, rest);
                return Fail(arg.exc);
              }
              var call := FunctionCall(current.name, Argument(arg.value));
              CallsOfCall(done, rest, arg.value);
              if |rest| == 2 {
                done := done + [call];
                rest := [];
                j := |items|;
                assert done + [] == done;
              } else {
                SuffixDrop(items, j, 3);
                done := done + [call, rest[2]];
                rest := rest[3..];
                j := j + 3;
              }
            } else if current.name == "defined" && next.Variable? {
              found := true;
              CallsOfDefined(done, rest);
              SuffixDrop(items, j, 2);
              done := done + [FunctionCall("defined", Some(next))];
              rest := rest[2..];
              j := j + 2;
            }
          }
          if !found {
            var x := VisitCalls(current);
            if x.Fail? {
              CallsFail(done, rest);
              return Fail(x.exc);
            }
            CallsOfOther(done, rest, x.value);
            SuffixDrop(items, j, 1);
            done := done + [x.value];
            rest := rest[1..];
            j := j + 1;
          }
        }
        assert done + [] == done;
        r := Ok(ExpressionList(done));
      case FunctionCall(_, _) =>
        r := Fail(ExpressionFormatException);
      case Variable(_) =>
        r := Ok(e);
      case Operator(_, _, _) =>
        r := Ok(e);
      case IntegerLiteral(_) =>
        r := Ok(e);
    }
  }

  /** The names of variables and calls, left to right. */
  function Names(e: CppExpr): seq<string>
    decreases e
  {
    match e
    case ExpressionList(items) => NamesOf(items)
    case FunctionCall(name, argument) => [name] + (if argument.Some? then Names(argument.value) else [])
    case Variable(name) => [name]
    case Operator(_, left, right) =>
      (if left.Some? then Names(left.value) else []) + (if right.Some? then Names(right.value) else [])
    case IntegerLiteral(_) => []
  }

  function NamesOf(items: seq<CppExpr>): seq<string>
    decreases items
  {
    if items == [] then [] else Names(items[0]) + NamesOf(items[1..])
  }

  lemma NamesOfCons(items: seq<CppExpr>)
    requires items != []
    ensures NamesOf(items) == Names(items[0]) + NamesOf(items[1..])
    ensures OperatorsOf(items) == OperatorsIn(items[0]) + OperatorsOf(items[1..])
  {
  }

  /** Unpacking an argument list keeps its names and operators. */
  lemma ArgumentKeeps(xs: seq<CppExpr>)
    ensures var a := Argument(ExpressionList(xs));
      (if a.Some? then Names(a.value) else []) == NamesOf(xs) &&
      (if a.Some? then OperatorsIn(a.value) else multiset{}) == OperatorsOf(xs)
  {
    if |xs| == 1 {
      assert xs[1..] == [];
    }
  }

  /** The translator keeps every name, in order, and every operator: a name and its
      list become a call of that name with the list's contents. */
  lemma {:induction false} TranslateKeeps(e: CppExpr)
    requires TranslateCalls(e).Ok?
    ensures Names(TranslateCalls(e).value) == Names(e)
    ensures OperatorsIn(TranslateCalls(e).value) == OperatorsIn(e)
    decreases e, 1
  {
    if e.ExpressionList? {
      TranslateInKeeps(e.items);
    }
  }

  lemma {:induction false} TranslateInKeeps(items: seq<CppExpr>)
    requires TranslateCallsIn(items).Ok?
    ensures NamesOf(TranslateCallsIn(items).value) == NamesOf(items)
    ensures OperatorsOf(TranslateCallsIn(items).value) == OperatorsOf(items)
    decreases items, 0
  {
    if items == [] {
    } else if CallAhead(items) {
      var arg := TranslateCalls(items[1]).value;
      TranslateKeeps(items[1]);
      var call := FunctionCall(items[0].name, Argument(arg));
      if |items| == 2 {
        assert TranslateCallsIn(items).value == [call];
        KeepsCall(items, arg, []);
      } else {
        TranslateInKeeps(items[3..]);
        var tail := TranslateCallsIn(items[3..]).value;
        assert TranslateCallsIn(items).value == [call, items[2]] + tail;
        KeepsCall(items, arg, tail);
      }
    } else if DefinedAhead(items) {
      TranslateInKeeps(items[2..]);
      var tail := TranslateCallsIn(items[2..]).value;
      assert TranslateCallsIn(items).value == [FunctionCall("defined", Some(items[1]))] + tail;
      KeepsDefined(items, tail);
    } else {
      TranslateKeeps(items[0]);
      TranslateInKeeps(items[1..]);
      var tail := TranslateCallsIn(items[1..]).value;
      assert TranslateCallsIn(items).value == [TranslateCalls(items[0]).value] + tail;
      KeepsOther(items, TranslateCalls(items[0]).value, tail);
    }
  }

  /** A call made of a name and its translated list has the names and operators of
      the two. */
  lemma CallKeeps(name: string, list: CppExpr, arg: CppExpr)
    requires list.ExpressionList? && arg.ExpressionList?
    requires Names(arg) == Names(list) && OperatorsIn(arg) == OperatorsIn(list)
    ensures Names(FunctionCall(name, Argument(arg))) == [name] + Names(list)
    ensures OperatorsIn(FunctionCall(name, Argument(arg))) == OperatorsIn(list)
  {
    ArgumentKeeps(arg.items);
  }

  lemma KeepsCall(items: seq<CppExpr>, arg: CppExpr, tail: seq<CppExpr>)
    requires CallAhead(items) && arg.ExpressionList?
    requires Names(arg) == Names(items[1]) && OperatorsIn(arg) == OperatorsIn(items[1])
    requires |items| == 2 ==> tail == []
    requires |items| > 2 ==> NamesOf(tail) == NamesOf(items[3..]) && OperatorsOf(tail) == OperatorsOf(items[3..])
    ensures var call := FunctionCall(items[0].name, Argument(arg));
      var result := if |items| == 2 then [call] else [call, items[2]] + tail;
      NamesOf(result) == NamesOf(items) && OperatorsOf(result) == OperatorsOf(items)
  {
    var call := FunctionCall(items[0].name, Argument(arg));
    CallKeeps(items[0].name, items[1], arg);
    var more := if |items| == 2 then [] else [items[2]] + tail;
    if |items| > 2 {
      KeepsOther(items[2..], items[2], tail);
      assert items[2..][1..] == items[3..];
    } else {
      assert items[2..] == [];
    }
    NamesOfCons(items);
    NamesOfCons(items[1..]);
    assert items[1..][1..] == items[2..];
    var result := [call] + more;
    NamesOfCons(result);
    assert result[1..] == more;
    assert result == if |items| == 2 then [call] else [call, items[2]] + tail;
    assert NamesOf(result) == ([items[0].name] + Names(items[1])) + NamesOf(items[2..]);
  }

  lemma KeepsDefined(items: seq<CppExpr>, tail: seq<CppExpr>)
    requires DefinedAhead(items)
    requires NamesOf(tail) == NamesOf(items[2..]) && OperatorsOf(tail) == OperatorsOf(items[2..])
    ensures var result := [FunctionCall("defined", Some(items[1]))] + tail;
      NamesOf(result) == NamesOf(items) && OperatorsOf(result) == OperatorsOf(items)
  {
    var result := [FunctionCall("defined", Some(items[1]))] + tail;
    NamesOfCons(items);
    NamesOfCons(items[1..]);
    assert items[1..][0] == items[1] && items[1..][1..] == items[2..];
    NamesOfCons(result);
    assert result[1..] == tail;
  }

  lemma KeepsOther(items: seq<CppExpr>, x: CppExpr, tail: seq<CppExpr>)
    requires items != []
    requires Names(x) == Names(items[0]) && OperatorsIn(x) == OperatorsIn(items[0])
    requires NamesOf(tail) == NamesOf(items[1..]) && OperatorsOf(tail) == OperatorsOf(items[1..])
    ensures NamesOf([x] + tail) == NamesOf(items) && OperatorsOf([x] + tail) == OperatorsOf(items)
  {
    NamesOfCons(items);
    NamesOfCons([x] + tail);
    assert ([x] + tail)[1..] == tail;
  }

  // ---------------------------------------------------------------------------
  // UnaryOperatorFinder

  function UnaryForm(op: CppOperator): (r: CppOperator)
    ensures IsUnary(r) <==> IsUnary(op) || op == IntAdd || op == IntSub
    ensures LexedForm(r) == LexedForm(op)
  {
    if op == IntAdd then IntAddUnary else if op == IntSub then IntSubUnary else op
  }

  /** A + or - standing first in its list, or right after another operator, is unary. */
  function Mark(x: CppExpr, unaryPlace: bool): (r: CppExpr)
    requires x.Operator?
  {
    if unaryPlace && (x.op == IntAdd || x.op == IntSub) then x.(op := UnaryForm(x.op)) else x
  }

  function FindUnary(e: CppExpr): (r: CppExpr)
    ensures r.Operator? <==> e.Operator?
    decreases e
  {
    match e
    case ExpressionList(items) => ExpressionList(FindUnaryIn(items, true))
    case FunctionCall(name, argument) =>
      FunctionCall(name, if argument.Some? then Some(FindUnary(argument.value)) else None)
    case _ => e
  }

  /** unaryPlace: the list starts here, or the element before is an operator. */
  function FindUnaryIn(items: seq<CppExpr>, unaryPlace: bool): (r: seq<CppExpr>)
    ensures |r| == |items|
    decreases items
  {
    if items == [] then []
    else
      var y := if items[0].Operator? then Mark(items[0], unaryPlace) else FindUnary(items[0]);
      [y] + FindUnaryIn(items[1..], items[0].Operator?)
  }

  lemma FindUnaryInStep(whole: seq<CppExpr>, items: seq<CppExpr>, list: seq<CppExpr>, i: nat, y: CppExpr)
    requires i < |items| == |list| && list[i..] == items[i..]
    requires whole == list[..i] + FindUnaryIn(items[i..], i == 0 || items[i - 1].Operator?)
    requires y == (if items[i].Operator? then Mark(items[i], i == 0 || items[i - 1].Operator?) else FindUnary(items[i]))
    ensures list[i := y][i + 1..] == items[i + 1..]
    ensures whole == list[i := y][..i + 1] + FindUnaryIn(items[i + 1..], items[i].Operator?)
  {
    var suffix := items[i..];
    assert suffix[0] == items[i];
    assert suffix[1..] == items[i + 1..];
    var tail := FindUnaryIn(items[i + 1..], items[i].Operator?);
    assert FindUnaryIn(suffix, i == 0 || items[i - 1].Operator?) == [y] + tail;
    assert list[i := y][..i + 1] == list[..i] + [y];
    assert list[..i] + ([y] + tail) == list[..i] + [y] + tail;
  }

  /** The UnaryOperatorFinder visitor; the accept of an operator returns it unchanged,
      so an operator, marked or not, is stored back as it is. */
  method VisitUnary(e: CppExpr) returns (r: CppExpr)
    ensures r == FindUnary(e)
    decreases e
  {
    match e {
      case ExpressionList(items) =>
        var list := items;
        var i := 0;
        assert list[..0] == [] && items[0..] == items;
        while i < |list|
          invariant 0 <= i <= |list| == |items|
          invariant list[i..] == items[i..]
          invariant i > 0 ==> (list[i - 1].Operator? <==> items[i - 1].Operator?)
          invariant FindUnaryIn(items, true) == list[..i] + FindUnaryIn(items[i..], i == 0 || items[i - 1].Operator?)
        {
          var current := list[i];
          assert current == items[i];
          var unaryPlace := i == 0 || list[i - 1].Operator?;
          if current.Operator? {
            if (current.op == IntAdd || current.op == IntSub) && unaryPlace {
              current := current.(op := UnaryForm(current.op));
            }
          } else {
            current := VisitUnary(current);
          }
          FindUnaryInStep(FindUnaryIn(items, true), items, list, i, current);
          list := list[i := current];
          i := i + 1;
        }
        assert items[i..] == [] && list[..i] == list;
        r := ExpressionList(list);
      case FunctionCall(name, argument) =>
        if argument.None? {
          return e;
        }
        var a := VisitUnary(argument.value);
        r := FunctionCall(name, Some(a));
      case Variable(_) =>
        r := e;
      case Operator(_, _, _) =>
        r := e;
      case IntegerLiteral(_) =>
        r := e;
    }
  }

  /** Element k of a list after the unary pass: an operator is marked unary when it is
      + or - and stands first or right after another operator, and every other
      element has been visited. */
  function UnaryElement(items: seq<CppExpr>, k: nat, unaryPlace: bool): CppExpr
    requires k < |items|
  {
    var place := if k == 0 then unaryPlace else items[k - 1].Operator?;
    if items[k].Operator? then Mark(items[k], place) else FindUnary(items[k])
  }

  lemma {:induction false} FindUnaryInElements(items: seq<CppExpr>, unaryPlace: bool)
    ensures forall k :: 0 <= k < |items| ==> FindUnaryIn(items, unaryPlace)[k] == UnaryElement(items, k, unaryPlace)
    decreases |items|
  {
    if items != [] {
      var tail := FindUnaryIn(items[1..], items[0].Operator?);
      FindUnaryInElements(items[1..], items[0].Operator?);
      forall k | 0 <= k < |items|
        ensures FindUnaryIn(items, unaryPlace)[k] == UnaryElement(items, k, unaryPlace)
      {
        if k > 0 {
          assert FindUnaryIn(items, unaryPlace)[k] == tail[k - 1];
          assert items[1..][k - 1] == items[k];
          if k > 1 {
            assert items[1..][k - 2] == items[k - 1];
          }
        }
      }
    }
  }

  /** In a list after the unary pass, an operator is unary exactly when it was, or it
      is a + or - that stands first or right after another operator. */
  lemma UnaryPlaces(items: seq<CppExpr>, k: nat)
    requires k < |items| && items[k].Operator?
    ensures FindUnary(ExpressionList(items)).items[k].Operator?
    ensures IsUnary(FindUnary(ExpressionList(items)).items[k].op) <==>
      IsUnary(items[k].op) || ((items[k].op == IntAdd || items[k].op == IntSub) && (k == 0 || items[k - 1].Operator?))
  {
    FindUnaryInElements(items, true);
  }
}
