/** Failure-compatible wrappers shared by every module: Option for Java's nullable
    results and Result for methods that may throw one of the source's exceptions. */
module Wrappers {

  datatype Option<+T> = None | Some(value: T) {
    predicate IsFailure() { None? }

    function PropagateFailure<U>(): Option<U>
      requires None?
    {
      None
    }

    function Extract(): T
      requires Some?
    {
      value
    }
  }

  /** The Java exceptions the modelled code throws (or lets escape). */
  datatype Exception =
    | FormatException
    | ExpressionFormatException
    | SetUpException
    | IOException
    | IllegalStateException
    | IllegalArgumentException
    | IndexOutOfBoundsException
    | ArrayIndexOutOfBoundsException
    | StringIndexOutOfBoundsException
    | EmptyStackException
    | NullPointerException
    | NumberFormatException
    | RuntimeException
    | ClassCastException

  datatype Result<+T> = Ok(value: T) | Fail(exc: Exception) {
    predicate IsFailure() { Fail? }

    function PropagateFailure<U>(): Result<U>
      requires Fail?
    {
      Fail(exc)
    }

    function Extract(): T
      requires Ok?
    {
      value
    }

    /** The outcome of a call whose value is not used. */
    function Discard(): Result<()>
    {
      if Ok? then Ok(()) else Fail(exc)
    }
  }

  // ---------------------------------------------------------------------------
  // Mapping a sequence through a function that may fail

  /** f applied to every element in order, stopping at the first failure. */
  function MapAll<T, U>(xs: seq<T>, f: T -> Result<U>): (r: Result<seq<U>>)
    ensures r.Ok? ==> |r.value| == |xs|
    ensures r.Fail? ==> exists k :: 0 <= k < |xs| && f(xs[k]) == Fail(r.exc)
  {
    if xs == [] then Ok([])
    else
      var first :- f(xs[0]);
      var rest :- MapAll(xs[1..], f);
      Ok([first] + rest)
  }

  lemma {:induction false} MapAllAppend<T, U>(xs: seq<T>, x: T, f: T -> Result<U>)
    requires MapAll(xs, f).Ok?
    ensures MapAll(xs + [x], f) == if f(x).Ok? then Ok(MapAll(xs, f).value + [f(x).value]) else Fail(f(x).exc)
  {
    if xs == [] {
      assert xs + [x] == [x];
      assert [x][1..] == [];
      if f(x).Ok? {
        assert [f(x).value] + [] == [] + [f(x).value];
      }
    } else {
      assert (xs + [x])[1..] == xs[1..] + [x];
      MapAllAppend(xs[1..], x, f);
      var first := f(xs[0]).value;
      var rest := MapAll(xs[1..], f).value;
      if f(x).Ok? {
        assert [first] + (rest + [f(x).value]) == ([first] + rest) + [f(x).value];
      }
    }
  }

  lemma {:induction false} MapAllFailed<T, U>(xs: seq<T>, ys: seq<T>, f: T -> Result<U>)
    requires MapAll(xs, f).Fail?
    ensures MapAll(xs + ys, f) == MapAll(xs, f)
  {
    assert xs != [];
    assert (xs + ys)[1..] == xs[1..] + ys;
    assert (xs + ys)[0] == xs[0];
    if f(xs[0]).Ok? {
      MapAllFailed(xs[1..], ys, f);
    }
  }

  /** When f succeeds on every element, MapAll collects the results in order. */
  lemma {:induction false} MapAllOk<T, U>(xs: seq<T>, f: T -> Result<U>, ys: seq<U>)
    requires |xs| == |ys| && forall k :: 0 <= k < |xs| ==> f(xs[k]) == Ok(ys[k])
    ensures MapAll(xs, f) == Ok(ys)
    decreases |xs|
  {
    if xs != [] {
      MapAllOk(xs[1..], f, ys[1..]);
      assert ys == [ys[0]] + ys[1..];
    }
  }

  lemma SliceStep<T>(s: seq<T>, i: nat)
    requires i < |s|
    ensures s[..i + 1] == s[..i] + [s[i]]
    ensures s[..i + 1] + s[i + 1..] == s
  {
  }

  /** One more element of a prefix mapped by MapAll: a failure there is the failure
      of the whole sequence. */
  lemma MapAllPrefixStep<T, U>(xs: seq<T>, i: nat, f: T -> Result<U>, done: seq<U>)
    requires i < |xs| && MapAll(xs[..i], f) == Ok(done)
    ensures f(xs[i]).Fail? ==> MapAll(xs, f) == Fail(f(xs[i]).exc)
    ensures f(xs[i]).Ok? ==> MapAll(xs[..i + 1], f) == Ok(done + [f(xs[i]).value])
  {
    MapAllAppend(xs[..i], xs[i], f);
    SliceStep(xs, i);
    if f(xs[i]).Fail? {
      MapAllFailed(xs[..i + 1], xs[i + 1..], f);
    }
  }
}
