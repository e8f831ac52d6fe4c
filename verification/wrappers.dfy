/** Option and Result types shared by the model. `Result` carries the
    exception a Python call would raise, as a value. */
module Wrappers {

  datatype Option<+T> = None | Some(value: T)

  datatype Result<+T, +E> = Success(value: T) | Failure(error: E) {
    predicate IsFailure() {
      Failure?
    }

    function PropagateFailure<U>(): Result<U, E>
      requires Failure?
    {
      Failure(error)
    }

    function Extract(): T
      requires Success?
    {
      value
    }
  }

  /** A loop that applies `f` to each element in turn and stops at the
      first failure: success iff every element succeeds, then the results
      in order; otherwise the error of the first element that fails. */
  function TryMap<A, B(==), E(==)>(xs: seq<A>, f: A --> Result<B, E>): (r: Result<seq<B>, E>)
    requires forall j :: 0 <= j < |xs| ==> f.requires(xs[j])
    ensures r.Success? <==> forall j :: 0 <= j < |xs| ==> f(xs[j]).Success?
    ensures r.Success? ==> |r.value| == |xs| && forall j :: 0 <= j < |xs| ==> r.value[j] == f(xs[j]).value
    ensures r.Failure? ==>
      exists j :: 0 <= j < |xs| && f(xs[j]) == Failure(r.error)
                  && forall i :: 0 <= i < j ==> f(xs[i]).Success?
  {
    if |xs| == 0 then Success([])
    else
      var first := f(xs[0]);
      if first.Failure? then Failure(first.error)
      else
        var rest := TryMap(xs[1..], f);
        assert forall j :: 1 <= j < |xs| ==> xs[j] == xs[1..][j - 1];
        if rest.Failure? then
          var j :| 0 <= j < |xs[1..]| && f(xs[1..][j]) == Failure(rest.error)
                   && forall i :: 0 <= i < j ==> f(xs[1..][i]).Success?;
          assert forall i :: 0 <= i < j + 1 ==> f(xs[i]).Success?;
          Failure(rest.error)
        else
          Success([first.value] + rest.value)
  }

  /** A loop that appends the list `f` gives for each element in turn and
      stops at the first failure. */
  function TryConcat<A, B(==), E(==)>(xs: seq<A>, f: A -> Result<seq<B>, E>): (r: Result<seq<B>, E>)
    ensures r.Success? <==> forall j :: 0 <= j < |xs| ==> f(xs[j]).Success?
    ensures r.Failure? ==>
      exists j :: 0 <= j < |xs| && f(xs[j]) == Failure(r.error)
                  && forall i :: 0 <= i < j ==> f(xs[i]).Success?
  {
    if |xs| == 0 then Success([])
    else
      var first := f(xs[0]);
      if first.Failure? then Failure(first.error)
      else
        var rest := TryConcat(xs[1..], f);
        assert forall j :: 1 <= j < |xs| ==> xs[j] == xs[1..][j - 1];
        if rest.Failure? then
          var j :| 0 <= j < |xs[1..]| && f(xs[1..][j]) == Failure(rest.error)
                   && forall i :: 0 <= i < j ==> f(xs[1..][i]).Success?;
          assert forall i :: 0 <= i < j + 1 ==> f(xs[i]).Success?;
          Failure(rest.error)
        else
          Success(first.value + rest.value)
  }

  /** Looping over `xs + ys` is looping over `xs`, then over `ys`. */
  lemma {:induction false} TryConcatAppend<A, B, E>(xs: seq<A>, ys: seq<A>, f: A -> Result<seq<B>, E>)
    ensures TryConcat(xs, f).Failure? ==> TryConcat(xs + ys, f) == Failure(TryConcat(xs, f).error)
    ensures TryConcat(xs, f).Success? && TryConcat(ys, f).Failure? ==>
      TryConcat(xs + ys, f) == Failure(TryConcat(ys, f).error)
    ensures TryConcat(xs, f).Success? && TryConcat(ys, f).Success? ==>
      TryConcat(xs + ys, f) == Success(TryConcat(xs, f).value + TryConcat(ys, f).value)
  {
    if |xs| == 0 {
      assert xs + ys == ys;
      if TryConcat(ys, f).Success? {
        assert [] + TryConcat(ys, f).value == TryConcat(ys, f).value;
      }
    } else {
      assert (xs + ys)[0] == xs[0];
      assert (xs + ys)[1..] == xs[1..] + ys;
      TryConcatAppend(xs[1..], ys, f);
      if f(xs[0]).Success? && TryConcat(xs[1..], f).Success? && TryConcat(ys, f).Success? {
        var first := f(xs[0]).value;
        var rest := TryConcat(xs[1..], f).value;
        var more := TryConcat(ys, f).value;
        assert first + (rest + more) == (first + rest) + more;
      }
    }
  }

  /** Looping over one element is that element's step. */
  lemma TryConcatOne<A, B, E>(x: A, f: A -> Result<seq<B>, E>)
    ensures TryConcat([x], f) == f(x)
  {
    assert [x][1..] == [];
    if f(x).Success? {
      assert f(x).value + [] == f(x).value;
    }
  }
}
