/** Failure-carrying datatypes shared by the modules of the collection model. */
module Wrappers {

  /** A value that may be absent: Python's `None` or a missing entry. */
  datatype Option<+T> = None | Some(value: T)

  /** The outcome of a computation that may raise: `Failure` stands for an
      exception that escapes the operation. */
  datatype Result<+R, +E> = Success(value: R) | Failure(error: E)

  /** Applies `f` to the elements of `xs` from position `from` on, in
      order, collecting the results; the first failure ends the walk and
      is the outcome. */
  function MapWithResultFrom<X, Y, E>(f: X -> Result<Y, E>, xs: seq<X>, from: nat): Result<seq<Y>, E>
    requires from <= |xs|
    decreases |xs| - from
  {
    if from == |xs| then Success([])
    else
      match f(xs[from])
      case Failure(e) => Failure(e)
      case Success(y) =>
        match MapWithResultFrom(f, xs, from + 1)
        case Failure(e) => Failure(e)
        case Success(ys) => Success([y] + ys)
  }

  function MapWithResult<X, Y, E>(f: X -> Result<Y, E>, xs: seq<X>): Result<seq<Y>, E> {
    MapWithResultFrom(f, xs, 0)
  }

  /** A successful walk has one result per element, each the element's
      own. */
  lemma {:induction false} MapWithResultSuccess<X, Y, E>(f: X -> Result<Y, E>, xs: seq<X>, from: nat)
    requires from <= |xs|
    requires MapWithResultFrom(f, xs, from).Success?
    ensures |MapWithResultFrom(f, xs, from).value| == |xs| - from
    ensures forall i :: from <= i < |xs| ==> f(xs[i]) == Success(MapWithResultFrom(f, xs, from).value[i - from])
    decreases |xs| - from
  {
    if from < |xs| {
      MapWithResultSuccess(f, xs, from + 1);
      var r := MapWithResultFrom(f, xs, from).value;
      var rest := MapWithResultFrom(f, xs, from + 1).value;
      assert r == [r[0]] + rest;
    }
  }

  /** The i-th result of a successful walk is the i-th element's. */
  lemma MapWithResultAt<X, Y, E>(f: X -> Result<Y, E>, xs: seq<X>, i: nat)
    requires i < |xs|
    requires MapWithResult(f, xs).Success?
    ensures i < |MapWithResult(f, xs).value| && f(xs[i]) == Success(MapWithResult(f, xs).value[i])
  {
    MapWithResultSuccess(f, xs, 0);
  }

  /** A successful walk has one result per element. */
  lemma MapWithResultLength<X, Y, E>(f: X -> Result<Y, E>, xs: seq<X>)
    requires MapWithResult(f, xs).Success?
    ensures |MapWithResult(f, xs).value| == |xs|
  {
    MapWithResultSuccess(f, xs, 0);
  }

  /** The whole walk fails exactly when some element fails. */
  lemma MapWithResultFails<X, Y, E>(f: X -> Result<Y, E>, xs: seq<X>)
    ensures MapWithResult(f, xs).Failure? <==> exists i :: 0 <= i < |xs| && f(xs[i]).Failure?
  {
    MapWithResultFailure(f, xs, 0);
  }

  /** The walk fails exactly when some element fails, and then with the
      error of the first one that does. */
  lemma {:induction false} MapWithResultFailure<X, Y, E>(f: X -> Result<Y, E>, xs: seq<X>, from: nat)
    requires from <= |xs|
    ensures MapWithResultFrom(f, xs, from).Failure? <==> exists i :: from <= i < |xs| && f(xs[i]).Failure?
    ensures MapWithResultFrom(f, xs, from).Failure? ==>
              exists i :: from <= i < |xs| && f(xs[i]) == Failure(MapWithResultFrom(f, xs, from).error)
                          && forall j :: from <= j < i ==> f(xs[j]).Success?
    decreases |xs| - from
  {
    if from < |xs| {
      MapWithResultFailure(f, xs, from + 1);
      if f(xs[from]).Success? && MapWithResultFrom(f, xs, from).Failure? {
        var i :| from + 1 <= i < |xs| && f(xs[i]) == Failure(MapWithResultFrom(f, xs, from + 1).error)
                 && forall j :: from + 1 <= j < i ==> f(xs[j]).Success?;
        assert forall j :: from <= j < i ==> f(xs[j]).Success?;
      }
    }
  }
}
