/** Option and Result, the model's stand-ins for Python's None and for raised exceptions, and the loop that raises. */
module Wrappers {

  datatype Option<+T> = None | Some(value: T)

  datatype Result<+T, +E> = Success(value: T) | Failure(error: E)

  /** Python's `a or b` on optional values: the first one that is present. */
  function OrElse<T>(a: Option<T>, b: Option<T>): Option<T> {
    if a.Some? then a else b
  }

  /**
    A loop that appends f(x) for each x in order and lets the first
    exception escape: all the results, or the first failure.
  */
  function Gather<A, B, E>(xs: seq<A>, f: A -> Result<B, E>): (r: Result<seq<B>, E>) {
    if xs == [] then Success([])
    else
      var n := |xs| - 1;
      match Gather(xs[..n], f)
      case Failure(e) => Failure(e)
      case Success(ys) =>
        match f(xs[n])
        case Failure(e) => Failure(e)
        case Success(y) => Success(ys + [y])
  }

  /** The loop completes exactly when no element fails. */
  lemma {:induction false} GatherSucceeds<A, B, E>(xs: seq<A>, f: A -> Result<B, E>)
    ensures Gather(xs, f).Success? <==> forall j :: 0 <= j < |xs| ==> f(xs[j]).Success?
    decreases |xs|
  {
    if xs != [] {
      var n := |xs| - 1;
      GatherSucceeds(xs[..n], f);
      assert forall j :: 0 <= j < n ==> xs[..n][j] == xs[j];
    }
  }

  /** When the loop completes it holds one result per element, in order. */
  lemma {:induction false} GatherValues<A, B, E>(xs: seq<A>, f: A -> Result<B, E>)
    ensures Gather(xs, f).Success? ==>
      |Gather(xs, f).value| == |xs| &&
      forall j :: 0 <= j < |xs| ==> f(xs[j]) == Success(Gather(xs, f).value[j])
    decreases |xs|
  {
    if xs != [] {
      var n := |xs| - 1;
      GatherValues(xs[..n], f);
      assert forall j :: 0 <= j < n ==> xs[..n][j] == xs[j];
    }
  }

  /** When the loop fails it raises the failure of the first element that fails. */
  lemma {:induction false} GatherFirstError<A, B, E>(xs: seq<A>, f: A -> Result<B, E>)
    ensures Gather(xs, f).Failure? ==>
      exists j :: 0 <= j < |xs| && f(xs[j]) == Failure(Gather(xs, f).error) &&
        forall i :: 0 <= i < j ==> f(xs[i]).Success?
    decreases |xs|
  {
    if xs != [] {
      var n := |xs| - 1;
      GatherFirstError(xs[..n], f);
      GatherSucceeds(xs[..n], f);
      assert forall j :: 0 <= j < n ==> xs[..n][j] == xs[j];
    }
  }

  /** A failure among the first n elements is the failure of the whole loop. */
  lemma {:induction false} GatherSticky<A, B, E>(xs: seq<A>, f: A -> Result<B, E>, n: nat)
    requires n <= |xs|
    requires Gather(xs[..n], f).Failure?
    ensures Gather(xs, f) == Gather(xs[..n], f)
    decreases |xs| - n
  {
    if n == |xs| {
      assert xs[..n] == xs;
    } else {
      var k := |xs| - 1;
      assert xs[..k][..n] == xs[..n];
      GatherSticky(xs[..k], f, n);
    }
  }

  /** One more element that succeeds extends the results. */
  lemma GatherExtend<A, B, E>(xs: seq<A>, f: A -> Result<B, E>, n: nat, ys: seq<B>, y: B)
    requires n < |xs|
    requires Gather(xs[..n], f) == Success(ys) && f(xs[n]) == Success(y)
    ensures Gather(xs[..n + 1], f) == Success(ys + [y])
  {
    assert xs[..n + 1][..n] == xs[..n];
  }

  /** The first element that fails ends the whole loop with its failure. */
  lemma GatherStops<A, B, E>(xs: seq<A>, f: A -> Result<B, E>, n: nat)
    requires n < |xs|
    requires Gather(xs[..n], f).Success? && f(xs[n]).Failure?
    ensures Gather(xs, f) == Failure(f(xs[n]).error)
  {
    assert xs[..n + 1][..n] == xs[..n];
    GatherSticky(xs, f, n + 1);
  }
  /**
    How many elements the loop runs: all of them when no element fails,
    otherwise up to and including the first one that fails.
  */
  function Attempted<A, B, E>(xs: seq<A>, f: A -> Result<B, E>): (r: nat)
    ensures r <= |xs|
    ensures Gather(xs, f).Success? ==> r == |xs|
    ensures Gather(xs, f).Failure? ==>
      1 <= r && Gather(xs[..r - 1], f).Success? && f(xs[r - 1]) == Failure(Gather(xs, f).error)
  {
    if xs == [] then 0
    else
      var n := |xs| - 1;
      if Gather(xs[..n], f).Failure? then
        var r := Attempted(xs[..n], f);
        assert xs[..n][..r - 1] == xs[..r - 1] && xs[..n][r - 1] == xs[r - 1];
        r
      else |xs|
  }

  /** A loop whose element n is the first to fail runs exactly the first n + 1 elements. */
  lemma AttemptedStops<A, B, E>(xs: seq<A>, f: A -> Result<B, E>, n: nat)
    requires n < |xs|
    requires Gather(xs[..n], f).Success? && f(xs[n]).Failure?
    ensures Attempted(xs, f) == n + 1
  {
    GatherStops(xs, f, n);
    var r := Attempted(xs, f);
    GatherSucceeds(xs[..n], f);
    GatherSucceeds(xs[..r - 1], f);
    assert forall j :: 0 <= j < n ==> xs[..n][j] == xs[j];
    assert forall j :: 0 <= j < r - 1 ==> xs[..r - 1][j] == xs[j];
  }}
