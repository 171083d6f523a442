/** The shape shared by both loops of the scraper: walk a sequence from left
    to right, let each element be skipped, kept as a value, or fail, and
    stop at the first failure with nothing collected. */
module FailFast {
  import opened Wrappers

  /** What one element contributes. */
  datatype Step<+U, +E> = Skip | Keep(value: U) | Fail(error: E)

  /** The values kept from `xs`, in order, or the first failure. */
  function Collect<T, U, E>(xs: seq<T>, step: T -> Step<U, E>): (r: Result<seq<U>, E>)
    ensures r.Ok? ==> |r.value| <= |xs|
  {
    if xs == [] then Ok([])
    else
      match Collect(xs[..|xs| - 1], step)
      case Err(e) => Err(e)
      case Ok(us) =>
        match step(xs[|xs| - 1])
        case Skip => Ok(us)
        case Keep(u) => Ok(us + [u])
        case Fail(e) => Err(e)
  }

  /** The positions of the elements `step` keeps, in increasing order. */
  function KeptIndices<T, U, E>(xs: seq<T>, step: T -> Step<U, E>): (ks: seq<nat>)
    ensures |ks| <= |xs|
    ensures forall k :: 0 <= k < |ks| ==> ks[k] < |xs| && step(xs[ks[k]]).Keep?
    ensures forall i :: 0 <= i < |xs| && step(xs[i]).Keep? ==> i in ks
    ensures forall k, l :: 0 <= k < l < |ks| ==> ks[k] < ks[l]
  {
    if xs == [] then []
    else
      var n := |xs| - 1;
      var front := KeptIndices(xs[..n], step);
      assert forall i :: 0 <= i < n ==> xs[..n][i] == xs[i];
      front + (if step(xs[n]).Keep? then [n] else [])
  }

  /** Two steps that keep the same elements keep the same positions. */
  lemma {:induction false} KeptIndicesAgree<T, U, V, E, F>(xs: seq<T>, step: T -> Step<U, E>, other: T -> Step<V, F>)
    requires forall i :: 0 <= i < |xs| ==> (step(xs[i]).Keep? <==> other(xs[i]).Keep?)
    ensures KeptIndices(xs, step) == KeptIndices(xs, other)
  {
    if xs != [] {
      var n := |xs| - 1;
      assert forall j :: 0 <= j < n ==> xs[..n][j] == xs[j];
      KeptIndicesAgree(xs[..n], step, other);
    }
  }

  /** The walk succeeds exactly when no element fails. */
  lemma {:induction false} CollectOkIff<T, U, E>(xs: seq<T>, step: T -> Step<U, E>)
    ensures Collect(xs, step).Ok? <==> forall i :: 0 <= i < |xs| ==> !step(xs[i]).Fail?
  {
    if xs != [] {
      var n := |xs| - 1;
      CollectOkIff(xs[..n], step);
      assert forall i :: 0 <= i < n ==> xs[..n][i] == xs[i];
    }
  }

  /** The walk reports the error of the first element that fails. */
  lemma {:induction false} CollectFirstFailure<T, U, E>(xs: seq<T>, step: T -> Step<U, E>, i: nat)
    requires i < |xs| && step(xs[i]).Fail?
    requires forall j :: 0 <= j < i ==> !step(xs[j]).Fail?
    ensures Collect(xs, step) == Err(step(xs[i]).error)
  {
    var n := |xs| - 1;
    assert forall j :: 0 <= j < n ==> xs[..n][j] == xs[j];
    if i == n {
      CollectOkIff(xs[..n], step);
    } else {
      CollectFirstFailure(xs[..n], step, i);
    }
  }

  /** One more element of a walk that has not failed on the elements
      before it: a failure there is the walk's result, anything else
      extends the values collected so far. */
  lemma CollectNext<T, U, E>(xs: seq<T>, step: T -> Step<U, E>, i: nat)
    requires i < |xs| && Collect(xs[..i], step).Ok?
    ensures step(xs[i]).Fail? ==> Collect(xs, step) == Err(step(xs[i]).error)
    ensures step(xs[i]).Skip? ==> Collect(xs[..i + 1], step) == Collect(xs[..i], step)
    ensures step(xs[i]).Keep? ==>
              Collect(xs[..i + 1], step) == Ok(Collect(xs[..i], step).value + [step(xs[i]).value])
  {
    assert xs[..i + 1][..i] == xs[..i];
    if step(xs[i]).Fail? {
      CollectOkIff(xs[..i], step);
      CollectFirstFailure(xs, step, i);
    }
  }

  /** A successful walk returns the kept values, one per kept position,
      in the order of `xs`. */
  lemma {:induction false} CollectKept<T, U, E>(xs: seq<T>, step: T -> Step<U, E>)
    requires Collect(xs, step).Ok?
    ensures |Collect(xs, step).value| == |KeptIndices(xs, step)|
    ensures forall k :: 0 <= k < |KeptIndices(xs, step)| ==>
              Collect(xs, step).value[k] == step(xs[KeptIndices(xs, step)[k]]).value
  {
    if xs != [] {
      var n := |xs| - 1;
      CollectKept(xs[..n], step);
      assert forall j :: 0 <= j < n ==> xs[..n][j] == xs[j];
    }
  }

  /** When every element is kept, the walk maps `xs` element by element. */
  lemma {:induction false} CollectAllKept<T, U, E>(xs: seq<T>, step: T -> Step<U, E>)
    requires forall i :: 0 <= i < |xs| ==> step(xs[i]).Keep?
    ensures Collect(xs, step).Ok? && |Collect(xs, step).value| == |xs|
    ensures forall k :: 0 <= k < |xs| ==> Collect(xs, step).value[k] == step(xs[k]).value
  {
    if xs != [] {
      var n := |xs| - 1;
      assert forall j :: 0 <= j < n ==> xs[..n][j] == xs[j];
      CollectAllKept(xs[..n], step);
    }
  }
}
