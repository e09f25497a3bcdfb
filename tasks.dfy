/** `Array.tryMapAsync` of `TaskExtensions.swift`: apply a throwing block to the head, then to
    the tail, and stop at the first error. The block is a function into `Result`. */
module Tasks {
  import opened Wrappers

  function TryMap<A, B, E>(xs: seq<A>, block: A -> Result<B, E>): (r: Result<seq<B>, E>)
    decreases |xs|
    ensures r.Ok? <==> forall i :: 0 <= i < |xs| ==> block(xs[i]).Ok?
    ensures r.Ok? ==> |r.value| == |xs| && forall i :: 0 <= i < |xs| ==> r.value[i] == block(xs[i]).value
  {
    if xs == [] then Ok([])
    else match block(xs[0])
      case Err(error) => Err(error)
      case Ok(output) =>
        match TryMap(xs[1..], block)
        case Err(error) =>
          Err(error)
        case Ok(rest) =>
          assert forall i :: 1 <= i < |xs| ==> xs[i] == xs[1..][i - 1];
          Ok([output] + rest)
  }

  /** The elements the block is applied to, in order: all of them, or up to and including the
      first that fails. */
  function Invoked<A, B, E>(xs: seq<A>, block: A -> Result<B, E>): (r: seq<A>)
    decreases |xs|
    ensures r <= xs
  {
    if xs == [] then []
    else if block(xs[0]).Err? then [xs[0]]
    else [xs[0]] + Invoked(xs[1..], block)
  }

  /** When the map succeeds the block ran on every element. */
  lemma {:induction false} SuccessInvokesAll<A, B, E>(xs: seq<A>, block: A -> Result<B, E>)
    requires TryMap(xs, block).Ok?
    decreases |xs|
    ensures Invoked(xs, block) == xs
  {
    if xs != [] {
      SuccessInvokesAll(xs[1..], block);
      assert xs == [xs[0]] + xs[1..];
    }
  }

  /** A failure is the error of the first failing element, and the block ran on exactly the
      elements up to and including it. */
  lemma {:induction false} FailureIsFirstError<A, B, E>(xs: seq<A>, block: A -> Result<B, E>)
    requires TryMap(xs, block).Err?
    decreases |xs|
    ensures exists k: nat :: FirstFailureAt(xs, block, k) && TryMap(xs, block).error == block(xs[k]).error
                        && Invoked(xs, block) == xs[..k + 1]
  {
    if block(xs[0]).Err? {
      assert xs[..1] == [xs[0]];
      assert FirstFailureAt(xs, block, 0);
    } else {
      var tail := xs[1..];
      FailureIsFirstError(tail, block);
      var k: nat :| FirstFailureAt(tail, block, k) && TryMap(tail, block).error == block(tail[k]).error
               && Invoked(tail, block) == tail[..k + 1];
      assert xs[..k + 2] == [xs[0]] + tail[..k + 1];
      FirstFailureShifts(xs, block, k);
    }
  }

  /** `k` is the first element on which the block fails. */
  predicate FirstFailureAt<A, B, E>(xs: seq<A>, block: A -> Result<B, E>, k: nat) {
    k < |xs| && block(xs[k]).Err? && forall j :: 0 <= j < k ==> block(xs[j]).Ok?
  }

  lemma FirstFailureShifts<A, B, E>(xs: seq<A>, block: A -> Result<B, E>, k: nat)
    requires xs != [] && block(xs[0]).Ok? && FirstFailureAt(xs[1..], block, k)
    ensures FirstFailureAt(xs, block, k + 1)
  {
    forall j | 0 <= j < k + 1
      ensures block(xs[j]).Ok?
    {
      if j > 0 {
        assert xs[j] == xs[1..][j - 1];
      }
    }
  }

  /** Elements after a failure play no part: appending any elements keeps the error. */
  lemma {:induction false} LaterElementsIrrelevant<A, B, E>(xs: seq<A>, ys: seq<A>, block: A -> Result<B, E>)
    requires TryMap(xs, block).Err?
    decreases |xs|
    ensures TryMap(xs + ys, block) == TryMap(xs, block)
  {
    assert (xs + ys)[0] == xs[0];
    if block(xs[0]).Ok? {
      assert (xs + ys)[1..] == xs[1..] + ys;
      LaterElementsIrrelevant(xs[1..], ys, block);
    }
  }
}
