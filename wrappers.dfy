/** Option and Result, and running a step that may raise over a sequence. */
module Wrappers {

  /** Python's `None` or a value. */
  datatype Option<+T> = None | Some(value: T) {
    /** The value, or `default` when there is none (`x if x is not None else default`). */
    function GetOr(default: T): T {
      if Some? then value else default
    }
  }

  /** A value, or the exception that was raised instead. */
  datatype Result<+T, +E> = Ok(value: T) | Err(error: E)

  /** Applies `f` to the elements of `xs` in order and stops at the first
      error, as a Python loop does when one of its steps raises. Defined from
      the last element so that it follows a forward loop step by step. */
  function MapAll<A, B, E>(xs: seq<A>, f: A -> Result<B, E>): (r: Result<seq<B>, E>)
    ensures r.Ok? <==> forall i :: 0 <= i < |xs| ==> f(xs[i]).Ok?
    ensures r.Ok? ==> |r.value| == |xs| && forall i :: 0 <= i < |xs| ==> f(xs[i]) == Ok(r.value[i])
    ensures r.Err? ==> exists i :: 0 <= i < |xs| && f(xs[i]) == Err(r.error) &&
                                   forall j :: 0 <= j < i ==> f(xs[j]).Ok?
    decreases |xs|
  {
    if xs == [] then Ok([])
    else
      var init := xs[..|xs| - 1];
      assert forall i :: 0 <= i < |init| ==> init[i] == xs[i];
      match MapAll(init, f)
      case Err(e) => Err(e)
      case Ok(bs) =>
        match f(xs[|xs| - 1])
        case Err(e) => Err(e)
        case Ok(b) => Ok(bs + [b])
  }

  /** One more step of a loop that has not raised yet. */
  lemma MapAllStep<A, B, E>(xs: seq<A>, f: A -> Result<B, E>, i: nat, done: seq<B>)
    requires i < |xs|
    requires MapAll(xs[..i], f) == Ok(done)
    ensures f(xs[i]).Ok? ==> MapAll(xs[..i + 1], f) == Ok(done + [f(xs[i]).value])
    ensures f(xs[i]).Err? ==> MapAll(xs, f) == Err(f(xs[i]).error)
  {
    assert xs[..i + 1][..i] == xs[..i];
    if f(xs[i]).Err? {
      var r := MapAll(xs, f);
      assert forall j :: 0 <= j < i ==> f(xs[j]).Ok? by {
        forall j | 0 <= j < i ensures f(xs[j]).Ok? {
          assert xs[..i][j] == xs[j];
        }
      }
      var k :| 0 <= k < |xs| && f(xs[k]) == Err(r.error) && forall j :: 0 <= j < k ==> f(xs[j]).Ok?;
      assert k == i;
    }
  }
}
