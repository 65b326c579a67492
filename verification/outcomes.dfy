/** Failure-carrying values shared by every module of the model: Python's
    `None`-or-value and raised-exception-or-value become explicit datatypes. */
module Outcomes {

  /** A Python value that may be `None`. */
  datatype Option<+T> = None | Some(value: T) {
    /** The value, or `default` when absent (Python's `x or default` / `d.get(k, default)`). */
    function GetOr(default: T): T {
      match this
      case Some(v) => v
      case None => default
    }
  }

  /** A computation that either returns a value or raises an error. */
  datatype Result<+T, +E> = Ok(value: T) | Err(error: E)

  /** A computation run for its effect that either completes or raises an error. */
  datatype Outcome<+E> = Pass | Fail(error: E)

  /** The last `Some` of `xs`, or `start` when every element is `None`. */
  function LastSome<T>(xs: seq<Option<T>>, start: Option<T>): Option<T>
    decreases |xs|
  {
    if |xs| == 0 then start
    else match xs[|xs| - 1]
      case Some(v) => Some(v)
      case None => LastSome(xs[..|xs| - 1], start)
  }

  /** Every element of `xs` after position `i` is `None`. */
  predicate NoneAfter<T>(xs: seq<Option<T>>, i: int) {
    forall j :: 0 <= j < |xs| && i < j ==> xs[j].None?
  }

  /** Starting from `None`, the fold is `None` exactly when every element is. */
  lemma {:induction false} LastSomeNone<T>(xs: seq<Option<T>>)
    ensures LastSome(xs, None).None? <==> NoneAfter(xs, -1)
    decreases |xs|
  {
    if |xs| > 0 {
      var n := |xs| - 1;
      if xs[n].None? {
        var init := xs[..n];
        LastSomeNone(init);
        assert NoneAfter(xs, -1) <==> NoneAfter(init, -1);
      }
    }
  }

  /** A `Some` result of the fold is an element after which all are `None`. */
  lemma {:induction false} LastSomeWitness<T>(xs: seq<Option<T>>) returns (i: int)
    requires LastSome(xs, None).Some?
    ensures 0 <= i < |xs| && xs[i] == LastSome(xs, None) && NoneAfter(xs, i)
    decreases |xs|
  {
    var n := |xs| - 1;
    if xs[n].Some? {
      i := n;
    } else {
      var init := xs[..n];
      i := LastSomeWitness(init);
      assert xs[i] == init[i];
      assert NoneAfter(xs, i);
    }
  }
}
