/** Small failure-carrying wrappers shared by every module of the model. */
module Basics {

  /** An optional value; `None` is the source's Python `None`. */
  datatype Option<+T> = None | Some(value: T)

  /** The outcome of an operation that can raise: `Err` carries what was raised. */
  datatype Result<+T, +E> = Ok(value: T) | Err(error: E) {
    predicate IsFailure() {
      Err?
    }

    function PropagateFailure<U>(): Result<U, E>
      requires Err?
    {
      Err(error)
    }

    function Extract(): T
      requires Ok?
    {
      value
    }
  }

  /**
   * Output already produced, put in front of the outcome of the rest of a
   * scan; an error stays the error.
   */
  function Prepend<T, E>(front: seq<T>, r: Result<seq<T>, E>): (r': Result<seq<T>, E>)
    ensures r'.Ok? <==> r.Ok?
    ensures r.Err? ==> r' == r
    ensures r.Ok? ==> |r'.value| == |front| + |r.value| && r'.value[..|front|] == front && r'.value[|front|..] == r.value
  {
    if r.Ok? then Ok(front + r.value) else r
  }

  /** Starting from no output changes nothing. */
  lemma PrependNothing<T, E>(r: Result<seq<T>, E>)
    ensures Prepend([], r) == r
  {
    if r.Ok? {
      assert [] + r.value == r.value;
    }
  }

  /** Extending the output twice is extending it once by both. */
  lemma PrependTwice<T, E>(a: seq<T>, b: seq<T>, r: Result<seq<T>, E>)
    ensures Prepend(a, Prepend(b, r)) == Prepend(a + b, r)
  {
    if r.Ok? {
      assert a + (b + r.value) == (a + b) + r.value;
    }
  }
}
