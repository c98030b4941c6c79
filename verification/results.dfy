/** Option and Result wrappers used throughout the crawler model, and the
    Python exceptions the crawler can raise while it assembles rows. */
module Results {

  datatype Option<+T> = None | Some(value: T)

  /** The three exceptions `fetch_data` can raise from its own logic:
      `IndexError` from `re.findall(...)[0]` on an empty match list,
      `ValueError` from `float()` on text that is not a number, and
      `UnboundLocalError` from reading `product_qty` before anything assigned it. */
  datatype Error = IndexError | ValueError | UnboundLocalError

  /** A computation that either produced a value or raised an exception;
      usable with `:-`. */
  datatype Result<+T> = Success(value: T) | Failure(error: Error) {

    predicate IsFailure() {
      Failure?
    }

    function PropagateFailure<U>(): Result<U>
      requires Failure?
    {
      Failure(error)
    }

    function Extract(): T
      requires Success?
    {
      value
    }
  }

  /** Dictionary `get`: the value stored under `k`, or `None`. */
  function Get<K, V>(m: map<K, V>, k: K): (r: Option<V>)
    ensures r.Some? <==> k in m
    ensures r.Some? ==> r.value == m[k]
  {
    if k in m then Some(m[k]) else None
  }

  /** Applies `f` to each element in order, stopping at the first failure, as a loop
      whose body may raise. */
  function MapAll<A, B>(xs: seq<A>, f: A -> Result<B>): (r: Result<seq<B>>)
    ensures r.Success? <==> forall i :: 0 <= i < |xs| ==> f(xs[i]).Success?
    ensures r.Success? ==> |r.value| == |xs| && forall i :: 0 <= i < |xs| ==> r.value[i] == f(xs[i]).value
    ensures r.Failure? ==>
      exists i :: 0 <= i < |xs| && f(xs[i]).Failure? && r.error == f(xs[i]).error &&
                  forall j :: 0 <= j < i ==> f(xs[j]).Success?
    decreases |xs|
  {
    if |xs| == 0 then Success([])
    else
      var y :- f(xs[0]);
      var ys :- MapAll(xs[1..], f);
      assert forall i :: 0 < i < |xs| ==> xs[1..][i - 1] == xs[i];
      Success([y] + ys)
  }

  /** Running over a concatenation is running over the first part, then over the second,
      stopping at the first failure. */
  lemma {:induction false} MapAllAppend<A, B>(a: seq<A>, b: seq<A>, f: A -> Result<B>)
    ensures MapAll(a + b, f) ==
      if MapAll(a, f).Failure? then Failure(MapAll(a, f).error)
      else if MapAll(b, f).Failure? then Failure(MapAll(b, f).error)
      else Success(MapAll(a, f).value + MapAll(b, f).value)
    decreases |a|
  {
    if |a| == 0 {
      assert a + b == b;
      if MapAll(b, f).Success? {
        assert [] + MapAll(b, f).value == MapAll(b, f).value;
      }
    } else {
      assert (a + b)[0] == a[0];
      assert (a + b)[1..] == a[1..] + b;
      MapAllAppend(a[1..], b, f);
      if MapAll(a, f).Success? && MapAll(b, f).Success? {
        ConcatAssociative([f(a[0]).value], MapAll(a[1..], f).value, MapAll(b, f).value);
      }
    }
  }

  lemma ConcatAssociative<T>(x: seq<T>, y: seq<T>, z: seq<T>)
    ensures x + (y + z) == (x + y) + z
  {
  }
}
