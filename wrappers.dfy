/** Optional values, results with an error, and values drawn from a supplied random stream. */
module Wrappers {

  datatype Option<+T> = None | Some(value: T)

  datatype Result<+T, +E> = Success(value: T) | Failure(error: E)

  /** A value computed together with the draws that are still unused afterwards. */
  datatype Drawn<+T> = Drawn(value: T, rest: seq<nat>)

  /** `rest` is what is left of `draws` after some of its leading elements were used. */
  predicate Consumes<T(==)>(rest: seq<T>, draws: seq<T>)
  {
    |rest| <= |draws| && rest == draws[|draws| - |rest|..]
  }

  lemma {:induction false} ConsumesTrans<T>(a: seq<T>, b: seq<T>, c: seq<T>)
    requires Consumes(a, b) && Consumes(b, c)
    ensures Consumes(a, c)
  {
    assert c[|c| - |b|..][|b| - |a|..] == c[|c| - |a|..];
  }

  /**
   * The engine's `xu4_random(n)`: a value in [0, n). The random source is not
   * modelled; the caller supplies the raw draw `d` and the engine reduces it.
   */
  function Random(d: nat, n: nat): (r: nat)
    requires n > 0
    ensures r < n
  {
    d % n
  }
}
