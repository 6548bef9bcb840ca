// Failure-compatible results, used wherever the Rust code returns `Option` or `Result`.
module Wrappers {

  datatype Option<+T> = None | Some(value: T)

  datatype Result<+T, +E> = Success(value: T) | Failure(error: E) {
    predicate IsFailure() {
      Failure?
    }

    function PropagateFailure<U>(): (r: Result<U, E>)
      requires Failure?
    {
      Failure(error)
    }

    function Extract(): (r: T)
      requires Success?
    {
      value
    }
  }

  // A map read that makes absence explicit, as `HashMap::get` does.
  function Lookup<K, V>(m: map<K, V>, k: K): (r: Option<V>) {
    if k in m then Some(m[k]) else None
  }

  // `Iterator::last`.
  function Last<T>(s: seq<T>): (r: Option<T>) {
    if s == [] then None else Some(s[|s| - 1])
  }
}
