/** Java's null and its exceptions, as values. */
module Wrappers {

  /** A value or Java's `null`. */
  datatype Option<T> = None | Some(value: T)

  /** A result or the exception that ended the computation. */
  datatype Result<T, E> = Ok(value: T) | Err(error: E) {
    predicate IsFailure() {
      Err?
    }

    function PropagateFailure<U>(): Result<U, E>
      requires Err?
    {
      Err(error)
    }

    function Extract(): T
      requires Ok?
    {
      value
    }
  }

  /** `m.get(key)` on a Java map: the value, or None for null. */
  function Lookup<K, V>(m: map<K, V>, key: K): (v: Option<V>)
    ensures v.Some? <==> key in m
    ensures v.Some? ==> v.value == m[key]
  {
    if key in m then Some(m[key]) else None
  }
}
