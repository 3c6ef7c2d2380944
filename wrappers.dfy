/** Failure-compatible helper types shared by the whole model. */
module Wrappers {

  /** A value that may be absent: the model's stand-in for `null` and `undefined`. */
  datatype Option<+T> = None | Some(value: T)

  /** The outcome of an operation that throws in the original code. */
  datatype Result<+T> = Ok(value: T) | Err(message: string)

  /** `Map.prototype.get` on a map held as a value: the stored value, or `None` (JavaScript's
      `undefined`) exactly when the key is absent. */
  function Get<K, V>(m: map<K, V>, k: K): (r: Option<V>)
    ensures r.Some? <==> k in m
    ensures r.Some? ==> r.value == m[k]
  {
    if k in m then Some(m[k]) else None
  }
}
