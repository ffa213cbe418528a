/** Types shared by every module of the project. */
module Common {
  /** One byte, as a number. */
  type byte = x: int | 0 <= x < 256

  /** Bytes of a key. */
  const KEY_LEN: nat := 32

  datatype Option<+T> = None | Some(value: T)

  datatype Result<+T> = Ok(value: T) | Err

  /** `m[k]` if present: the lookup every store in the model offers. */
  function Get<K, V>(m: map<K, V>, k: K): Option<V> {
    if k in m then Some(m[k]) else None
  }

  function Repeat<T>(x: T, n: nat): (r: seq<T>)
    ensures |r| == n && forall i | 0 <= i < n :: r[i] == x
  {
    seq(n, _ => x)
  }
}
