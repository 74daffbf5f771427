/** Small shared vocabulary: bytes and the failure-carrying wrappers used by
    the other modules (Rust's `u8`, `Option<T>` and `Result<T, E>`). */
module Common {

  /** Rust's `u8`. Wrap-around is always written out explicitly (`% 256`). */
  type byte = x: int | 0 <= x < 256

  datatype Option<T> = None | Some(value: T)

  datatype Result<T, E> = Ok(value: T) | Err(error: E)

  /** `n` zero bytes, as in `[0u8; n]`. */
  function Zeros(n: nat): (z: seq<byte>)
    ensures |z| == n
    ensures forall i :: 0 <= i < n ==> z[i] == 0
  {
    seq(n, _ => 0)
  }
}
