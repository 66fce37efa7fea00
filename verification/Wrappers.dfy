/** The result shapes and the machine integer that the modules share. */
module Wrappers {
  datatype Option<+T> = None | Some(value: T)

  datatype Result<+T, +E> = Ok(value: T) | Err(error: E)

  /** How often a loop counting up to `n` runs. */
  function AtLeastZero(n: int): nat { if n < 0 then 0 else n }

  /** No element twice. */
  predicate Distinct<T(==)>(s: seq<T>) {
    forall i, j :: 0 <= i < j < |s| ==> s[i] != s[j]
  }

  /** Rust's i64 and C's int64_t. Arithmetic on it must be proved not to overflow. */
  newtype i64 = x: int | -0x8000_0000_0000_0000 <= x < 0x8000_0000_0000_0000
}
