/** Success, failure and absence, and the byte and machine-integer types the modules share. */
module Wrappers {
  datatype Option<+T> = None | Some(value: T)

  datatype Result<+T, +E> = Ok(value: T) | Err(error: E)

  type Byte = b: int | 0 <= b < 256
  type Bytes = seq<Byte>

  /** The line feed that ends every log record and every protocol frame. */
  const LF: Byte := 10

  const U64_MAX: nat := 0xFFFF_FFFF_FFFF_FFFF
  type U64 = n: int | 0 <= n <= U64_MAX

  /** Rust's `saturating_add(1)` on u64. */
  function SaturatingSucc(n: U64): U64 {
    if n == U64_MAX then U64_MAX else n + 1
  }

  /** Offset of the first line feed, or the length when there is none. */
  function LineEnd(f: Bytes): (n: nat)
    ensures n <= |f|
    ensures forall i :: 0 <= i < n ==> f[i] != LF
    ensures n < |f| ==> f[n] == LF
  {
    if f == [] || f[0] == LF then 0 else 1 + LineEnd(f[1..])
  }
}
