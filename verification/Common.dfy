/** Value types shared by every component: bytes, fixed-width strings of bytes, options and results. */
module Common {

  type byte = x: int | 0 <= x < 0x100
  type u16 = x: int | 0 <= x < 0x1_0000
  type Bytes = seq<byte>

  /** A 32-byte string: a public key or a blockhash. */
  type Key = s: Bytes | |s| == 32 witness seq(32, _ => 0)

  /** A 64-byte signature slot. */
  type Signature = s: Bytes | |s| == 64 witness seq(64, _ => 0)

  /** A byte string whose length a compact-u16 can carry. */
  type Vec16 = s: Bytes | |s| < 0x1_0000

  datatype Option<+T> = None | Some(value: T)

  datatype Result<+T, +E> = Ok(value: T) | Err(error: E)

  /** Rust's `x as u8` and `x as u16`: keep the low bits. */
  function AsU8(x: nat): (r: byte)
    ensures x < 0x100 ==> r == x
  {
    x % 0x100
  }

  function AsU16(x: nat): (r: u16)
    ensures x < 0x1_0000 ==> r == x
  {
    x % 0x1_0000
  }

  function Zeros(n: nat): (r: Bytes)
    ensures |r| == n && forall i :: 0 <= i < n ==> r[i] == 0
  {
    seq(n, _ => 0)
  }
}
