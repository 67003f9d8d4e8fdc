/** Value types shared by every module: fixed-width integers, byte strings and results. */
module Prelude {

  datatype Option<+T> = None | Some(value: T)

  datatype Result<+T, +E> = Ok(value: T) | Err(error: E)

  type Byte = x: int | 0 <= x < 0x100
  type Uint16 = x: int | 0 <= x < 0x1_0000
  type Uint32 = x: int | 0 <= x < 0x1_0000_0000

  const MAX_UINT16: Uint16 := 0xFFFF

  type Bytes = seq<Byte>

  /** `common.Hash`: 32 bytes. */
  type Hash = s: Bytes | |s| == 32 witness seq(32, _ => 0)

  /** `common.Address`: 20 bytes. */
  type Address = s: Bytes | |s| == 20 witness seq(20, _ => 0)

  /** An ECDSA signature: 65 bytes. */
  type Signature = s: Bytes | |s| == 65 witness seq(65, _ => 0)

  /** Addition in `uint16`, wrapping as Go's does. */
  function Add16(x: Uint16, y: Uint16): Uint16 {
    (x + y) % 0x1_0000
  }

  /** The numbers from `lo` up to but not including `hi`. */
  ghost function Interval(lo: nat, hi: nat): (t: set<nat>)
    requires lo <= hi
    ensures forall v: nat :: v in t <==> lo <= v < hi
    ensures |t| == hi - lo
  {
    if lo == hi then {} else Interval(lo, hi - 1) + {hi - 1}
  }
}
