/** Shared value types: options, results, on-disk slots and bounded counters. */
module Basics {
  datatype Option<+T> = None | Some(value: T)

  datatype Result<+T> = Ok(value: T) | Err

  /** What a reader finds at one file name: nothing, undecodable bytes, or a decoded document. */
  datatype Slot<+T> = Absent | Unreadable | Present(value: T)

  const U32_MAX: nat := 0xFFFF_FFFF
  const U64_MAX: nat := 0xFFFF_FFFF_FFFF_FFFF
  const U128_MAX: nat := 0xFFFF_FFFF_FFFF_FFFF_FFFF_FFFF_FFFF_FFFF

  /** Unsigned 64-bit saturating successor. */
  function SaturatingSucc(n: nat): nat {
    if n >= U64_MAX then U64_MAX else n + 1
  }

  /** Unsigned 64-bit checked successor. */
  function CheckedSucc(n: nat): Option<nat> {
    if n >= U64_MAX then None else Some(n + 1)
  }

  function Min(a: int, b: int): int {
    if a <= b then a else b
  }
}
