/** Option and Result, standing for the program's optional and fallible values. */
module Wrappers {

  datatype Option<+T> = None | Some(value: T)

  datatype Result<+T, +E> = Success(value: T) | Failure(error: E)

  function Min(a: int, b: int): int { if a <= b then a else b }

  function Max(a: int, b: int): int { if a <= b then b else a }

  const I64_MAX := 0x7fff_ffff_ffff_ffff

  const U32_MAX := 0xffff_ffff

  /** `i64::saturating_add` of a non-negative amount. */
  function SaturatingAdd(a: int, b: nat): int { Min(a + b, I64_MAX) }

  /** `u32::saturating_add(1)`. */
  function SaturatingSucc(n: nat): nat { if n < U32_MAX then n + 1 else U32_MAX }
}
