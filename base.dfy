/** Shared building blocks: Option and Result types and 32-bit unsigned arithmetic. */
module Base {

  datatype Option<T> = None | Some(value: T)

  /** A value or the message of the exception thrown. */
  datatype Result<T> = Ok(value: T) | Err(error: string)

  /** 2^32, the modulus of C++ `uint32_t` arithmetic. */
  const U32_MODULUS: int := 0x1_0000_0000

  /** A value of C++ type `uint32_t`. */
  type u32 = x: int | 0 <= x < 0x1_0000_0000

  /** `x + 1` on `uint32_t`: wraps from 2^32 - 1 to 0. */
  function Inc32(x: u32): u32
  {
    if x == 0xFFFF_FFFF then 0 else x + 1
  }

  /** Conversion of an integer to `uint32_t` (reduction modulo 2^32). */
  function ToU32(x: int): (r: u32)
    ensures 0 <= x < U32_MODULUS ==> r == x
    ensures (r - x) % U32_MODULUS == 0
  {
    x % U32_MODULUS
  }
}
