/** Octets and the 32-bit unsigned arithmetic of DWORD. */
module Bytes {
  type byte = b: int | 0 <= b < 256

  const TWO32: nat := 0x1_0000_0000

  /** DWORD addition. */
  function Add32(a: int, b: int): nat {
    (a + b) % TWO32
  }

  /** DWORD subtraction. */
  function Sub32(a: int, b: int): nat {
    (a - b) % TWO32
  }

  function Min(a: nat, b: nat): nat {
    if a <= b then a else b
  }
}
