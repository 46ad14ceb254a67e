/** Fixed-width machine words of the kernel (lib/defs.h). */
module Words {

  const W32: int := 0x1_0000_0000
  const W64: int := 0x1_0000_0000_0000_0000

  type u32 = x: int | 0 <= x < 0x1_0000_0000
  type u64 = x: int | 0 <= x < 0x1_0000_0000_0000_0000

  function Wrap32(x: int): u32 { x % W32 }

  function Wrap64(x: int): u64 { x % W64 }

  /** The value of a 32-bit pattern read as a two's complement `i32`. */
  function Signed32(x: u32): int {
    if x < 0x8000_0000 then x else x - W32
  }

  /** `rounddown` and `roundup`, whose only wrap-around is in the addition. */
  function RoundDown(a: int, n: int): int
    requires 0 <= a && 0 < n
  {
    a / n * n
  }

  function RoundUp64(a: u64, n: int): int
    requires 0 < n < W64
  {
    Wrap64(a + n - 1) / n * n
  }
}
