/** 32-bit words. */
module Machine {

  const WORD: int := 0x1_0000_0000
  const HALF_WORD: int := 0x8000_0000

  /** `(x + a - 1) & -a` for a power of two `a`. */
  function RoundUp(x: int, a: int): int
    requires a > 0
  {
    (x + a - 1) / a * a
  }
}
