/** Kotlin `Int` arithmetic: 32-bit two's complement, silently wrapping on overflow. */
module Int32 {

  const Min: int := -0x8000_0000
  const Max: int := 0x7FFF_FFFF
  const Modulus: int := 0x1_0000_0000

  predicate InRange(x: int) {
    Min <= x <= Max
  }

  /** The 32-bit value that stands for the mathematical integer `x`. */
  function Wrap(x: int): (r: int)
    ensures InRange(r)
    ensures (x - r) % Modulus == 0
    ensures InRange(x) ==> r == x
  {
    (x - Min) % Modulus + Min
  }

  /** `a * b` on Kotlin `Int` operands. */
  function Mul(a: int, b: int): (r: int)
    ensures InRange(r)
    ensures (a * b - r) % Modulus == 0
    ensures InRange(a * b) ==> r == a * b
  {
    Wrap(a * b)
  }
}
