/** Kotlin's `Int`: a 32-bit two's-complement integer whose `+` and `-` wrap around. */
module KotlinInt {

  const MIN: int := -0x8000_0000
  const MAX: int := 0x7fff_ffff
  const MODULUS: int := 0x1_0000_0000

  type Int32 = x: int | MIN <= x <= MAX

  /** The value Kotlin's `Int` arithmetic yields when the exact result is `x`. */
  function Wrap(x: int): (r: Int32)
    ensures (r - x) % MODULUS == 0
    ensures MIN <= x <= MAX ==> r == x
    ensures MAX < x <= MAX + MODULUS ==> r == x - MODULUS
    ensures MIN - MODULUS <= x < MIN ==> r == x + MODULUS
  {
    (x - MIN) % MODULUS + MIN
  }
}
