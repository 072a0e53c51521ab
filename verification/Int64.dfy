/** The saturating arithmetic of a 64-bit signed integer. */
module Int64 {
  const MAX: int := 0x7fff_ffff_ffff_ffff
  const MIN: int := -0x8000_0000_0000_0000

  function Clamp(x: int): (r: int)
    ensures MIN <= r <= MAX
    ensures MIN <= x <= MAX ==> r == x
  {
    if x < MIN then MIN else if x > MAX then MAX else x
  }

  function SatAdd(a: int, b: int): int { Clamp(a + b) }

  function SatSub(a: int, b: int): int { Clamp(a - b) }
}
