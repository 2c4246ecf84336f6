/** The JVM's fixed-width signed integers. Kotlin `Int` is 32 bits and `Long`
    is 64 bits; their `+` wraps around modulo 2^32 and 2^64. */
module JvmInt {

  const TwoTo31: int := 0x8000_0000
  const TwoTo32: int := 0x1_0000_0000

  newtype Int32 = x: int | -0x8000_0000 <= x < 0x8000_0000
  newtype Int64 = x: int | -0x8000_0000_0000_0000 <= x < 0x8000_0000_0000_0000

  /** Kotlin `a + b` on `Int`: the mathematical sum reduced into the signed
      32-bit range. */
  function AddInt32(a: Int32, b: Int32): (r: Int32)
    ensures -TwoTo31 <= a as int + b as int < TwoTo31 ==> r as int == a as int + b as int
    ensures (a as int + b as int - r as int) % TwoTo32 == 0
  {
    var sum := a as int + b as int;
    if sum >= TwoTo31 then (sum - TwoTo32) as Int32
    else if sum < -TwoTo31 then (sum + TwoTo32) as Int32
    else sum as Int32
  }
}
