/** Go's `int32` and the wrap-around arithmetic of `atomic.AddInt32`.
    The pool keeps both its capacity and its worker counter in this type. */
module Int32 {

  const MinInt32: int := -0x8000_0000
  const MaxInt32: int := 0x7fff_ffff
  const Modulus: int := 0x1_0000_0000

  newtype int32 = x: int | -0x8000_0000 <= x < 0x8000_0000

  /** `atomic.AddInt32(&x, d)`: two's-complement addition, which wraps silently.
      The result agrees with the mathematical sum modulo 2^32, and equals it
      whenever the sum fits in an int32. */
  function Add(x: int32, d: int32): (r: int32)
    ensures MinInt32 <= x as int + d as int <= MaxInt32 ==> r as int == x as int + d as int
    ensures (r as int - (x as int + d as int)) % Modulus == 0
  {
    var sum := x as int + d as int;
    if sum > MaxInt32 then (sum - Modulus) as int32
    else if sum < MinInt32 then (sum + Modulus) as int32
    else sum as int32
  }
}
