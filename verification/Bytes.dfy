/** Shared vocabulary: machine bytes, optional values and 32-bit conversions. */
module Machine {
  type byte = x: int | 0 <= x < 256

  datatype Option<+T> = None | Some(value: T)

  function Zeros(n: nat): (r: seq<byte>)
    ensures |r| == n && forall i :: 0 <= i < n ==> r[i] == 0
  {
    seq(n, (i: nat) => 0)
  }

  const INT32_MAX: int := 0x7fff_ffff
  const INT32_MIN: int := -0x8000_0000

  predicate IsInt32(x: int) {
    INT32_MIN <= x <= INT32_MAX
  }

  function Max(a: int, b: int): int {
    if a > b then a else b
  }

  function Min(a: int, b: int): int {
    if a < b then a else b
  }

  /** Signed 32-bit wrap-around of the sum of two in-range operands. */
  function WrapInt32(x: int): (r: int)
    ensures IsInt32(r)
    ensures IsInt32(x) ==> r == x
    ensures (x - r) % 0x1_0000_0000 == 0
  {
    (x + 0x8000_0000) % 0x1_0000_0000 - 0x8000_0000
  }

  /** C's `trunc`: rounds toward zero. */
  function Trunc(v: real): (r: int)
    ensures v >= 0.0 ==> r as real <= v < r as real + 1.0 && r >= 0
    ensures v <= 0.0 ==> r as real - 1.0 < v <= r as real && r <= 0
  {
    if v >= 0.0 then v.Floor else -((-v).Floor)
  }

  /** C's `lround`: rounds to nearest, halves away from zero. */
  function LRound(v: real): (r: int)
    ensures v >= 0.0 ==> r as real - 0.5 <= v < r as real + 0.5
    ensures v < 0.0 ==> r as real - 0.5 < v <= r as real + 0.5
  {
    if v >= 0.0 then (v + 0.5).Floor else -((-v + 0.5).Floor)
  }

  /**
   * A double converted to `int32_t`: truncation when the result is in range.
   * Out of range C++ leaves the result undefined; x86-64 yields INT32_MIN.
   */
  function ToInt32(v: real): (r: int)
    ensures IsInt32(r)
  {
    if IsInt32(Trunc(v)) then Trunc(v) else INT32_MIN
  }
}
