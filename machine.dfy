/** Fixed-width integer arithmetic of the platform the container is written for:
    `size_t` is a 64-bit unsigned integer and `int` a 32-bit two's-complement one.
    Only the conversions the views actually rely on are modelled. */
module Machine {

  const SIZE_MOD: nat := 0x1_0000_0000_0000_0000
  const INT_MOD: nat := 0x1_0000_0000
  const INT_MIN: int := -0x8000_0000
  const INT_MAX: int := 0x7FFF_FFFF

  /** Values a 32-bit `int` can hold. */
  type Int32 = x: int | INT_MIN <= x <= INT_MAX

  /** `a - b` computed in `size_t`: wraps around modulo 2^64 when `b > a`. */
  function SizeSub(a: nat, b: nat): (r: nat)
    ensures r < SIZE_MOD
    ensures b <= a < SIZE_MOD ==> r == a - b
    ensures a < b <= SIZE_MOD ==> r == SIZE_MOD + a - b
  {
    (a - b) % SIZE_MOD
  }

  /** `a + b` computed in `size_t`. */
  function SizeAdd(a: nat, b: nat): (r: nat)
    ensures r < SIZE_MOD
    ensures a + b < SIZE_MOD ==> r == a + b
  {
    (a + b) % SIZE_MOD
  }

  /** Conversion of a `size_t` to `int`: the low 32 bits, read as two's complement. */
  function SizeToInt(x: nat): (r: Int32)
    ensures x <= INT_MAX ==> r == x
    ensures x == SIZE_MOD - 1 ==> r == -1
  {
    var low := x % INT_MOD;
    if low <= INT_MAX then low else low - INT_MOD
  }

  /** Conversion of an `int` to `size_t`: a negative value becomes 2^64 plus it. */
  function IntToSize(i: Int32): (r: nat)
    ensures r < SIZE_MOD
    ensures 0 <= i ==> r == i
    ensures i < 0 ==> r > INT_MAX
  {
    if 0 <= i then i else SIZE_MOD + i
  }
}
