/** The C integer types intarray.c computes with. Arithmetic is on unbounded integers;
    every place where the program can overflow or truncate goes through Wrap32 or Wrap64
    (the library is built with wrapping signed arithmetic). */
module CInts {

  const INT64_MIN: int := -0x8000_0000_0000_0000
  const INT64_MAX: int := 0x7FFF_FFFF_FFFF_FFFF
  const INT32_MIN: int := -0x8000_0000
  const INT32_MAX: int := 0x7FFF_FFFF

  type int64 = x: int | INT64_MIN <= x <= INT64_MAX

  /** The signed 64-bit value congruent to x modulo 2^64. */
  function Wrap64(x: int): (r: int64)
    ensures INT64_MIN <= x <= INT64_MAX ==> r == x
    ensures exists k :: r == x + k * 0x1_0000_0000_0000_0000
  {
    var m := x % 0x1_0000_0000_0000_0000;
    assert m == x + (-(x / 0x1_0000_0000_0000_0000)) * 0x1_0000_0000_0000_0000;
    if m <= INT64_MAX then m
    else
      assert m - 0x1_0000_0000_0000_0000 == x + (-(x / 0x1_0000_0000_0000_0000) - 1) * 0x1_0000_0000_0000_0000;
      m - 0x1_0000_0000_0000_0000
  }

  /** The signed 32-bit value congruent to x modulo 2^32. */
  function Wrap32(x: int): (r: int)
    ensures INT32_MIN <= r <= INT32_MAX
    ensures INT32_MIN <= x <= INT32_MAX ==> r == x
    ensures exists k :: r == x + k * 0x1_0000_0000
  {
    var m := x % 0x1_0000_0000;
    assert m == x + (-(x / 0x1_0000_0000)) * 0x1_0000_0000;
    if m <= INT32_MAX then m
    else
      assert m - 0x1_0000_0000 == x + (-(x / 0x1_0000_0000) - 1) * 0x1_0000_0000;
      m - 0x1_0000_0000
  }
}
