/** Timestamps: 64-bit signed ticks, with the saturating arithmetic the program uses. */
module Time {
  type i64 = x: int | -0x8000_0000_0000_0000 <= x < 0x8000_0000_0000_0000

  const I64_MIN: i64 := -0x8000_0000_0000_0000
  const I64_MAX: i64 := 0x7fff_ffff_ffff_ffff

  function Saturate(x: int): (r: i64)
    ensures I64_MIN <= x <= I64_MAX ==> r == x
    ensures x < I64_MIN ==> r == I64_MIN
    ensures x > I64_MAX ==> r == I64_MAX
  {
    if x < I64_MIN then I64_MIN else if x > I64_MAX then I64_MAX else x
  }

  function SatSub(a: i64, b: i64): (r: i64)
    ensures I64_MIN <= a as int - b as int <= I64_MAX ==> r as int == a as int - b as int
    ensures a as int - b as int < I64_MIN ==> r == I64_MIN
    ensures a as int - b as int > I64_MAX ==> r == I64_MAX
  {
    Saturate(a as int - b as int)
  }

  function SatAdd(a: i64, b: i64): (r: i64)
    ensures I64_MIN <= a as int + b as int <= I64_MAX ==> r as int == a as int + b as int
    ensures a as int + b as int < I64_MIN ==> r == I64_MIN
    ensures a as int + b as int > I64_MAX ==> r == I64_MAX
  {
    Saturate(a as int + b as int)
  }

  function Max(a: i64, b: i64): (r: i64)
    ensures r >= a && r >= b && (r == a || r == b)
  {
    if a < b then b else a
  }
}
