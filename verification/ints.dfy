/** Rust's fixed-width integers and the casts the core performs between them.
    Dafny integers are unbounded, so every width, wrap-around and truncation
    the Rust code relies on is written out here.
 */
module Ints {

  const USIZE_LIMIT: int := 0x1_0000_0000_0000_0000
  const USIZE_MAX: int := 0xFFFF_FFFF_FFFF_FFFF
  const ISIZE_MIN: int := -0x8000_0000_0000_0000
  const ISIZE_MAX: int := 0x7FFF_FFFF_FFFF_FFFF
  const U64_MAX: int := 0xFFFF_FFFF_FFFF_FFFF
  const I32_LIMIT: int := 0x1_0000_0000

  /** The target is taken to be 64-bit, so usize = u64 and isize = i64. */
  type Usize = x: int | 0 <= x <= 0xFFFF_FFFF_FFFF_FFFF
  type Isize = x: int | -0x8000_0000_0000_0000 <= x <= 0x7FFF_FFFF_FFFF_FFFF
  type U64 = x: int | 0 <= x <= 0xFFFF_FFFF_FFFF_FFFF
  type U32 = x: int | 0 <= x <= 0xFFFF_FFFF
  type I32 = x: int | -0x8000_0000 <= x <= 0x7FFF_FFFF
  type I16 = x: int | -0x8000 <= x <= 0x7FFF

  /** `u as isize`: reinterprets the 64 bits, so large values turn negative. */
  function AsIsize(u: Usize): (r: Isize)
    ensures u <= ISIZE_MAX ==> r == u
    ensures u > ISIZE_MAX ==> r < 0 && r + USIZE_LIMIT == u
  {
    if u <= ISIZE_MAX then u else u - USIZE_LIMIT
  }

  /** `i as usize`: reinterprets the 64 bits, so negative values turn large. */
  function AsUsize(i: Isize): (r: Usize)
    ensures i >= 0 ==> r == i
    ensures i < 0 ==> r > ISIZE_MAX && r - USIZE_LIMIT == i
  {
    if i >= 0 then i else i + USIZE_LIMIT
  }

  /** `v as i32` from a wider signed integer: keeps the low 32 bits. */
  function AsI32(v: Isize): (r: I32)
    ensures -0x8000_0000 <= v <= 0x7FFF_FFFF ==> r == v
    ensures (r - v) % I32_LIMIT == 0
  {
    var low := v % I32_LIMIT;
    if low <= 0x7FFF_FFFF then low else low - I32_LIMIT
  }

  /** Rust's `%`, which truncates toward zero: the remainder takes the sign
      of the dividend (Dafny's `%` is Euclidean and never negative). */
  function RustRem(a: int, b: int): (r: int)
    requires b > 0
    ensures a >= 0 ==> 0 <= r < b
    ensures a < 0 ==> -b < r <= 0
  {
    if a >= 0 then a % b else -((-a) % b)
  }

  /** The integers lo, lo + 1, .., hi - 1. */
  function Range(lo: int, hi: int): (r: set<int>)
    ensures forall x :: x in r <==> lo <= x < hi
    decreases hi - lo
  {
    if lo >= hi then {} else {lo} + Range(lo + 1, hi)
  }

  /** The half-open integer range [lo, hi) has hi - lo members. */
  lemma {:induction false} RangeSize(lo: int, hi: int)
    requires lo <= hi
    ensures |Range(lo, hi)| == hi - lo
    decreases hi - lo
  {
    if lo < hi {
      RangeSize(lo + 1, hi);
      assert lo !in Range(lo + 1, hi);
    }
  }

  /** Two ranges that do not overlap have as many members together as
      separately. */
  lemma RangesSize(a: int, b: int, c: int, d: int)
    requires a <= b <= c <= d
    ensures |Range(a, b) + Range(c, d)| == (b - a) + (d - c)
  {
    RangeSize(a, b);
    RangeSize(c, d);
    assert Range(a, b) !! Range(c, d);
  }

}
