/** Board coordinate arithmetic (`chess-core/src/game/math.rs`).

    Tile indices run A1 = 0 .. H8 = 63, file-major within a rank, so a tile
    at file x and rank y has index 8 * y + x.  `index_to_xy` as written takes
    the rank modulo 7 instead of dividing by 8; `IndexToXy` keeps that
    behaviour and `IndexToXyFixed` is the corrected conversion.
 */
module Math {
  import opened Ints
  import opened Wrappers

  /** A (file, rank) pair; both fields are `isize` in the source. */
  datatype XyPair = XyPair(x: Isize, y: Isize)

  /** The 180-degree mirror of a tile index: `|index - 63|`, computed in
      `isize`.  Indices at or above 2^63 turn negative on the cast, and the
      subtraction or the `abs` then overflows for the first 64 of them. */
  function RotIndex(index: Usize): (r: Result<Usize>)
    ensures index <= 63 ==> r == Ok(63 - index)
    ensures 63 < index <= ISIZE_MAX ==> r == Ok(index - 63)
    ensures ISIZE_MAX < index <= ISIZE_MAX + 64 ==> r == Err(ArithmeticOverflow)
    ensures ISIZE_MAX + 64 < index ==> r == Ok(USIZE_LIMIT + 63 - index)
  {
    var idx := AsIsize(index);
    var dif := idx - 63;
    // `idx - 63` overflows below ISIZE_MIN, and `abs` overflows at ISIZE_MIN
    if dif <= ISIZE_MIN then Err(ArithmeticOverflow)
    else Ok(if dif < 0 then -dif else dif)
  }

  /** Mirroring twice gives back the tile exactly on the board's 64 indices,
      and on no other index that fits in `isize`. */
  lemma RotIndexInvolution(index: Usize)
    requires index <= ISIZE_MAX
    ensures RotIndex(index).Ok?
    ensures RotIndex(RotIndex(index).value) == Ok(index) <==> index <= 63
  {
  }

  /** `q * 8` has the same remainder modulo 7 as `q`. */
  lemma EightTimesMod7(q: nat)
    ensures (8 * q) % 7 == q % 7
  {
    assert 8 * q == 7 * q + q;
    assert (7 * q + q) % 7 == q % 7;
  }

  /** `index_to_xy` as written: x = idx % 8, y = (idx - x) % 7 with Rust's
      truncating `%`.  The rank is therefore (index / 8) % 7, which is wrong
      on rank 8. */
  function IndexToXy(index: Usize): (r: XyPair)
    ensures -8 < r.x < 8 && -7 < r.y < 7
    ensures index <= ISIZE_MAX ==> r.x == index % 8 && r.y == (index / 8) % 7
  {
    var idx := AsIsize(index);
    var x := RustRem(idx, 8);
    var y := RustRem(idx - x, 7);
    if index <= ISIZE_MAX then EightTimesMod7(index / 8); XyPair(x, y)
    else XyPair(x, y)
  }

  /** `xy_to_index`: both fields are cast to `usize` (negative values wrap to
      huge ones) and `8 * y + x` overflows, which panics in a debug build.
      Nothing checks that the pair is on the board: an off-board pair that
      does not overflow yields a valid-looking index of some other tile,
      and a negative file on a non-negative rank yields `8 * y + x` wrapped
      by 2^64. */
  function XyToIndex(p: XyPair): (r: Result<Usize>)
    ensures 0 <= p.x <= 7 && 0 <= p.y <= 7 ==> r.Ok? && r.value <= 63 && r.value % 8 == p.x && r.value / 8 == p.y
    ensures 0 <= p.x && 0 <= p.y ==> (r.Ok? <==> 8 * p.y + p.x <= USIZE_MAX)
    ensures 0 <= p.x && 0 <= p.y && r.Ok? ==> r.value == 8 * p.y + p.x
    ensures p.x < 0 && 0 <= p.y ==> (r.Ok? <==> 8 * p.y + p.x < 0)
    ensures p.x < 0 && 0 <= p.y && r.Ok? ==> r.value == 8 * p.y + p.x + USIZE_LIMIT
    ensures p.y < 0 ==> r == Err(ArithmeticOverflow)
  {
    var x := AsUsize(p.x);
    var y := AsUsize(p.y);
    if 8 * y + x > USIZE_MAX then Err(ArithmeticOverflow) else Ok(8 * y + x)
  }

  /** Off-board files alias tiles of the next rank: file x + 8 on rank y
      gives the index of file x on rank y + 1, so (8, 0) names tile 8 (A2). */
  lemma XyToIndexAliases(x: int, y: int)
    requires 0 <= x && 0 <= y && x + 8 <= ISIZE_MAX && y + 1 <= ISIZE_MAX
    ensures XyToIndex(XyPair(x + 8, y)) == XyToIndex(XyPair(x, y + 1))
    ensures XyToIndex(XyPair(8, 0)) == XyToIndex(XyPair(0, 1)) == Ok(8)
  {
  }

  /** Tile 56 (A8) lands on the same coordinate as tile 0 (A1). */
  lemma A8CollidesWithA1()
    ensures IndexToXy(56) == IndexToXy(0) == XyPair(0, 0)
  {
  }

  /** The index -> coordinate -> index round trip holds on ranks 1 to 7 and
      fails on rank 8, where it lands 56 tiles too low. */
  lemma IndexRoundTrip(index: Usize)
    requires index < 64
    ensures XyToIndex(IndexToXy(index)) == Ok(index) <==> index < 56
    ensures index >= 56 ==> XyToIndex(IndexToXy(index)) == Ok(index - 56)
  {
    var p := IndexToXy(index);
    assert p.x == index % 8;
    if index < 56 {
      assert p.y == index / 8;
    } else {
      assert p.y == 0;
    }
  }

  /** The coordinate -> index -> coordinate round trip holds for every file
      and for ranks 0 to 6; on rank 7 it yields rank 0. */
  lemma CoordRoundTrip(x: int, y: int)
    requires 0 <= x <= 7 && 0 <= y <= 7
    ensures XyToIndex(XyPair(x, y)).Ok?
    ensures IndexToXy(XyToIndex(XyPair(x, y)).value) == (if y <= 6 then XyPair(x, y) else XyPair(x, 0))
  {
    var i := XyToIndex(XyPair(x, y)).value;
    assert i == 8 * y + x;
  }

  /** Corrected conversion: the rank is `(idx - x) / 8`. */
  function IndexToXyFixed(index: Usize): (r: XyPair)
    ensures index <= ISIZE_MAX ==> r.x == index % 8 && r.y == index / 8
  {
    var idx := AsIsize(index);
    var x := RustRem(idx, 8);
    XyPair(x, (idx - x) / 8)
  }

  /** With the correction both round trips hold on the whole board. */
  lemma FixedRoundTrips(index: Usize, x: int, y: int)
    requires index < 64
    requires 0 <= x <= 7 && 0 <= y <= 7
    ensures XyToIndex(IndexToXyFixed(index)) == Ok(index)
    ensures XyToIndex(XyPair(x, y)).Ok?
    ensures IndexToXyFixed(XyToIndex(XyPair(x, y)).value) == XyPair(x, y)
  {
  }

  /** The corrected conversion gives distinct coordinates to distinct tiles. */
  lemma FixedInjective(i: Usize, j: Usize)
    requires i < 64 && j < 64 && i != j
    ensures IndexToXyFixed(i) != IndexToXyFixed(j)
  {
  }
}
