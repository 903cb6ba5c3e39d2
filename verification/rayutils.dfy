/** Screen placement of board coordinates in the renderer
    (`chess-ray/src/utils.rs`). */
module RayUtils {
  import opened Ints
  import opened Wrappers
  import opened Math

  /** `get_y_from_col`: turns a rank 0..=7 into the screen row counted from
      the top, and panics on anything else. */
  function GetYFromCol(col: I32): (r: Result<Usize>)
    ensures r.Ok? <==> 0 <= col <= 7
    ensures r.Ok? ==> r.value == 7 - col
    ensures r.Err? ==> r.error == UnintendedUsage
  {
    match col
    case 0 => Ok(7)
    case 1 => Ok(6)
    case 2 => Ok(5)
    case 3 => Ok(4)
    case 4 => Ok(3)
    case 5 => Ok(2)
    case 6 => Ok(1)
    case 7 => Ok(0)
    case _ => Err(UnintendedUsage)
  }

  /** Flipping twice gives the rank back, for exactly the ranks 0..=7. */
  lemma GetYFromColInvolution(col: I32)
    ensures GetYFromCol(col).Ok? && GetYFromCol(GetYFromCol(col).value) == Ok(col) <==> 0 <= col <= 7
  {
  }

  /** `xy_to_row_col`: both coordinates are cast to i32, which keeps their
      low 32 bits, and the rank is flipped.  So a rank outside 0..=7 panics
      unless its low 32 bits land in 0..=7. */
  function XyToRowCol(p: XyPair): (r: Result<(I32, I32)>)
    ensures r.Ok? <==> 0 <= AsI32(p.y) <= 7
    ensures r.Ok? ==> r.value == (AsI32(p.x), 7 - AsI32(p.y))
    ensures 0 <= p.y <= 7 ==> r.Ok? && r.value.1 == 7 - p.y
    ensures -0x8000_0000 <= p.x <= 0x7FFF_FFFF && r.Ok? ==> r.value.0 == p.x
    ensures r.Err? ==> r.error == UnintendedUsage
  {
    var x := AsI32(p.x);
    match GetYFromCol(AsI32(p.y))
    case Err(e) => Err(e)
    case Ok(y) => Ok((x, y))
  }

  /** A rank whose low 32 bits are in range slips through: rank 2^32 is drawn
      on the row of rank 0. */
  lemma TruncatedRankDrawn()
    ensures XyToRowCol(XyPair(0, I32_LIMIT)) == XyToRowCol(XyPair(0, 0)) == Ok((0, 7))
  {
  }

  /** Tile i lands on column i % 8 and on row 7 - i / 8 when coordinates come
      from the corrected `index_to_xy`; with `index_to_xy` as written, rank 8
      (tiles 56..63) is drawn over rank 1. */
  lemma RowColOfTile(i: Usize)
    requires i < 64
    ensures XyToRowCol(IndexToXyFixed(i)) == Ok((i % 8, 7 - i / 8))
    ensures XyToRowCol(IndexToXy(i)) == Ok((i % 8, if i < 56 then 7 - i / 8 else 7))
  {
  }
}
