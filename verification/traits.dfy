/** Piece factories and the standard setup (`chess-core/src/traits.rs`).

    The source supplies one constructor per type and colour through a trait
    with default methods; each of them is `Init` with the type and colour
    fixed, so the setup tables below call `Init` directly.
 */
module Traits {
  import opened Types
  import opened Constants

  /** `ChessFactory::init`. */
  function Init(ty: PieceType, color: Color, loc: TileId, id: PieceId): (r: Piece)
    ensures r.ty == ty && r.color == color && r.loc == loc && r.id == id
  {
    Piece(id, color, ty, loc)
  }

  /** The back-rank order from the a-file to the h-file. */
  const BACK_RANK: seq<PieceType> := [Rook, Knight, Bishop, Queen, King, Bishop, Knight, Rook]

  /** `StandardChess::gen_std_white` (back rank, then pawns). */
  function GenStdWhite(): (r: seq<Piece>)
    ensures |r| == 16
    ensures forall k | 0 <= k < 16 :: r[k].color == White && r[k].loc == k && r[k].id == k + 1
  {
    [
      Init(Rook, White, A1, 1),
      Init(Knight, White, B1, 2),
      Init(Bishop, White, C1, 3),
      Init(Queen, White, D1, 4),
      Init(King, White, E1, 5),
      Init(Bishop, White, F1, 6),
      Init(Knight, White, G1, 7),
      Init(Rook, White, H1, 8)
    ] +
    [
      Init(Pawn, White, A2, 9),
      Init(Pawn, White, B2, 10),
      Init(Pawn, White, C2, 11),
      Init(Pawn, White, D2, 12),
      Init(Pawn, White, E2, 13),
      Init(Pawn, White, F2, 14),
      Init(Pawn, White, G2, 15),
      Init(Pawn, White, H2, 16)
    ]
  }

  /** `StandardChess::gen_std_black` (pawns, then back rank). */
  function GenStdBlack(): (r: seq<Piece>)
    ensures |r| == 16
    ensures forall k | 0 <= k < 16 :: r[k].color == Black && r[k].loc == 48 + k && r[k].id == k - 16
  {
    [
      Init(Pawn, Black, A7, -16),
      Init(Pawn, Black, B7, -15),
      Init(Pawn, Black, C7, -14),
      Init(Pawn, Black, D7, -13),
      Init(Pawn, Black, E7, -12),
      Init(Pawn, Black, F7, -11),
      Init(Pawn, Black, G7, -10),
      Init(Pawn, Black, H7, -9)
    ] +
    [
      Init(Rook, Black, A8, -8),
      Init(Knight, Black, B8, -7),
      Init(Bishop, Black, C8, -6),
      Init(Queen, Black, D8, -5),
      Init(King, Black, E8, -4),
      Init(Bishop, Black, F8, -3),
      Init(Knight, Black, G8, -2),
      Init(Rook, Black, H8, -1)
    ]
  }

  /** White piece k stands on tile k and has id k + 1; ranks 1 and 2 hold
      the back rank and the pawns, so the queen is on D1 and the king on E1. */
  lemma StandardWhite()
    ensures forall k | 0 <= k < 16 :: GenStdWhite()[k].color == White
    ensures forall k | 0 <= k < 16 :: GenStdWhite()[k].loc == k && GenStdWhite()[k].id == k + 1
    ensures forall k | 0 <= k < 8 :: GenStdWhite()[k].ty == BACK_RANK[k]
    ensures forall k | 8 <= k < 16 :: GenStdWhite()[k].ty == Pawn
    ensures GenStdWhite()[3].ty == Queen && GenStdWhite()[3].loc == D1
    ensures GenStdWhite()[4].ty == King && GenStdWhite()[4].loc == E1
  {
  }

  /** Black piece k stands on tile 48 + k and has id k - 16; rank 7 holds
      the pawns and rank 8 the back rank, so the queen is on D8 and the king
      on E8. */
  lemma StandardBlack()
    ensures forall k | 0 <= k < 16 :: GenStdBlack()[k].color == Black
    ensures forall k | 0 <= k < 16 :: GenStdBlack()[k].loc == 48 + k && GenStdBlack()[k].id == k - 16
    ensures forall k | 0 <= k < 8 :: GenStdBlack()[k].ty == Pawn
    ensures forall k | 8 <= k < 16 :: GenStdBlack()[k].ty == BACK_RANK[k - 8]
    ensures GenStdBlack()[11].ty == Queen && GenStdBlack()[11].loc == D8
    ensures GenStdBlack()[12].ty == King && GenStdBlack()[12].loc == E8
  {
  }

  /** The two setups occupy disjoint tiles, use 32 distinct ids, and the sign
      of an id tells its colour: white ids are 1..16, black ids -16..-1. */
  lemma StandardSidesApart()
    ensures forall j, k | 0 <= j < 16 && 0 <= k < 16 :: GenStdWhite()[j].loc != GenStdBlack()[k].loc
    ensures forall j, k | 0 <= j < 16 && 0 <= k < 16 :: GenStdWhite()[j].id != GenStdBlack()[k].id
    ensures forall j, k | 0 <= j < k < 16 :: GenStdWhite()[j].id != GenStdWhite()[k].id
    ensures forall j, k | 0 <= j < k < 16 :: GenStdBlack()[j].id != GenStdBlack()[k].id
    ensures forall k | 0 <= k < 16 :: 1 <= GenStdWhite()[k].id <= 16 && -16 <= GenStdBlack()[k].id <= -1
  {
    StandardWhite();
    StandardBlack();
  }
}
