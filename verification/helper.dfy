/** The names of the 64 tiles.  `constants.rs` is not part of this model;
    the tiles are numbered A1 = 0 .. H8 = 63 in the order the standard board
    table lists them, file by file within each rank.
 */
module Constants {
  import opened Types

  const A1: TileId := 0
  const B1: TileId := 1
  const C1: TileId := 2
  const D1: TileId := 3
  const E1: TileId := 4
  const F1: TileId := 5
  const G1: TileId := 6
  const H1: TileId := 7
  const A2: TileId := 8
  const B2: TileId := 9
  const C2: TileId := 10
  const D2: TileId := 11
  const E2: TileId := 12
  const F2: TileId := 13
  const G2: TileId := 14
  const H2: TileId := 15
  const A3: TileId := 16
  const B3: TileId := 17
  const C3: TileId := 18
  const D3: TileId := 19
  const E3: TileId := 20
  const F3: TileId := 21
  const G3: TileId := 22
  const H3: TileId := 23
  const A4: TileId := 24
  const B4: TileId := 25
  const C4: TileId := 26
  const D4: TileId := 27
  const E4: TileId := 28
  const F4: TileId := 29
  const G4: TileId := 30
  const H4: TileId := 31
  const A5: TileId := 32
  const B5: TileId := 33
  const C5: TileId := 34
  const D5: TileId := 35
  const E5: TileId := 36
  const F5: TileId := 37
  const G5: TileId := 38
  const H5: TileId := 39
  const A6: TileId := 40
  const B6: TileId := 41
  const C6: TileId := 42
  const D6: TileId := 43
  const E6: TileId := 44
  const F6: TileId := 45
  const G6: TileId := 46
  const H6: TileId := 47
  const A7: TileId := 48
  const B7: TileId := 49
  const C7: TileId := 50
  const D7: TileId := 51
  const E7: TileId := 52
  const F7: TileId := 53
  const G7: TileId := 54
  const H7: TileId := 55
  const A8: TileId := 56
  const B8: TileId := 57
  const C8: TileId := 58
  const D8: TileId := 59
  const E8: TileId := 60
  const F8: TileId := 61
  const G8: TileId := 62
  const H8: TileId := 63
}

/** The standard board (`chess-core/src/helper.rs`). */
module Helper {
  import opened Ints
  import opened Wrappers
  import opened Types
  import opened Constants

  /** The constructor calls of `chess_board` for one rank (0 = rank 1), in
      table order. */
  function RankEntries(rank: nat): (r: seq<Result<Tile>>)
    requires rank < 8
    ensures |r| == 8
  {
    match rank
    case 0 =>
      [
        NewDark(A1, false, true),
        NewLight(B1, false, true),
        NewDark(C1, false, true),
        NewLight(D1, false, true),
        NewDark(E1, false, true),
        NewLight(F1, false, true),
        NewDark(G1, false, true),
        NewLight(H1, false, true)
      ]
    case 1 =>
      [
        NewLight(A2, false, false),
        NewDark(B2, false, false),
        NewLight(C2, false, false),
        NewDark(D2, false, false),
        NewLight(E2, false, false),
        NewDark(F2, false, false),
        NewLight(G2, false, false),
        NewDark(H2, false, false)
      ]
    case 2 =>
      [
        NewDark(A3, false, false),
        NewLight(B3, false, false),
        NewDark(C3, false, false),
        NewLight(D3, false, false),
        NewDark(E3, false, false),
        NewLight(F3, false, false),
        NewDark(G3, false, false),
        NewLight(H3, false, false)
      ]
    case 3 =>
      [
        NewLight(A4, false, false),
        NewDark(B4, false, false),
        NewLight(C4, false, false),
        NewDark(D4, false, false),
        NewLight(E4, false, false),
        NewDark(F4, false, false),
        NewLight(G4, false, false),
        NewDark(H4, false, false)
      ]
    case 4 =>
      [
        NewDark(A5, false, false),
        NewLight(B5, false, false),
        NewDark(C5, false, false),
        NewLight(D5, false, false),
        NewDark(E5, false, false),
        NewLight(F5, false, false),
        NewDark(G5, false, false),
        NewLight(H5, false, false)
      ]
    case 5 =>
      [
        NewLight(A6, false, false),
        NewDark(B6, false, false),
        NewLight(C6, false, false),
        NewDark(D6, false, false),
        NewLight(E6, false, false),
        NewDark(F6, false, false),
        NewLight(G6, false, false),
        NewDark(H6, false, false)
      ]
    case 6 =>
      [
        NewDark(A7, false, false),
        NewLight(B7, false, false),
        NewDark(C7, false, false),
        NewLight(D7, false, false),
        NewDark(E7, false, false),
        NewLight(F7, false, false),
        NewDark(G7, false, false),
        NewLight(H7, false, false)
      ]
    case 7 =>
      [
        NewLight(A8, true, false),
        NewDark(B8, true, false),
        NewLight(C8, true, false),
        NewDark(D8, true, false),
        NewLight(E8, true, false),
        NewDark(F8, true, false),
        NewLight(G8, true, false),
        NewDark(H8, true, false)
      ]
  }

  /** The 64 constructor calls of `chess_board` in table order: entry k is
      file k % 8 of rank k / 8. */
  function Entries(): (r: seq<Result<Tile>>)
    ensures |r| == TILECOUNT
  {
    seq(TILECOUNT, k requires 0 <= k < TILECOUNT => RankEntries(k / 8)[k % 8])
  }

  /** The tile the standard board is meant to hold at index i: dark exactly
      when file + rank is even, promoting white pawns on rank 8 and black
      pawns on rank 1, and empty. */
  function StandardTile(i: TileId): Tile {
    Tile(i >= 56, i < 8, if (i % 8 + i / 8) % 2 == 0 then Dark else Light, i, None)
  }

  /** Each rank of the literal table holds the standard tiles of that rank,
      and none of its constructor calls panics. */
  lemma RankIsStandard(rank: nat)
    requires rank < 8
    ensures forall f | 0 <= f < 8 :: RankEntries(rank)[f] == Ok(StandardTile(8 * rank + f))
  {
    if rank < 4 {
      LowerRankIsStandard(rank);
    } else {
      UpperRankIsStandard(rank);
    }
  }

  /** Ranks 1 to 4 of the literal table.  Splitting the table into two
      halves only keeps each proof obligation small for the solver. */
  lemma LowerRankIsStandard(rank: nat)
    requires rank < 4
    ensures forall f | 0 <= f < 8 :: RankEntries(rank)[f] == Ok(StandardTile(8 * rank + f))
  {
  }

  /** Ranks 5 to 8 of the literal table. */
  lemma UpperRankIsStandard(rank: nat)
    requires 4 <= rank < 8
    ensures forall f | 0 <= f < 8 :: RankEntries(rank)[f] == Ok(StandardTile(8 * rank + f))
  {
  }

  /** Every entry of the literal table is the standard tile of its index. */
  lemma EntriesAreStandard()
    ensures forall k | 0 <= k < TILECOUNT :: Entries()[k] == Ok(StandardTile(k))
  {
    forall k | 0 <= k < TILECOUNT
      ensures Entries()[k] == Ok(StandardTile(k))
    {
      RankIsStandard(k / 8);
    }
  }

  /** `chess_board`: none of the 64 constructor calls panics, so the board
      is the sequence of the tiles they build. */
  function ChessBoard(): (b: seq<Tile>)
    ensures |b| == TILECOUNT
  {
    EntriesAreStandard();
    seq(TILECOUNT, i requires 0 <= i < TILECOUNT => Entries()[i].value)
  }

  /** The tiles of a board that promote white pawns. */
  function WhiteEndzone(b: seq<Tile>): set<nat> {
    set i | 0 <= i < |b| && b[i].wEndzone
  }

  /** The tiles of a board that promote black pawns. */
  function BlackEndzone(b: seq<Tile>): set<nat> {
    set i | 0 <= i < |b| && b[i].bEndzone
  }

  /** A board whose every tile is the standard tile of its index. */
  ghost predicate IsStandard(b: seq<Tile>) {
    |b| == TILECOUNT && forall i | 0 <= i < |b| :: b[i] == StandardTile(i)
  }

  /** A standard board: every tile knows its own index and starts empty,
      shading alternates with A1 dark, and no tile promotes both colours. */
  lemma StandardTiles(b: seq<Tile>)
    requires IsStandard(b)
    ensures forall i | 0 <= i < |b| :: b[i].index == i && b[i].pz == None
    ensures forall i | 0 <= i < |b| :: (b[i].color == Dark <==> (i % 8 + i / 8) % 2 == 0)
    ensures forall i | 0 <= i < |b| :: !(b[i].wEndzone && b[i].bEndzone)
    ensures b[A1].color == Dark && b[B1].color == Light && b[A2].color == Light
  {
  }

  /** On a standard board rank 1 promotes black and rank 8 promotes white:
      eight tiles each. */
  lemma StandardEndzones(b: seq<Tile>)
    requires IsStandard(b)
    ensures WhiteEndzone(b) == Range(56, 64) && |WhiteEndzone(b)| == 8
    ensures BlackEndzone(b) == Range(0, 8) && |BlackEndzone(b)| == 8
  {
    forall i | 0 <= i < |b|
      ensures b[i].wEndzone <==> 56 <= i
      ensures b[i].bEndzone <==> i < 8
    {
      assert b[i] == StandardTile(i);
    }
    EndzonesFrom(b, 56, 8);
  }

  /** A board whose white endzone is the tiles from w on and whose black
      endzone is the tiles below k. */
  lemma EndzonesFrom(b: seq<Tile>, w: nat, k: nat)
    requires w <= |b| && k <= |b|
    requires forall i | 0 <= i < |b| :: (b[i].wEndzone <==> w <= i) && (b[i].bEndzone <==> i < k)
    ensures WhiteEndzone(b) == Range(w, |b|) && |WhiteEndzone(b)| == |b| - w
    ensures BlackEndzone(b) == Range(0, k) && |BlackEndzone(b)| == k
  {
    assert WhiteEndzone(b) == Range(w, |b|);
    assert BlackEndzone(b) == Range(0, k);
    RangeSize(w, |b|);
    RangeSize(0, k);
  }

  /** `chess_board` builds a standard board. */
  lemma ChessBoardIsStandard()
    ensures IsStandard(ChessBoard())
  {
    EntriesAreStandard();
  }

  /** Every tile of `chess_board` carries its own index and starts empty. */
  lemma ChessBoardEmpty()
    ensures forall i | 0 <= i < TILECOUNT :: ChessBoard()[i].index == i && ChessBoard()[i].pz == None
  {
    ChessBoardIsStandard();
    StandardTiles(ChessBoard());
  }

  /** Each queen's starting tile has the shade its colour compares equal to:
      D1 is light and D8 is dark. */
  lemma QueensOnTheirShade(b: seq<Tile>)
    requires IsStandard(b)
    ensures b[D1].color == Light && ColorMatches(White, b[D1].color)
    ensures b[D8].color == Dark && ColorMatches(Black, b[D8].color)
  {
  }
}
