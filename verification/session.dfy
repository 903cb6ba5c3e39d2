/** Sessions and standard setup (`chess-core/src/lib.rs`).

    The game-id counter is a process-wide static in the source; it is held
    here in the single `GameMaster` value and advanced sequentially.
    `ChessGame::new` hands out black ids from `-1..=-16`, a range that is
    empty, so its first black `unwrap_unchecked` is undefined behaviour:
    `NewGame` models that as written and `NewGameFixed` uses `-16..=-1`.
 */
module Session {
  import opened Ints
  import opened Wrappers
  import opened Types
  import opened Helper
  import opened Traits
  import opened Game

  type GameId = U64

  /** One call of the indexer closure: reset at `u64::MAX`, then increment
      and read back.  Returns the stored counter and the issued id, which
      are equal. */
  function NextId(counter: U64): (r: (U64, GameId))
    ensures r.0 == r.1
    ensures r.1 == counter % U64_MAX + 1
    ensures 1 <= r.1
  {
    var x := if counter == U64_MAX then 0 else counter;
    (x + 1, x + 1)
  }

  /** The ids issued by `n` successive calls starting from `counter`. */
  function Issue(counter: U64, n: nat): (ids: seq<GameId>)
    ensures |ids| == n
    decreases n
  {
    if n == 0 then []
    else
      var (c, id) := NextId(counter);
      [id] + Issue(c, n - 1)
  }

  /** The k-th issued id is `(counter + k) % u64::MAX + 1`: the counter runs
      through 1 ..= u64::MAX and then starts again at 1, never issuing 0. */
  lemma {:induction false} IssueClosedForm(counter: U64, n: nat)
    ensures forall k | 0 <= k < n :: Issue(counter, n)[k] == (counter + k) % U64_MAX + 1
    decreases n
  {
    if n > 0 {
      var (c, id) := NextId(counter);
      IssueClosedForm(c, n - 1);
      forall k | 1 <= k < n
        ensures Issue(counter, n)[k] == (counter + k) % U64_MAX + 1
      {
        assert Issue(counter, n)[k] == Issue(c, n - 1)[k - 1];
        assert c == counter % U64_MAX + 1;
        ShiftMod(counter, k);
      }
    }
  }

  /** Adding one to the counter before reducing does not change the sum's
      remainder. */
  lemma ShiftMod(counter: U64, k: nat)
    requires k >= 1
    ensures (counter % U64_MAX + 1 + (k - 1)) % U64_MAX == (counter + k) % U64_MAX
  {
    var q := counter / U64_MAX;
    assert counter == q * U64_MAX + counter % U64_MAX;
    assert q == 0 || q == 1;
  }

  /** From a fresh counter the ids are 1, 2, 3, .. and within one cycle of
      `u64::MAX` calls no id is issued twice. */
  lemma IssueFresh(counter: U64, n: nat)
    requires n <= U64_MAX
    ensures counter == 0 ==> forall k | 0 <= k < n :: Issue(counter, n)[k] == k + 1
    ensures forall j, k | 0 <= j < k < n :: Issue(counter, n)[j] != Issue(counter, n)[k]
    ensures forall k | 0 <= k < n :: Issue(counter, n)[k] != 0
  {
    IssueClosedForm(counter, n);
    var ids := Issue(counter, n);
    forall j, k | 0 <= j < k < n
      ensures ids[j] != ids[k]
    {
      DistinctMod(counter + j, counter + k);
    }
    if counter == 0 {
      forall k | 0 <= k < n
        ensures ids[k] == k + 1
      {
        assert ids[k] == k % U64_MAX + 1;
      }
    }
  }

  /** Two numbers less than `u64::MAX` apart have different remainders. */
  lemma DistinctMod(a: nat, b: nat)
    requires a < b < a + U64_MAX
    ensures a % U64_MAX != b % U64_MAX
  {
    var qa, qb := a / U64_MAX, b / U64_MAX;
    assert a == qa * U64_MAX + a % U64_MAX;
    assert b == qb * U64_MAX + b % U64_MAX;
    assert b - a == (qb - qa) * U64_MAX + (b % U64_MAX - a % U64_MAX);
  }

  /** The ids a Rust `lo..=hi` range yields: lo, lo + 1, .., hi, and nothing
      when lo > hi. */
  function IdRange(lo: PieceId, hi: PieceId): (r: seq<PieceId>)
    ensures |r| == if lo <= hi then hi - lo + 1 else 0
    ensures forall k | 0 <= k < |r| :: r[k] == lo + k
  {
    if lo > hi then [] else seq(hi - lo + 1, k requires 0 <= k < hi - lo + 1 => lo + k)
  }

  /** The black id range of the source is empty. */
  lemma BlackRangeEmpty()
    ensures IdRange(-1, -16) == []
    ensures |IdRange(1, 16)| == 16 && |IdRange(-16, -1)| == 16
  {
  }

  /** The setup loop of `ChessGame::new` for one player: take the next id
      (`unwrap_unchecked` on an exhausted iterator is undefined behaviour),
      stamp it on the piece, and place the piece on its own tile; the first
      failure ends the loop. */
  function PlaceAll(board: seq<Tile>, arena: seq<Piece>, player: PlayerData, pieces: seq<Piece>, ids: seq<PieceId>): (r: Result<Placement>)
    requires |board| == TILECOUNT
    ensures r.Ok? ==> |r.value.board| == TILECOUNT
    ensures r.Ok? ==> r.value.player.color == player.color && r.value.player.name == player.name
    ensures |pieces| > 0 && |ids| == 0 ==> r == Err(UndefinedBehavior)
    decreases |pieces|
  {
    if |pieces| == 0 then Ok(Placement(board, arena, player))
    else if |ids| == 0 then Err(UndefinedBehavior)
    else
      var piece := SetId(pieces[0], ids[0]);
      match AddPiece(board, piece.loc, player, piece, arena)
      case Err(e) => Err(e)
      case Ok(placed) => PlaceAll(placed.board, placed.arena, placed.player, pieces[1..], ids[1..])
  }

  /** The handles a, a + 1, .., a + n - 1. */
  function Handles(a: nat, n: nat): (hs: seq<PieceRef>)
    ensures |hs| == n && forall k | 0 <= k < n :: hs[k] == a + k
  {
    seq(n, k requires 0 <= k < n => a + k)
  }

  /** The pieces stand on pairwise different tiles of the board. */
  ghost predicate DistinctTiles(pieces: seq<Piece>) {
    forall j, k | 0 <= j < k < |pieces| :: pieces[j].loc != pieces[k].loc
  }

  /** Whether some piece of the list stands on tile i. */
  ghost predicate Covers(pieces: seq<Piece>, i: int) {
    exists k | 0 <= k < |pieces| :: pieces[k].loc == i
  }

  /** The loop can place every piece: enough ids, the player's colour, and
      pairwise different empty tiles on the board. */
  ghost predicate Placeable(board: seq<Tile>, player: PlayerData, pieces: seq<Piece>, ids: seq<PieceId>) {
    && |board| == TILECOUNT && |ids| >= |pieces|
    && (forall k | 0 <= k < |pieces| :: pieces[k].color == player.color && pieces[k].loc < TILECOUNT)
    && (forall k | 0 <= k < |pieces| :: board[pieces[k].loc].pz.None?)
    && DistinctTiles(pieces)
  }

  /** Placing the first piece leaves the rest placeable, and the loop goes on
      from the placement it made. */
  lemma PlaceFirst(board: seq<Tile>, arena: seq<Piece>, player: PlayerData, pieces: seq<Piece>, ids: seq<PieceId>)
    requires Placeable(board, player, pieces, ids) && |pieces| > 0
    ensures AddPiece(board, pieces[0].loc, player, SetId(pieces[0], ids[0]), arena).Ok?
    ensures var placed := AddPiece(board, pieces[0].loc, player, SetId(pieces[0], ids[0]), arena).value;
      && Placeable(placed.board, placed.player, pieces[1..], ids[1..])
      && PlaceAll(board, arena, player, pieces, ids) == PlaceAll(placed.board, placed.arena, placed.player, pieces[1..], ids[1..])
  {
    var placed := AddPiece(board, pieces[0].loc, player, SetId(pieces[0], ids[0]), arena).value;
    var rest := pieces[1..];
    forall k | 0 <= k < |rest|
      ensures placed.board[rest[k].loc].pz.None?
    {
      assert rest[k] == pieces[k + 1];
    }
  }

  /** Placeable pieces are all placed: each gets the next handle and its
      id, and the arena before them is kept. */
  lemma {:induction false} PlaceAllSucceeds(board: seq<Tile>, arena: seq<Piece>, player: PlayerData, pieces: seq<Piece>, ids: seq<PieceId>)
    requires Placeable(board, player, pieces, ids)
    ensures PlaceAll(board, arena, player, pieces, ids).Ok?
    ensures var r := PlaceAll(board, arena, player, pieces, ids).value;
      && |r.arena| == |arena| + |pieces| && r.arena[..|arena|] == arena
      && (forall h | |arena| <= h < |r.arena| :: r.arena[h] == SetId(pieces[h - |arena|], ids[h - |arena|]))
    decreases |pieces|
  {
    if |pieces| > 0 {
      PlaceFirst(board, arena, player, pieces, ids);
      var placed := AddPiece(board, pieces[0].loc, player, SetId(pieces[0], ids[0]), arena).value;
      PlaceAllSucceeds(placed.board, placed.arena, placed.player, pieces[1..], ids[1..]);
      var r := PlaceAll(board, arena, player, pieces, ids).value;
      forall h | |placed.arena| <= h < |r.arena|
        ensures r.arena[h] == SetId(pieces[h - |arena|], ids[h - |arena|])
      {
        assert r.arena[h] == SetId(pieces[1..][h - |placed.arena|], ids[1..][h - |placed.arena|]);
      }
      assert r.arena[..|placed.arena|] == placed.arena;
    }
  }

  /** Placing placeable pieces grows the roster by exactly their handles. */
  lemma {:induction false} PlaceAllRoster(board: seq<Tile>, arena: seq<Piece>, player: PlayerData, pieces: seq<Piece>, ids: seq<PieceId>)
    requires Placeable(board, player, pieces, ids)
    ensures PlaceAll(board, arena, player, pieces, ids).Ok?
    ensures PlaceAll(board, arena, player, pieces, ids).value.player == player.(pieces := player.pieces + Handles(|arena|, |pieces|))
    decreases |pieces|
  {
    if |pieces| > 0 {
      PlaceFirst(board, arena, player, pieces, ids);
      var placed := AddPiece(board, pieces[0].loc, player, SetId(pieces[0], ids[0]), arena).value;
      PlaceAllRoster(placed.board, placed.arena, placed.player, pieces[1..], ids[1..]);
      assert Handles(|arena|, |pieces|) == [|arena|] + Handles(|placed.arena|, |pieces| - 1);
    }
  }

  /** Placeable pieces each end up linked from their own tile, and the tiles
      no piece names are untouched. */
  lemma {:induction false} PlaceAllBoard(board: seq<Tile>, arena: seq<Piece>, player: PlayerData, pieces: seq<Piece>, ids: seq<PieceId>)
    requires Placeable(board, player, pieces, ids)
    ensures PlaceAll(board, arena, player, pieces, ids).Ok?
    ensures var r := PlaceAll(board, arena, player, pieces, ids).value;
      && (forall k | 0 <= k < |pieces| :: r.board[pieces[k].loc] == board[pieces[k].loc].(pz := Some(|arena| + k)))
      && (forall i | 0 <= i < TILECOUNT && !Covers(pieces, i) :: r.board[i] == board[i])
    decreases |pieces|
  {
    PlaceAllSucceeds(board, arena, player, pieces, ids);
    if |pieces| > 0 {
      PlaceFirst(board, arena, player, pieces, ids);
      var placed := AddPiece(board, pieces[0].loc, player, SetId(pieces[0], ids[0]), arena).value;
      var rest := pieces[1..];
      PlaceAllBoard(placed.board, placed.arena, placed.player, rest, ids[1..]);
      var r := PlaceAll(board, arena, player, pieces, ids).value;
      forall k | 0 <= k < |pieces|
        ensures r.board[pieces[k].loc] == board[pieces[k].loc].(pz := Some(|arena| + k))
      {
        if k > 0 {
          assert pieces[k] == rest[k - 1];
        } else {
          assert !Covers(rest, pieces[0].loc);
        }
      }
      forall i | 0 <= i < TILECOUNT && !Covers(pieces, i)
        ensures r.board[i] == board[i]
      {
        forall k | 0 <= k < |rest|
          ensures rest[k].loc != i
        {
          assert rest[k] == pieces[k + 1];
        }
        assert i != pieces[0].loc;
      }
    }
  }

  /** Whatever the loop places, it keeps the ownership discipline. */
  lemma {:induction false} PlaceAllKeepsLinked(board: seq<Tile>, arena: seq<Piece>, player: PlayerData, other: PlayerData, pieces: seq<Piece>, ids: seq<PieceId>)
    requires |board| == TILECOUNT && Linked(board, arena, player, other)
    ensures PlaceAll(board, arena, player, pieces, ids).Ok? ==>
      var r := PlaceAll(board, arena, player, pieces, ids).value;
      Linked(r.board, r.arena, r.player, other)
    decreases |pieces|
  {
    if |pieces| > 0 && |ids| > 0 {
      var piece := SetId(pieces[0], ids[0]);
      var res := AddPiece(board, piece.loc, player, piece, arena);
      AddPieceKeepsLinked(board, arena, player, other, piece.loc, piece);
      if res.Ok? {
        PlaceAllKeepsLinked(res.value.board, res.value.arena, res.value.player, other, pieces[1..], ids[1..]);
      }
    }
  }

  /** Clock budget of each player, in milliseconds. */
  const START_CLOCK: U32 := 5400000

  /** The label `ChessGame::new` gives the history: `stringify!` pastes the
      text of its argument, so every game gets the same label. */
  const HISTORY_LABEL: string := "History of Game &game_id"

  datatype ChessGame = ChessGame(gameId: GameId, game: GameState)

  /** The body of `ChessGame::new` with the id iterators as sequences: white
      pieces first into player 1, then black pieces into player 2, on one
      board; a failed placement propagates. */
  function SetupGame(gameId: GameId, board: seq<Tile>, whiteIds: seq<PieceId>, blackIds: seq<PieceId>): (r: Result<ChessGame>)
    requires EmptyBoard(board)
    ensures r.Ok? ==> r.value.gameId == gameId
    ensures r.Ok? ==> var g := r.value.game;
      && !g.started && !g.finished && g.p1Clock == Some(START_CLOCK) && g.p2Clock == Some(START_CLOCK)
      && g.hist == History(HISTORY_LABEL, [])
      && g.p1.color == White && g.p1.name == "player_1"
      && g.p2.color == Black && g.p2.name == "player_2"
      && Valid(g)
  {
    var p1 := NewWhitePlayer();
    var p2 := NewBlackPlayer();
    EmptyBoardLinked(board, p1, p2);
    PlaceAllKeepsLinked(board, [], p1, p2, GenStdWhite(), whiteIds);
    match PlaceAll(board, [], p1, GenStdWhite(), whiteIds)
    case Err(e) => Err(e)
    case Ok(w) =>
      LinkedSymmetric(w.board, w.arena, w.player, p2);
      PlaceAllKeepsLinked(w.board, w.arena, p2, w.player, GenStdBlack(), blackIds);
      match PlaceAll(w.board, w.arena, p2, GenStdBlack(), blackIds)
      case Err(e) => Err(e)
      case Ok(b) =>
        LinkedSymmetric(b.board, b.arena, b.player, w.player);
        Ok(ChessGame(gameId, GameState(false, false, Some(START_CLOCK), Some(START_CLOCK), w.player, b.player, b.board, b.arena, History(HISTORY_LABEL, []))))
  }

  /** `ChessGame::new` as written: white ids from `1..=16`, black ids from
      `-1..=-16`.  The black range is empty, so after the white pieces are
      placed the first black unwrap is undefined behaviour, for every id. */
  function NewGame(gameId: GameId): (r: Result<ChessGame>)
    ensures r == Err(UndefinedBehavior)
  {
    ChessBoardEmpty();
    SetupIsUndefined(gameId, ChessBoard());
    SetupGame(gameId, ChessBoard(), IdRange(1, 16), IdRange(-1, -16))
  }

  /** `ChessGame::new` with the black range reversed to `-16..=-1`, which
      stamps each black piece with the id it already carries. */
  function NewGameFixed(gameId: GameId): (r: Result<ChessGame>)
    ensures r.Ok? && r.value.gameId == gameId && Valid(r.value.game)
  {
    ChessBoardEmpty();
    FixedSetupSucceeds(gameId, ChessBoard());
    SetupGame(gameId, ChessBoard(), IdRange(1, 16), IdRange(-16, -1))
  }

  /** Re-stamping the white ids from `1..=16` and the black ids from
      `-16..=-1` leaves every standard piece as it was. */
  lemma RestampIsIdentity()
    ensures forall k | 0 <= k < 16 :: SetId(GenStdWhite()[k], IdRange(1, 16)[k]) == GenStdWhite()[k]
    ensures forall k | 0 <= k < 16 :: SetId(GenStdBlack()[k], IdRange(-16, -1)[k]) == GenStdBlack()[k]
  {
    StandardWhite();
    StandardBlack();
  }

  /** Sixteen pieces of the player's colour standing on the consecutive
      empty tiles base .. base + 15 are all placed: each gets the next handle
      and its id, the roster grows by those handles, and exactly those tiles
      change, each now naming its piece. */
  lemma PlaceBlock(board: seq<Tile>, arena: seq<Piece>, player: PlayerData, pieces: seq<Piece>, ids: seq<PieceId>, base: nat)
    requires |board| == TILECOUNT && |pieces| == 16 && |ids| >= 16 && base + 16 <= TILECOUNT
    requires forall k | 0 <= k < 16 :: pieces[k].loc == base + k && pieces[k].color == player.color
    requires forall i | base <= i < base + 16 :: board[i].pz.None?
    ensures PlaceAll(board, arena, player, pieces, ids).Ok?
    ensures var r := PlaceAll(board, arena, player, pieces, ids).value;
      && |r.arena| == |arena| + 16 && r.arena[..|arena|] == arena
      && (forall k | 0 <= k < 16 :: r.arena[|arena| + k] == SetId(pieces[k], ids[k]))
      && r.player == player.(pieces := player.pieces + Handles(|arena|, 16))
      && |r.board| == TILECOUNT
      && (forall i | 0 <= i < TILECOUNT :: r.board[i].pz == if base <= i < base + 16 then Some(|arena| + i - base) else board[i].pz)
  {
    assert Placeable(board, player, pieces, ids);
    PlaceAllSucceeds(board, arena, player, pieces, ids);
    PlaceAllRoster(board, arena, player, pieces, ids);
    PlaceAllBoard(board, arena, player, pieces, ids);
    var r := PlaceAll(board, arena, player, pieces, ids).value;
    forall k | 0 <= k < 16
      ensures r.arena[|arena| + k] == SetId(pieces[k], ids[k])
    {
      assert |arena| <= |arena| + k < |r.arena|;
    }
    forall i | 0 <= i < TILECOUNT
      ensures r.board[i].pz == if base <= i < base + 16 then Some(|arena| + i - base) else board[i].pz
    {
      if base <= i < base + 16 {
        assert pieces[i - base].loc == i;
      } else {
        assert !Covers(pieces, i);
      }
    }
  }

  /** The first block placed on an empty board, by a player with an empty
      roster: the block's tiles fill with handles 0 .. 15 in order and the
      rest of the board stays empty. */
  lemma FirstBlock(board: seq<Tile>, player: PlayerData, pieces: seq<Piece>, ids: seq<PieceId>)
    requires EmptyBoard(board) && player.pieces == [] && |pieces| == 16 && |ids| >= 16
    requires forall k | 0 <= k < 16 :: pieces[k].loc == k && pieces[k].color == player.color
    ensures PlaceAll(board, [], player, pieces, ids).Ok?
    ensures var w := PlaceAll(board, [], player, pieces, ids).value;
      && |w.arena| == 16 && w.player == player.(pieces := Handles(0, 16))
      && (forall k | 0 <= k < 16 :: w.arena[k] == SetId(pieces[k], ids[k]))
      && |w.board| == TILECOUNT
      && (forall i | 0 <= i < TILECOUNT :: w.board[i].pz == if i < 16 then Some(i) else None)
  {
    PlaceBlock(board, [], player, pieces, ids, 0);
    var w := PlaceAll(board, [], player, pieces, ids).value;
    assert player.pieces + Handles(0, 16) == Handles(0, 16);
    forall i | 0 <= i < TILECOUNT
      ensures w.board[i].pz == if i < 16 then Some(i) else None
    {
      assert board[i].pz == None;
    }
  }

  /** The white phase of the setup on an empty board: ranks 1 and 2 fill
      with handles 0 .. 15 and the rest of the board stays empty. */
  lemma WhitePhase(board: seq<Tile>, ids: seq<PieceId>)
    requires EmptyBoard(board) && |ids| >= 16
    ensures PlaceAll(board, [], NewWhitePlayer(), GenStdWhite(), ids).Ok?
    ensures var w := PlaceAll(board, [], NewWhitePlayer(), GenStdWhite(), ids).value;
      && |w.arena| == 16 && w.player == NewWhitePlayer().(pieces := Handles(0, 16))
      && (forall k | 0 <= k < 16 :: w.arena[k] == SetId(GenStdWhite()[k], ids[k]))
      && |w.board| == TILECOUNT
      && (forall i | 0 <= i < TILECOUNT :: w.board[i].pz == if i < 16 then Some(i) else None)
  {
    StandardWhite();
    FirstBlock(board, NewWhitePlayer(), GenStdWhite(), ids);
  }

  /** The second block placed on tiles 48 .. 63 after a first block on
      tiles 0 .. 15, by a player with an empty roster: it takes handles
      16 .. 31 and leaves ranks 3 to 6 empty. */
  lemma SecondBlock(board: seq<Tile>, arena: seq<Piece>, player: PlayerData, pieces: seq<Piece>, ids: seq<PieceId>)
    requires |board| == TILECOUNT && |arena| == 16 && player.pieces == [] && |pieces| == 16 && |ids| >= 16
    requires forall i | 0 <= i < TILECOUNT :: board[i].pz == if i < 16 then Some(i) else None
    requires forall k | 0 <= k < 16 :: pieces[k].loc == 48 + k && pieces[k].color == player.color
    ensures PlaceAll(board, arena, player, pieces, ids).Ok?
    ensures var b := PlaceAll(board, arena, player, pieces, ids).value;
      && |b.arena| == 32 && b.arena[..16] == arena && b.player == player.(pieces := Handles(16, 16))
      && (forall k | 0 <= k < 16 :: b.arena[16 + k] == SetId(pieces[k], ids[k]))
      && |b.board| == TILECOUNT
      && (forall i | 0 <= i < TILECOUNT :: b.board[i].pz.Some? <==> i < 16 || 48 <= i)
  {
    PlaceBlock(board, arena, player, pieces, ids, 48);
    var b := PlaceAll(board, arena, player, pieces, ids).value;
    assert player.pieces + Handles(16, 16) == Handles(16, 16);
    forall i | 0 <= i < TILECOUNT
      ensures b.board[i].pz.Some? <==> i < 16 || 48 <= i
    {
      assert b.board[i].pz == if 48 <= i then Some(i - 32) else board[i].pz;
    }
  }

  /** The black phase of the setup after the white phase. */
  lemma BlackPhase(board: seq<Tile>, arena: seq<Piece>, ids: seq<PieceId>)
    requires |board| == TILECOUNT && |arena| == 16 && |ids| >= 16
    requires forall i | 0 <= i < TILECOUNT :: board[i].pz == if i < 16 then Some(i) else None
    ensures PlaceAll(board, arena, NewBlackPlayer(), GenStdBlack(), ids).Ok?
    ensures var b := PlaceAll(board, arena, NewBlackPlayer(), GenStdBlack(), ids).value;
      && |b.arena| == 32 && b.arena[..16] == arena && b.player == NewBlackPlayer().(pieces := Handles(16, 16))
      && (forall k | 0 <= k < 16 :: b.arena[16 + k] == SetId(GenStdBlack()[k], ids[k]))
      && |b.board| == TILECOUNT
      && (forall i | 0 <= i < TILECOUNT :: b.board[i].pz.Some? <==> i < 16 || 48 <= i)
  {
    StandardBlack();
    SecondBlock(board, arena, NewBlackPlayer(), GenStdBlack(), ids);
  }

  /** On any empty board, the setup with the as-written black range fails
      with undefined behaviour. */
  lemma SetupIsUndefined(gameId: GameId, board: seq<Tile>)
    requires EmptyBoard(board)
    ensures SetupGame(gameId, board, IdRange(1, 16), IdRange(-1, -16)) == Err(UndefinedBehavior)
  {
    BlackRangeEmpty();
    WhitePhase(board, IdRange(1, 16));
  }

  /** With the corrected range the setup completes: each roster owns 16
      pieces carrying the standard ids, and exactly the 32 tiles of ranks 1,
      2, 7 and 8 are occupied. */
  lemma NewGameFixedSetsUp(gameId: GameId)
    ensures NewGameFixed(gameId).Ok?
    ensures var g := NewGameFixed(gameId).value.game;
      && g.p1.pieces == Handles(0, 16) && g.p2.pieces == Handles(16, 16) && |g.arena| == 32
      && (forall k | 0 <= k < 16 :: g.arena[g.p1.pieces[k]] == GenStdWhite()[k])
      && (forall k | 0 <= k < 16 :: g.arena[g.p2.pieces[k]] == GenStdBlack()[k])
      && Occupied(g.board) == Range(0, 16) + Range(48, 64)
      && |Occupied(g.board)| == 32
  {
    ChessBoardEmpty();
    FixedSetupSucceeds(gameId, ChessBoard());
  }

  /** The corrected setup on any empty board, as stated for the standard one. */
  lemma FixedSetupSucceeds(gameId: GameId, board: seq<Tile>)
    requires EmptyBoard(board)
    ensures SetupGame(gameId, board, IdRange(1, 16), IdRange(-16, -1)).Ok?
    ensures var g := SetupGame(gameId, board, IdRange(1, 16), IdRange(-16, -1)).value.game;
      && g.p1.pieces == Handles(0, 16) && g.p2.pieces == Handles(16, 16) && |g.arena| == 32
      && (forall k | 0 <= k < 16 :: g.arena[g.p1.pieces[k]] == GenStdWhite()[k])
      && (forall k | 0 <= k < 16 :: g.arena[g.p2.pieces[k]] == GenStdBlack()[k])
      && Occupied(g.board) == Range(0, 16) + Range(48, 64)
      && |Occupied(g.board)| == 32
  {
    RestampIsIdentity();
    WhitePhase(board, IdRange(1, 16));
    var w := PlaceAll(board, [], NewWhitePlayer(), GenStdWhite(), IdRange(1, 16)).value;
    BlackPhase(w.board, w.arena, IdRange(-16, -1));
    var b := PlaceAll(w.board, w.arena, NewBlackPlayer(), GenStdBlack(), IdRange(-16, -1)).value;
    var g := SetupGame(gameId, board, IdRange(1, 16), IdRange(-16, -1)).value.game;
    assert g.board == b.board && g.arena == b.arena && g.p1 == w.player && g.p2 == b.player;
    forall k | 0 <= k < 16
      ensures g.arena[k] == GenStdWhite()[k]
    {
      assert g.arena[k] == b.arena[..16][k];
    }
    OccupiedRanks(g.board);
  }

  /** A board whose tiles 0 .. 15 and 48 .. 63 are exactly the occupied ones
      has 32 occupied tiles. */
  lemma OccupiedRanks(board: seq<Tile>)
    requires |board| == TILECOUNT
    requires forall i | 0 <= i < TILECOUNT :: board[i].pz.Some? <==> i < 16 || 48 <= i
    ensures Occupied(board) == Range(0, 16) + Range(48, 64)
    ensures |Occupied(board)| == 32
  {
    OccupiedSplit(board, 16, 48);
  }

  /** A board occupied exactly below tile a and from tile b on. */
  lemma OccupiedSplit(board: seq<Tile>, a: nat, b: nat)
    requires a <= b <= |board|
    requires forall i | 0 <= i < |board| :: board[i].pz.Some? <==> i < a || b <= i
    ensures Occupied(board) == Range(0, a) + Range(b, |board|)
    ensures |Occupied(board)| == a + (|board| - b)
  {
    assert Occupied(board) == Range(0, a) + Range(b, |board|);
    RangesSize(0, a, b, |board|);
  }

  datatype GameMaster = GameMaster(counter: U64, sessions: map<GameId, ChessGame>)

  /** `GameMaster::new`, with the counter at its initial value. */
  function NewMaster(): (m: GameMaster)
    ensures m.counter == 0 && m.sessions == map[]
  {
    GameMaster(0, map[])
  }

  /** `create_game` with the game constructor as a parameter: issue an id
      (the counter advances even if setup then fails), build the game, and
      store it under that id, replacing any session already there. */
  function CreateGameWith(m: GameMaster, build: GameId -> Result<ChessGame>): (r: (GameMaster, Result<GameId>))
    ensures r.0.counter == NextId(m.counter).0
    ensures r.1.Ok? <==> build(NextId(m.counter).1).Ok?
    ensures r.1.Err? ==> r.0.sessions == m.sessions && r.1.error == build(NextId(m.counter).1).error
    ensures r.1.Ok? ==>
      var id := NextId(m.counter).1;
      r.1.value == id && r.0.sessions == m.sessions[id := build(id).value]
  {
    var (c, id) := NextId(m.counter);
    match build(id)
    case Err(e) => (m.(counter := c), Err(e))
    case Ok(g) => (GameMaster(c, m.sessions[id := g]), Ok(id))
  }

  /** `create_game` as written reaches the undefined black-id unwrap on every
      call.  What the master holds after undefined behaviour is not defined
      by the source; the model keeps the sessions as they were. */
  function CreateGame(m: GameMaster): (r: (GameMaster, Result<GameId>))
    ensures r.1 == Err(UndefinedBehavior)
    ensures r.0.sessions == m.sessions && r.0.counter == NextId(m.counter).0
  {
    assert NewGame(NextId(m.counter).1) == Err(UndefinedBehavior);
    CreateGameWith(m, NewGame)
  }

  /** `create_game` with the corrected setup: the new session is stored under
      the id returned, holds a valid standard game with that id, and no
      other session changes. */
  function CreateGameFixed(m: GameMaster): (r: (GameMaster, Result<GameId>))
    ensures r.1.Ok? && r.1.value == NextId(m.counter).1 && r.0.counter == r.1.value
    ensures r.1.value in r.0.sessions && r.0.sessions[r.1.value].gameId == r.1.value
    ensures Valid(r.0.sessions[r.1.value].game)
    ensures forall id | id in m.sessions && id != r.1.value :: id in r.0.sessions && r.0.sessions[id] == m.sessions[id]
    ensures r.0.sessions.Keys == m.sessions.Keys + {r.1.value}
  {
    CreateStoresGame(m, NewGameFixed);
    CreateGameWith(m, NewGameFixed)
  }

  /** With a constructor that always builds a valid game carrying the id it
      is given, `create_game` stores exactly one new session under the
      fresh id. */
  lemma CreateStoresGame(m: GameMaster, build: GameId -> Result<ChessGame>)
    requires forall id :: build(id).Ok? && build(id).value.gameId == id && Valid(build(id).value.game)
    ensures var r := CreateGameWith(m, build);
      && r.1.Ok? && r.1.value == NextId(m.counter).1 && r.0.counter == r.1.value
      && r.1.value in r.0.sessions && r.0.sessions[r.1.value].gameId == r.1.value
      && Valid(r.0.sessions[r.1.value].game)
      && (forall id | id in m.sessions && id != r.1.value :: id in r.0.sessions && r.0.sessions[id] == m.sessions[id])
      && r.0.sessions.Keys == m.sessions.Keys + {r.1.value}
  {
  }

  /** `request_game_state`: the stored session's state, or not found. */
  function RequestGameState(m: GameMaster, id: GameId): (r: Result<GameState>)
    ensures r.Ok? <==> id in m.sessions
    ensures r.Ok? ==> r.value == m.sessions[id].game
    ensures r.Err? ==> r.error == GameNotFound(id)
  {
    if id in m.sessions then Ok(m.sessions[id].game) else Err(GameNotFound(id))
  }

  /** A game created with the corrected setup can be requested right away and
      shows 16 pieces per roster. */
  lemma CreateThenRequest(m: GameMaster)
    ensures var (m', id) := CreateGameFixed(m);
      && RequestGameState(m', id.value).Ok?
      && |RequestGameState(m', id.value).value.p1.pieces| == 16
      && |RequestGameState(m', id.value).value.p2.pieces| == 16
  {
    NewGameFixedSetsUp(NextId(m.counter).1);
  }
}
