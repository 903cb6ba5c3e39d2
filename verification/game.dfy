/** Game state, players and piece placement (`chess-core/src/game/mod.rs`).

    A `GameState` keeps the pieces of both players in one arena; a roster is
    the sequence of arena handles its player owns, and a tile links to at
    most one handle.  `AddPiece` is the only operation that puts a piece on
    a tile and into a roster.
 */
module Game {
  import opened Ints
  import opened Wrappers
  import opened Types
  import opened Helper

  /** The only action of the history so far. */
  datatype Action = Nil

  /** An identifying label and the ordered log of actions. */
  datatype History = History(id: string, moves: seq<Action>)

  datatype PlayerData = PlayerData(color: Color, name: string, pieces: seq<PieceRef>)

  datatype GameState = GameState(
    started: bool,
    finished: bool,
    p1Clock: Option<U32>,
    p2Clock: Option<U32>,
    p1: PlayerData,
    p2: PlayerData,
    board: seq<Tile>,
    arena: seq<Piece>,
    hist: History)

  /** `History::default()`. */
  function DefaultHistory(): (h: History)
    ensures h.id == "" && h.moves == []
  {
    History("", [])
  }

  /** `PlayerData::default()`: colour defaults to white. */
  function DefaultPlayer(): (p: PlayerData)
    ensures p.color == White && p.name == "" && p.pieces == []
  {
    PlayerData(White, "", [])
  }

  /** `PlayerData::new_white_player`. */
  function NewWhitePlayer(): (p: PlayerData)
    ensures p.color == White && p.name == "player_1" && p.pieces == []
  {
    PlayerData(White, "player_1", [])
  }

  /** `PlayerData::new_black_player`. */
  function NewBlackPlayer(): (p: PlayerData)
    ensures p.color == Black && p.name == "player_2" && p.pieces == []
  {
    PlayerData(Black, "player_2", [])
  }

  /** `PlayerData::add_piece`: appends to the roster. */
  function AddToRoster(p: PlayerData, r: PieceRef): (q: PlayerData)
    ensures q.color == p.color && q.name == p.name
    ensures |q.pieces| == |p.pieces| + 1 && q.pieces[..|p.pieces|] == p.pieces && q.pieces[|p.pieces|] == r
  {
    p.(pieces := p.pieces + [r])
  }

  /** The indices of the tiles that link to a piece. */
  function Occupied(board: seq<Tile>): set<nat> {
    set i | 0 <= i < |board| && board[i].pz.Some?
  }

  /** No handle appears twice in a roster. */
  ghost predicate Distinct(rs: seq<PieceRef>) {
    forall j, k | 0 <= j < k < |rs| :: rs[j] != rs[k]
  }

  /** Every piece of roster `p` is in the arena, has the roster's colour, and
      is the piece its own tile links to. */
  ghost predicate Owns(p: PlayerData, board: seq<Tile>, arena: seq<Piece>) {
    && Distinct(p.pieces)
    && forall r | r in p.pieces ::
         r < |arena| && arena[r].color == p.color && arena[r].loc < |board| && board[arena[r].loc].pz == Some(r)
  }

  /** The ownership discipline between the board and the two rosters: each
      tile link resolves to an arena piece that stands on that tile and is
      owned by exactly one roster, and each roster owns only pieces that are
      on the board. */
  ghost predicate Linked(board: seq<Tile>, arena: seq<Piece>, p: PlayerData, q: PlayerData) {
    && (forall i | 0 <= i < |board| && board[i].pz.Some? ::
          board[i].pz.value < |arena| && arena[board[i].pz.value].loc == i
          && (board[i].pz.value in p.pieces <==> board[i].pz.value !in q.pieces))
    && Owns(p, board, arena)
    && Owns(q, board, arena)
  }

  /** The discipline does not depend on which roster is named first. */
  lemma LinkedSymmetric(board: seq<Tile>, arena: seq<Piece>, p: PlayerData, q: PlayerData)
    ensures Linked(board, arena, p, q) <==> Linked(board, arena, q, p)
  {
  }

  /** A board of 64 tiles none of which links to a piece. */
  ghost predicate EmptyBoard(board: seq<Tile>) {
    |board| == TILECOUNT && forall i | 0 <= i < |board| :: board[i].pz.None?
  }

  /** An empty board with empty rosters keeps the discipline. */
  lemma EmptyBoardLinked(board: seq<Tile>, p: PlayerData, q: PlayerData)
    requires EmptyBoard(board)
    requires p.pieces == [] && q.pieces == []
    ensures Linked(board, [], p, q)
  {
  }

  /** A state that keeps the discipline and has the board's 64 tiles. */
  ghost predicate Valid(g: GameState) {
    |g.board| == TILECOUNT && Linked(g.board, g.arena, g.p1, g.p2)
  }

  /** `GameState::new`: the standard empty board, two default players, no
      clocks, not started, an empty history.  Nothing is on the board, so the
      state is valid. */
  function NewState(): (g: GameState)
    ensures !g.started && !g.finished && g.p1Clock == None && g.p2Clock == None
    ensures g.p1 == DefaultPlayer() && g.p2 == DefaultPlayer() && g.hist == DefaultHistory()
    ensures IsStandard(g.board) && g.arena == []
    ensures Occupied(g.board) == {}
    ensures Valid(g)
  {
    ChessBoardIsStandard();
    ChessBoardEmpty();
    EmptyBoardLinked(ChessBoard(), DefaultPlayer(), DefaultPlayer());
    GameState(false, false, None, None, DefaultPlayer(), DefaultPlayer(), ChessBoard(), [], DefaultHistory())
  }

  /** What a successful placement hands back: the board, the arena with the
      new piece and the player's roster with its handle. */
  datatype Placement = Placement(board: seq<Tile>, arena: seq<Piece>, player: PlayerData)

  /** `add_piece`: puts `pz` on tile `idx` and into the player's roster.  It
      panics on a piece of the other colour and on an index off the board,
      and refuses an occupied tile, in that order.  The new piece gets the
      next arena handle. */
  function AddPiece(board: seq<Tile>, idx: TileId, player: PlayerData, pz: Piece, arena: seq<Piece>): (r: Result<Placement>)
    requires |board| == TILECOUNT
    ensures pz.color != player.color ==> r == Err(ColorMismatch)
    ensures pz.color == player.color && idx >= TILECOUNT ==> r == Err(OutOfBounds)
    ensures pz.color == player.color && idx < TILECOUNT && board[idx].pz.Some? ==> r == Err(TileOccupied(idx))
    ensures r.Ok? <==> pz.color == player.color && idx < TILECOUNT && board[idx].pz.None?
    ensures r.Ok? ==>
      && |r.value.arena| == |arena| + 1 && r.value.arena[..|arena|] == arena
      && r.value.arena[|arena|] == UpdateLoc(pz, idx)
      && |r.value.board| == TILECOUNT
      && r.value.board[idx] == UpdatePiece(board[idx], Some(|arena|))
      && (forall j | 0 <= j < TILECOUNT && j != idx :: r.value.board[j] == board[j])
      && r.value.player == AddToRoster(player, |arena|)
  {
    if pz.color != player.color then Err(ColorMismatch)
    else if idx >= TILECOUNT then Err(OutOfBounds)
    else if board[idx].pz.Some? then Err(TileOccupied(idx))
    else
      var owned := |arena|;
      Ok(Placement(board[idx := board[idx].(pz := Some(owned))], arena + [UpdateLoc(pz, idx)], AddToRoster(player, owned)))
  }

  /** A placement keeps the ownership discipline: the new piece is linked
      from its tile and owned by the placing player only. */
  lemma AddPieceKeepsLinked(board: seq<Tile>, arena: seq<Piece>, p: PlayerData, q: PlayerData, idx: TileId, pz: Piece)
    requires |board| == TILECOUNT && Linked(board, arena, p, q)
    ensures AddPiece(board, idx, p, pz, arena).Ok? ==>
      var r := AddPiece(board, idx, p, pz, arena).value;
      Linked(r.board, r.arena, r.player, q)
  {
    var res := AddPiece(board, idx, p, pz, arena);
    if res.Ok? {
      var r := res.value;
      var h := |arena|;
      assert h !in p.pieces && h !in q.pieces;
      forall x | x in p.pieces
        ensures arena[x].loc != idx
      {
        assert board[arena[x].loc].pz == Some(x);
      }
      forall x | x in q.pieces
        ensures arena[x].loc != idx
      {
        assert board[arena[x].loc].pz == Some(x);
      }
      assert Owns(r.player, r.board, r.arena) by {
        forall x | x in r.player.pieces
          ensures x < |r.arena| && r.arena[x].color == r.player.color
          ensures r.arena[x].loc < |r.board| && r.board[r.arena[x].loc].pz == Some(x)
        {
          if x != h {
            assert x in p.pieces;
          }
        }
      }
      assert Owns(q, r.board, r.arena);
    }
  }

  /** A placement occupies exactly one more tile. */
  lemma AddPieceOccupies(board: seq<Tile>, arena: seq<Piece>, p: PlayerData, idx: TileId, pz: Piece)
    requires |board| == TILECOUNT
    ensures AddPiece(board, idx, p, pz, arena).Ok? ==>
      Occupied(AddPiece(board, idx, p, pz, arena).value.board) == Occupied(board) + {idx as nat}
      && idx !in Occupied(board)
  {
  }
}
