/** Value types of the core (`chess-core/src/types.rs`).

    The source shares each piece between a player's roster (an `Rc`) and a
    tile (a `Weak`).  Here every piece lives in an arena, a `seq<Piece>`, and
    is referred to by its position in it: a `PieceRef` stands for one `Rc`
    allocation.  Piece ids are not used as keys because nothing in the
    source keeps them unique.
 */
module Types {
  import opened Ints
  import opened Wrappers
  import opened Math

  type PieceId = I16
  type TileId = Usize
  type PieceRef = nat

  /** Number of tiles of a raw board. */
  const TILECOUNT: nat := 64
  /** Number of move slots in a `VisionPiece`. */
  const VISION_SLOTS: nat := 25

  datatype Color = White | Black
  datatype Background = Light | Dark
  datatype PieceType = Pawn | Rook | Bishop | Knight | Queen | King

  datatype Piece = Piece(id: PieceId, color: Color, ty: PieceType, loc: TileId)

  /** `Piece::update_loc`. */
  function UpdateLoc(p: Piece, newLoc: TileId): (r: Piece)
    ensures r.loc == newLoc
    ensures r.id == p.id && r.color == p.color && r.ty == p.ty
  {
    p.(loc := newLoc)
  }

  /** `Piece::set_id`. */
  function SetId(p: Piece, newId: PieceId): (r: Piece)
    ensures r.id == newId
    ensures r.color == p.color && r.ty == p.ty && r.loc == p.loc
  {
    p.(id := newId)
  }

  /** `impl PartialEq<Background> for Color`: a colour "equals" the shade of
      its own queen's starting tile. */
  function ColorMatches(c: Color, b: Background): (r: bool)
    ensures r <==> (b == if c == White then Light else Dark)
  {
    match (c, b)
    case (White, Light) => true
    case (Black, Dark) => true
    case _ => false
  }

  /** Exactly two of the four colour/shade pairs compare equal. */
  lemma ColorMatchesExactly(c: Color, b: Background)
    ensures ColorMatches(c, b) <==> (c == White && b == Light) || (c == Black && b == Dark)
    ensures ColorMatches(c, b) <==> (b == if c == White then Light else Dark)
  {
  }

  datatype Direction =
    | Forward(n: Usize)
    | Backward(n: Usize)
    | Right(n: Usize)
    | Left(n: Usize)
    | ForwardRight(n: Usize)
    | BackwardRight(n: Usize)
    | ForwardLeft(n: Usize)
    | BackwardLeft(n: Usize)
    | ForwardTwoRightOne
    | ForwardOneRightTwo
    | BackwardTwoRightOne
    | BackwardOneRightTwo
    | ForwardTwoLeftOne
    | ForwardOneLeftTwo
    | BackwardTwoLeftOne
    | BackwardOneLeftTwo
    | Nil

  /** A candidate move of the piece behind `on`.  The `on_complete` callback
      of the source is not modelled. */
  datatype Move = Move(on: PieceRef, cap: bool, dir: Direction)

  /** `impl PartialEq for Move`: only the direction is compared. */
  function SameMove(a: Move, b: Move): (r: bool)
    ensures r <==> a.(on := b.on, cap := b.cap) == b
  {
    a.dir == b.dir
  }

  /** Move equality is an equivalence that ignores the piece and the capture
      flag: moves of two different pieces in one direction compare equal. */
  lemma SameMoveIgnoresPiece(a: Move, b: Move, c: Move)
    ensures SameMove(a, a)
    ensures SameMove(a, b) ==> SameMove(b, a)
    ensures SameMove(a, b) && SameMove(b, c) ==> SameMove(a, c)
    ensures SameMove(a, b) <==> SameMove(a.(on := b.on, cap := b.cap), b)
  {
  }

  /** `Move::new_nil`. */
  function NewNil(on: PieceRef): (r: Move)
    ensures r.on == on && !r.cap && r.dir.Nil?
  {
    Move(on, false, Nil)
  }

  /** `Move::forward`. */
  function NewForward(on: PieceRef, len: Usize): (r: Move)
    ensures r.on == on && !r.cap && r.dir == Forward(len)
  {
    Move(on, false, Forward(len))
  }

  /** `Move::dest`: the destination of a move, read from the shared piece.
      Only white pieces and the `Nil` and `Forward` directions are
      implemented; everything else reaches a `todo!`.  The forward step adds
      to the rank as `usize`, which can overflow. */
  function Dest(m: Move, arena: seq<Piece>): (r: Result<XyPair>)
    requires m.on < |arena|
    ensures arena[m.on].color == Black ==> r == Err(Unimplemented)
    ensures !(m.dir.Nil? || m.dir.Forward?) ==> r == Err(Unimplemented)
    ensures arena[m.on].color == White && m.dir.Nil? ==> r == Ok(IndexToXy(arena[m.on].loc))
    ensures arena[m.on].color == White && m.dir.Forward? && arena[m.on].loc <= ISIZE_MAX && m.dir.n <= ISIZE_MAX - 6 ==>
              r == Ok(XyPair(arena[m.on].loc % 8, (arena[m.on].loc / 8) % 7 + m.dir.n))
  {
    var p := arena[m.on];
    if p.color == Black then Err(Unimplemented)
    else match m.dir
      case Nil => Ok(IndexToXy(p.loc))
      case Forward(dy) =>
        var xy := IndexToXy(p.loc);
        var newY := AsUsize(xy.y) + dy;
        if newY > USIZE_MAX then Err(ArithmeticOverflow)
        else Ok(XyPair(xy.x, AsIsize(newY)))
      case _ => Err(Unimplemented)
  }

  /** A board cell.  `pz` is the non-owning link to a piece of the arena. */
  datatype Tile = Tile(wEndzone: bool, bEndzone: bool, color: Background, index: TileId, pz: Option<PieceRef>)

  /** `Tile::dark`: panics when the tile would promote for both colours. */
  function NewDark(index: TileId, wEndzone: bool, bEndzone: bool): (r: Result<Tile>)
    ensures r.Err? <==> wEndzone && bEndzone
    ensures r.Err? ==> r.error == SharedPromotion
    ensures r.Ok? ==> r.value.index == index && r.value.wEndzone == wEndzone && r.value.bEndzone == bEndzone
    ensures r.Ok? ==> r.value.color == Dark && r.value.pz == None
  {
    if wEndzone && bEndzone then Err(SharedPromotion)
    else Ok(Tile(wEndzone, bEndzone, Dark, index, None))
  }

  /** `Tile::light`: panics when the tile would promote for both colours. */
  function NewLight(index: TileId, wEndzone: bool, bEndzone: bool): (r: Result<Tile>)
    ensures r.Err? <==> wEndzone && bEndzone
    ensures r.Err? ==> r.error == SharedPromotion
    ensures r.Ok? ==> r.value.index == index && r.value.wEndzone == wEndzone && r.value.bEndzone == bEndzone
    ensures r.Ok? ==> r.value.color == Light && r.value.pz == None
  {
    if wEndzone && bEndzone then Err(SharedPromotion)
    else Ok(Tile(wEndzone, bEndzone, Light, index, None))
  }

  /** `Tile::update_piece`: links the tile to a piece, or clears it. */
  function UpdatePiece(t: Tile, newPiece: Option<PieceRef>): (r: Tile)
    ensures r.pz == newPiece
    ensures r.wEndzone == t.wEndzone && r.bEndzone == t.bEndzone && r.color == t.color && r.index == t.index
  {
    t.(pz := newPiece)
  }

  /** The vision of one piece: 25 optional move slots. */
  datatype VisionPiece = VisionPiece(pieceId: PieceId, moves: seq<Option<Move>>)

  /** `VisionPiece::new_empty`. */
  function NewEmptyVision(pieceId: PieceId): (r: VisionPiece)
    ensures r.pieceId == pieceId && |r.moves| == VISION_SLOTS
    ensures forall i | 0 <= i < |r.moves| :: r.moves[i] == None
  {
    VisionPiece(pieceId, seq(VISION_SLOTS, _ => None))
  }

  /** `VisionPiece::new_with_moves`: copies the moves into the slots in order
      and stops after the 25th; later moves are dropped. */
  method NewVisionWithMoves(pieceId: PieceId, moves: seq<Move>) returns (r: VisionPiece)
    ensures r.pieceId == pieceId && |r.moves| == VISION_SLOTS
    ensures forall i | 0 <= i < VISION_SLOTS && i < |moves| :: r.moves[i] == Some(moves[i])
    ensures forall i | |moves| <= i < VISION_SLOTS :: r.moves[i] == None
  {
    var buffer := NewEmptyVision(pieceId).moves;
    var i := 0;
    while i < |moves|
      invariant 0 <= i <= |moves|
      invariant i <= VISION_SLOTS
      invariant |buffer| == VISION_SLOTS
      invariant forall k | 0 <= k < i :: buffer[k] == Some(moves[k])
      invariant forall k | i <= k < VISION_SLOTS :: buffer[k] == None
    {
      if i >= VISION_SLOTS {
        break;
      }
      buffer := buffer[i := Some(moves[i])];
      i := i + 1;
    }
    r := VisionPiece(pieceId, buffer);
  }
}
