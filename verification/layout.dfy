/** The coordinate map of a game's board (`chess-core/src/layout.rs`).

    The source keys a `BTreeMap` by `XyPair`, which has no ordering, so it
    does not compile as written; the model uses an unordered map and
    assumes some ordering exists.  The key order does not affect which
    inserts find their key already present. */
module Layout {
  import opened Ints
  import opened Wrappers
  import opened Math
  import opened Types
  import opened Game

  /** `Layout`: each tile of the board under its coordinate pair. */
  datatype Layout = Layout(data: map<XyPair, Tile>)

  /** No two of the indices below n share a coordinate pair. */
  ghost predicate InjectiveOn(coord: Usize -> XyPair, n: nat) {
    forall i: Usize, j: Usize | i < j < n :: coord(i) != coord(j)
  }

  /** Index d is the first whose pair repeats the pair of an earlier index. */
  ghost predicate FirstRepeat(coord: Usize -> XyPair, d: Usize) {
    InjectiveOn(coord, d) && exists j: Usize | j < d :: coord(j) == coord(d)
  }

  /** There is at most one first repeat. */
  lemma FirstRepeatUnique(coord: Usize -> XyPair, d: Usize, e: Usize)
    requires FirstRepeat(coord, d) && FirstRepeat(coord, e)
    ensures d == e
  {
    var j: Usize :| j < d && coord(j) == coord(d);
    var k: Usize :| k < e && coord(k) == coord(e);
    assert e <= d;
    assert d <= e;
  }

  /** The pairs of the indices below n. */
  ghost function Image(coord: Usize -> XyPair, n: nat): set<XyPair>
    requires n <= USIZE_LIMIT
  {
    if n == 0 then {} else Image(coord, n - 1) + {coord(n - 1)}
  }

  /** A pair in the image is the pair of some index below n. */
  lemma {:induction false} ImageIndex(coord: Usize -> XyPair, n: nat, xy: XyPair) returns (i: Usize)
    requires n <= USIZE_LIMIT && xy in Image(coord, n)
    ensures i < n && coord(i) == xy
    decreases n
  {
    if xy == coord(n - 1) {
      i := n - 1;
    } else {
      i := ImageIndex(coord, n - 1, xy);
    }
  }

  /** The loop of `Layout::generate` with the coordinate function as a
      parameter: insert tile idx under coord(idx) for idx = 0, 1, ..; an
      insert that finds its key already present panics.  It succeeds exactly
      when the pairs of all indices differ, and then every tile sits under
      its own pair and the keys are exactly the tiles' pairs; otherwise it
      stops at the first repeated pair. */
  method GenerateWith(board: seq<Tile>, coord: Usize -> XyPair) returns (r: Result<Layout>)
    requires |board| <= USIZE_MAX
    ensures r.Ok? <==> InjectiveOn(coord, |board|)
    ensures r.Ok? ==> forall i: Usize | i < |board| :: coord(i) in r.value.data && r.value.data[coord(i)] == board[i]
    ensures r.Ok? ==> r.value.data.Keys == Image(coord, |board|)
    ensures r.Err? ==> r.error.DuplicateCoordinate? && r.error.index < |board| && FirstRepeat(coord, r.error.index)
  {
    var data: map<XyPair, Tile> := map[];
    var idx: Usize := 0;
    while idx < |board|
      invariant idx <= |board|
      invariant InjectiveOn(coord, idx)
      invariant forall i: Usize | i < idx :: coord(i) in data && data[coord(i)] == board[i]
      invariant data.Keys == Image(coord, idx)
    {
      var xy := coord(idx);
      if xy in data {
        var j := ImageIndex(coord, idx, xy);
        assert !InjectiveOn(coord, |board|) by {
          assert j < idx < |board| && coord(j) == coord(idx);
        }
        return Err(DuplicateCoordinate(idx));
      }
      data := data[xy := board[idx]];
      idx := idx + 1;
    }
    return Ok(Layout(data));
  }

  /** With `index_to_xy` as written the first 56 indices have different
      pairs, and index 56 repeats the pair of index 0. */
  lemma AsWrittenRepeatsAt56()
    ensures FirstRepeat(IndexToXy, 56)
    ensures !InjectiveOn(IndexToXy, TILECOUNT)
  {
    forall i: Usize, j: Usize | i < j < 56
      ensures IndexToXy(i) != IndexToXy(j)
    {
      assert i / 8 < 7 && j / 8 < 7;
      assert i == 8 * (i / 8) + i % 8 && j == 8 * (j / 8) + j % 8;
    }
    A8CollidesWithA1();
    assert IndexToXy(0) == IndexToXy(56);
  }

  /** `Layout::generate` as written: every game board makes it panic at
      tile 56 (A8), whose pair (0, 0) is already taken by tile 0 (A1). */
  method Generate(g: GameState) returns (r: Result<Layout>)
    requires |g.board| == TILECOUNT
    ensures r == Err(DuplicateCoordinate(56))
  {
    r := GenerateWith(g.board, IndexToXy);
    AsWrittenRepeatsAt56();
    FirstRepeatUnique(IndexToXy, r.error.index, 56);
  }

  /** `index_to_xy` with rank = index / 8 sends the 64 tile indices to 64
      different pairs. */
  lemma FixedInjectiveOnBoard()
    ensures InjectiveOn(IndexToXyFixed, TILECOUNT)
  {
    forall i: Usize, j: Usize | i < j < TILECOUNT
      ensures IndexToXyFixed(i) != IndexToXyFixed(j)
    {
      FixedInjective(i, j);
    }
  }

  /** `Layout::generate` with the corrected coordinates: it never panics,
      its keys are exactly the 64 pairs with both coordinates in 0..=7, and
      each key holds the tile whose index `xy_to_index` gives back. */
  method GenerateFixed(g: GameState) returns (r: Result<Layout>)
    requires |g.board| == TILECOUNT
    ensures r.Ok?
    ensures forall xy: XyPair :: xy in r.value.data <==> 0 <= xy.x < 8 && 0 <= xy.y < 8
    ensures forall xy | xy in r.value.data :: XyToIndex(xy).Ok? && XyToIndex(xy).value < TILECOUNT && r.value.data[xy] == g.board[XyToIndex(xy).value]
  {
    FixedInjectiveOnBoard();
    r := GenerateWith(g.board, IndexToXyFixed);
    FixedKeys(g.board, r.value.data);
  }

  /** The keys of the corrected layout are the on-board pairs, and each
      holds the tile `xy_to_index` names. */
  lemma FixedKeys(board: seq<Tile>, data: map<XyPair, Tile>)
    requires |board| == TILECOUNT
    requires forall i: Usize | i < TILECOUNT :: IndexToXyFixed(i) in data && data[IndexToXyFixed(i)] == board[i]
    requires data.Keys == Image(IndexToXyFixed, |board|)
    ensures forall xy: XyPair :: xy in data <==> 0 <= xy.x < 8 && 0 <= xy.y < 8
    ensures forall xy | xy in data :: XyToIndex(xy).Ok? && XyToIndex(xy).value < TILECOUNT && data[xy] == board[XyToIndex(xy).value]
  {
    FixedKeysOnBoard(board, data);
    OnBoardKeys(data);
  }

  /** Every on-board pair is the corrected pair of some tile index, so it is
      a key. */
  lemma OnBoardKeys(data: map<XyPair, Tile>)
    requires forall i: Usize | i < TILECOUNT :: IndexToXyFixed(i) in data
    ensures forall xy: XyPair | 0 <= xy.x < 8 && 0 <= xy.y < 8 :: xy in data
  {
    forall xy: XyPair | 0 <= xy.x < 8 && 0 <= xy.y < 8
      ensures xy in data
    {
      var i: Usize := 8 * xy.y + xy.x;
      assert IndexToXyFixed(i) == XyPair(xy.x, xy.y) == xy;
    }
  }

  /** Every key of the corrected layout is an on-board pair holding the tile
      `xy_to_index` names. */
  lemma FixedKeysOnBoard(board: seq<Tile>, data: map<XyPair, Tile>)
    requires |board| == TILECOUNT
    requires forall i: Usize | i < TILECOUNT :: IndexToXyFixed(i) in data && data[IndexToXyFixed(i)] == board[i]
    requires data.Keys == Image(IndexToXyFixed, |board|)
    ensures forall xy | xy in data :: 0 <= xy.x < 8 && 0 <= xy.y < 8
    ensures forall xy | xy in data :: XyToIndex(xy).Ok? && XyToIndex(xy).value < TILECOUNT && data[xy] == board[XyToIndex(xy).value]
  {
    forall xy | xy in data
      ensures 0 <= xy.x < 8 && 0 <= xy.y < 8
      ensures XyToIndex(xy).Ok? && XyToIndex(xy).value < TILECOUNT && data[xy] == board[XyToIndex(xy).value]
    {
      var i := ImageIndex(IndexToXyFixed, |board|, xy);
      FixedRoundTrips(i, 0, 0);
    }
  }
}
