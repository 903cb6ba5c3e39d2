# chess-core board and rules layer, in Dafny

This project models the core of a small Rust chess workspace. It covers
the board and rules layer that the terminal and raylib front ends build on:

- the 64-tile standard board (`chess_board`);
- the tile, piece, move and vision value types;
- the piece factories and the two standard setups;
- `add_piece`, which puts a piece on a tile and into a player's roster;
- the game master: its id counter, `create_game`, `request_game_state` and
  `ChessGame::new`;
- the index/coordinate arithmetic of `game/math.rs`;
- the coordinate map `Layout::generate`;
- the two coordinate helpers of the renderer (`chess-ray/src/utils.rs`).

The model follows the code as written. Where the code panics, reaches a
`todo!`, overflows in a debug build or hits undefined behaviour, the model
returns a `Failure` value of the `Result` type. `Failure.IsPanic` and
`Failure.IsUndefined` tell these outcomes apart. The model also records
two places where the code does not do what it evidently means to do (see
"Findings"). For each, it proves the as-written behaviour and the behaviour
of the corrected code.

Modules, one per source file:

| module | file | models |
|---|---|---|
| `Wrappers` | wrappers.dfy | `Option`, `Result` and the failure kinds |
| `Ints` | ints.dfy | usize/isize/u64/i32/i16 ranges, the `as` casts, Rust's truncating `%` |
| `Math` | math.dfy | `rot_index`, `index_to_xy`, `xy_to_index` (`game/math.rs`) |
| `Types` | types.dfy | `Piece`, `Move`, `Direction`, `Tile`, `VisionPiece`, colour/shade equality (`types.rs`) |
| `Constants`, `Helper` | helper.dfy | tile names A1..H8 and `chess_board` (`helper.rs`) |
| `Traits` | traits.dfy | `ChessFactory::init`, `gen_std_white`, `gen_std_black` (`traits.rs`) |
| `Game` | game.dfy | `GameState`, `PlayerData`, `History`, `add_piece` (`game/mod.rs`) |
| `Session` | session.dfy | `GameMaster`, the id counter, `ChessGame::new` (`lib.rs`) |
| `Layout` | layout.dfy | `Layout::generate` (`layout.rs`) |
| `RayUtils` | rayutils.dfy | `get_y_from_col`, `xy_to_row_col` (`chess-ray/src/utils.rs`) |

## How the model represents things

- **Shared pieces.** In the source, a piece is an `Rc<RefCell<Piece>>`
  owned by a player's roster. A tile holds only a `Weak` link to it. Here
  all pieces of a game live in an arena (`GameState.arena: seq<Piece>`). A
  `PieceRef` is a position in that arena and stands for one `Rc`
  allocation. Rosters are sequences of handles, and `Tile.pz` is an
  optional handle.
- **Ownership invariant.** `Game.Linked` states the invariant that
  `add_piece` maintains:
  - each roster handle points to a piece of the player's colour;
  - that piece's tile links back to the same handle;
  - no handle appears twice;
  - the two rosters are disjoint;
  - every linked tile belongs to one of the rosters.

  Piece ids play no part in this, because nothing in the source keeps
  them unique.
- **Integers.** The target is taken to be 64-bit. `index as isize`,
  `x as usize` and `v as i32` are written out as the bit
  reinterpretations they are (`Ints.AsIsize`, `AsUsize`, `AsI32`). Rust's
  `%` truncates toward zero (`Ints.RustRem`). An overflowing `+`, `-` or
  `*` panics, as it does in a debug build.
- **Game-id counter.** It is a process-wide static in the source. Here it
  is the `counter` field of the single `Session.GameMaster` value, and it
  advances once per `create_game`, even when setup then fails.
- **`ChessGame::new`.** It takes its ids from two iterators through
  `unwrap_unchecked`. `Session.SetupGame` takes the id sequences as
  parameters and returns `UndefinedBehavior` when a sequence runs out.
- **History label.** The label is
  `format!("History of Game {}", &stringify!(&game_id))`. `stringify!`
  pastes the text of its argument, so every game gets the same label,
  `"History of Game &game_id"` (`Session.HISTORY_LABEL`).
- **Piece-id signs.** The comment at `chess-core/src/msg.rs:7-8` says
  positive ids are black. The tables in `traits.rs` do the opposite:
  white pieces have ids 1..16 and black pieces -16..-1. The model follows
  the tables (`Traits.StandardSidesApart`).
- **`Direction` spelling.** The source's variant `BacwardOneLeftTwo` is
  spelled `BackwardOneLeftTwo` here.

## Model

| member | source | states |
|---|---|---|
| Math.RotIndex | chess-core/src/game/math.rs:15-21 | the distance from 63 for every index up to isize::MAX; an overflow panic when `idx - 63` leaves isize; the wrapped value above that |
| Math.RotIndexInvolution | chess-core/src/game/math.rs:15-21 | rotating twice gives the index back exactly when it is a board index 0..=63 |
| Math.IndexToXy | chess-core/src/game/math.rs:24-29 | x is the file `index % 8`, but y is `(index / 8) % 7`, not the rank; both stay within (-8, 8) and (-7, 7) for every usize |
| Math.A8CollidesWithA1 | chess-core/src/game/math.rs:24-29 | tiles 56 (A8) and 0 (A1) get the same pair (0, 0) |
| Math.XyToIndex | chess-core/src/game/math.rs:32-36 | on-board pairs give the index whose file is x and whose rank is y; a non-negative pair succeeds exactly when `8 * y + x` fits a usize, and then the index is `8 * y + x` whether or not the pair is on the board; a negative x on a non-negative rank succeeds exactly when `8 * y + x < 0`, with that value wrapped by 2^64; a negative y overflows |
| Math.XyToIndexAliases | chess-core/src/game/math.rs:32-36 | file x + 8 on rank y gives the same index as file x on rank y + 1; (8, 0) names tile 8, like (0, 1) |
| Math.IndexRoundTrip | chess-core/src/game/math.rs:24-36 | `xy_to_index(index_to_xy(i)) == i` holds exactly for i < 56; rank 8 comes back as rank 1 (i - 56) |
| Math.CoordRoundTrip | chess-core/src/game/math.rs:24-36 | `index_to_xy(xy_to_index(x, y))` returns (x, y) for ranks 0..=6 and (x, 0) for rank 7 |
| Math.IndexToXyFixed | chess-core/src/game/math.rs:24-29 | with `/ 8` in place of `% 7`, the pair is (file, rank) |
| Math.FixedRoundTrips | chess-core/src/game/math.rs:24-36 | with the corrected y, the two conversions are inverse on the 64 tiles and on the 64 on-board pairs |
| Math.FixedInjective | chess-core/src/game/math.rs:24-29 | the corrected mapping sends different tiles to different pairs |
| Types.UpdateLoc | chess-core/src/types.rs:42-44 | only the location changes, to the new one |
| Types.SetId | chess-core/src/types.rs:45-47 | only the id changes, to the new one |
| Types.ColorMatches | chess-core/src/types.rs:172-179 | a colour compares equal to exactly one shade: light for white, dark for black |
| Types.ColorMatchesExactly | chess-core/src/types.rs:172-179 | a colour equals a shade exactly for white/light and black/dark |
| Types.SameMove | chess-core/src/types.rs:57-61 | two moves compare equal exactly when they differ at most in the piece and the capture flag |
| Types.SameMoveIgnoresPiece | chess-core/src/types.rs:57-61 | move equality is an equivalence that compares only directions, so moves of different pieces compare equal |
| Types.NewNil | chess-core/src/types.rs:93-101 | a non-capturing move in direction `Nil` on the given piece |
| Types.NewForward | chess-core/src/types.rs:102-110 | a non-capturing `Forward(len)` move on the given piece |
| Types.Dest | chess-core/src/types.rs:76-92 | black pieces and every direction except `Nil`/`Forward` reach `todo!`; `Nil` gives the piece's own pair; `Forward(n)` adds n to the piece's y (which, as written, is the rank mod 7) |
| Types.NewDark | chess-core/src/types.rs:209-220 | panics exactly when both endzone flags are set; otherwise an empty dark tile with the given index and flags |
| Types.NewLight | chess-core/src/types.rs:221-232 | panics exactly when both endzone flags are set; otherwise an empty light tile with the given index and flags |
| Types.UpdatePiece | chess-core/src/types.rs:233-240 | the link becomes the given piece (or none), and nothing else about the tile changes |
| Types.NewEmptyVision | chess-core/src/types.rs:250-254 | 25 empty move slots for the given piece id |
| Types.NewVisionWithMoves | chess-core/src/types.rs:255-268 | slot i holds move i for i < 25; later moves are dropped; unused slots stay empty |
| Helper.RankEntries | chess-core/src/helper.rs:4-200 | each rank of the table makes eight constructor calls |
| Helper.Entries | chess-core/src/helper.rs:4-200 | the table makes 64 constructor calls |
| Helper.LowerRankIsStandard | chess-core/src/helper.rs:7-102 | every constructor call for ranks 1 to 4 succeeds and builds the standard tile of its index |
| Helper.UpperRankIsStandard | chess-core/src/helper.rs:103-198 | every constructor call for ranks 5 to 8 succeeds and builds the standard tile of its index |
| Helper.RankIsStandard | chess-core/src/helper.rs:4-200 | each rank of the table builds that rank's standard tiles |
| Helper.EntriesAreStandard | chess-core/src/helper.rs:4-200 | every entry k of the table is the standard tile of index k, so `chess_board` never panics |
| Helper.ChessBoard | chess-core/src/helper.rs:202-205 | the board has 64 tiles |
| Helper.ChessBoardIsStandard | chess-core/src/helper.rs:4-200 | each tile of `chess_board` is the standard tile of its index |
| Helper.StandardTiles | chess-core/src/helper.rs:4-200 | on a standard board every tile knows its own index and starts empty; a tile is dark exactly when file + rank is even (A1 dark, B1 and A2 light); no tile promotes both colours |
| Helper.StandardEndzones | chess-core/src/helper.rs:4-200 | white promotes on exactly the 8 tiles of rank 8, black on exactly the 8 tiles of rank 1 |
| Helper.ChessBoardEmpty | chess-core/src/helper.rs:4-200 | every tile of `chess_board` carries its own index and links no piece |
| Helper.QueensOnTheirShade | chess-core/src/game/mod.rs:146-214 | D1 is light and D8 dark, so each queen's colour compares equal to its starting tile's shade |
| Traits.Init | chess-core/src/traits.rs:6-8 | a piece with exactly the given type, colour, location and id |
| Traits.GenStdWhite | chess-core/src/traits.rs:48-68 | 16 white pieces; piece k stands on tile k and has id k + 1 |
| Traits.GenStdBlack | chess-core/src/traits.rs:69-89 | 16 black pieces; piece k stands on tile 48 + k and has id k - 16 |
| Traits.StandardWhite | chess-core/src/traits.rs:48-68 | white piece k is white, stands on tile k and has id k + 1; the back rank reads R N B Q K B N R, then 8 pawns; the queen is on D1 and the king on E1 |
| Traits.StandardBlack | chess-core/src/traits.rs:69-89 | black piece k is black, stands on tile 48 + k and has id k - 16; pawns first, then the back rank; the queen is on D8 and the king on E8 |
| Traits.StandardSidesApart | chess-core/src/traits.rs:48-89 | the two setups use disjoint tiles and 32 distinct ids, positive for white and negative for black |
| Game.DefaultHistory | chess-core/src/game/mod.rs:41-45 | the default history has an empty label and no actions |
| Game.DefaultPlayer | chess-core/src/game/mod.rs:53-58 | the default player is white, unnamed and owns nothing |
| Game.NewWhitePlayer | chess-core/src/game/mod.rs:61-68 | white, named "player_1", empty roster |
| Game.NewBlackPlayer | chess-core/src/game/mod.rs:69-76 | black, named "player_2", empty roster |
| Game.AddToRoster | chess-core/src/game/mod.rs:77-79 | the roster grows by exactly the new handle at its end; colour and name are kept |
| Game.NewState | chess-core/src/game/mod.rs:26-38 | a not-started, unfinished game without clocks, two default players, the standard board, nothing placed, and the ownership invariant holding |
| Game.AddPiece | chess-core/src/game/mod.rs:82-100 | a colour mismatch panics, then an index off the board panics, then an occupied tile is refused; otherwise the relocated piece takes the next handle, only tile idx changes (it now links that handle), and the roster grows by it |
| Game.AddPieceKeepsLinked | chess-core/src/game/mod.rs:82-100 | a successful placement preserves the ownership invariant between the two players |
| Game.AddPieceOccupies | chess-core/src/game/mod.rs:82-100 | a successful placement occupies exactly one more tile, which was free before |
| Session.NextId | chess-core/src/lib.rs:24-33 | the counter resets at u64::MAX, then increments; the issued id equals the stored counter and is `counter % u64::MAX + 1`, never 0 |
| Session.IssueClosedForm | chess-core/src/lib.rs:24-33 | the k-th id issued from counter c is `(c + k) % u64::MAX + 1` |
| Session.IssueFresh | chess-core/src/lib.rs:24-33 | from a fresh counter the ids are 1, 2, 3, ..; no id repeats within u64::MAX calls, and 0 is never issued |
| Session.IdRange | chess-core/src/lib.rs:86-87 | an inclusive i16 range yields lo, lo + 1, .., hi, and nothing when lo > hi |
| Session.BlackRangeEmpty | chess-core/src/lib.rs:86-87 | the black range `-1..=-16` is empty; the white range and the reversed black range have 16 ids each |
| Session.PlaceAll | chess-core/src/lib.rs:89-99 | an exhausted id iterator with pieces left is undefined behaviour; success keeps 64 tiles and the player's colour and name |
| Session.PlaceAllSucceeds | chess-core/src/lib.rs:89-99 | pieces of the player's colour on distinct free tiles are all placed; each takes the next handle and its own id, and earlier arena entries are kept |
| Session.PlaceAllRoster | chess-core/src/lib.rs:89-99 | the roster grows by exactly the new handles, in order |
| Session.PlaceAllBoard | chess-core/src/lib.rs:89-99 | each placed piece's tile links its handle, and tiles no piece names are unchanged |
| Session.PlaceAllKeepsLinked | chess-core/src/lib.rs:89-99 | whatever the loop places, the ownership invariant is kept |
| Session.PlaceBlock | chess-core/src/lib.rs:89-99 | 16 pieces on consecutive free tiles take 16 consecutive handles, and exactly those tiles change |
| Session.WhitePhase | chess-core/src/lib.rs:89-93 | on an empty board the white loop fills tiles 0..15 with handles 0..15, stamping id k on piece k, and leaves the rest empty |
| Session.BlackPhase | chess-core/src/lib.rs:95-99 | after the white phase, the black loop fills tiles 48..63 with handles 16..31 |
| Session.SetupGame | chess-core/src/lib.rs:67-105 | a built game has both flags false, 5400000 ms on both clocks, the constant history label, "player_1" white and "player_2" black, and the ownership invariant |
| Session.SetupIsUndefined | chess-core/src/lib.rs:86-99 | with the as-written black range, setup on an empty board places all white pieces and then hits undefined behaviour |
| Session.NewGame | chess-core/src/lib.rs:67-105 | `ChessGame::new` as written reaches undefined behaviour for every game id |
| Session.NewGameFixed | chess-core/src/lib.rs:67-105 | with the range `-16..=-1` the game is always built, carries its id and satisfies the ownership invariant |
| Session.RestampIsIdentity | chess-core/src/lib.rs:86-99 | stamping ids 1..=16 on the white pieces and -16..=-1 on the black pieces leaves every piece as the tables made it |
| Session.FixedSetupSucceeds | chess-core/src/lib.rs:67-105 | the corrected setup on any empty board: rosters are handles 0..15 and 16..31, holding exactly the pieces of the two tables, and ranks 1, 2, 7 and 8 (32 tiles) are the occupied ones |
| Session.NewGameFixedSetsUp | chess-core/src/lib.rs:67-105 | the same facts for the standard board |
| Session.NewMaster | chess-core/src/lib.rs:23-36 | the counter starts at 0 and there are no sessions |
| Session.CreateGameWith | chess-core/src/lib.rs:38-43 | the counter advances even if setup fails; a setup error is passed on and leaves the sessions alone; success stores the game under the fresh id, replacing any old one |
| Session.CreateGame | chess-core/src/lib.rs:38-43 | as written, every call reaches undefined behaviour; the counter has already advanced |
| Session.CreateGameFixed | chess-core/src/lib.rs:38-43 | with the corrected setup the call returns the fresh id, stores a valid game with that id under it, and leaves every other session unchanged |
| Session.CreateStoresGame | chess-core/src/lib.rs:38-43 | any setup that always succeeds makes `create_game` add exactly one session, under the fresh id |
| Session.RequestGameState | chess-core/src/lib.rs:45-54 | the stored state when the id is present; otherwise a not-found error naming the id |
| Session.CreateThenRequest | chess-core/src/lib.rs:38-54 | a game just created (corrected setup) can be requested at once, with 16 pieces per roster |
| Layout.GenerateWith | chess-core/src/layout.rs:15-30 | with any coordinate function: succeeds exactly when no two tiles share a pair; then each tile sits under its own pair and the keys are exactly the tiles' pairs; otherwise it panics at the first index whose pair repeats |
| Layout.AsWrittenRepeatsAt56 | chess-core/src/layout.rs:18-22 | with `index_to_xy` as written, tiles 0..55 have distinct pairs and tile 56 repeats one |
| Layout.Generate | chess-core/src/layout.rs:15-30 | as written, and once `XyPair` has the ordering its `BTreeMap` needs, `Layout::generate` panics on every game, at tile 56 |
| Layout.GenerateFixed | chess-core/src/layout.rs:15-30 | with the corrected pairs it never panics; its keys are exactly the 64 on-board pairs, and each holds the tile that `xy_to_index` names |
| Layout.FixedKeys | chess-core/src/layout.rs:15-30 | the keys built with the corrected pairs are exactly the on-board pairs, and each holds its tile |
| RayUtils.GetYFromCol | chess-ray/src/utils.rs:6-18 | ranks 0..=7 become screen rows 7..=0; anything else panics |
| RayUtils.GetYFromColInvolution | chess-ray/src/utils.rs:6-18 | flipping twice gives the rank back, exactly for ranks 0..=7 |
| RayUtils.XyToRowCol | chess-ray/src/utils.rs:20-24 | succeeds exactly when the low 32 bits of y, read as an i32, are a rank 0..=7; then the row is 7 minus that truncated rank and the column is the low 32 bits of x, so x itself when it fits an i32 |
| RayUtils.TruncatedRankDrawn | chess-ray/src/utils.rs:20-24 | the rank 2^32 is drawn on the row of rank 0 |
| RayUtils.RowColOfTile | chess-ray/src/utils.rs:20-24 | tile i is drawn at column i % 8, row 7 - i / 8 with the corrected pairs; with `index_to_xy` as written, rank 8 is drawn over rank 1 |

## Left out

- Rendering, the terminal and raylib front ends, the engine and the
  message enums: they are outside the core.
- Serialization (`serde`): it has no behaviour to verify here.
- `Rc`/`Weak` reference counting: the arena handles stand for the
  allocations. A dangling `Weak` cannot arise in the model, because
  nothing removes a piece.
- The atomic orderings of the id counter: calls are taken to be
  sequential, and only one `GameMaster` exists.
- `Move`'s `on_complete` callback and its `Debug` output.
- `GameMaster::request_vision`: its body is unfinished and returns
  nothing.
- `GameState::init` and `History::init` are not part of this model. They
  are taken to store their arguments as the fields of the same names.
- `constants.rs` is not part of this model. Tiles are numbered A1 = 0 ..
  H8 = 63 in table order (the `Constants` module), and `TILECOUNT` is 64.
- The `Board` struct (an 8x8 array): nothing uses it.
- The `ChessFactory` per-type constructors (`pawn_white`, ...): each is
  `init` with its type and colour fixed, so the setup tables call
  `Traits.Init` directly.
- `Layout`'s key order: `Layout.Layout` holds an unordered `map`. As
  written, `chess-core/src/layout.rs` does not compile. `XyPair` (`chess-core/src/game/math.rs:8-12`)
  derives neither `Ord` nor `PartialOrd`, so `BTreeMap<XyPair, _>::insert`
  (`chess-core/src/layout.rs:17-20`) does not type-check. Also, `chess-core/src/lib.rs:1-7` declares no
  `layout` module. The model takes `generate` to run once an ordering for
  `XyPair` exists. Which ordering it is does not change which keys are
  present or when an insert finds its key taken.
- Session.CreateGame: the source promises nothing about the master after
  the undefined behaviour in `ChessGame::new`; a release build may assume
  the exhausted iterator cannot happen. The model leaves the sessions
  unchanged and advances the counter. This is a convention of the model,
  not behaviour of the source.
- Helper.RankEntries, Helper.Entries: their contracts state only the
  number of constructor calls. What each call builds is stated by
  `Helper.RankIsStandard` and `Helper.EntriesAreStandard`.
- Traits.GenStdWhite, Traits.GenStdBlack: their contracts state colour,
  tile and id for each piece. The piece types are stated by
  `Traits.StandardWhite` and `Traits.StandardBlack`.
- The `eprintln!` before the panic in `Layout::generate`: it is output
  only.
- Helper.ChessBoard: its contract states only the length. The tile-by-tile
  content is stated by `Helper.ChessBoardIsStandard` and
  `Helper.ChessBoardEmpty`.
- Types.Dest: its `Forward` clause is stated for locations up to
  isize::MAX and steps up to isize::MAX - 6. Beyond that, the body models
  the usize overflow panic, but the contract does not describe it.
- Math.RotIndex: it is modelled with debug-build overflow checks. A
  release build would wrap instead of panicking.

## Findings

| source | as written | input that shows it | evidently intended | confidence | as-written member | corrected member |
|---|---|---|---|---|---|---|
| chess-core/src/game/math.rs:27 | `let y = (idx - x) % 7_isize;` | index 56 (A8) maps to (0, 0), the pair of index 0 (A1); `Layout::generate`, once `XyPair` has the ordering its `BTreeMap` needs, therefore panics at tile 56 on every game | `let y = (idx - x) / 8_isize;`, the rank | high (not executed) | Layout.Generate | Layout.GenerateFixed |
| chess-core/src/lib.rs:87 | `IntoIterator::into_iter(-1_i16..=-16_i16)` | any game id: the range is empty, so the first black `unwrap_unchecked` is undefined behaviour, for every game id, in `ChessGame::new` and so in `create_game` | `-16_i16..=-1_i16`, the ids `gen_std_black` already uses | high (not executed) | Session.NewGame | Session.NewGameFixedSetsUp |
