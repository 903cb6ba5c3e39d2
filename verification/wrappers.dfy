/** Failure-carrying results shared by every module of the model.

    The Rust code signals three kinds of trouble: recoverable errors that are
    returned through `anyhow::Result`, panics (`panic!`, `assert!`, `todo!`,
    arithmetic overflow in a debug build), and undefined behaviour
    (`unwrap_unchecked` on `None`).  All three become a `Failure` here, and
    `IsPanic` / `IsUndefined` tell them apart.
 */
module Wrappers {

  datatype Option<+T> = None | Some(value: T)

  datatype Failure =
    /** Integer overflow, which panics in a debug build. */
    | ArithmeticOverflow
    /** `Tile::dark` / `Tile::light` given both endzone flags. */
    | SharedPromotion
    /** A `todo!()` branch of `Move::dest`. */
    | Unimplemented
    /** `get_y_from_col` outside 0..=7. */
    | UnintendedUsage
    /** `add_piece` given a piece of the other colour. */
    | ColorMismatch
    /** `add_piece` given a tile index of 64 or more. */
    | OutOfBounds
    /** `Layout::generate` met a coordinate it had already inserted. */
    | DuplicateCoordinate(index: nat)
    /** `unwrap_unchecked` on an exhausted id iterator. */
    | UndefinedBehavior
    /** Recoverable: `add_piece` onto an occupied tile. */
    | TileOccupied(tile: nat)
    /** Recoverable: no session under that game id. */
    | GameNotFound(game: nat)
  {
    predicate IsPanic() {
      !(UndefinedBehavior? || TileOccupied? || GameNotFound?)
    }

    predicate IsUndefined() {
      UndefinedBehavior?
    }
  }

  datatype Result<+T> = Ok(value: T) | Err(error: Failure)
}
