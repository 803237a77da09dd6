/** Optional values and failure-carrying results, standing for C#'s nullable
    references and thrown exceptions. */
module Wrappers {

  datatype Option<+T> = None | Some(value: T)

  /** The value of a call that either returns normally or throws. */
  datatype Result<+R, +E> = Success(value: R) | Failure(error: E)

  /** The outcome of a call that returns nothing or throws. */
  datatype Outcome<+E> = Pass | Fail(error: E)
}

/** The exceptions the engine can raise. */
module Errors {

  datatype Error =
    | LiveWallExhausted      // Wall.DrawTile on an empty live wall
    | DeadWallExhausted      // Wall.DrawKan / Wall.RevealDora when not allowed
    | TurnOutOfRange         // Game.Setup: turn outside 1..players
    | RepeatOutOfRange       // Game.Setup: repeat < 0
    | UnknownMode            // Game.PlayersForMode on a value outside the enum
    | InvalidOperation       // Queue.Dequeue or Enumerable.Last on an empty collection
    | CannotDrawKan          // the plain Exception of the legacy DrawKan
    | NullReference          // a member access through a null reference
}
