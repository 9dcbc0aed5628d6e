/** Shared vocabulary of the battle-dinghy escrow program: its constants, account
    identities, the game status, the program's error codes and the result of an
    instruction. */
module Types {

  /** Longest game identifier, in bytes. */
  const MAX_GAME_ID_LEN: nat := 32
  /** Largest number of seats a game may have. */
  const MAX_PLAYERS: nat := 10
  /** Seconds that must pass after the start before a winner may be declared. */
  const MINIMUM_GAME_TIME: int := 60
  /** Factor converting `fill_deadline_hours` into seconds. */
  const SECONDS_PER_HOUR: int := 3600

  /** The public key of an account. The program only ever compares keys. */
  type Pubkey = nat

  type Byte = bv8

  /** A 32-byte value the program stores and never interprets (seed, proof hash). */
  type Bytes32 = s: seq<Byte> | |s| == 32 witness seq(32, _ => 0)

  datatype Option<T> = None | Some(value: T)

  /** Lifecycle of a game: Open -> Filled -> Active -> Complete, with the
      Active / Paused circuit breaker and cancellation. */
  datatype GameStatus = Open | Filled | Active | Complete | Cancelled | Paused

  /** The program's own error codes, in declaration order. Six of them
      (IncorrectBuyIn, NotEnoughPlayers, GameAlreadyStarted, DeadlineNotReached,
      RefundNotAvailable, GamePaused) are declared but never raised. */
  datatype BattleDinghyError =
    | GameFull
    | GameNotOpen
    | IncorrectBuyIn
    | AlreadyJoined
    | NotEnoughPlayers
    | GameAlreadyStarted
    | GameNotActive
    | UnauthorizedOperator
    | DeadlineNotReached
    | DeadlinePassed
    | TooEarlyForWinner
    | WinnerNotPlayer
    | PlayerNotInGame
    | RefundNotAvailable
    | GamePaused
    | OperatorCannotPlay
    | GameIdTooLong
    | InvalidMaxPlayers
    | InvalidBuyIn
    | InvalidFillDeadline
    | AlreadyRefunded
    | GameNotCancelled
    | CannotCancel
    | GameNotPaused
    | GameNotFilled

  /** Why an instruction failed: one of the program's codes; the system
      program refusing the buy-in transfer because the payer lacks the
      lamports; or the runtime aborting the transaction (a panic on an
      out-of-range index or a lamport subtraction that would go below zero). */
  datatype Error = Code(code: BattleDinghyError) | InsufficientFunds | Aborted

  /** What an instruction handler returns. */
  datatype Outcome = Success | Failure(error: Error)

  /** A transition either produces the next value or fails; a failed
      transaction leaves every account as it was. */
  datatype Result<T> = Ok(value: T) | Err(error: Error) {

    /** The value after the transaction: the new one, or the fallback when it failed. */
    function GetOr(fallback: T): T {
      if Ok? then value else fallback
    }

    /** The handler's return value, without the new state. */
    function ToOutcome(): Outcome {
      if Ok? then Success else Failure(error)
    }
  }
}
