# Battle Dinghy game escrow, modelled in Dafny

The Battle Dinghy on-chain program keeps one escrow account per game. An
operator creates the game with a buy-in and a number of seats. Participants
join by paying the buy-in into the escrow. The operator starts the filled
game and later declares a winner, who receives the pool. A game can also be
halted and resumed. Instead of finishing, it can be cancelled, after which
each participant claims their buy-in back. There are eight instructions:
`create_game`, `join_game`, `start_game`, `declare_winner`, `cancel_game`,
`claim_refund`, `emergency_halt` and `resume_game`. Each one runs its
`require!` guards before it writes anything, so a rejected call changes
nothing.

The project has seven modules:

- `Types` (types.dfy): the constants, the `GameStatus` enum, the
  `BattleDinghyError` codes in source order, and the outcome and result types.
- `Search` (search.dfy): the two linear scans over the player list, as
  loops. `Contains` (`players.contains`) is proved to answer exactly whether
  the key is in the list; `Position` (`players.iter().position`) is proved
  equal to the recursive `IndexOf`.
- `Spec` (spec.dfy): the escrow record as a value and each instruction as a
  pure transition. A transition runs the handler's guards in the handler's
  order and returns the new record, with the escrow's lamports and the other
  accounts' lamports, or the error. `Step` dispatches one instruction, with
  declare_winner as the handler is written (`DeclareWinnerAsWritten`), and
  `Run` folds a history of them. `DeclareWinner` is the corrected handler of
  the finding below.
- `Properties` (properties.dfy): what the program promises, proved about
  `Spec`:
  - every error in every handler, in order;
  - each handler's effect;
  - the shape invariants (`Spec.Valid`) and custody of the funds
    (`Spec.Solvent`), kept by every transaction and every history;
  - the only legal status edges, and which statuses are terminal;
  - operator-only authorisation;
  - at-most-once settlement and at-most-once refunds.
- `Program` (escrow.dfy): the program as it runs. `GameEscrow` is a class
  whose fields the handlers update in place. The fields `create_game` writes
  once are `const`. `Accounts` holds every other account's lamports. Each
  instruction is a method proved to produce exactly the state the matching
  `Spec` transition describes; declare_winner follows the handler as written.
  A failed call is proved to leave the record and all balances unchanged, and
  every method keeps `Valid()`. `ReceiveTransfer` is a plain transfer into
  the escrow from outside the program, which the runtime allows anyone to
  make; it too keeps `Valid()`.
- `Findings` (findings.dfy): `declare_winner` as the source writes it, with
  the payout going to an account nobody checks.
- `Scenarios` (scenarios.dfy): one full game played to the end, and one game
  cancelled and refunded.

Modelling choices:

- **Public keys:** modelled as natural numbers.
- **`game_id`:** modelled as a byte sequence, because Rust's `String::len` counts
  bytes.
- **`seed` and `proof_hash`:** opaque 32-byte values.
- **Signers:** the signer of each instruction is passed in as an already
  authenticated key.
- **Clock, rent and payout account:** the clock reading (`now`) and the
  rent-exempt minimum from the rent sysvar are parameters. So is the account
  `declare_winner` pays (`recipient`).
- **Failed transfer:** when the player cannot pay the buy-in, the system
  program's transfer fails with the outcome `InsufficientFunds`.
- **Reserve:** the part of the escrow's balance no participant is owed: the
  deposit made at creation, plus every transfer into the account from outside
  the program. Custody (`Spec.Solvent`) says that until completion the balance
  is exactly the reserve plus one buy-in per unrefunded seat.
- **Borrows:** the handlers hold `let escrow = &mut ctx.accounts.escrow;` (lines 186, 245, 305) while calling `ctx.accounts.escrow.to_account_info()` (lines 200, 262, 268, 321). Read as written, that is a shared borrow of a field already borrowed mutably, which rustc rejects. The model follows the evident intent: each handler reads and writes the escrow's fields and lamports in the order the text gives.
- **Runtime aborts:** a failed lamport subtraction or an out-of-range index in
  `claim_refund` is the outcome `Aborted`. `Properties.ClaimRefundErrors`
  proves this never happens on a valid, solvent record.

## Model

All source cells refer to `packages/contracts/programs/battle-dinghy/src/lib.rs`.

| member | source | states |
|---|---|---|
| Search.IndexOf | packages/contracts/programs/battle-dinghy/src/lib.rs:312-316 | The result is None exactly when the key is absent; otherwise it is an index holding the key with no earlier occurrence. |
| Search.Contains | packages/contracts/programs/battle-dinghy/src/lib.rs:195 | The loop returns true exactly when the key is in the list. |
| Search.Position | packages/contracts/programs/battle-dinghy/src/lib.rs:312-316 | The loop returns the first index holding the key, or None exactly when the key is absent, and agrees with IndexOf. |
| Spec.Credit | packages/contracts/programs/battle-dinghy/src/lib.rs:322 | Crediting an account raises its balance by the amount and leaves every other balance unchanged. |
| Spec.CountUnrefunded | packages/contracts/programs/battle-dinghy/src/lib.rs:135 | The number of unrefunded seats is at most the number of seats. It is 0 exactly when every seat is refunded, and it is the seat count exactly when none is. |
| Properties.CountUnrefundedIsFalseTally | packages/contracts/programs/battle-dinghy/src/lib.rs:135 | The count equals the number of `false` flags, taken independently as the multiset of the flags. |
| Spec.Payout | packages/contracts/programs/battle-dinghy/src/lib.rs:262-265 | The saturating `balance - rent_exempt` never exceeds the balance, and the escrow keeps `min(balance, rent_exempt)`. |
| Spec.CreateGame | packages/contracts/programs/battle-dinghy/src/lib.rs:156-175 | create_game succeeds exactly when all four validations pass. Otherwise it rejects with GameIdTooLong (id over 32 bytes), then InvalidMaxPlayers (0 or over 10 seats), then InvalidBuyIn (0), then InvalidFillDeadline (0 hours). A created record satisfies the invariants and its deadline lies after creation. |
| Spec.Valid | packages/contracts/programs/battle-dinghy/src/lib.rs:120-136 | The shape rules every record the program writes keeps: bounded id and seats, one refund flag per seat, no duplicate and no operator seat, free seats only while Open or after a cancellation from Open, `started_at` set from Active on, winner and proof set exactly when Complete, refunds only after cancellation. A predicate with no contract of its own; Spec.CreateGame, StepPreserves and RunPreserves prove it kept, and so do GameEscrow.Init, GameEscrow.ReceiveTransfer and every instruction method of GameEscrow (the write helpers Seat, Settle and PayRefund do not state it; the methods that call them do). |
| Spec.Solvent | packages/contracts/programs/battle-dinghy/src/lib.rs:206-322 | Custody: until completion the escrow holds its reserve plus one buy-in per unrefunded seat. A predicate with no contract of its own; StepPreserves, RunPreserves, CreatedGamesStaySolvent and ExternalTransferKeepsCustody prove it kept; AllRefundedLeavesReserve uses it. |
| Spec.JoinGame | packages/contracts/programs/battle-dinghy/src/lib.rs:185-221 | join_game: runs the source's guards in its order, then the transfer and the seat. No contract of its own; JoinGameErrors, JoinAfterDeadline, JoinGameShape and JoinGameKeepsInvariants carry its properties. |
| Spec.Seat | packages/contracts/programs/battle-dinghy/src/lib.rs:206-217 | The writes of a successful join. No contract of its own (its requires is the transfer's funds check); SeatKeepsInvariants and GameEscrow.Seat carry its properties. |
| Spec.StartGame | packages/contracts/programs/battle-dinghy/src/lib.rs:224-237 | start_game: the status and operator checks in order, then Active with the start time. No contract of its own; StartGameOutcome carries its properties. |
| Spec.Settle | packages/contracts/programs/battle-dinghy/src/lib.rs:261-275 | The payout and completion writes of declare_winner, paid to the named account. No contract of its own; DeclareWinnerAsWrittenOutcome, DeclareWinnerPaysPool and GameEscrow.Settle carry its properties. |
| Spec.DeclareWinnerAsWritten | packages/contracts/programs/battle-dinghy/src/lib.rs:240-279 | declare_winner as written: the guards of lines 249-258 in order, then Settle to the named account, with no comparison of that account and the winner argument. No contract of its own; DeclareWinnerAsWrittenOutcome, DeclareWinnerOnce, DeclareWinnerTooEarly, DeclareWinnerPaysPool and AsWrittenPaysAnyAccount carry its properties. |
| Spec.DeclareWinner | packages/contracts/programs/battle-dinghy/src/lib.rs:240-279 | The corrected declare_winner: the same guards plus a WinnerNotPlayer refusal of any paid account other than the winner. No contract of its own; DeclareWinnerOutcome, DeclareWinnerOnce, DeclareWinnerTooEarly and CorrectionOnlyAddsRecipientCheck carry its properties. |
| Spec.CancelGame | packages/contracts/programs/battle-dinghy/src/lib.rs:282-301 | cancel_game: the operator check, then the `match` on the status and deadline. No contract of its own; CancelGameOutcome carries its properties. |
| Spec.ClaimRefund | packages/contracts/programs/battle-dinghy/src/lib.rs:304-328 | claim_refund: the status, participant and already-refunded checks in order, then the refund. No contract of its own; ClaimRefundErrors, ClaimRefundEffect and ClaimRefundKeepsInvariants carry its properties. |
| Spec.Repay | packages/contracts/programs/battle-dinghy/src/lib.rs:321-324 | The two lamport moves and the flag write of a refund. No contract of its own (its requires is the seat index and enough funds); RepayKeepsInvariants and GameEscrow.PayRefund carry its properties. |
| Spec.EmergencyHalt | packages/contracts/programs/battle-dinghy/src/lib.rs:331-342 | emergency_halt: the Active and operator checks in order, then Paused. No contract of its own; HaltResumeOutcome carries its properties. |
| Spec.ResumeGame | packages/contracts/programs/battle-dinghy/src/lib.rs:345-356 | resume_game: the Paused and operator checks in order, then Active. No contract of its own; HaltResumeOutcome carries its properties. |
| Spec.DeclareGuard | packages/contracts/programs/battle-dinghy/src/lib.rs:249-259 | The guards of declare_winner in the handler's order: GameNotActive, UnauthorizedOperator, WinnerNotPlayer, then TooEarlyForWinner inside `if let Some(started_at)`; None when all pass. No contract of its own; DeclareWinnerAsWrittenOutcome, DeclareWinnerTooEarly and AsWrittenPaysAnyAccount carry its properties. |
| Spec.CanCancel | packages/contracts/programs/battle-dinghy/src/lib.rs:289-294 | The `match` of cancel_game: Open and Paused always, Filled only after the fill deadline, no other status. No contract of its own; CancelGameOutcome carries its properties. |
| Spec.Step | packages/contracts/programs/battle-dinghy/src/lib.rs:185-356 | One whole transaction: the runtime dispatches one instruction to its handler, declare_winner as written, and keeps all of its writes or, on an error, none. No contract of its own; OperatorOnly, StepFollowsEdge, TerminalStatuses, RefundedOnlyRises, StepConservesLamports and StepPreserves carry its properties. |
| Spec.Run | packages/contracts/programs/battle-dinghy/src/lib.rs:185-356 | A history of transactions applied one after another, a failed one leaving the state as it was. No contract of its own; RunPreserves, RunStaysTerminal and CreatedGamesStaySolvent carry its properties. |
| Properties.CreateGameInitialRecord | packages/contracts/programs/battle-dinghy/src/lib.rs:164-178 | The new record is Open: it has the operator, id, seed, buy-in and seat count given, no seats taken, empty player and refund lists, no winner, proof or start time, `created_at = now` and `fill_deadline = now + 3600 * hours`. An account funded with its reserve is solvent. |
| Properties.JoinGameErrors | packages/contracts/programs/battle-dinghy/src/lib.rs:191-206 | join_game rejects in this order: GameNotOpen, GameFull, DeadlinePassed, OperatorCannotPlay, AlreadyJoined. It succeeds exactly when all five guards pass and the player can pay the buy-in. |
| Properties.JoinAfterDeadline | packages/contracts/programs/battle-dinghy/src/lib.rs:193 | On an Open game with seats left, a join at or after the fill deadline always fails with DeadlinePassed. |
| Properties.JoinGameShape | packages/contracts/programs/battle-dinghy/src/lib.rs:206-217 | A successful join appends the player and a `false` refund flag and raises the seat count by one, never beyond the cap. The status becomes Filled exactly when the last seat is taken and stays Open otherwise. Exactly the buy-in moves from the player to the escrow, and no other balance changes. |
| Properties.JoinGameKeepsInvariants | packages/contracts/programs/battle-dinghy/src/lib.rs:209-215 | A successful join keeps the shape invariants, including no duplicate players and no operator seat. It also keeps custody of one buy-in per unrefunded seat. |
| Properties.SeatKeepsInvariants | packages/contracts/programs/battle-dinghy/src/lib.rs:209-215 | The writes of a join keep the invariants and custody once its guards have passed. |
| Properties.CountAfterJoin | packages/contracts/programs/battle-dinghy/src/lib.rs:210 | Appending an unrefunded seat adds one to the count of unrefunded seats. |
| Properties.StartGameOutcome | packages/contracts/programs/battle-dinghy/src/lib.rs:229-233 | start_game rejects with GameNotFilled, then UnauthorizedOperator. It succeeds exactly for the operator on a Filled game, which becomes Active with `started_at = now` and nothing else changed. |
| Properties.CancelGameOutcome | packages/contracts/programs/battle-dinghy/src/lib.rs:287-297 | cancel_game checks the operator first. An Active, Complete or Cancelled game, or a Filled one before its deadline, gives CannotCancel. It succeeds exactly on Open, Paused, or Filled with `now > fill_deadline`, and only the status changes, to Cancelled. |
| Properties.HaltResumeOutcome | packages/contracts/programs/battle-dinghy/src/lib.rs:335-352 | emergency_halt rejects with GameNotActive, then UnauthorizedOperator, and otherwise takes Active to Paused. resume_game rejects with GameNotPaused, then UnauthorizedOperator, and otherwise takes Paused to Active. Both succeed exactly when their guards pass and change only the status. |
| Properties.DeclareWinnerAsWrittenOutcome | packages/contracts/programs/battle-dinghy/src/lib.rs:249-275 | On a valid record, declare_winner as written succeeds exactly when the game is Active, the caller is the operator, the winner argument is a participant, and 60 seconds have passed since the start. The result is Complete, with that winner and the proof recorded and the players and refund flags untouched. The escrow keeps `min(balance, rent_exempt)`, the account the instruction names gains the rest, no other account changes, and the invariants hold. Outside lamports therefore leave with the pool, since the payout is the whole balance above the rent-exempt minimum. |
| Properties.DeclareWinnerOutcome | packages/contracts/programs/battle-dinghy/src/lib.rs:249-275 | It is proved on a valid record, for the corrected handler. declare_winner succeeds exactly when the game is Active, the caller is the operator, the winner is a participant paid on its own account, and 60 seconds have passed since the start. The result is Complete, with the winner (a participant) and the proof recorded and the players and refund flags untouched. The escrow keeps `min(balance, rent_exempt)`, the winner gains the rest, no other account changes, and the invariants hold. |
| Properties.DeclareWinnerOnce | packages/contracts/programs/battle-dinghy/src/lib.rs:249 | After a successful declaration, every further declaration fails with GameNotActive, for the handler as written and for the corrected one. |
| Properties.DeclareWinnerTooEarly | packages/contracts/programs/battle-dinghy/src/lib.rs:254-258 | A declaration less than 60 seconds after the start fails with TooEarlyForWinner, as written and corrected, whatever account is named for the payout. |
| Properties.DeclareWinnerPaysPool | packages/contracts/programs/battle-dinghy/src/lib.rs:261-270 | On a solvent game, when the rent-exempt minimum equals the reserve, a successful declaration as written pays the named account exactly `buy_in * max_players` and the escrow keeps exactly the reserve. |
| Properties.CustodyCoversRefund | packages/contracts/programs/battle-dinghy/src/lib.rs:321 | While one buy-in is held per unrefunded seat and at least one seat is unrefunded, paying one buy-in cannot underflow and leaves one buy-in per remaining seat. |
| Properties.ClaimRefundErrors | packages/contracts/programs/battle-dinghy/src/lib.rs:309-321 | On a valid, solvent record, claim_refund is never aborted by the runtime. It rejects with GameNotCancelled, then PlayerNotInGame, then AlreadyRefunded. It succeeds exactly when the game is Cancelled and the caller's first seat is unrefunded. |
| Properties.ClaimRefundEffect | packages/contracts/programs/battle-dinghy/src/lib.rs:318-324 | A successful claim sets only the flag at the caller's first index and moves exactly the buy-in from the escrow to the caller; no other account changes. A repeated claim fails with AlreadyRefunded. |
| Properties.ClaimRefundKeepsInvariants | packages/contracts/programs/battle-dinghy/src/lib.rs:321-324 | A successful claim keeps the shape invariants and custody of the remaining buy-ins. |
| Properties.RepayKeepsInvariants | packages/contracts/programs/battle-dinghy/src/lib.rs:321-324 | The writes of a claim keep the invariants and custody once its guards have passed. |
| Properties.CountAfterRefund | packages/contracts/programs/battle-dinghy/src/lib.rs:324 | Marking one unrefunded seat refunded takes exactly one off the count. |
| Properties.ExternalTransferKeepsCustody | packages/contracts/programs/battle-dinghy/src/lib.rs:262 | Lamports sent to the escrow from outside the program join the reserve, and custody still holds. |
| Properties.AllRefundedLeavesReserve | packages/contracts/programs/battle-dinghy/src/lib.rs:321-324 | Once every participant of a cancelled, solvent game has been refunded, the escrow holds exactly its reserve. |
| Properties.OperatorOnly | packages/contracts/programs/battle-dinghy/src/lib.rs:229-350 | start_game, declare_winner, cancel_game, emergency_halt and resume_game never succeed for a caller other than the operator. cancel_game gives UnauthorizedOperator in every status; the others give it once their status check has passed. Transactions run declare_winner as written. |
| Properties.StepFollowsEdge | packages/contracts/programs/battle-dinghy/src/lib.rs:214-352 | Every successful transaction follows a legal edge. The edges are: Open to Filled, Filled to Active, Active to Complete, Active to Paused, Paused to Active, or to Cancelled from Open, from Paused, or from Filled past its deadline. The status stays the same only on Open and on Cancelled. Transactions run declare_winner as written. |
| Properties.TerminalStatuses | packages/contracts/programs/battle-dinghy/src/lib.rs:229-352 | Nothing succeeds on a Complete game. On a Cancelled game only refund claims succeed, and they leave it Cancelled. Transactions run declare_winner as written. |
| Properties.RefundedOnlyRises | packages/contracts/programs/battle-dinghy/src/lib.rs:210-324 | No transaction drops or clears a refund flag. A flag goes from false to true only through a refund claim on a Cancelled game. Transactions run declare_winner as written. |
| Properties.StepConservesLamports | packages/contracts/programs/battle-dinghy/src/lib.rs:206-322 | Every transaction moves lamports between the escrow and at most one other account, with the sum of the two unchanged; every other account keeps its balance. Transactions run declare_winner as written. |
| Properties.StepPreserves | packages/contracts/programs/battle-dinghy/src/lib.rs:185-356 | Every transaction, successful or not, keeps the shape invariants and the custody of funds. Transactions run declare_winner as written. |
| Properties.RunPreserves | packages/contracts/programs/battle-dinghy/src/lib.rs:185-356 | After any sequence of transactions, the invariants and custody still hold. Transactions run declare_winner as written. |
| Properties.RunStaysTerminal | packages/contracts/programs/battle-dinghy/src/lib.rs:229-352 | A Complete or Cancelled game keeps its status through any sequence of transactions. Transactions run declare_winner as written. |
| Properties.CreatedGamesStaySolvent | packages/contracts/programs/battle-dinghy/src/lib.rs:147-356 | Every history that starts from a freshly created game, funded with its reserve, ends valid and solvent. Until completion the escrow holds `reserve + buy_in * unrefunded seats`. Transactions run declare_winner as written. |
| Findings.AsWrittenPaysAnyAccount | packages/contracts/programs/battle-dinghy/src/lib.rs:251-270 | Whenever the as-written guards pass, the payout is credited to whatever account the instruction names, while the record names the declared winner. |
| Findings.OperatorCollectsPool | packages/contracts/programs/battle-dinghy/src/lib.rs:262-270 | In a concrete valid, solvent game, the operator declares participant 1 and names account 8, a second account it controls that is neither a participant nor the signer. Account 8 receives the 200-lamport pool and participant 1 receives nothing. |
| Findings.CorrectionOnlyAddsRecipientCheck | packages/contracts/programs/battle-dinghy/src/lib.rs:249-275 | The corrected handler agrees with the as-written one whenever the paid account is the declared winner. It rejects every other account with WinnerNotPlayer. |
| Scenarios.TwoJoinsFill | packages/contracts/programs/battle-dinghy/src/lib.rs:185-221 | Two joins on a two-seat game: the first leaves it Open and the second fills it, and each participant has paid 100 into the escrow. |
| Scenarios.HappyPath | packages/contracts/programs/battle-dinghy/src/lib.rs:224-279 | The filled game is started and won 60 seconds later, declare_winner as written naming participant 1 for the payout. The winner receives the whole 200-lamport pool, the escrow keeps its reserve, and the game is Complete. |
| Scenarios.CancelAndRefund | packages/contracts/programs/battle-dinghy/src/lib.rs:282-328 | An Open game with one participant is cancelled. The claim pays back exactly the buy-in, and a second claim fails with AlreadyRefunded. |
| Program.GameEscrow.Init | packages/contracts/programs/battle-dinghy/src/lib.rs:164-178 | Given create_game's validations, the fresh account holds the initial record and its deposit, which is its reserve, and is valid and solvent. |
| Program.GameEscrow.CreateGame | packages/contracts/programs/battle-dinghy/src/lib.rs:147-182 | The outcome matches Spec.CreateGame. On success it returns a fresh, valid account holding exactly that record; on failure no account is created. |
| Program.GameEscrow.JoinGame | packages/contracts/programs/battle-dinghy/src/lib.rs:185-221 | The outcome matches Spec.JoinGame. The fields, the escrow balance and every other account equal Spec.JoinGame's new state on success and are unchanged on failure; Valid() is kept. |
| Program.GameEscrow.Seat | packages/contracts/programs/battle-dinghy/src/lib.rs:206-217 | The in-place writes of a join (transfer, two pushes, count and fill) produce Spec.Seat of the old state. |
| Program.GameEscrow.StartGame | packages/contracts/programs/battle-dinghy/src/lib.rs:224-237 | The outcome and new record match Spec.StartGame, and the record is unchanged on failure. The balance and Valid() are kept. |
| Program.GameEscrow.DeclareWinner | packages/contracts/programs/battle-dinghy/src/lib.rs:240-279 | The outcome, fields and balances match Spec.DeclareWinnerAsWritten, paying the account the instruction names, and nothing changes on failure; Valid() is kept. |
| Program.GameEscrow.Settle | packages/contracts/programs/battle-dinghy/src/lib.rs:261-275 | The payout and the completion writes produce Spec.Settle of the old state. |
| Program.GameEscrow.CancelGame | packages/contracts/programs/battle-dinghy/src/lib.rs:282-301 | The outcome and new record match Spec.CancelGame, including its `match` on the status. The record is unchanged on failure, and the balance and Valid() are kept. |
| Program.GameEscrow.ClaimRefund | packages/contracts/programs/battle-dinghy/src/lib.rs:304-328 | The outcome, fields and balances match Spec.ClaimRefund, and nothing changes on failure; Valid() is kept. |
| Program.GameEscrow.PayRefund | packages/contracts/programs/battle-dinghy/src/lib.rs:321-324 | The two lamport moves and the flag write produce Spec.Repay of the old state. |
| Program.GameEscrow.ReceiveTransfer | packages/contracts/programs/battle-dinghy/src/lib.rs:262 | A transfer into the escrow from outside the program raises its balance and its reserve by the amount, leaves the record unchanged and keeps Valid(). |
| Program.GameEscrow.EmergencyHalt | packages/contracts/programs/battle-dinghy/src/lib.rs:331-342 | The outcome and new record match Spec.EmergencyHalt, and the record is unchanged on failure. The balance and Valid() are kept. |
| Program.GameEscrow.ResumeGame | packages/contracts/programs/battle-dinghy/src/lib.rs:345-356 | The outcome and new record match Spec.ResumeGame, and the record is unchanged on failure. The balance and Valid() are kept. |

## Left out

- Account contexts: the PDA seeds, `init`, `payer`, `space`, `bump` and `Signer` constraints (lines 363-476) are how the runtime addresses and authenticates accounts. The model receives the resolved record and an authenticated key in their place.
- Spec.CreateGame: its first ensures returns GameIdTooLong for an id over 32 bytes, as the handler does. Reading the account constraints, not executing them: the `init` seeds `[b"escrow", game_id.as_bytes()]` (line 370) are derived before the handler runs and a seed is limited to 32 bytes, so such a call most likely fails there and the caller never sees GameIdTooLong. That failure is not modelled.
- The `bump` field is not modelled. It only serves account addressing.
- Byte layout: `ESCROW_SIZE`, the account-size comment and `declare_id!` (lines 4, 14-33) are not modelled. Serialization belongs to the runtime.
- Host services: `Clock::get` and `Rent::get`/`minimum_balance` are parameters `now` and `rent_exempt`.
- The system program's transfer CPI (lines 198-206) becomes a direct move of the buy-in, and the only failure modelled is insufficient funds.
- `msg!` logging is not modelled, because it has no effect on state.
- `fill_deadline_hours as i64 * 3600` (line 175) is unbounded integer arithmetic in the model. The i64 wrap-around for huge hour counts is not modelled.
- Lamport arithmetic is unbounded. A u64 overflow when a receiving account is credited is not modelled. The u64 underflow on refund is modelled as `Aborted` and proved unreachable.
- The runtime's post-instruction checks are not modelled. For example, it requires that a refund leave the escrow rent-exempt.
- `declare_winner` naming the escrow itself as the paid account is not modelled: the model keeps the escrow's balance apart from every other account's. Nothing in the `DeclareWinner` accounts (lines 410-424) forbids it; lines 268-269 would then take the payout off the escrow and put it straight back, so the game would complete with the pool still in the escrow.
- Only the program debits the escrow; the one other change to its balance the model has is a transfer in from outside (`GameEscrow.ReceiveTransfer`). A transfer into the escrow inside another program's instruction, or a change of the account's owner, is not modelled.
- Six error codes are declared but never raised by any handler: IncorrectBuyIn, NotEnoughPlayers, GameAlreadyStarted, DeadlineNotReached, RefundNotAvailable and GamePaused. They are present in `Types.BattleDinghyError` and appear in no transition.
- Properties.DeclareWinnerOutcome: it requires `Valid` on the record, because in that state an Active game always has `started_at` set. The transition itself, `Spec.DeclareGuard`, keeps the source's `if let Some` and skips the time check when `started_at` is absent.
- Properties.DeclareWinnerAsWrittenOutcome: it requires `Valid` on the record for the same reason; `Spec.DeclareWinnerAsWritten` shares `Spec.DeclareGuard` and its `if let Some`.
- `impl Default for GameStatus` and `#[derive(Default)]` on the record (lines 108-112, 119) are not modelled. Those default values exist only until create_game fills the account, and `GameEscrow.Init` fills it directly.

## Findings

| source | as written | input that shows it | evidently intended | confidence | as-written member | corrected member |
|---|---|---|---|---|---|---|
| packages/contracts/programs/battle-dinghy/src/lib.rs:251-270 | The guards check that the `winner` argument is a participant. The payout goes to the separate `winner` account of the instruction (lines 421-423), which is never compared with that argument. | Operator 7, participants 1 and 2, buy-in 100, escrow 1200, rent-exempt 1000, started at 0, declared at 60 with argument 1 and account 8, a second account of the operator. Account 8 receives 200 and participant 1 receives nothing, while the record says 1 won. | The payout reaches only the declared winner: any other account is rejected (WinnerNotPlayer). | high; not executed | Spec.DeclareWinnerAsWritten, Findings.OperatorCollectsPool | Spec.DeclareWinner, Properties.DeclareWinnerOutcome |
