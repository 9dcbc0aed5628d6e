/** The program as it runs: the `GameEscrow` account is an object whose fields
    the handlers update in place, the lamports of the other accounts an
    instruction names live in an `Accounts` object, and each handler is a
    method that runs its guards before any write. Every method is proved to
    do what the matching Spec function says, so the properties proved in
    Properties hold of it, and to keep the record's invariants. */
module Program {
  import opened Types
  import Search
  import Spec
  import Properties

  /** The lamport balances of the accounts other than the escrow. */
  class Accounts {
    var lamports: map<Pubkey, nat>

    constructor (initial: map<Pubkey, nat>)
      ensures lamports == initial
    {
      lamports := initial;
    }
  }

  /** One game's escrow account: its data and its own lamport balance. */
  class GameEscrow {
    // Written once by create_game and never again.
    const game_id: seq<Byte>
    const operator: Pubkey
    const buy_in: nat
    const max_players: nat
    const seed: Bytes32
    const created_at: int
    const fill_deadline: int
    // Updated in place by the later instructions.
    var status: GameStatus
    var current_players: nat
    var players: seq<Pubkey>
    var winner: Option<Pubkey>
    var proof_hash: Option<Bytes32>
    var started_at: Option<int>
    var refunded: seq<bool>
    /** The lamports held by the escrow account. */
    var lamports: nat
    /** The lamports the account holds that no participant is owed: the
        deposit it was created with, plus whatever has been transferred in
        from outside the program since. */
    ghost var reserve: nat

    /** The account data as a value. */
    function Record(): Spec.EscrowRecord
      reads this
    {
      Spec.EscrowRecord(game_id, operator, status, buy_in, max_players, current_players, players,
                        seed, winner, proof_hash, created_at, fill_deadline, started_at, refunded)
    }

    /** The record with every balance an instruction may move. */
    function Snapshot(bank: Accounts): Spec.State
      reads this, bank
    {
      Spec.State(Record(), lamports, bank.lamports)
    }

    /** The shape invariants, and custody of one buy-in per unrefunded seat
        on top of the reserve until the game completes. */
    ghost predicate Valid()
      reads this
    {
      Spec.Valid(Record()) && Spec.Solvent(Record(), lamports, reserve)
    }

    /** Fills a freshly allocated account holding `deposit` lamports. */
    constructor Init(game_id: seq<Byte>, operator: Pubkey, buy_in: nat, max_players: nat,
                     fill_deadline: int, seed: Bytes32, created_at: int, deposit: nat)
      requires |game_id| <= MAX_GAME_ID_LEN && 0 < max_players <= MAX_PLAYERS && buy_in > 0
      ensures Valid()
      ensures Record() == Spec.EscrowRecord(game_id, operator, Open, buy_in, max_players, 0, [], seed,
                                            None, None, created_at, fill_deadline, None, [])
      ensures lamports == deposit && reserve == deposit
    {
      this.game_id := game_id;
      this.operator := operator;
      this.status := Open;
      this.buy_in := buy_in;
      this.max_players := max_players;
      this.current_players := 0;
      this.players := [];
      this.seed := seed;
      this.winner := None;
      this.proof_hash := None;
      this.created_at := created_at;
      this.fill_deadline := fill_deadline;
      this.started_at := None;
      this.refunded := [];
      this.lamports := deposit;
      this.reserve := deposit;
    }

    /** create_game. The runtime allocates the account with `deposit` lamports
        paid by the operator; when validation fails the transaction is rolled
        back and no account exists. */
    static method CreateGame(game_id: seq<Byte>, operator: Pubkey, buy_in: nat, max_players: nat,
                             fill_deadline_hours: nat, seed: Bytes32, now: int, deposit: nat)
      returns (res: Outcome, escrow: GameEscrow?)
      ensures var r := Spec.CreateGame(game_id, operator, buy_in, max_players, fill_deadline_hours, seed, now);
        && res == r.ToOutcome()
        && (r.Ok? ==> escrow != null && fresh(escrow) && escrow.Valid() && escrow.Record() == r.value
                      && escrow.lamports == deposit && escrow.reserve == deposit)
        && (r.Err? ==> escrow == null)
    {
      if |game_id| > MAX_GAME_ID_LEN {
        return Failure(Code(GameIdTooLong)), null;
      }
      if !(max_players > 0 && max_players <= MAX_PLAYERS) {
        return Failure(Code(InvalidMaxPlayers)), null;
      }
      if buy_in == 0 {
        return Failure(Code(InvalidBuyIn)), null;
      }
      if fill_deadline_hours == 0 {
        return Failure(Code(InvalidFillDeadline)), null;
      }
      escrow := new GameEscrow.Init(game_id, operator, buy_in, max_players,
                                    now + fill_deadline_hours * SECONDS_PER_HOUR, seed, now, deposit);
      Properties.CreateGameInitialRecord(game_id, operator, buy_in, max_players, fill_deadline_hours,
                                         seed, now, deposit);
      res := Success;
    }

    /** join_game: `player` has signed and pays the buy-in from `bank`. */
    method JoinGame(bank: Accounts, player: Pubkey, now: int) returns (res: Outcome)
      requires Valid()
      modifies this, bank
      ensures Valid() && reserve == old(reserve)
      ensures res == Spec.JoinGame(old(Snapshot(bank)), player, now).ToOutcome()
      ensures Snapshot(bank) == Spec.JoinGame(old(Snapshot(bank)), player, now).GetOr(old(Snapshot(bank)))
    {
      if status != Open {
        return Failure(Code(GameNotOpen));
      }
      if current_players >= max_players {
        return Failure(Code(GameFull));
      }
      if now >= fill_deadline {
        return Failure(Code(DeadlinePassed));
      }
      if player == operator {
        return Failure(Code(OperatorCannotPlay));
      }
      var joined := Search.Contains(players, player);
      if joined {
        return Failure(Code(AlreadyJoined));
      }
      // the system program's transfer of the buy-in, player to escrow
      var available := Spec.BalanceOf(bank.lamports, player);
      if available < buy_in {
        return Failure(InsufficientFunds);
      }
      Properties.JoinGameKeepsInvariants(Snapshot(bank), player, now, reserve);
      Seat(bank, player);
      return Success;
    }

    /** The transfer and the seat of a join whose guards have passed. */
    method Seat(bank: Accounts, player: Pubkey)
      requires Spec.BalanceOf(bank.lamports, player) >= buy_in
      modifies this, bank
      ensures Record() == Spec.Seat(old(Snapshot(bank)), player).escrow
      ensures lamports == Spec.Seat(old(Snapshot(bank)), player).vault
      ensures bank.lamports == Spec.Seat(old(Snapshot(bank)), player).wallets
      ensures reserve == old(reserve)
    {
      bank.lamports := bank.lamports[player := Spec.BalanceOf(bank.lamports, player) - buy_in];
      lamports := lamports + buy_in;
      players := players + [player];
      refunded := refunded + [false];
      current_players := current_players + 1;
      if current_players == max_players {
        status := Filled;
      }
    }

    /** start_game: `caller` has signed. */
    method StartGame(caller: Pubkey, now: int) returns (res: Outcome)
      requires Valid()
      modifies this
      ensures Valid() && lamports == old(lamports) && reserve == old(reserve)
      ensures res == Spec.StartGame(old(Record()), caller, now).ToOutcome()
      ensures Record() == Spec.StartGame(old(Record()), caller, now).GetOr(old(Record()))
    {
      if status != Filled {
        return Failure(Code(GameNotFilled));
      }
      if caller != operator {
        return Failure(Code(UnauthorizedOperator));
      }
      status := Active;
      started_at := Some(now);
      return Success;
    }

    /** declare_winner: `caller` has signed and `recipient` is the account the
        instruction names to receive the payout; `rent_exempt` is the minimum
        balance the rent sysvar reports for the account. As in the handler,
        nothing checks that `recipient` is the declared winner (see Findings). */
    method DeclareWinner(bank: Accounts, caller: Pubkey, winner: Pubkey, recipient: Pubkey,
                         proof_hash: Bytes32, now: int, rent_exempt: nat) returns (res: Outcome)
      requires Valid()
      modifies this, bank
      ensures Valid() && reserve == old(reserve)
      ensures res == Spec.DeclareWinnerAsWritten(old(Snapshot(bank)), caller, winner, recipient, proof_hash, now, rent_exempt).ToOutcome()
      ensures Snapshot(bank) == Spec.DeclareWinnerAsWritten(old(Snapshot(bank)), caller, winner, recipient, proof_hash, now, rent_exempt).GetOr(old(Snapshot(bank)))
    {
      if status != Active {
        return Failure(Code(GameNotActive));
      }
      if caller != operator {
        return Failure(Code(UnauthorizedOperator));
      }
      var listed := Search.Contains(players, winner);
      if !listed {
        return Failure(Code(WinnerNotPlayer));
      }
      if started_at.Some? && now < started_at.value + MINIMUM_GAME_TIME {
        return Failure(Code(TooEarlyForWinner));
      }
      Properties.DeclareWinnerAsWrittenOutcome(Snapshot(bank), caller, winner, recipient, proof_hash, now, rent_exempt);
      Settle(bank, winner, recipient, proof_hash, rent_exempt);
      return Success;
    }

    /** The payout and the completed record of a declare_winner whose guards
        have passed. */
    method Settle(bank: Accounts, winner: Pubkey, recipient: Pubkey, proof_hash: Bytes32, rent_exempt: nat)
      modifies this, bank
      ensures Record() == Spec.Settle(old(Snapshot(bank)), winner, recipient, proof_hash, rent_exempt).escrow
      ensures lamports == Spec.Settle(old(Snapshot(bank)), winner, recipient, proof_hash, rent_exempt).vault
      ensures bank.lamports == Spec.Settle(old(Snapshot(bank)), winner, recipient, proof_hash, rent_exempt).wallets
      ensures reserve == old(reserve)
    {
      var amount := if lamports > rent_exempt then lamports - rent_exempt else 0;
      if amount > 0 {
        lamports := lamports - amount;
        bank.lamports := bank.lamports[recipient := Spec.BalanceOf(bank.lamports, recipient) + amount];
      }
      this.winner := Some(winner);
      this.proof_hash := Some(proof_hash);
      status := Complete;
    }

    /** cancel_game: `caller` has signed. */
    method CancelGame(caller: Pubkey, now: int) returns (res: Outcome)
      requires Valid()
      modifies this
      ensures Valid() && lamports == old(lamports) && reserve == old(reserve)
      ensures res == Spec.CancelGame(old(Record()), caller, now).ToOutcome()
      ensures Record() == Spec.CancelGame(old(Record()), caller, now).GetOr(old(Record()))
    {
      if caller != operator {
        return Failure(Code(UnauthorizedOperator));
      }
      var can_cancel := match status
        case Open => true
        case Filled => now > fill_deadline
        case Paused => true
        case _ => false;
      if !can_cancel {
        return Failure(Code(CannotCancel));
      }
      status := Cancelled;
      return Success;
    }

    /** claim_refund: `player` has signed and is paid from the escrow. */
    method ClaimRefund(bank: Accounts, player: Pubkey) returns (res: Outcome)
      requires Valid()
      modifies this, bank
      ensures Valid() && reserve == old(reserve)
      ensures res == Spec.ClaimRefund(old(Snapshot(bank)), player).ToOutcome()
      ensures Snapshot(bank) == Spec.ClaimRefund(old(Snapshot(bank)), player).GetOr(old(Snapshot(bank)))
    {
      if status != Cancelled {
        return Failure(Code(GameNotCancelled));
      }
      var found := Search.Position(players, player);
      if found.None? {
        return Failure(Code(PlayerNotInGame));
      }
      var player_index := found.value;
      if player_index >= |refunded| {
        return Failure(Aborted);
      }
      if refunded[player_index] {
        return Failure(Code(AlreadyRefunded));
      }
      if lamports < buy_in {
        return Failure(Aborted);
      }
      Properties.ClaimRefundKeepsInvariants(Snapshot(bank), player, reserve);
      PayRefund(bank, player, player_index);
      return Success;
    }

    /** The flag and the transfer of a claim whose guards have passed. */
    method PayRefund(bank: Accounts, player: Pubkey, player_index: nat)
      requires player_index < |refunded| && lamports >= buy_in
      modifies this, bank
      ensures Record() == Spec.Repay(old(Snapshot(bank)), player, player_index).escrow
      ensures lamports == Spec.Repay(old(Snapshot(bank)), player, player_index).vault
      ensures bank.lamports == Spec.Repay(old(Snapshot(bank)), player, player_index).wallets
      ensures reserve == old(reserve)
    {
      lamports := lamports - buy_in;
      bank.lamports := bank.lamports[player := Spec.BalanceOf(bank.lamports, player) + buy_in];
      refunded := refunded[player_index := true];
    }

    /** A plain system transfer of `amount` lamports into the escrow account
        from outside the program: the record is untouched and the lamports
        join the part of the balance no participant is owed. */
    method ReceiveTransfer(amount: nat)
      requires Valid()
      modifies this
      ensures Valid() && Record() == old(Record())
      ensures lamports == old(lamports) + amount && reserve == old(reserve) + amount
    {
      lamports := lamports + amount;
      reserve := reserve + amount;
    }

    /** emergency_halt: `caller` has signed. */
    method EmergencyHalt(caller: Pubkey) returns (res: Outcome)
      requires Valid()
      modifies this
      ensures Valid() && lamports == old(lamports) && reserve == old(reserve)
      ensures res == Spec.EmergencyHalt(old(Record()), caller).ToOutcome()
      ensures Record() == Spec.EmergencyHalt(old(Record()), caller).GetOr(old(Record()))
    {
      if status != Active {
        return Failure(Code(GameNotActive));
      }
      if caller != operator {
        return Failure(Code(UnauthorizedOperator));
      }
      status := Paused;
      return Success;
    }

    /** resume_game: `caller` has signed. */
    method ResumeGame(caller: Pubkey) returns (res: Outcome)
      requires Valid()
      modifies this
      ensures Valid() && lamports == old(lamports) && reserve == old(reserve)
      ensures res == Spec.ResumeGame(old(Record()), caller).ToOutcome()
      ensures Record() == Spec.ResumeGame(old(Record()), caller).GetOr(old(Record()))
    {
      if status != Paused {
        return Failure(Code(GameNotPaused));
      }
      if caller != operator {
        return Failure(Code(UnauthorizedOperator));
      }
      status := Active;
      return Success;
    }
  }
}
