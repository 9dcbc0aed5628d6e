/** The escrow record and its eight instructions as pure transition functions.
    Every function runs the handler's guards in the handler's order and, when
    all pass, returns the record and balances the handler leaves behind; a
    failed guard returns its error and, as for every failed transaction,
    nothing changes. The class in escrow.dfy is proved to follow these
    functions. */
module Spec {
  import opened Types
  import opened Search

  /** The `GameEscrow` account data (the `bump` byte is left out). */
  datatype EscrowRecord = EscrowRecord(
    game_id: seq<Byte>,
    operator: Pubkey,
    status: GameStatus,
    buy_in: nat,
    max_players: nat,
    current_players: nat,
    players: seq<Pubkey>,
    seed: Bytes32,
    winner: Option<Pubkey>,
    proof_hash: Option<Bytes32>,
    created_at: int,
    fill_deadline: int,
    started_at: Option<int>,
    refunded: seq<bool>)

  /** The record, the lamports held by the escrow account itself, and the
      lamports of every other account an instruction may touch. */
  datatype State = State(escrow: EscrowRecord, vault: nat, wallets: map<Pubkey, nat>)

  /** The lamports of an account; an account not listed holds none. */
  function BalanceOf(wallets: map<Pubkey, nat>, who: Pubkey): nat {
    if who in wallets then wallets[who] else 0
  }

  /** `wallets` after `amount` lamports arrive at `who`. */
  function Credit(wallets: map<Pubkey, nat>, who: Pubkey, amount: nat): (w: map<Pubkey, nat>)
    ensures BalanceOf(w, who) == BalanceOf(wallets, who) + amount
    ensures forall k :: k != who ==> BalanceOf(w, k) == BalanceOf(wallets, k)
  {
    wallets[who := BalanceOf(wallets, who) + amount]
  }

  /** The number of participants not yet refunded. */
  function CountUnrefunded(refunded: seq<bool>): (n: nat)
    ensures n <= |refunded|
    ensures n == 0 <==> false !in refunded
    ensures n == |refunded| <==> true !in refunded
  {
    if refunded == [] then 0
    else
      var init := refunded[..|refunded| - 1];
      assert refunded == init + [refunded[|refunded| - 1]];
      CountUnrefunded(init) + (if refunded[|refunded| - 1] then 0 else 1)
  }

  /** The shape invariants every record the program writes satisfies. */
  predicate Valid(e: EscrowRecord) {
    && |e.game_id| <= MAX_GAME_ID_LEN
    && 0 < e.max_players <= MAX_PLAYERS
    && e.buy_in > 0
    && e.current_players == |e.players| == |e.refunded|
    && e.current_players <= e.max_players
    && NoDuplicates(e.players)
    && e.operator !in e.players
    // a game has free seats exactly while it is Open (or was Cancelled from Open)
    && (e.status == Open ==> e.current_players < e.max_players)
    && (e.status in {Filled, Active, Complete, Paused} ==> e.current_players == e.max_players)
    // started_at is written once, by start_game
    && (e.status in {Open, Filled} ==> e.started_at.None?)
    && (e.status in {Active, Complete, Paused} ==> e.started_at.Some?)
    // winner and proof are written once, by declare_winner
    && (e.winner.Some? <==> e.status == Complete)
    && (e.proof_hash.Some? <==> e.status == Complete)
    && (e.winner.Some? ==> e.winner.value in e.players)
    // refunds happen only after cancellation
    && (e.status != Cancelled ==> true !in e.refunded)
  }

  /** Funds custody: until the game completes, the escrow holds its reserve
      plus one buy-in for every participant not yet refunded. The reserve is
      the part of the balance no participant is owed: the deposit made at
      creation and anything transferred in from outside the program. */
  predicate Solvent(e: EscrowRecord, vault: nat, reserve: nat) {
    e.status != Complete ==> vault == reserve + e.buy_in * CountUnrefunded(e.refunded)
  }

  /** create_game: validates its inputs in the handler's order and builds the
      initial record. The account it fills is allocated by the runtime. */
  function CreateGame(game_id: seq<Byte>, operator: Pubkey, buy_in: nat, max_players: nat,
                      fill_deadline_hours: nat, seed: Bytes32, now: int): (r: Result<EscrowRecord>)
    ensures r.Ok? <==> |game_id| <= MAX_GAME_ID_LEN && 0 < max_players <= MAX_PLAYERS
                       && buy_in > 0 && fill_deadline_hours > 0
    // Read from the account constraints, not executed: the escrow's address is
    // derived from the seeds [b"escrow", game_id] (lib.rs:370) before the
    // handler runs, and a seed is limited to 32 bytes, so an over-long id most
    // likely fails there and the caller never sees GameIdTooLong.
    ensures |game_id| > MAX_GAME_ID_LEN ==> r == Err(Code(GameIdTooLong))
    ensures |game_id| <= MAX_GAME_ID_LEN && !(0 < max_players <= MAX_PLAYERS)
            ==> r == Err(Code(InvalidMaxPlayers))
    ensures |game_id| <= MAX_GAME_ID_LEN && 0 < max_players <= MAX_PLAYERS && buy_in == 0
            ==> r == Err(Code(InvalidBuyIn))
    ensures |game_id| <= MAX_GAME_ID_LEN && 0 < max_players <= MAX_PLAYERS && buy_in > 0 && fill_deadline_hours == 0
            ==> r == Err(Code(InvalidFillDeadline))
    ensures r.Ok? ==> Valid(r.value) && r.value.fill_deadline > now
  {
    if |game_id| > MAX_GAME_ID_LEN then Err(Code(GameIdTooLong))
    else if !(max_players > 0 && max_players <= MAX_PLAYERS) then Err(Code(InvalidMaxPlayers))
    else if buy_in == 0 then Err(Code(InvalidBuyIn))
    else if fill_deadline_hours == 0 then Err(Code(InvalidFillDeadline))
    else
      Ok(EscrowRecord(
        game_id := game_id,
        operator := operator,
        status := Open,
        buy_in := buy_in,
        max_players := max_players,
        current_players := 0,
        players := [],
        seed := seed,
        winner := None,
        proof_hash := None,
        created_at := now,
        fill_deadline := now + fill_deadline_hours * SECONDS_PER_HOUR,
        started_at := None,
        refunded := []))
  }

  /** join_game: the player pays the buy-in into the escrow and takes a seat;
      the last seat fills the game. */
  function JoinGame(s: State, player: Pubkey, now: int): Result<State> {
    var e := s.escrow;
    if e.status != Open then Err(Code(GameNotOpen))
    else if e.current_players >= e.max_players then Err(Code(GameFull))
    else if now >= e.fill_deadline then Err(Code(DeadlinePassed))
    else if player == e.operator then Err(Code(OperatorCannotPlay))
    else if player in e.players then Err(Code(AlreadyJoined))
    else if BalanceOf(s.wallets, player) < e.buy_in then Err(InsufficientFunds)
    else Ok(Seat(s, player))
  }

  /** The writes of a successful join: the buy-in moves from the player to
      the escrow, the player takes the next seat, and the last seat fills the
      game. */
  function Seat(s: State, player: Pubkey): State
    requires BalanceOf(s.wallets, player) >= s.escrow.buy_in
  {
    var e := s.escrow;
    var count := e.current_players + 1;
    State(
      e.(players := e.players + [player],
         refunded := e.refunded + [false],
         current_players := count,
         status := if count == e.max_players then Filled else e.status),
      s.vault + e.buy_in,
      s.wallets[player := BalanceOf(s.wallets, player) - e.buy_in])
  }

  /** start_game: the operator starts a filled game and the clock starts. */
  function StartGame(e: EscrowRecord, caller: Pubkey, now: int): Result<EscrowRecord> {
    if e.status != Filled then Err(Code(GameNotFilled))
    else if caller != e.operator then Err(Code(UnauthorizedOperator))
    else Ok(e.(status := Active, started_at := Some(now)))
  }

  /** The guards of declare_winner, in order; None when all pass. */
  function DeclareGuard(e: EscrowRecord, caller: Pubkey, winner: Pubkey, now: int): Option<BattleDinghyError> {
    if e.status != Active then Some(GameNotActive)
    else if caller != e.operator then Some(UnauthorizedOperator)
    else if winner !in e.players then Some(WinnerNotPlayer)
    else if e.started_at.Some? && now < e.started_at.value + MINIMUM_GAME_TIME then Some(TooEarlyForWinner)
    else None
  }

  /** `escrow_lamports.saturating_sub(rent_exempt)`: what declare_winner pays out. */
  function Payout(vault: nat, rent_exempt: nat): (p: nat)
    ensures p <= vault
    ensures vault - p == if vault < rent_exempt then vault else rent_exempt
  {
    if vault > rent_exempt then vault - rent_exempt else 0
  }

  /** The effect of a declare_winner whose guards passed: the payout leaves the
      escrow for the `recipient` account and the record is completed. */
  function Settle(s: State, winner: Pubkey, recipient: Pubkey, proof_hash: Bytes32, rent_exempt: nat): State {
    var amount := Payout(s.vault, rent_exempt);
    State(
      s.escrow.(winner := Some(winner), proof_hash := Some(proof_hash), status := Complete),
      s.vault - amount,
      if amount > 0 then Credit(s.wallets, recipient, amount) else s.wallets)
  }

  /** declare_winner as the handler is written: its guards check the `winner`
      argument, and the payout goes to the `recipient` account the instruction
      names, which nothing compares with that argument (see Findings). */
  function DeclareWinnerAsWritten(s: State, caller: Pubkey, winner: Pubkey, recipient: Pubkey,
                                  proof_hash: Bytes32, now: int, rent_exempt: nat): Result<State> {
    match DeclareGuard(s.escrow, caller, winner, now)
    case Some(code) => Err(Code(code))
    case None => Ok(Settle(s, winner, recipient, proof_hash, rent_exempt))
  }

  /** declare_winner as the program should behave: the account that receives
      the payout must be the declared winner. */
  function DeclareWinner(s: State, caller: Pubkey, winner: Pubkey, recipient: Pubkey,
                         proof_hash: Bytes32, now: int, rent_exempt: nat): Result<State> {
    match DeclareGuard(s.escrow, caller, winner, now)
    case Some(code) => Err(Code(code))
    case None =>
      if recipient != winner then Err(Code(WinnerNotPlayer))
      else Ok(Settle(s, winner, recipient, proof_hash, rent_exempt))
  }

  /** Which statuses cancel_game accepts at time `now`. */
  function CanCancel(status: GameStatus, now: int, fill_deadline: int): bool {
    match status
    case Open => true
    case Filled => now > fill_deadline
    case Paused => true
    case _ => false
  }

  /** cancel_game: the operator calls the game off; no funds move. */
  function CancelGame(e: EscrowRecord, caller: Pubkey, now: int): Result<EscrowRecord> {
    if caller != e.operator then Err(Code(UnauthorizedOperator))
    else if !CanCancel(e.status, now, e.fill_deadline) then Err(Code(CannotCancel))
    else Ok(e.(status := Cancelled))
  }

  /** claim_refund: a participant of a cancelled game takes back the buy-in,
      once. A record index out of range or an escrow short of the buy-in would
      abort the transaction; neither happens in a reachable state. */
  function ClaimRefund(s: State, player: Pubkey): Result<State> {
    var e := s.escrow;
    if e.status != Cancelled then Err(Code(GameNotCancelled))
    else
      match IndexOf(e.players, player)
      case None => Err(Code(PlayerNotInGame))
      case Some(i) =>
        if i >= |e.refunded| then Err(Aborted)
        else if e.refunded[i] then Err(Code(AlreadyRefunded))
        else if s.vault < e.buy_in then Err(Aborted)
        else Ok(Repay(s, player, i))
  }

  /** The writes of a successful claim: seat `i` is marked refunded and its
      buy-in moves from the escrow back to the player. */
  function Repay(s: State, player: Pubkey, i: nat): State
    requires i < |s.escrow.refunded| && s.vault >= s.escrow.buy_in
  {
    State(
      s.escrow.(refunded := s.escrow.refunded[i := true]),
      s.vault - s.escrow.buy_in,
      Credit(s.wallets, player, s.escrow.buy_in))
  }

  /** emergency_halt: the operator pauses an active game. */
  function EmergencyHalt(e: EscrowRecord, caller: Pubkey): Result<EscrowRecord> {
    if e.status != Active then Err(Code(GameNotActive))
    else if caller != e.operator then Err(Code(UnauthorizedOperator))
    else Ok(e.(status := Paused))
  }

  /** resume_game: the operator resumes a paused game. */
  function ResumeGame(e: EscrowRecord, caller: Pubkey): Result<EscrowRecord> {
    if e.status != Paused then Err(Code(GameNotPaused))
    else if caller != e.operator then Err(Code(UnauthorizedOperator))
    else Ok(e.(status := Active))
  }

  /** The instructions that act on an existing record, with their arguments
      and the accounts they name. `rent_exempt` is what the rent sysvar
      reports as the minimum balance for the record's size. */
  datatype Instruction =
    | Join(player: Pubkey)
    | Start(caller: Pubkey)
    | Declare(caller: Pubkey, winner: Pubkey, recipient: Pubkey, proof_hash: Bytes32, rent_exempt: nat)
    | Cancel(caller: Pubkey)
    | Refund(player: Pubkey)
    | Halt(caller: Pubkey)
    | Resume(caller: Pubkey)

  /** An instruction together with the clock reading of its transaction. */
  datatype Call = Call(instruction: Instruction, now: int)

  /** Lifts a record-only transition to the whole state. */
  function OnRecord(s: State, r: Result<EscrowRecord>): Result<State> {
    match r
    case Ok(e) => Ok(s.(escrow := e))
    case Err(err) => Err(err)
  }

  /** One transaction against the record, each handler as written. */
  function Step(s: State, call: Call): Result<State> {
    match call.instruction
    case Join(player) => JoinGame(s, player, call.now)
    case Start(caller) => OnRecord(s, StartGame(s.escrow, caller, call.now))
    case Declare(caller, winner, recipient, proof_hash, rent_exempt) =>
      DeclareWinnerAsWritten(s, caller, winner, recipient, proof_hash, call.now, rent_exempt)
    case Cancel(caller) => OnRecord(s, CancelGame(s.escrow, caller, call.now))
    case Refund(player) => ClaimRefund(s, player)
    case Halt(caller) => OnRecord(s, EmergencyHalt(s.escrow, caller))
    case Resume(caller) => OnRecord(s, ResumeGame(s.escrow, caller))
  }

  /** A sequence of transactions, each applied in full or not at all. */
  function Run(s: State, calls: seq<Call>): State
    decreases |calls|
  {
    if calls == [] then s else Run(Step(s, calls[0]).GetOr(s), calls[1..])
  }

  /** The status changes the program allows. Only Open (a join that leaves
      seats free) and Cancelled (a refund) are ever kept by a transition. */
  predicate LegalEdge(from: GameStatus, to: GameStatus, now: int, fill_deadline: int) {
    || (from == to && (from == Open || from == Cancelled))
    || (from == Open && to == Filled)
    || (from == Filled && to == Active)
    || (from == Active && to == Complete)
    || (from == Active && to == Paused)
    || (from == Paused && to == Active)
    || (to == Cancelled && (from == Open || from == Paused || (from == Filled && now > fill_deadline)))
  }
}
