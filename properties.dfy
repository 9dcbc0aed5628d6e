/** What the escrow promises, proved about the transition functions of Spec:
    validation order, the shape invariants, the legal status edges,
    operator-only actions, the winner's payout, refunds paid at most once,
    and custody of the pooled lamports over any sequence of transactions. */
module Properties {
  import opened Types
  import opened Search
  import opened Spec

  // ---------------------------------------------------------------------------
  // Counting refunds
  // ---------------------------------------------------------------------------

  /** The count is an independent tally: the number of `false` flags, as the
      multiset of the flags gives it. */
  lemma {:induction false} CountUnrefundedIsFalseTally(refunded: seq<bool>)
    ensures CountUnrefunded(refunded) == multiset(refunded)[false]
  {
    if refunded != [] {
      var init := refunded[..|refunded| - 1];
      assert refunded == init + [refunded[|refunded| - 1]];
      CountUnrefundedIsFalseTally(init);
    }
  }

  /** Appending a new, unrefunded seat adds one to the count. */
  lemma CountAfterJoin(refunded: seq<bool>)
    ensures CountUnrefunded(refunded + [false]) == CountUnrefunded(refunded) + 1
  {
    assert (refunded + [false])[..|refunded|] == refunded;
  }

  /** Marking one unrefunded seat as refunded takes one off the count. */
  lemma {:induction false} CountAfterRefund(refunded: seq<bool>, i: nat)
    requires i < |refunded| && !refunded[i]
    ensures CountUnrefunded(refunded[i := true]) + 1 == CountUnrefunded(refunded)
  {
    var n := |refunded| - 1;
    var after := refunded[i := true];
    assert CountUnrefunded(refunded) == CountUnrefunded(refunded[..n]) + (if refunded[n] then 0 else 1);
    assert CountUnrefunded(after) == CountUnrefunded(after[..n]) + (if after[n] then 0 else 1);
    if i < n {
      assert after[..n] == refunded[..n][i := true];
      CountAfterRefund(refunded[..n], i);
    } else {
      assert after[..n] == refunded[..n];
    }
  }

  // ---------------------------------------------------------------------------
  // create_game
  // ---------------------------------------------------------------------------

  /** A successful create_game writes an Open record with no seats taken, no
      winner, proof or start time, and a deadline `hours` hours after
      creation; an account that starts with `reserve` lamports is solvent. */
  lemma CreateGameInitialRecord(game_id: seq<Byte>, operator: Pubkey, buy_in: nat, max_players: nat,
                                fill_deadline_hours: nat, seed: Bytes32, now: int, reserve: nat)
    requires CreateGame(game_id, operator, buy_in, max_players, fill_deadline_hours, seed, now).Ok?
    ensures var e := CreateGame(game_id, operator, buy_in, max_players, fill_deadline_hours, seed, now).value;
      && e.status == Open && e.operator == operator && e.game_id == game_id && e.seed == seed
      && e.buy_in == buy_in && e.max_players == max_players
      && e.current_players == 0 && e.players == [] && e.refunded == []
      && e.winner.None? && e.proof_hash.None? && e.started_at.None?
      && e.created_at == now && e.fill_deadline == now + SECONDS_PER_HOUR * fill_deadline_hours
      && Valid(e) && Solvent(e, reserve, reserve)
  {
  }

  // ---------------------------------------------------------------------------
  // join_game
  // ---------------------------------------------------------------------------

  /** join_game reports, in this order: GameNotOpen, GameFull, DeadlinePassed,
      OperatorCannotPlay, AlreadyJoined, then a refused transfer. */
  lemma JoinGameErrors(s: State, player: Pubkey, now: int)
    ensures var r := JoinGame(s, player, now); var e := s.escrow;
      && (e.status != Open ==> r == Err(Code(GameNotOpen)))
      && (e.status == Open && e.current_players >= e.max_players ==> r == Err(Code(GameFull)))
      && (e.status == Open && e.current_players < e.max_players && now >= e.fill_deadline
          ==> r == Err(Code(DeadlinePassed)))
      && (e.status == Open && e.current_players < e.max_players && now < e.fill_deadline && player == e.operator
          ==> r == Err(Code(OperatorCannotPlay)))
      && (e.status == Open && e.current_players < e.max_players && now < e.fill_deadline && player != e.operator
          && player in e.players
          ==> r == Err(Code(AlreadyJoined)))
      && (r.Ok? <==> e.status == Open && e.current_players < e.max_players && now < e.fill_deadline
                     && player != e.operator && player !in e.players
                     && BalanceOf(s.wallets, player) >= e.buy_in)
  {
  }

  /** Whatever seats are left, a join at or after the fill deadline fails
      with DeadlinePassed. */
  lemma JoinAfterDeadline(s: State, player: Pubkey, now: int)
    requires s.escrow.status == Open && s.escrow.current_players < s.escrow.max_players
    requires now >= s.escrow.fill_deadline
    ensures JoinGame(s, player, now) == Err(Code(DeadlinePassed))
  {
  }

  /** A successful join appends the player and an unrefunded flag, fills the
      game exactly when the last seat is taken, and moves the buy-in from the
      player to the escrow; no other balance changes. */
  lemma JoinGameShape(s: State, player: Pubkey, now: int)
    requires Valid(s.escrow)
    requires JoinGame(s, player, now).Ok?
    ensures var t := JoinGame(s, player, now).value; var e, e' := s.escrow, t.escrow;
      && e'.players == e.players + [player]
      && e'.refunded == e.refunded + [false]
      && e'.current_players == |e'.players| == |e.players| + 1 <= e'.max_players
      && (e'.status == Filled <==> e'.current_players == e'.max_players)
      && (e'.status == Open <==> e'.current_players < e'.max_players)
      && t.vault == s.vault + e.buy_in
      && BalanceOf(t.wallets, player) + e.buy_in == BalanceOf(s.wallets, player)
      && (forall k :: k != player ==> BalanceOf(t.wallets, k) == BalanceOf(s.wallets, k))
  {
  }

  /** A successful join keeps the shape invariants (the new player is neither
      a duplicate nor the operator) and the custody of one buy-in per seat. */
  lemma JoinGameKeepsInvariants(s: State, player: Pubkey, now: int, reserve: nat)
    requires Valid(s.escrow) && Solvent(s.escrow, s.vault, reserve)
    requires JoinGame(s, player, now).Ok?
    ensures var t := JoinGame(s, player, now).value; Valid(t.escrow) && Solvent(t.escrow, t.vault, reserve)
  {
    SeatKeepsInvariants(s, player, reserve);
  }

  /** The writes of a join keep the invariants once its guards have passed. */
  lemma SeatKeepsInvariants(s: State, player: Pubkey, reserve: nat)
    requires Valid(s.escrow) && Solvent(s.escrow, s.vault, reserve)
    requires s.escrow.status == Open && s.escrow.current_players < s.escrow.max_players
    requires player != s.escrow.operator && player !in s.escrow.players
    requires BalanceOf(s.wallets, player) >= s.escrow.buy_in
    ensures Valid(Seat(s, player).escrow) && Solvent(Seat(s, player).escrow, Seat(s, player).vault, reserve)
  {
    var t := Seat(s, player);
    var e, e' := s.escrow, t.escrow;
    CountAfterJoin(e.refunded);
    calc {
      t.vault;
      s.vault + e.buy_in;
      reserve + e.buy_in * CountUnrefunded(e.refunded) + e.buy_in;
      reserve + e.buy_in * (CountUnrefunded(e.refunded) + 1);
      reserve + e'.buy_in * CountUnrefunded(e'.refunded);
    }
    assert NoDuplicates(e'.players) by {
      forall i, j | 0 <= i < j < |e'.players| ensures e'.players[i] != e'.players[j] {
        if j == |e.players| {
          assert e'.players[i] == e.players[i];
        }
      }
    }
    assert true !in e'.refunded;
  }

  // ---------------------------------------------------------------------------
  // start_game, emergency_halt, resume_game, cancel_game
  // ---------------------------------------------------------------------------

  /** start_game succeeds exactly for the operator on a Filled game, and then
      the game is Active with its start time recorded. */
  lemma StartGameOutcome(e: EscrowRecord, caller: Pubkey, now: int)
    ensures var r := StartGame(e, caller, now);
      && (e.status != Filled ==> r == Err(Code(GameNotFilled)))
      && (e.status == Filled && caller != e.operator ==> r == Err(Code(UnauthorizedOperator)))
      && (r.Ok? <==> e.status == Filled && caller == e.operator)
      && (r.Ok? ==> r.value == e.(status := Active, started_at := Some(now)))
  {
  }

  /** cancel_game checks the operator first; the operator may cancel an Open
      or Paused game, and a Filled one only once the fill deadline is behind;
      every other case is CannotCancel. */
  lemma CancelGameOutcome(e: EscrowRecord, caller: Pubkey, now: int)
    ensures var r := CancelGame(e, caller, now);
      && (caller != e.operator ==> r == Err(Code(UnauthorizedOperator)))
      && (caller == e.operator && (e.status in {Active, Complete, Cancelled}
                                   || (e.status == Filled && now <= e.fill_deadline))
          ==> r == Err(Code(CannotCancel)))
      && (r.Ok? <==> caller == e.operator && (e.status in {Open, Paused}
                                              || (e.status == Filled && now > e.fill_deadline)))
      && (r.Ok? ==> r.value == e.(status := Cancelled))
  {
  }

  /** emergency_halt and resume_game toggle Active and Paused, for the operator only. */
  lemma HaltResumeOutcome(e: EscrowRecord, caller: Pubkey)
    ensures var h := EmergencyHalt(e, caller);
      && (e.status != Active ==> h == Err(Code(GameNotActive)))
      && (e.status == Active && caller != e.operator ==> h == Err(Code(UnauthorizedOperator)))
      && (h.Ok? <==> e.status == Active && caller == e.operator)
      && (h.Ok? ==> h.value == e.(status := Paused))
    ensures var u := ResumeGame(e, caller);
      && (e.status != Paused ==> u == Err(Code(GameNotPaused)))
      && (e.status == Paused && caller != e.operator ==> u == Err(Code(UnauthorizedOperator)))
      && (u.Ok? <==> e.status == Paused && caller == e.operator)
      && (u.Ok? ==> u.value == e.(status := Active))
  {
  }

  // ---------------------------------------------------------------------------
  // declare_winner
  // ---------------------------------------------------------------------------

  /** On a valid record, declare_winner as written succeeds exactly when the
      game is Active, the caller is the operator, the winner is a participant
      and a minute has passed since the start. It then completes the game with
      that winner, pays `balance - rent_exempt` (saturating) to whatever
      account the instruction names, leaves `min(balance, rent_exempt)` in the
      escrow and touches no other account. */
  lemma DeclareWinnerAsWrittenOutcome(s: State, caller: Pubkey, winner: Pubkey, recipient: Pubkey,
                                      proof_hash: Bytes32, now: int, rent_exempt: nat)
    requires Valid(s.escrow)
    ensures var r := DeclareWinnerAsWritten(s, caller, winner, recipient, proof_hash, now, rent_exempt);
            var e := s.escrow;
      && (r.Ok? <==> e.status == Active && caller == e.operator && winner in e.players
                     && now >= e.started_at.value + MINIMUM_GAME_TIME)
      && (r.Ok? ==>
            && r.value.escrow.status == Complete
            && r.value.escrow.winner == Some(winner) && winner in r.value.escrow.players
            && r.value.escrow.proof_hash == Some(proof_hash)
            && r.value.escrow.players == e.players && r.value.escrow.refunded == e.refunded
            && r.value.escrow == e.(winner := Some(winner), proof_hash := Some(proof_hash), status := Complete)
            && r.value.vault == (if s.vault < rent_exempt then s.vault else rent_exempt)
            && BalanceOf(r.value.wallets, recipient) == BalanceOf(s.wallets, recipient) + (s.vault - r.value.vault)
            && (forall k :: k != recipient ==> BalanceOf(r.value.wallets, k) == BalanceOf(s.wallets, k))
            && Valid(r.value.escrow))
  {
  }

  /** The corrected declare_winner: on a valid record it succeeds exactly when
      the as-written guards pass and the paid account is the declared winner,
      and then pays the winner alone. */
  lemma DeclareWinnerOutcome(s: State, caller: Pubkey, winner: Pubkey, recipient: Pubkey,
                             proof_hash: Bytes32, now: int, rent_exempt: nat)
    requires Valid(s.escrow)
    ensures var r := DeclareWinner(s, caller, winner, recipient, proof_hash, now, rent_exempt);
            var e := s.escrow;
      && (r.Ok? <==> e.status == Active && caller == e.operator && winner in e.players
                     && recipient == winner && now >= e.started_at.value + MINIMUM_GAME_TIME)
      && (r.Ok? ==>
            && r.value.escrow.status == Complete
            && r.value.escrow.winner == Some(winner) && winner in r.value.escrow.players
            && r.value.escrow.proof_hash == Some(proof_hash)
            && r.value.escrow.players == e.players && r.value.escrow.refunded == e.refunded
            && r.value.escrow == e.(winner := Some(winner), proof_hash := Some(proof_hash), status := Complete)
            && r.value.vault == (if s.vault < rent_exempt then s.vault else rent_exempt)
            && BalanceOf(r.value.wallets, winner) == BalanceOf(s.wallets, winner) + (s.vault - r.value.vault)
            && (forall k :: k != winner ==> BalanceOf(r.value.wallets, k) == BalanceOf(s.wallets, k))
            && Valid(r.value.escrow))
  {
  }

  /** At-most-once settlement: once a declaration has succeeded, every
      further declaration fails with GameNotActive, as written and corrected
      alike. */
  lemma DeclareWinnerOnce(s: State, caller: Pubkey, winner: Pubkey, recipient: Pubkey, proof_hash: Bytes32,
                          now: int, rent_exempt: nat, caller2: Pubkey, winner2: Pubkey, recipient2: Pubkey,
                          proof_hash2: Bytes32, now2: int, rent_exempt2: nat)
    requires DeclareWinnerAsWritten(s, caller, winner, recipient, proof_hash, now, rent_exempt).Ok?
    ensures var t := DeclareWinnerAsWritten(s, caller, winner, recipient, proof_hash, now, rent_exempt).value;
      && DeclareWinnerAsWritten(t, caller2, winner2, recipient2, proof_hash2, now2, rent_exempt2)
         == Err(Code(GameNotActive))
      && DeclareWinner(t, caller2, winner2, recipient2, proof_hash2, now2, rent_exempt2) == Err(Code(GameNotActive))
  {
  }

  /** A winner declared less than a minute after the start is refused,
      whichever account is named for the payout. */
  lemma DeclareWinnerTooEarly(s: State, winner: Pubkey, recipient: Pubkey, proof_hash: Bytes32, now: int,
                              rent_exempt: nat)
    requires s.escrow.status == Active && winner in s.escrow.players
    requires s.escrow.started_at.Some? && now < s.escrow.started_at.value + MINIMUM_GAME_TIME
    ensures DeclareWinnerAsWritten(s, s.escrow.operator, winner, recipient, proof_hash, now, rent_exempt)
            == Err(Code(TooEarlyForWinner))
    ensures DeclareWinner(s, s.escrow.operator, winner, recipient, proof_hash, now, rent_exempt)
            == Err(Code(TooEarlyForWinner))
  {
  }

  /** When the rent-exempt minimum equals the reserve, the paid account
      receives exactly one buy-in per seat and the escrow keeps exactly the
      reserve. */
  lemma DeclareWinnerPaysPool(s: State, winner: Pubkey, recipient: Pubkey, proof_hash: Bytes32, now: int,
                              reserve: nat)
    requires Valid(s.escrow) && Solvent(s.escrow, s.vault, reserve)
    requires DeclareWinnerAsWritten(s, s.escrow.operator, winner, recipient, proof_hash, now, reserve).Ok?
    ensures var t := DeclareWinnerAsWritten(s, s.escrow.operator, winner, recipient, proof_hash, now, reserve).value;
      && t.vault == reserve
      && BalanceOf(t.wallets, recipient) == BalanceOf(s.wallets, recipient) + s.escrow.buy_in * s.escrow.max_players
  {
    assert CountUnrefunded(s.escrow.refunded) == |s.escrow.refunded|;
  }

  // ---------------------------------------------------------------------------
  // claim_refund
  // ---------------------------------------------------------------------------

  /** With one buy-in held per unrefunded seat and at least one such seat, the
      escrow can pay a refund and still hold one buy-in per remaining seat. */
  lemma CustodyCoversRefund(vault: nat, reserve: nat, buy_in: nat, unrefunded: nat)
    requires unrefunded >= 1 && vault == reserve + buy_in * unrefunded
    ensures vault >= buy_in && vault - buy_in == reserve + buy_in * (unrefunded - 1)
  {
    assert buy_in * unrefunded == buy_in * (unrefunded - 1) + buy_in;
  }

  /** On a valid, solvent record, claim_refund succeeds exactly when the game
      is Cancelled and the caller holds a seat not yet refunded; the runtime
      never has to abort it. */
  lemma ClaimRefundErrors(s: State, player: Pubkey, reserve: nat)
    requires Valid(s.escrow) && Solvent(s.escrow, s.vault, reserve)
    ensures var r := ClaimRefund(s, player); var e := s.escrow;
      && r != Err(Aborted)
      && (e.status != Cancelled ==> r == Err(Code(GameNotCancelled)))
      && (e.status == Cancelled && player !in e.players ==> r == Err(Code(PlayerNotInGame)))
      && (e.status == Cancelled && player in e.players && e.refunded[IndexOf(e.players, player).value]
          ==> r == Err(Code(AlreadyRefunded)))
      && (r.Ok? <==> e.status == Cancelled && player in e.players && !e.refunded[IndexOf(e.players, player).value])
  {
    var e := s.escrow;
    if e.status == Cancelled && player in e.players {
      var i := IndexOf(e.players, player).value;
      if !e.refunded[i] {
        assert false in e.refunded;
        CustodyCoversRefund(s.vault, reserve, e.buy_in, CountUnrefunded(e.refunded));
      }
    }
  }

  /** A successful claim pays back exactly the buy-in from the escrow to the
      claimant, flips that one seat's flag and nothing else in the record, and
      a second claim by the same participant fails with AlreadyRefunded. */
  lemma ClaimRefundEffect(s: State, player: Pubkey)
    requires Valid(s.escrow)
    requires ClaimRefund(s, player).Ok?
    ensures var e := s.escrow; player in e.players
    ensures var e, i := s.escrow, IndexOf(s.escrow.players, player).value;
      && i < |e.refunded| && !e.refunded[i]
      && ClaimRefund(s, player).value.escrow == e.(refunded := e.refunded[i := true])
    ensures var t, e := ClaimRefund(s, player).value, s.escrow;
      && t.vault + e.buy_in == s.vault
      && BalanceOf(t.wallets, player) == BalanceOf(s.wallets, player) + e.buy_in
      && (forall k :: k != player ==> BalanceOf(t.wallets, k) == BalanceOf(s.wallets, k))
    ensures var t := ClaimRefund(s, player).value; ClaimRefund(t, player) == Err(Code(AlreadyRefunded))
  {
    var i := IndexOf(s.escrow.players, player).value;
    var t := Repay(s, player, i);
    assert ClaimRefund(s, player).value == t;
    assert t.escrow.players == s.escrow.players;
    assert t.escrow.refunded[i];
  }

  /** A successful claim keeps the shape invariants and the custody of one
      buy-in per unrefunded seat. */
  lemma ClaimRefundKeepsInvariants(s: State, player: Pubkey, reserve: nat)
    requires Valid(s.escrow) && Solvent(s.escrow, s.vault, reserve)
    requires ClaimRefund(s, player).Ok?
    ensures var t := ClaimRefund(s, player).value; Valid(t.escrow) && Solvent(t.escrow, t.vault, reserve)
  {
    var i := IndexOf(s.escrow.players, player).value;
    assert ClaimRefund(s, player).value == Repay(s, player, i);
    RepayKeepsInvariants(s, player, i, reserve);
  }

  /** The writes of a claim keep the invariants once its guards have passed. */
  lemma RepayKeepsInvariants(s: State, player: Pubkey, i: nat, reserve: nat)
    requires Valid(s.escrow) && Solvent(s.escrow, s.vault, reserve)
    requires s.escrow.status == Cancelled
    requires i < |s.escrow.refunded| && !s.escrow.refunded[i] && s.vault >= s.escrow.buy_in
    ensures Valid(Repay(s, player, i).escrow) && Solvent(Repay(s, player, i).escrow, Repay(s, player, i).vault, reserve)
  {
    var e := s.escrow;
    var e' := Repay(s, player, i).escrow;
    CountAfterRefund(e.refunded, i);
    CustodyCoversRefund(s.vault, reserve, e.buy_in, CountUnrefunded(e.refunded));
    assert |e'.refunded| == |e.refunded|;
    assert Valid(e');
  }

  /** A transfer into the escrow from outside the program leaves the record
      as it is and adds to the reserve, so custody still holds. */
  lemma ExternalTransferKeepsCustody(e: EscrowRecord, vault: nat, reserve: nat, amount: nat)
    requires Solvent(e, vault, reserve)
    ensures Solvent(e, vault + amount, reserve + amount)
  {
  }

  /** Once every participant of a cancelled game has been refunded, the escrow
      holds nothing beyond its reserve. */
  lemma AllRefundedLeavesReserve(e: EscrowRecord, vault: nat, reserve: nat)
    requires Solvent(e, vault, reserve) && e.status == Cancelled && false !in e.refunded
    ensures vault == reserve
  {
  }

  // ---------------------------------------------------------------------------
  // Every transaction
  // ---------------------------------------------------------------------------

  /** The caller of an operator-only instruction, if it is one. */
  function OperatorCall(ins: Instruction): Option<Pubkey> {
    match ins
    case Start(caller) => Some(caller)
    case Declare(caller, _, _, _, _) => Some(caller)
    case Cancel(caller) => Some(caller)
    case Halt(caller) => Some(caller)
    case Resume(caller) => Some(caller)
    case _ => None
  }

  /** start, declare, cancel, halt and resume never succeed for anyone but the
      operator; cancel refuses a stranger whatever the status, the others once
      the status check has passed. */
  lemma OperatorOnly(s: State, call: Call)
    requires OperatorCall(call.instruction).Some? && OperatorCall(call.instruction).value != s.escrow.operator
    ensures Step(s, call).Err?
    ensures call.instruction.Cancel? ==> Step(s, call) == Err(Code(UnauthorizedOperator))
    ensures (call.instruction.Start? && s.escrow.status == Filled)
            || (call.instruction.Declare? && s.escrow.status == Active)
            || (call.instruction.Halt? && s.escrow.status == Active)
            || (call.instruction.Resume? && s.escrow.status == Paused)
            ==> Step(s, call) == Err(Code(UnauthorizedOperator))
  {
  }

  /** Every transaction that succeeds follows a legal status edge. */
  lemma StepFollowsEdge(s: State, call: Call)
    requires Step(s, call).Ok?
    ensures LegalEdge(s.escrow.status, Step(s, call).value.escrow.status, call.now, s.escrow.fill_deadline)
  {
  }

  /** Nothing succeeds on a completed game, and on a cancelled game only refund
      claims do; so Complete and Cancelled are never left. */
  lemma TerminalStatuses(s: State, call: Call)
    ensures s.escrow.status == Complete ==> Step(s, call).Err?
    ensures s.escrow.status == Cancelled && Step(s, call).Ok?
            ==> call.instruction.Refund? && Step(s, call).value.escrow.status == Cancelled
  {
  }

  /** Refund flags are never cleared, never dropped, and set only by a refund
      claim on a cancelled game. */
  lemma RefundedOnlyRises(s: State, call: Call)
    requires Step(s, call).Ok?
    ensures var old_flags, new_flags := s.escrow.refunded, Step(s, call).value.escrow.refunded;
      && |old_flags| <= |new_flags|
      && (forall i :: 0 <= i < |old_flags| && old_flags[i] ==> new_flags[i])
      && (forall i :: 0 <= i < |old_flags| && !old_flags[i] && new_flags[i]
            ==> s.escrow.status == Cancelled && call.instruction.Refund?)
  {
  }

  /** The account whose lamports a transaction may change, besides the escrow. */
  function Counterparty(ins: Instruction): Pubkey {
    match ins
    case Join(player) => player
    case Declare(_, _, recipient, _, _) => recipient
    case Refund(player) => player
    case Start(caller) => caller
    case Cancel(caller) => caller
    case Halt(caller) => caller
    case Resume(caller) => caller
  }

  /** No lamports are created or destroyed: what the escrow gains one account
      loses, what it pays one account gains, and no other account changes. */
  lemma StepConservesLamports(s: State, call: Call)
    requires Step(s, call).Ok?
    ensures var t, p := Step(s, call).value, Counterparty(call.instruction);
      && t.vault + BalanceOf(t.wallets, p) == s.vault + BalanceOf(s.wallets, p)
      && (forall k :: k != p ==> BalanceOf(t.wallets, k) == BalanceOf(s.wallets, k))
  {
    var p := Counterparty(call.instruction);
    match call.instruction {
      case Join(player) =>
        var t := Step(s, call).value;
        assert BalanceOf(t.wallets, p) + s.escrow.buy_in == BalanceOf(s.wallets, p);
      case _ =>
    }
  }

  /** Every transaction keeps the shape invariants and custody of the funds. */
  lemma StepPreserves(s: State, call: Call, reserve: nat)
    requires Valid(s.escrow) && Solvent(s.escrow, s.vault, reserve)
    ensures var t := Step(s, call).GetOr(s); Valid(t.escrow) && Solvent(t.escrow, t.vault, reserve)
  {
    if Step(s, call).Ok? {
      match call.instruction {
        case Join(player) => JoinGameKeepsInvariants(s, player, call.now, reserve);
        case Refund(player) => ClaimRefundKeepsInvariants(s, player, reserve);
        case Declare(caller, winner, recipient, proof_hash, rent_exempt) =>
          DeclareWinnerAsWrittenOutcome(s, caller, winner, recipient, proof_hash, call.now, rent_exempt);
        case _ =>
      }
    }
  }

  /** For every sequence of transactions, the shape invariants and custody of
      the funds hold after each one. */
  lemma {:induction false} RunPreserves(s: State, calls: seq<Call>, reserve: nat)
    requires Valid(s.escrow) && Solvent(s.escrow, s.vault, reserve)
    ensures Valid(Run(s, calls).escrow) && Solvent(Run(s, calls).escrow, Run(s, calls).vault, reserve)
    decreases |calls|
  {
    if calls != [] {
      StepPreserves(s, calls[0], reserve);
      RunPreserves(Step(s, calls[0]).GetOr(s), calls[1..], reserve);
    }
  }

  /** A completed or cancelled game keeps its status whatever follows. */
  lemma {:induction false} RunStaysTerminal(s: State, calls: seq<Call>)
    requires s.escrow.status in {Complete, Cancelled}
    ensures Run(s, calls).escrow.status == s.escrow.status
    decreases |calls|
  {
    if calls != [] {
      TerminalStatuses(s, calls[0]);
      RunStaysTerminal(Step(s, calls[0]).GetOr(s), calls[1..]);
    }
  }

  /** Any history that starts from a freshly created game, whose account holds
      `reserve` lamports, ends in a valid and solvent state. */
  lemma CreatedGamesStaySolvent(game_id: seq<Byte>, operator: Pubkey, buy_in: nat, max_players: nat,
                                fill_deadline_hours: nat, seed: Bytes32, now: int, reserve: nat,
                                wallets: map<Pubkey, nat>, calls: seq<Call>)
    requires CreateGame(game_id, operator, buy_in, max_players, fill_deadline_hours, seed, now).Ok?
    ensures var s := State(CreateGame(game_id, operator, buy_in, max_players, fill_deadline_hours, seed, now).value,
                           reserve, wallets);
      Valid(Run(s, calls).escrow) && Solvent(Run(s, calls).escrow, Run(s, calls).vault, reserve)
  {
    var s := State(CreateGame(game_id, operator, buy_in, max_players, fill_deadline_hours, seed, now).value,
                   reserve, wallets);
    CreateGameInitialRecord(game_id, operator, buy_in, max_players, fill_deadline_hours, seed, now, reserve);
    RunPreserves(s, calls, reserve);
  }
}
