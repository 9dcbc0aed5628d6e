/** declare_winner as the handler is written (Spec.DeclareWinnerAsWritten,
    which Spec.Step and the program run). Its guards check that the
    `winner` argument is a participant, but the payout is credited to the
    separate `winner` account of the instruction, and nothing compares that
    account's key with the argument. The operator can therefore name a
    participant as winner and collect the pool on any account, its own
    included. */
module Findings {
  import opened Types
  import opened Spec

  /** Whenever the guards pass, the as-written handler succeeds and credits
      the payout to whatever account was passed, while the record names the
      declared winner. */
  lemma AsWrittenPaysAnyAccount(s: State, caller: Pubkey, winner: Pubkey, recipient: Pubkey,
                                proof_hash: Bytes32, now: int, rent_exempt: nat)
    requires DeclareGuard(s.escrow, caller, winner, now).None?
    ensures var r := DeclareWinnerAsWritten(s, caller, winner, recipient, proof_hash, now, rent_exempt);
      && r.Ok? && r.value.escrow.winner == Some(winner)
      && BalanceOf(r.value.wallets, recipient) == BalanceOf(s.wallets, recipient) + Payout(s.vault, rent_exempt)
  {
  }

  /** A concrete game: operator 7, participants 1 and 2, buy-in 100, reserve
      1000, started at time 0. At time 60 the operator declares participant 1
      the winner but passes account 8, a second account it controls that is
      neither a participant nor its signer: the record says 1 won, the 200
      lamports of the pool go to account 8, and participant 1 gets nothing. */
  lemma OperatorCollectsPool()
    ensures var proof: Bytes32 := seq(32, _ => 0);
      var e := EscrowRecord(
        game_id := [0x67, 0x31], operator := 7, status := Active, buy_in := 100,
        max_players := 2, current_players := 2, players := [1, 2], seed := proof,
        winner := None, proof_hash := None, created_at := 0, fill_deadline := 3600,
        started_at := Some(0), refunded := [false, false]);
      var s := State(e, 1200, map[]);
      var r := DeclareWinnerAsWritten(s, 7, 1, 8, proof, 60, 1000);
      && Valid(e) && Solvent(e, 1200, 1000)
      && r.Ok? && r.value.escrow.winner == Some(1) && 8 !in e.players && 8 != e.operator
      && BalanceOf(r.value.wallets, 8) == 200 && BalanceOf(r.value.wallets, 1) == 0
  {
    var proof: Bytes32 := seq(32, _ => 0);
    var e := EscrowRecord(
      game_id := [0x67, 0x31], operator := 7, status := Active, buy_in := 100,
      max_players := 2, current_players := 2, players := [1, 2], seed := proof,
      winner := None, proof_hash := None, created_at := 0, fill_deadline := 3600,
      started_at := Some(0), refunded := [false, false]);
    assert CountUnrefunded(e.refunded) == 2 by {
      assert e.refunded[..1] == [false];
    }
    AsWrittenPaysAnyAccount(State(e, 1200, map[]), 7, 1, 8, proof, 60, 1000);
  }

  /** The corrected handler agrees with the as-written one whenever the paid
      account is the declared winner, and refuses every other account. */
  lemma CorrectionOnlyAddsRecipientCheck(s: State, caller: Pubkey, winner: Pubkey, recipient: Pubkey,
                                         proof_hash: Bytes32, now: int, rent_exempt: nat)
    ensures recipient == winner ==>
      DeclareWinner(s, caller, winner, recipient, proof_hash, now, rent_exempt)
      == DeclareWinnerAsWritten(s, caller, winner, recipient, proof_hash, now, rent_exempt)
    ensures recipient != winner && DeclareGuard(s.escrow, caller, winner, now).None? ==>
      DeclareWinner(s, caller, winner, recipient, proof_hash, now, rent_exempt) == Err(Code(WinnerNotPlayer))
  {
  }
}
