/** Two complete histories of one game, run through the transition functions
    of Spec: a game played to the end and a game cancelled before it fills. */
module Scenarios {
  import opened Types
  import opened Search
  import opened Spec

  /** Game "g1", operator 7, buy-in 100, two seats, fill deadline one hour
      after creation at time 0. */
  function Game(): EscrowRecord {
    CreateGame([0x67, 0x31], 7, 100, 2, 1, seq(32, _ => 0), 0).value
  }

  /** Participants 1 and 2 each start with 500 lamports; the escrow holds its
      reserve of 1000. */
  function Opening(): State {
    State(Game(), 1000, map[1 := 500, 2 := 500])
  }

  /** Participants 1 and 2 join at times 10 and 20: the first join leaves the
      game Open, the second fills it, and the escrow holds both buy-ins. */
  lemma TwoJoinsFill()
    ensures var s1 := JoinGame(Opening(), 1, 10);
      var s2 := JoinGame(s1.value, 2, 20);
      && s1.Ok? && s1.value.escrow.status == Open
      && s2.Ok? && s2.value.escrow.status == Filled && s2.value.escrow.players == [1, 2]
      && s2.value.vault == 1200
      && BalanceOf(s2.value.wallets, 1) == 400 && BalanceOf(s2.value.wallets, 2) == 400
  {
    var g := Game();
    assert g.status == Open && g.players == [] && g.fill_deadline == 3600;
    var s1 := JoinGame(Opening(), 1, 10);
    assert s1.Ok?;
    assert s1.value.escrow.players == [1];
  }

  /** On the filled game, the operator starts it at time 30 and declares
      participant 1 the winner at time 90: with a rent-exempt minimum equal to
      the reserve, the winner gets the whole pool of 200, the escrow keeps its
      reserve, and the game is Complete. */
  lemma HappyPath()
    ensures var proof: Bytes32 := seq(32, _ => 0);
      var s2 := JoinGame(JoinGame(Opening(), 1, 10).value, 2, 20);
      var s3 := StartGame(s2.value.escrow, 7, 30);
      var s4 := DeclareWinnerAsWritten(State(s3.value, s2.value.vault, s2.value.wallets), 7, 1, 1, proof, 90, 1000);
      && s2.Ok? && s3.Ok? && s3.value.status == Active
      && s4.Ok? && s4.value.escrow.status == Complete && s4.value.escrow.winner == Some(1)
      && s4.value.vault == 1000
      && BalanceOf(s4.value.wallets, 1) == 600 && BalanceOf(s4.value.wallets, 2) == 400
  {
    TwoJoinsFill();
    var s2 := JoinGame(JoinGame(Opening(), 1, 10).value, 2, 20);
    var s3 := StartGame(s2.value.escrow, 7, 30);
    assert s3.Ok?;
    assert s3.value.players == [1, 2];
  }

  /** Participant 1 joins alone, the operator cancels the Open game, and the
      participant's claim pays back exactly the buy-in; a second claim fails
      with AlreadyRefunded. */
  lemma CancelAndRefund()
    ensures var s1 := JoinGame(Opening(), 1, 10);
      var s2 := CancelGame(s1.value.escrow, 7, 20);
      var s3 := ClaimRefund(State(s2.value, s1.value.vault, s1.value.wallets), 1);
      && s1.Ok? && BalanceOf(s1.value.wallets, 1) == 400
      && s2.Ok? && s2.value.status == Cancelled
      && s3.Ok? && BalanceOf(s3.value.wallets, 1) == 500 && s3.value.vault == 1000
      && ClaimRefund(s3.value, 1) == Err(Code(AlreadyRefunded))
  {
    var g := Game();
    assert g.status == Open && g.players == [] && g.fill_deadline == 3600;
    var s1 := JoinGame(Opening(), 1, 10);
    assert s1.Ok?;
    var s2 := CancelGame(s1.value.escrow, 7, 20);
    assert s2.Ok?;
    var s3 := ClaimRefund(State(s2.value, s1.value.vault, s1.value.wallets), 1);
    assert s2.value.players == [1] && s2.value.refunded == [false];
    assert IndexOf(s2.value.players, 1) == Some(0);
    assert s3.Ok?;
    assert s3.value.escrow.refunded == [true];
  }
}
