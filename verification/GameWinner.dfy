/** Selecting the winner of an evaluated game. */
module GameWinner {
  import opened Wrappers
  import opened Game

  const NO_SCORE := Score(0, 0)

  /** `w` has the highest mark, then the least time, and comes first among equals; it also beats
      the mark 0 and time 0 the selection starts from. */
  ghost predicate IsBest(attempts: seq<Attempt>, w: nat) {
    && w < |attempts|
    && var mark, time := CorrectTurns(attempts[w].turns), Elapsed(attempts[w].turns);
    && (mark > 0 || time < 0)
    && (forall j | 0 <= j < |attempts| ::
          CorrectTurns(attempts[j].turns) < mark
          || (CorrectTurns(attempts[j].turns) == mark && time <= Elapsed(attempts[j].turns)))
    && (forall j | 0 <= j < w ::
          CorrectTurns(attempts[j].turns) < mark
          || (CorrectTurns(attempts[j].turns) == mark && time < Elapsed(attempts[j].turns)))
  }

  /** Nobody among the first `k` scores, or spends a negative time. */
  ghost predicate NoneScores(attempts: seq<Attempt>, k: nat)
    requires k <= |attempts|
  {
    forall j | 0 <= j < k :: CorrectTurns(attempts[j].turns) == 0 && Elapsed(attempts[j].turns) >= 0
  }

  /** One more record: it leads exactly if it beats the best so far. */
  lemma NextLeader(attempts: seq<Attempt>, k: nat, w: nat)
    requires k < |attempts| && w < k && IsBest(attempts[..k], w)
    ensures IsBest(attempts[..k + 1], if Beats(ScoreOf(attempts[k]), ScoreOf(attempts[w])) then k else w)
  {
    assert forall j | 0 <= j < k :: attempts[..k][j] == attempts[..k + 1][j];
  }

  lemma FirstLeader(attempts: seq<Attempt>, k: nat)
    requires k < |attempts| && NoneScores(attempts, k)
    ensures if Beats(ScoreOf(attempts[k]), NO_SCORE) then IsBest(attempts[..k + 1], k) else NoneScores(attempts, k + 1)
  {
    assert forall j | 0 <= j < k :: attempts[..k + 1][j] == attempts[j];
  }

  lemma {:induction false} LeaderIsBest(attempts: seq<Attempt>, k: nat)
    requires k <= |attempts|
    ensures var w := Leader(attempts, k);
      if w.Some? then IsBest(attempts[..k], w.value) else NoneScores(attempts, k)
  {
    if k > 0 {
      var w := Leader(attempts, k - 1);
      LeaderIsBest(attempts, k - 1);
      if w.Some? {
        NextLeader(attempts, k - 1, w.value);
      } else {
        FirstLeader(attempts, k - 1);
      }
    }
  }

  /** The selection names `w` exactly when `w` is the best player. */
  lemma WinnerIsBest(attempts: seq<Attempt>, w: nat)
    ensures Winner(attempts) == Some(w) <==> IsBest(attempts, w)
  {
    LeaderIsBest(attempts, |attempts|);
    assert attempts[..|attempts|] == attempts;
  }

  /** A winner is named exactly when someone scored (or claimed a negative total time); otherwise
      the selection throws, because it looks up a player without an id. */
  lemma WinnerExistsIff(attempts: seq<Attempt>)
    ensures Winner(attempts).Some? <==>
      exists i :: 0 <= i < |attempts| && (CorrectTurns(attempts[i].turns) > 0 || Elapsed(attempts[i].turns) < 0)
  {
    LeaderIsBest(attempts, |attempts|);
    assert attempts[..|attempts|] == attempts;
  }

  /** The final scoreboard marks one winner, the best player, and its marks and times are the
      totals of the turns. */
  lemma BoardHasOneWinner(attempts: seq<Attempt>, i: nat)
    requires Winner(attempts).Some? && i < |attempts|
    ensures Board(attempts)[i].isWinner <==> IsBest(attempts, i)
    ensures Board(attempts)[i].mark == CorrectTurns(attempts[i].turns)
    ensures Board(attempts)[i].time == Elapsed(attempts[i].turns)
  {
    WinnerIsBest(attempts, i);
  }

  /** The loop over all players' records (lines 8697-8723).  The result is `None` when the
      look-up of the winner throws. */
  method SelectWinner(attempts: seq<Attempt>) returns (board: Option<seq<PlayerRow>>)
    ensures board.Some? <==> Winner(attempts).Some?
    ensures board.Some? ==> board.value == Board(attempts)
  {
    var winner, best := None, Score(0, 0);
    var players: seq<PlayerRow> := [];
    for k := 0 to |attempts|
      invariant winner == Leader(attempts, k)
      invariant best == LeaderScore(attempts, winner)
      invariant players == seq(k, i requires 0 <= i < k =>
        PlayerRow(CorrectTurns(attempts[i].turns), Elapsed(attempts[i].turns), false))
    {
      var mark, time := Totals(attempts[k].turns);
      if best.mark < mark || (best.mark == mark && best.time > time) {
        winner, best := Some(k), Score(mark, time);
      }
      players := players + [PlayerRow(mark, time, false)];
    }
    if winner.None? {
      return None;
    }
    players := players[winner.value := players[winner.value].(isWinner := true)];
    return Some(players);
  }

  method Totals(turns: seq<Turn>) returns (mark: nat, time: int)
    ensures mark == CorrectTurns(turns) && time == Elapsed(turns)
  {
    mark, time := 0, 0;
    for k := 0 to |turns|
      invariant mark == CorrectTurns(turns[..k]) && time == Elapsed(turns[..k])
    {
      assert turns[..k + 1][..k] == turns[..k];
      if turns[k].isCorrect {
        mark := mark + 1;
      }
      time := time + turns[k].seconds;
    }
    assert turns[..|turns|] == turns;
  }
}
