/** What holds over whole runs of the quiz game, whatever the interleaving. */
module GameRuns {
  import opened Lists
  import opened Wrappers
  import opened Game
  import opened GameInvariant
  import opened GameWinner

  // ----- Every run ends -----

  function TurnsLeft(a: Attempt): int { MAX_TURNS - |a.turns| }

  /** Ten times the number of players, minus all turns played. */
  function Remaining(s: State): int { SumBy(TurnsLeft, s.attempts) }

  /** How many more micro-steps a request can take. */
  function Rank(n: nat, p: Phase): nat {
    match p
    case Idle => 0
    case Marking(_, pending) => n + 3 + |pending|
    case Ending(_) => n + 3
    case Closing(_, _) => n + 2
    case Choosing(_) => n + 1
    case Handing(_, _) => n
    case Telling(_, pending) => |pending|
    case Restoring(_) => 1
    case Storing(_, pending) => |pending|
  }

  function Ranker(n: nat): Phase -> int { (p: Phase) => Rank(n, p) }

  function Ranks(s: State): int { SumBy(Ranker(|s.attempts|), s.phases) }

  /** The micro-steps that `turns` accepted plays among `n` players can give rise to. */
  function Weight(n: nat, turns: int): int { (2 * n + 4) * turns }

  lemma WeightFacts(n: nat, turns: int)
    ensures Weight(n, turns - 1) == Weight(n, turns) - (2 * n + 4)
    ensures turns >= 0 ==> Weight(n, turns) >= 0
  {
  }

  function Work(s: State): int {
    Weight(|s.attempts|, Remaining(s)) + Ranks(s) + if s.expired then 0 else 1
  }

  /** Exactly the accepted plays use up the remaining turns. */
  lemma PlaysUseTurns(s: State, step: Step)
    requires Sized(s) && Enabled(s, step)
    requires step.Restore? ==> s.phases[step.player].snapshot.turns == s.attempts[step.player].turns
    ensures Remaining(Next(s, step)) == Remaining(s) - if step.Play? then 1 else 0
  {
    match step
    case Expire =>
    case Play(i, turn) => SumByUpdate(TurnsLeft, s.attempts, i, Played(s.attempts[i], turn));
    case Mark(i, k) => SumByUpdate(TurnsLeft, s.attempts, k, Bumped(s.attempts[k], i));
    case ReadResult(i) => SumByUpdate(TurnsLeft, s.attempts, i, s.attempts[i]);
    case Close(i) => SumByUpdate(TurnsLeft, s.attempts, i, Next(s, step).attempts[i]);
    case Choose(i, _) => SumByUpdate(TurnsLeft, s.attempts, i, s.attempts[i]);
    case Hand(i) => SumByUpdate(TurnsLeft, s.attempts, s.phases[i].next, Next(s, step).attempts[s.phases[i].next]);
    case Tell(i, k) => SumByUpdate(TurnsLeft, s.attempts, k, Next(s, step).attempts[k]);
    case FindNobody(i) => SumByUpdate(TurnsLeft, s.attempts, i, s.attempts[i]);
    case Restore(i) => SumByUpdate(TurnsLeft, s.attempts, i, Next(s, step).attempts[i]);
    case Store(i, k) => SumByUpdate(TurnsLeft, s.attempts, k, Next(s, step).attempts[k]);
  }

  lemma SmallerPending(pending: set<nat>, k: nat)
    requires k in pending
    ensures |pending - {k}| == |pending| - 1
  {
  }

  lemma PlayRank(s: State, i: nat, turn: Turn)
    requires Sized(s) && Enabled(s, Play(i, turn))
    ensures Rank(|s.attempts|, DoPlay(s, i, turn).phases[i]) <= 2 * |s.attempts| + 3
  {
  }

  lemma MarkRank(s: State, i: nat, k: nat)
    requires Sized(s) && Enabled(s, Mark(i, k))
    ensures Rank(|s.attempts|, DoMark(s, i, k).phases[i]) < Rank(|s.attempts|, s.phases[i])
  {
    SmallerPending(s.phases[i].pending, k);
  }

  lemma TellRank(s: State, i: nat, k: nat)
    requires Sized(s) && Enabled(s, Tell(i, k))
    ensures Rank(|s.attempts|, DoTell(s, i, k).phases[i]) < Rank(|s.attempts|, s.phases[i])
  {
    SmallerPending(s.phases[i].pending, k);
  }

  lemma StoreRank(s: State, i: nat, k: nat)
    requires Sized(s) && Enabled(s, Store(i, k))
    ensures Rank(|s.attempts|, DoStore(s, i, k).phases[i]) < Rank(|s.attempts|, s.phases[i])
  {
    SmallerPending(s.phases[i].pending, k);
  }

  lemma HandRank(s: State, i: nat)
    requires Sized(s) && Enabled(s, Hand(i))
    ensures Rank(|s.attempts|, DoHand(s, i).phases[i]) < Rank(|s.attempts|, s.phases[i])
  {
    SmallerPending(Everyone(s), s.phases[i].next);
  }

  /** Every step but an accepted play lowers the rank of its request. */
  lemma RankFalls(s: State, step: Step)
    requires Sized(s) && Enabled(s, step) && !step.Expire? && !step.Play?
    ensures Rank(|s.attempts|, Next(s, step).phases[Actor(step)]) < Rank(|s.attempts|, s.phases[Actor(step)])
  {
    match step
    case Mark(i, k) => MarkRank(s, i, k);
    case Tell(i, k) => TellRank(s, i, k);
    case Store(i, k) => StoreRank(s, i, k);
    case Hand(i) => HandRank(s, i);
    case _ =>
  }

  lemma OnlyItsPhase(s: State, step: Step)
    requires Sized(s) && Enabled(s, step) && !step.Expire?
    ensures Next(s, step).phases == s.phases[Actor(step) := Next(s, step).phases[Actor(step)]]
    ensures Next(s, step).expired == s.expired
  {
  }

  lemma PlayUsesWork(s: State, i: nat, turn: Turn)
    requires Inv(s) && Enabled(s, Play(i, turn))
    ensures Work(DoPlay(s, i, turn)) < Work(s)
  {
    var n, s' := |s.attempts|, DoPlay(s, i, turn);
    PlaysUseTurns(s, Play(i, turn));
    OnlyItsPhase(s, Play(i, turn));
    PlayRank(s, i, turn);
    SumByUpdate(Ranker(n), s.phases, i, s'.phases[i]);
    WeightFacts(n, Remaining(s));
  }

  lemma StepUsesWork(s: State, step: Step)
    requires Inv(s) && Enabled(s, step)
    ensures Work(Next(s, step)) < Work(s)
  {
    if step.Play? {
      PlayUsesWork(s, step.player, step.turn);
    } else if !step.Expire? {
      assert PhaseOk(s, step.player);
      PlaysUseTurns(s, step);
      RankFalls(s, step);
      OnlyItsPhase(s, step);
      SumByUpdate(Ranker(|s.attempts|), s.phases, Actor(step), Next(s, step).phases[Actor(step)]);
    }
  }

  lemma {:induction false} SumByBound<T>(f: T -> int, s: seq<T>)
    requires forall i | 0 <= i < |s| :: f(s[i]) >= 0
    ensures SumBy(f, s) >= 0
  {
    if s != [] {
      SumByBound(f, s[1..]);
    }
  }

  lemma WorkIsBounded(s: State)
    requires Inv(s)
    ensures Work(s) >= 0
  {
    forall i | 0 <= i < |s.attempts| ensures TurnsLeft(s.attempts[i]) >= 0 {
      assert RecordOk(s.attempts[i], s.phases[i]);
    }
    SumByBound(TurnsLeft, s.attempts);
    WeightFacts(|s.attempts|, Remaining(s));
    SumByBound(Ranker(|s.attempts|), s.phases);
  }

  lemma {:induction false} RunUsesWork(s: State, steps: seq<Step>)
    requires Inv(s) && IsRun(s, steps)
    ensures |steps| <= Work(s)
    decreases |steps|
  {
    WorkIsBounded(s);
    if steps != [] {
      StepUsesWork(s, steps[0]);
      StepKeepsInv(s, steps[0]);
      RunUsesWork(Next(s, steps[0]), steps[1..]);
    }
  }

  lemma {:induction false} SumByConstant<T>(f: T -> int, s: seq<T>, c: int)
    requires forall i | 0 <= i < |s| :: f(s[i]) == c
    ensures SumBy(f, s) == c * |s|
  {
    if s != [] {
      SumByConstant(f, s[1..], c);
    }
  }

  lemma InitialWork(n: nat, requester: nat)
    requires requester < n
    ensures Work(Initial(n, requester)) <= (2 * n + 4) * (10 * n) + 1
  {
    var s := Initial(n, requester);
    SumByConstant(TurnsLeft, s.attempts, 10);
    SumByConstant(Ranker(n), s.phases, 0);
    assert Remaining(s) == 10 * n && Ranks(s) == 0;
  }

  /** Every run of a game of `n` players ends: it has at most this many micro-steps. */
  lemma RunsAreFinite(n: nat, requester: nat, steps: seq<Step>)
    requires requester < n && IsRun(Initial(n, requester), steps)
    ensures |steps| <= (2 * n + 4) * (10 * n) + 1
  {
    InitialInv(n, requester);
    InitialWork(n, requester);
    RunUsesWork(Initial(n, requester), steps);
  }

  // ----- Safety -----

  /** The turn token: over every interleaving there is never more than one holder, and there is one
      until the winner is selected. */
  lemma TokenSafety(n: nat, requester: nat, steps: seq<Step>, i: nat, j: nat)
    requires requester < n && IsRun(Initial(n, requester), steps)
    requires i < n && j < n
    ensures var s := After(Initial(n, requester), steps);
      && (Holds(s, i) && Holds(s, j) ==> i == j)
      && s.evaluations <= 1
      && (s.evaluations == 0 <==> exists h :: 0 <= h < n && Holds(s, h))
      && (s.evaluations == 1 ==> |s.attempts[i].turns| == MAX_TURNS && !s.attempts[i].isActive)
  {
    InitialInv(n, requester);
    RunKeepsInv(Initial(n, requester), steps);
    var s := After(Initial(n, requester), steps);
    if s.evaluations == 1 {
      GameIsOver(s, i);
    }
  }

  /** In every reachable state, no player has more than ten turns, an attempt is inactive exactly when
      its ten turns are filed, and every replica of the scoreboard shows the correct turns but for the
      write that the holder's request still owes it. */
  lemma RecordsStayTrue(n: nat, requester: nat, steps: seq<Step>, k: nat, p: nat)
    requires requester < n && IsRun(Initial(n, requester), steps)
    requires k < n && p < n
    ensures var s := After(Initial(n, requester), steps);
      && |s.attempts[p].turns| <= MAX_TURNS
      && (!s.attempts[p].isActive <==> s.attempts[p].result == Some(Summarise(s.attempts[p].turns)))
      && (!s.attempts[p].isActive ==> |s.attempts[p].turns| == MAX_TURNS)
      && (|s.attempts[p].turns| == MAX_TURNS && s.attempts[p].isActive ==> InFlight(s.phases[p]))
      && s.attempts[k].players[p].mark + (if Owed(s, k, p) then 1 else 0) == CorrectTurns(s.attempts[p].turns)
  {
    InitialInv(n, requester);
    RunKeepsInv(Initial(n, requester), steps);
    var s := After(Initial(n, requester), steps);
    assert RecordOk(s.attempts[p], s.phases[p]);
  }

  /** The accepted turns of player `p` in a run, in their order. */
  function TurnsPlayed(steps: seq<Step>, p: nat): seq<Turn> {
    if steps == [] then []
    else if steps[0].Play? && steps[0].player == p then [steps[0].turn] + TurnsPlayed(steps[1..], p)
    else TurnsPlayed(steps[1..], p)
  }

  lemma StepTurns(s: State, step: Step, p: nat)
    requires Inv(s) && Enabled(s, step) && p < |s.attempts|
    ensures Next(s, step).attempts[p].turns ==
      if step.Play? && step.player == p then s.attempts[p].turns + [step.turn] else s.attempts[p].turns
  {
    if step.Restore? {
      WriteBackIsHarmless(s, step.player);
    }
  }

  lemma {:induction false} RunTurns(s: State, steps: seq<Step>, p: nat)
    requires Inv(s) && IsRun(s, steps) && p < |s.attempts|
    ensures After(s, steps).attempts[p].turns == s.attempts[p].turns + TurnsPlayed(steps, p)
    decreases |steps|
  {
    TurnsPlayedNext(s.attempts[p].turns, steps, p);
    if steps != [] {
      StepTurns(s, steps[0], p);
      StepKeepsInv(s, steps[0]);
      RunTurns(Next(s, steps[0]), steps[1..], p);
    }
  }

  lemma TurnsPlayedNext(turns: seq<Turn>, steps: seq<Step>, p: nat)
    ensures turns + TurnsPlayed(steps, p) ==
      if steps == [] then turns
      else if steps[0].Play? && steps[0].player == p then turns + [steps[0].turn] + TurnsPlayed(steps[1..], p)
      else turns + TurnsPlayed(steps[1..], p)
  {
    if steps != [] && steps[0].Play? && steps[0].player == p {
      assert turns + ([steps[0].turn] + TurnsPlayed(steps[1..], p)) ==
        turns + [steps[0].turn] + TurnsPlayed(steps[1..], p);
    }
  }

  /** Over every interleaving, a player's record holds exactly the turns of its accepted plays, in order. */
  lemma RecordsHoldTheTurns(n: nat, requester: nat, steps: seq<Step>, p: nat)
    requires requester < n && p < n && IsRun(Initial(n, requester), steps)
    ensures After(Initial(n, requester), steps).attempts[p].turns == TurnsPlayed(steps, p)
  {
    InitialInv(n, requester);
    RunTurns(Initial(n, requester), steps, p);
    assert [] + TurnsPlayed(steps, p) == TurnsPlayed(steps, p);
  }

  /** A play keeps the turn exactly if it was correct; a wrong one goes on to pass it, filing the result
      first if it was the tenth. */
  lemma PlayPasses(s: State, i: nat, turn: Turn)
    requires Inv(s) && Enabled(s, Play(i, turn))
    ensures var s', n := Next(s, Play(i, turn)), |s.attempts[i].turns|;
      && (s'.attempts[i].isInTurn <==> turn.isCorrect) && s'.attempts[i].isActive
      && (s'.phases[i].Marking? <==> turn.isCorrect)
      && (s'.phases[i].Ending? <==> !turn.isCorrect && n == 9)
      && (s'.phases[i].Choosing? <==> !turn.isCorrect && n != 9)
      && (forall k | 0 <= k < |s.attempts| && k != i :: s'.attempts[k] == s.attempts[k] && s'.phases[k] == s.phases[k])
  {
  }

  /** After its marks, a correct play is over, or files the result if it was the tenth. */
  lemma MarksPass(s: State, i: nat, k: nat)
    requires Inv(s) && Enabled(s, Mark(i, k)) && s.phases[i].pending == {k}
    ensures var p := Next(s, Mark(i, k)).phases[i];
      if |s.attempts[i].turns| == 10 then p.Ending? else p.Idle?
  {
    assert PhaseOk(s, i);
  }

  /** Writing the old document back when nobody else can play loses no turn, mark or result: it
      gives the turn back, and restores at most an older name of the player in turn. */
  lemma WriteBackIsHarmless(s: State, i: nat)
    requires Inv(s) && Enabled(s, Restore(i))
    ensures Next(s, Restore(i)).attempts[i] ==
      s.attempts[i].(isInTurn := true, inTurnPlayer := s.phases[i].snapshot.inTurnPlayer)
  {
    assert PhaseOk(s, i);
  }

  // ----- Where runs end -----

  /** Nothing is left to do but to let the game expire. */
  ghost predicate Settled(s: State)
    requires Sized(s)
  {
    forall step: Step | !step.Expire? :: !Enabled(s, step)
  }

  /** Player `i`'s outstanding request can take a step. */
  ghost predicate CanMove(s: State, i: nat)
    requires Sized(s)
  {
    exists step: Step :: !step.Expire? && !step.Play? && step.player == i && Enabled(s, step)
  }

  lemma ChoosersMove(s: State, i: nat)
    requires Sized(s) && i < |s.attempts| && s.phases[i].Choosing?
    ensures CanMove(s, i)
  {
    if j: nat :| j < |s.attempts| && j != i && CanReceive(s.attempts[j]) {
      assert Enabled(s, Choose(i, j));
    } else {
      assert Enabled(s, FindNobody(i));
    }
  }

  /** A request on its way can always take its next step. */
  lemma RequestsMove(s: State, i: nat)
    requires Inv(s) && i < |s.attempts| && !s.phases[i].Idle?
    ensures CanMove(s, i)
  {
    assert PhaseOk(s, i);
    match s.phases[i]
    case Marking(_, pending) => var k :| k in pending; assert Enabled(s, Mark(i, k));
    case Ending(_) => assert Enabled(s, ReadResult(i));
    case Closing(_, _) => assert Enabled(s, Close(i));
    case Choosing(_) => ChoosersMove(s, i);
    case Handing(_, _) => assert Enabled(s, Hand(i));
    case Telling(_, pending) => var k :| k in pending; assert Enabled(s, Tell(i, k));
    case Restoring(_) => assert Enabled(s, Restore(i));
    case Storing(_, pending) => var k :| k in pending; assert Enabled(s, Store(i, k));
  }

  const BLANK := Turn(0, [], false, 0)

  lemma HolderCanPlay(s: State, i: nat)
    requires Inv(s) && !s.expired && i < |s.attempts| && Holds(s, i)
    ensures !Settled(s)
  {
    if s.phases[i].Idle? {
      assert Enabled(s, Play(i, BLANK));
    } else {
      RequestsMove(s, i);
    }
  }

  /** A state that cannot go on and has not expired is evaluated, with everybody's ten turns filed. */
  lemma SettledIsEvaluated(s: State, k: nat)
    requires Inv(s) && Settled(s) && !s.expired && k < |s.attempts|
    ensures s.evaluations == 1
    ensures |s.attempts[k].turns| == MAX_TURNS && !s.attempts[k].isActive
    ensures s.attempts[k].result == Some(Summarise(s.attempts[k].turns))
    ensures s.attempts[k].isEvaluated <==> Winner(s.attempts).Some?
    ensures s.attempts[k].isEvaluated ==> s.attempts[k].players == Board(s.attempts)
  {
    forall i | 0 <= i < |s.attempts| ensures s.phases[i].Idle? && !Holds(s, i) {
      if !s.phases[i].Idle? {
        RequestsMove(s, i);
      }
      if Holds(s, i) {
        HolderCanPlay(s, i);
      }
    }
    GameIsOver(s, k);
  }

  /** A run that cannot go on, of a game that has not expired, has been evaluated exactly once: every
      player has ten filed turns, and every record shows the final scoreboard if a winner exists. */
  lemma SettledGamesAreEvaluated(n: nat, requester: nat, steps: seq<Step>, k: nat)
    requires requester < n && k < n && IsRun(Initial(n, requester), steps)
    requires !After(Initial(n, requester), steps).expired && Settled(After(Initial(n, requester), steps))
    ensures var s := After(Initial(n, requester), steps);
      && s.evaluations == 1
      && |s.attempts[k].turns| == MAX_TURNS && !s.attempts[k].isActive
      && s.attempts[k].result == Some(Summarise(s.attempts[k].turns))
      && (s.attempts[k].isEvaluated <==> Winner(s.attempts).Some?)
      && (s.attempts[k].isEvaluated ==> s.attempts[k].players == Board(s.attempts))
  {
    InitialInv(n, requester);
    RunKeepsInv(Initial(n, requester), steps);
    SettledIsEvaluated(After(Initial(n, requester), steps), k);
  }

  // ----- Every game can be played to its end -----

  ghost predicate Unscored(s: State) {
    forall i | 0 <= i < |s.attempts| :: CorrectTurns(s.attempts[i].turns) == 0 && Elapsed(s.attempts[i].turns) >= 0
  }

  /** The same step, with a blank turn if it is a play. */
  function Blank(step: Step): Step {
    if step.Play? then Play(step.player, BLANK) else step
  }

  lemma BlankStepScoresNothing(s: State, step: Step)
    requires Inv(s) && Unscored(s) && !step.Expire? && Enabled(s, Blank(step))
    ensures Unscored(Next(s, Blank(step)))
  {
    var s' := Next(s, Blank(step));
    forall k | 0 <= k < |s.attempts|
      ensures CorrectTurns(s'.attempts[k].turns) == 0 && Elapsed(s'.attempts[k].turns) >= 0
    {
      if step.Play? {
        OneMoreTurn(s.attempts[k].turns, BLANK);
      } else if step.Restore? && k == step.player {
        WriteBackIsHarmless(s, k);
      }
    }
  }

  /** From every state that keeps the invariant and has not expired, some run leads to one that cannot go on;
      and if nobody has scored, one in which nobody has. */
  lemma PlayToTheEnd(s: State) returns (end: State)
    requires Inv(s) && !s.expired
    ensures Reaches(s, end) && Inv(end) && Settled(end) && !end.expired && |end.attempts| == |s.attempts|
    ensures Unscored(s) ==> Unscored(end)
    decreases Work(s)
  {
    if Settled(s) {
      Stays(s);
      end := s;
    } else {
      var step: Step :| !step.Expire? && Enabled(s, step);
      var blank := Blank(step);
      WorkIsBounded(s);
      StepUsesWork(s, blank);
      StepKeepsInv(s, blank);
      if Unscored(s) {
        BlankStepScoresNothing(s, step);
      }
      end := PlayToTheEnd(Next(s, blank));
      StepReaches(s, blank, end);
    }
  }

  /** Every game that has not expired, however it was played so far, can be played to its evaluation. */
  lemma GamesCanEnd(n: nat, requester: nat, steps: seq<Step>) returns (end: State)
    requires requester < n && IsRun(Initial(n, requester), steps) && !After(Initial(n, requester), steps).expired
    ensures Reaches(After(Initial(n, requester), steps), end) && |end.attempts| == n && !end.expired
    ensures Sized(end) && Settled(end) && end.evaluations == 1
    ensures forall k | 0 <= k < n :: |end.attempts[k].turns| == MAX_TURNS && !end.attempts[k].isActive
    ensures forall k | 0 <= k < n :: end.attempts[k].isEvaluated <==> Winner(end.attempts).Some?
  {
    InitialInv(n, requester);
    RunKeepsInv(Initial(n, requester), steps);
    end := PlayToTheEnd(After(Initial(n, requester), steps));
    forall k | 0 <= k < n
      ensures end.evaluations == 1 && |end.attempts[k].turns| == MAX_TURNS && !end.attempts[k].isActive
      ensures end.attempts[k].isEvaluated <==> Winner(end.attempts).Some?
    {
      SettledIsEvaluated(end, k);
    }
    SettledIsEvaluated(end, requester);
  }

  /** The selection can fail: every new game can be played to an end without winner, in which everybody has
      ten turns and no record is ever evaluated. */
  lemma UnscoredGame(n: nat, requester: nat) returns (end: State)
    requires requester < n
    ensures Reaches(Initial(n, requester), end) && |end.attempts| == n && Sized(end) && Settled(end) && !end.expired
    ensures end.evaluations == 1 && Winner(end.attempts).None?
    ensures forall k | 0 <= k < n :: |end.attempts[k].turns| == MAX_TURNS && !end.attempts[k].isEvaluated
  {
    InitialInv(n, requester);
    end := PlayToTheEnd(Initial(n, requester));
    WinnerExistsIff(end.attempts);
    forall k | 0 <= k < n ensures |end.attempts[k].turns| == MAX_TURNS && !end.attempts[k].isEvaluated {
      SettledIsEvaluated(end, k);
    }
    SettledIsEvaluated(end, requester);
  }
}
