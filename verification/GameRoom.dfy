/** The quiz game as the service runs it: one object holding the players' records, one method per
    request.  Each completed request is a run of micro-steps. */
module GameRoom {
  import opened Lists
  import opened Wrappers
  import opened Game
  import opened GameInvariant
  import opened GameWinner
  import opened GameAgreement

  datatype Response =
    | NotFound                 // not this player's turn, or no such game
    | Continue                 // the caller plays on
    | Passed(finish: bool)     // the turn went to another player
    | Evaluated                // the game is over
    | Failed                   // the winner selection threw

  // ----- Requests as runs -----

  function BumpedAll(attempts: seq<Attempt>, player: nat, pending: set<nat>): (r: seq<Attempt>)
    requires forall k | 0 <= k < |attempts| :: player < |attempts[k].players|
    ensures |r| == |attempts|
    ensures forall k | 0 <= k < |r| :: r[k] == if k in pending then Bumped(attempts[k], player) else attempts[k]
  {
    seq(|attempts|, k requires 0 <= k < |attempts| => if k in pending then Bumped(attempts[k], player) else attempts[k])
  }

  lemma BumpedOneByOne(attempts: seq<Attempt>, player: nat, pending: set<nat>, k: nat)
    requires forall l | 0 <= l < |attempts| :: player < |attempts[l].players|
    requires k < |attempts| && k in pending
    ensures var next := attempts[k := Bumped(attempts[k], player)];
      && BumpedAll(next, player, pending - {k}) == BumpedAll(attempts, player, pending)
      && (pending == {k} ==> next == BumpedAll(attempts, player, pending))
  {
  }

  ghost function MarkedEverywhere(s: State, i: nat): State
    requires Sized(s) && i < |s.attempts| && s.phases[i].Marking?
  {
    s.(attempts := BumpedAll(s.attempts, i, s.phases[i].pending),
       phases := s.phases[i := AfterMarks(s.phases[i].snapshot)])
  }

  lemma MarkOne(s: State, i: nat, k: nat)
    requires Sized(s) && Enabled(s, Mark(i, k))
    ensures var s' := Next(s, Mark(i, k));
      if s.phases[i].pending == {k} then s' == MarkedEverywhere(s, i)
      else s'.phases[i].Marking? && s'.phases[i].pending == s.phases[i].pending - {k}
           && MarkedEverywhere(s', i) == MarkedEverywhere(s, i)
  {
    var s' := Next(s, Mark(i, k));
    BumpedOneByOne(s.attempts, i, s.phases[i].pending, k);
    if s.phases[i].pending != {k} {
      assert s.phases[i].pending - {k} != {};
      assert MarkedEverywhere(s', i).phases == MarkedEverywhere(s, i).phases;
    }
  }

  /** All the scoreboard increments of a correct turn, without interruption. */
  lemma {:induction false} MarkAll(s: State, i: nat)
    requires Sized(s) && i < |s.attempts| && s.phases[i].Marking?
    requires s.phases[i].pending != {} && s.phases[i].pending <= Everyone(s)
    ensures Reaches(s, MarkedEverywhere(s, i))
    decreases |s.phases[i].pending|
  {
    var pending := s.phases[i].pending;
    var k :| k in pending;
    var s' := Next(s, Mark(i, k));
    MarkOne(s, i, k);
    if pending == {k} {
      Stays(s');
    } else {
      assert pending - {k} != {} && |pending - {k}| == |pending| - 1;
      MarkAll(s', i);
    }
    StepReaches(s, Mark(i, k), MarkedEverywhere(s, i));
  }

  function StoredAll(attempts: seq<Attempt>, board: seq<PlayerRow>, pending: set<nat>): (r: seq<Attempt>)
    ensures |r| == |attempts|
    ensures forall k | 0 <= k < |r| ::
      r[k] == if k in pending then attempts[k].(isEvaluated := true, players := board) else attempts[k]
  {
    seq(|attempts|, k requires 0 <= k < |attempts| =>
      if k in pending then attempts[k].(isEvaluated := true, players := board) else attempts[k])
  }

  lemma StoredOneByOne(attempts: seq<Attempt>, board: seq<PlayerRow>, pending: set<nat>, k: nat)
    requires k < |attempts| && k in pending
    ensures var next := attempts[k := attempts[k].(isEvaluated := true, players := board)];
      && StoredAll(next, board, pending - {k}) == StoredAll(attempts, board, pending)
      && (pending == {k} ==> next == StoredAll(attempts, board, pending))
  {
  }

  ghost function StoredEverywhere(s: State, i: nat): State
    requires i < |s.phases| && s.phases[i].Storing?
  {
    s.(attempts := StoredAll(s.attempts, s.phases[i].board, s.phases[i].pending), phases := s.phases[i := Idle])
  }

  lemma StoreOne(s: State, i: nat, k: nat)
    requires Sized(s) && Enabled(s, Store(i, k))
    ensures var s' := Next(s, Store(i, k));
      if s.phases[i].pending == {k} then s' == StoredEverywhere(s, i)
      else s'.phases[i].Storing? && s'.phases[i].pending == s.phases[i].pending - {k}
           && s'.phases[i].board == s.phases[i].board
           && StoredEverywhere(s', i) == StoredEverywhere(s, i)
  {
    var s' := Next(s, Store(i, k));
    StoredOneByOne(s.attempts, s.phases[i].board, s.phases[i].pending, k);
    if s.phases[i].pending != {k} {
      assert s.phases[i].pending - {k} != {};
      assert StoredEverywhere(s', i).phases == StoredEverywhere(s, i).phases;
    }
  }

  /** All the writes of the final scoreboard, without interruption. */
  lemma {:induction false} StoreAll(s: State, i: nat)
    requires Sized(s) && i < |s.attempts| && s.phases[i].Storing? && |s.phases[i].board| == |s.attempts|
    requires s.phases[i].pending != {} && s.phases[i].pending <= Everyone(s)
    ensures Reaches(s, StoredEverywhere(s, i))
    decreases |s.phases[i].pending|
  {
    var pending := s.phases[i].pending;
    var k :| k in pending;
    var s' := Next(s, Store(i, k));
    StoreOne(s, i, k);
    if pending == {k} {
      Stays(s');
    } else {
      assert pending - {k} != {} && |pending - {k}| == |pending| - 1;
      StoreAll(s', i);
    }
    StepReaches(s, Store(i, k), StoredEverywhere(s, i));
  }

  lemma ReachesInv(s: State, s': State)
    requires Inv(s) && Reaches(s, s')
    ensures Inv(s') && |s'.attempts| == |s.attempts|
  {
    var steps :| IsRun(s, steps) && After(s, steps) == s';
    RunKeepsInv(s, steps);
  }

  /** Nobody but `user` has a request open, and it stands at `p`. */
  ghost function Only(n: nat, user: nat, p: Phase): (r: seq<Phase>)
    requires user < n
    ensures |r| == n
  {
    seq(n, _ => Idle)[user := p]
  }

  /** The records once `user`'s turn is saved and, if correct, marked everywhere. */
  function Marked(attempts: seq<Attempt>, user: nat, turn: Turn): seq<Attempt>
    requires user < |attempts| && forall k | 0 <= k < |attempts| :: user < |attempts[k].players|
  {
    var saved := attempts[user := Played(attempts[user], turn)];
    if turn.isCorrect then BumpedAll(saved, user, Players(|attempts|)) else saved
  }

  /** The state after `user`'s turn is saved and marked. */
  ghost function TurnSaved(s: State, user: nat, turn: Turn): State
    requires Sized(s) && user < |s.attempts|
  {
    s.(attempts := Marked(s.attempts, user, turn),
       phases := Only(|s.attempts|, user, AfterMarks(Played(s.attempts[user], turn))))
  }

  lemma TurnPhase(s: State, user: nat, turn: Turn)
    requires Sized(s) && Quiet(s) && Enabled(s, Play(user, turn))
    ensures Reaches(s, TurnSaved(s, user, turn))
  {
    var s1 := DoPlay(s, user, turn);
    assert s.phases == seq(|s.attempts|, _ => Idle);
    if turn.isCorrect {
      assert user in Everyone(s);
      MarkAll(s1, user);
      assert MarkedEverywhere(s1, user) == TurnSaved(s, user, turn);
    } else {
      Stays(s1);
      assert s1 == TurnSaved(s, user, turn);
    }
    StepReaches(s, Play(user, turn), TurnSaved(s, user, turn));
  }

  function Closed(a: Attempt): Attempt {
    a.(isActive := false, result := Some(Summarise(a.turns)))
  }

  ghost function ResultFiled(s: State, user: nat, snapshot: Attempt): State
    requires user < |s.attempts|
  {
    s.(attempts := s.attempts[user := Closed(s.attempts[user])], phases := Only(|s.attempts|, user, Choosing(snapshot)))
  }

  lemma EndPhase(s: State, user: nat, snapshot: Attempt)
    requires Sized(s) && user < |s.attempts| && s.phases == Only(|s.attempts|, user, Ending(snapshot))
    ensures Reaches(s, ResultFiled(s, user, snapshot))
  {
    var s1 := Next(s, ReadResult(user));
    var s2 := Next(s1, Close(user));
    assert s2.phases == Only(|s.attempts|, user, Choosing(snapshot));
    Stays(s2);
    StepReaches(s1, Close(user), s2);
    StepReaches(s, ReadResult(user), s2);
  }

  ghost function HandedOver(s: State, next: nat): State
    requires next < |s.attempts|
  {
    s.(attempts := ToldAll(s.attempts[next := s.attempts[next].(isInTurn := true, inTurnPlayer := next)],
                           next, Everyone(s) - {next}),
       phases := seq(|s.attempts|, _ => Idle))
  }

  lemma HandPhase(s: State, user: nat, next: nat)
    requires Sized(s) && user < |s.attempts| && s.phases[user].Choosing?
    requires s.phases == Only(|s.attempts|, user, s.phases[user])
    requires Enabled(s, Choose(user, next))
    ensures Reaches(s, HandedOver(s, next))
  {
    var s1 := Next(s, Choose(user, next));
    var s2 := Next(s1, Hand(user));
    assert user in Everyone(s) - {next};
    assert s1.attempts == s.attempts;
    Announce(s2, user);
    assert Announced(s2, user).phases == HandedOver(s, next).phases;
    StepReaches(s1, Hand(user), HandedOver(s, next));
    StepReaches(s, Choose(user, next), HandedOver(s, next));
  }

  lemma HandOverAgrees(s: State, user: nat, next: nat)
    requires Inv(s) && Enabled(s, Choose(user, next))
    ensures Agreed(HandedOver(s, next), next)
  {
    HolderAlone(s, user);
    assert PhaseOk(s, user) && RecordOk(s.attempts[user], s.phases[user]);
  }

  ghost function Scored(s: State): State {
    var won := Winner(s.attempts).Some?;
    s.(attempts := if won then StoredAll(s.attempts, Board(s.attempts), Everyone(s)) else s.attempts,
       phases := seq(|s.attempts|, _ => Idle),
       evaluations := s.evaluations + 1)
  }

  lemma SelectStep(s: State, user: nat)
    requires Sized(s) && user < |s.attempts| && s.phases[user].Choosing?
    requires s.phases == Only(|s.attempts|, user, s.phases[user])
    requires Enabled(s, FindNobody(user)) && |s.phases[user].snapshot.turns| == MAX_TURNS
    ensures var w := Winner(s.attempts);
      Next(s, FindNobody(user)) == s.(
        phases := if w.Some? then Only(|s.attempts|, user, Storing(Board(s.attempts), Everyone(s)))
                  else seq(|s.attempts|, _ => Idle),
        evaluations := s.evaluations + 1)
  {
    var s1 := Next(s, FindNobody(user));
    assert s1.attempts == s.attempts;
    assert Winner(s.attempts).None? ==> s1.phases == seq(|s.attempts|, _ => Idle);
    assert Winner(s.attempts).Some? ==> s1.phases == Only(|s.attempts|, user, Storing(Board(s.attempts), Everyone(s)));
  }

  lemma StorePhase(s: State, user: nat, board: seq<PlayerRow>)
    requires Sized(s) && user < |s.attempts| && |board| == |s.attempts|
    requires s.phases == Only(|s.attempts|, user, Storing(board, Everyone(s)))
    ensures var stored := StoredAll(s.attempts, board, Everyone(s));
      Reaches(s, s.(attempts := stored, phases := seq(|s.attempts|, _ => Idle)))
  {
    assert user in Everyone(s);
    StoreAll(s, user);
    assert StoredEverywhere(s, user).phases == seq(|s.attempts|, _ => Idle);
  }

  lemma EvaluatePhase(s: State, user: nat)
    requires Sized(s) && user < |s.attempts| && s.phases[user].Choosing?
    requires s.phases == Only(|s.attempts|, user, s.phases[user])
    requires Enabled(s, FindNobody(user)) && |s.phases[user].snapshot.turns| == MAX_TURNS
    ensures Reaches(s, Scored(s))
  {
    var s1 := Next(s, FindNobody(user));
    SelectStep(s, user);
    if Winner(s.attempts).Some? {
      StorePhase(s1, user, Board(s.attempts));
    } else {
      Stays(s1);
    }
    StepReaches(s, FindNobody(user), Scored(s));
  }

  lemma ScoredKeepsWinner(s: State)
    requires Winner(s.attempts).Some?
    ensures Winner(Scored(s).attempts) == Winner(s.attempts)
    ensures forall k | 0 <= k < |s.attempts| && k in Everyone(s) :: Scored(s).attempts[k].isEvaluated
  {
    BoardFrame(s.attempts, Scored(s).attempts);
  }

  ghost function GivenBack(s: State, user: nat, snapshot: Attempt): State
    requires user < |s.attempts|
  {
    s.(attempts := s.attempts[user := snapshot.(isInTurn := true)], phases := seq(|s.attempts|, _ => Idle))
  }

  lemma GiveBackPhase(s: State, user: nat)
    requires Inv(s) && user < |s.attempts| && s.phases[user].Choosing?
    requires s.phases == Only(|s.attempts|, user, s.phases[user])
    requires Enabled(s, FindNobody(user)) && |s.phases[user].snapshot.turns| < MAX_TURNS
    ensures Reaches(s, GivenBack(s, user, s.phases[user].snapshot))
  {
    assert PhaseOk(s, user);
    var s1 := Next(s, FindNobody(user));
    assert s1.attempts == s.attempts;
    var s2 := Next(s1, Restore(user));
    assert s2.phases == seq(|s.attempts|, _ => Idle);
    Stays(s2);
    StepReaches(s1, Restore(user), s2);
    StepReaches(s, FindNobody(user), s2);
  }

  lemma GiveBackAgrees(s: State, user: nat)
    requires Inv(s) && Enabled(s, FindNobody(user)) && |s.phases[user].snapshot.turns| < MAX_TURNS
    requires s.phases[user].snapshot.inTurnPlayer == user
    ensures Agreed(GivenBack(s, user, s.phases[user].snapshot), user)
  {
    NobodyLeft(s, user);
    assert PhaseOk(s, user);
  }

  /** In an agreed, quiet game the player who may play is the one that all records name. */
  lemma PlayerIsNamed(s: State, user: nat, turn: Turn)
    requires Inv(s) && Quiet(s) && QuietlyAgreed(s) && Enabled(s, Play(user, turn))
    ensures Agreed(s, user)
  {
    HolderAlone(s, user);
    var h: nat :| Agreed(s, h);
    assert Holds(s, h) && Holds(s, user);
  }

  lemma ContinueAgrees(s: State, user: nat, turn: Turn)
    requires Inv(s) && Quiet(s) && QuietlyAgreed(s) && Enabled(s, Play(user, turn)) && turn.isCorrect
    ensures Agreed(s.(attempts := Marked(s.attempts, user, turn)), user)
  {
    PlayerIsNamed(s, user, turn);
  }

  /** What is known once a turn is saved: the caller was named, and still is if it plays on. */
  lemma SavedTurnAgrees(s: State, user: nat, turn: Turn)
    requires Inv(s) && Quiet(s) && Enabled(s, Play(user, turn)) && Reaches(s, TurnSaved(s, user, turn))
    ensures Inv(TurnSaved(s, user, turn))
    ensures QuietlyAgreed(s) ==> s.attempts[user].inTurnPlayer == user
    ensures QuietlyAgreed(s) && turn.isCorrect ==> Agreed(s.(attempts := Marked(s.attempts, user, turn)), user)
  {
    ReachesInv(s, TurnSaved(s, user, turn));
    if QuietlyAgreed(s) {
      PlayerIsNamed(s, user, turn);
      if turn.isCorrect {
        ContinueAgrees(s, user, turn);
      }
    }
  }

  ghost predicate SameTurns(a: seq<Attempt>, b: seq<Attempt>) {
    |a| == |b| && forall k | 0 <= k < |a| :: b[k].turns == a[k].turns
  }

  /** Some other player is active and not in turn. */
  ghost predicate SomeoneWaits(attempts: seq<Attempt>, user: nat) {
    exists k :: 0 <= k < |attempts| && k != user && attempts[k].isActive && !attempts[k].isInTurn
  }

  /** The turn is stored, and nobody else is taken into or out of the game. */
  ghost predicate TurnAdded(a: seq<Attempt>, b: seq<Attempt>, user: nat, turn: Turn) {
    && |a| == |b| && user < |a|
    && forall k | 0 <= k < |a| ::
      && b[k].turns == (if k == user then a[k].turns + [turn] else a[k].turns)
      && b[k].isActive == a[k].isActive && (k != user ==> b[k].isInTurn == a[k].isInTurn)
  }

  /** What the answer says, and the turn it stores. */
  ghost predicate Fits(a: seq<Attempt>, b: seq<Attempt>, user: nat, turn: Turn, r: Response) {
    && |a| == |b|
    && (forall k | 0 <= k < |a| :: b[k].turns == a[k].turns + if k == user && !r.NotFound? then [turn] else [])
    && (!r.NotFound? ==>
          && user < |a|
          && var last := |a[user].turns| == 9;
          && (r.Passed? <==> (!turn.isCorrect || last) && SomeoneWaits(a, user))
          && (r.Continue? <==> !last && (turn.isCorrect || !SomeoneWaits(a, user)))
          && (r.Evaluated? || r.Failed? <==> last && !SomeoneWaits(a, user)))
  }

  lemma NothingFits(a: seq<Attempt>, user: nat, turn: Turn)
    ensures Fits(a, a, user, turn, NotFound)
  {
    forall k | 0 <= k < |a| ensures a[k].turns == a[k].turns + [] {
    }
  }

  lemma ContinueFits(a: seq<Attempt>, b: seq<Attempt>, user: nat, turn: Turn)
    requires TurnAdded(a, b, user, turn) && turn.isCorrect && |b[user].turns| != 10
    ensures Fits(a, b, user, turn, Continue)
  {
    forall k | 0 <= k < |a| ensures b[k].turns == a[k].turns + if k == user then [turn] else [] {
      assert a[k].turns + [] == a[k].turns;
    }
  }

  lemma PassingFits(a: seq<Attempt>, b: seq<Attempt>, c: seq<Attempt>, user: nat, turn: Turn, r: Response)
    requires TurnAdded(a, b, user, turn) && SameTurns(b, c) && !r.NotFound?
    requires !turn.isCorrect || |b[user].turns| == 10
    requires r.Passed? <==> SomeoneWaits(b, user)
    requires r.Continue? <==> !SomeoneWaits(b, user) && |b[user].turns| != 10
    ensures Fits(a, c, user, turn, r)
  {
    SomeoneStillWaits(a, b, user);
    forall k | 0 <= k < |a| ensures c[k].turns == a[k].turns + if k == user then [turn] else [] {
      assert a[k].turns + [] == a[k].turns;
    }
  }

  lemma ToldIsToldAll(a: seq<Attempt>, b: seq<Attempt>, next: nat)
    requires |a| == |b| && next < |a|
    requires forall l | 0 <= l < |a| :: b[l] == if l != next then Told(a[l], next) else a[l]
    ensures b == ToldAll(a, next, Players(|a|) - {next})
  {
  }

  lemma HandOverKeepsTurns(s: State, next: nat)
    requires Sized(s) && next < |s.attempts|
    ensures SameTurns(s.attempts, HandedOver(s, next).attempts)
  {
  }

  lemma SomeoneStillWaits(a: seq<Attempt>, b: seq<Attempt>, user: nat)
    requires |a| == |b|
    requires forall k | 0 <= k < |a| && k != user :: b[k].isActive == a[k].isActive && b[k].isInTurn == a[k].isInTurn
    ensures SomeoneWaits(b, user) <==> SomeoneWaits(a, user)
  {
  }

  // ----- The object -----

  class Room {
    const expiresOn: int
    var attempts: seq<Attempt>
    var evaluations: nat

    /** The state between requests, at time `now`. */
    ghost function View(now: int): State
      reads this
    {
      State(attempts, seq(|attempts|, _ => Idle), evaluations, expiresOn <= now)
    }

    ghost predicate Playable(user: nat, now: int)
      reads this
    {
      user < |attempts| && expiresOn > now && attempts[user].isActive && attempts[user].isInTurn
    }

    /** `createGameAttempts`: one record per player, the requester in turn. */
    constructor (n: nat, requester: nat, expiresOn: int, ghost now: int)
      requires requester < n
      ensures this.expiresOn == expiresOn
      ensures View(now) == Initial(n, requester).(expired := expiresOn <= now)
    {
      this.expiresOn := expiresOn;
      evaluations := 0;
      attempts := seq(n, i requires 0 <= i < n => InitialAttempt(n, requester, i));
    }

    /** Lines 8611-8621: save the turn if it is this player's. */
    method SaveTurn(user: nat, turn: Turn, now: int) returns (r: Option<Attempt>)
      modifies this`attempts
      ensures r.Some? <==> old(Playable(user, now))
      ensures r.None? ==> attempts == old(attempts)
      ensures r.Some? ==> r.value == Played(old(attempts)[user], turn) && attempts == old(attempts)[user := r.value]
      ensures r.Some? ==>
        r.value == old(attempts)[user].(isInTurn := turn.isCorrect, turns := old(attempts)[user].turns + [turn])
    {
      if user < |attempts| && expiresOn > now && attempts[user].isActive && attempts[user].isInTurn {
        var a := Played(attempts[user], turn);
        attempts := attempts[user := a];
        return Some(a);
      }
      return None;
    }

    /** Lines 8628-8633: one more mark for `user` on every record. */
    method BumpMarks(user: nat)
      requires forall k | 0 <= k < |attempts| :: user < |attempts[k].players|
      modifies this`attempts
      ensures attempts == BumpedAll(old(attempts), user, Players(|old(attempts)|))
    {
      for k := 0 to |attempts|
        invariant |attempts| == |old(attempts)|
        invariant forall l | 0 <= l < k :: attempts[l] == Bumped(old(attempts)[l], user)
        invariant forall l | k <= l < |attempts| :: attempts[l] == old(attempts)[l]
      {
        attempts := attempts[k := Bumped(attempts[k], user)];
      }
    }

    /** `endGame`: file the turns as a finished test and deactivate the record. */
    method EndGame(user: nat)
      requires user < |attempts|
      modifies this`attempts
      ensures attempts == old(attempts)[user :=
        old(attempts)[user].(isActive := false, result := Some(Summarise(old(attempts)[user].turns)))]
      ensures var turns, r := old(attempts)[user].turns, attempts[user].result.value;
        && r.totalCorrects == r.totalMark == |set k | 0 <= k < |turns| && turns[k].isCorrect|
        && r.totalErrors == |set k | 0 <= k < |turns| && !turns[k].isCorrect && turns[k].answers != []|
        && r.totalMissed == |set k | 0 <= k < |turns| && !turns[k].isCorrect && turns[k].answers == []|
        && r.totalTime == 1000 * SumBy((t: Turn) => t.seconds, turns)
    {
      var turns := attempts[user].turns;
      var corrects, errors, missed, mark, time := 0, 0, 0, 0, 0;
      for k := 0 to |turns|
        invariant corrects == mark == CorrectTurns(turns[..k])
        invariant errors == WrongTurns(turns[..k], true)
        invariant missed == WrongTurns(turns[..k], false)
        invariant time == 1000 * Elapsed(turns[..k])
      {
        assert turns[..k + 1][..k] == turns[..k];
        if turns[k].isCorrect {
          corrects, mark := corrects + 1, mark + 1;
        } else if |turns[k].answers| > 0 {
          errors := errors + 1;
        } else {
          missed := missed + 1;
        }
        time := time + turns[k].seconds * 1000;
      }
      assert turns[..|turns|] == turns;
      SummaryCounts(turns);
      attempts := attempts[user :=
        attempts[user].(isActive := false, result := Some(Summary(corrects, errors, missed, mark, time)))];
    }

    /** Lines 8652-8658: any other active record that is not in turn. */
    method FindNext(user: nat) returns (next: Option<nat>)
      ensures next.Some? ==> next.value < |attempts| && next.value != user && CanReceive(attempts[next.value])
      ensures next.None? ==> forall k | 0 <= k < |attempts| && k != user :: !CanReceive(attempts[k])
    {
      if k: nat :| k < |attempts| && k != user && CanReceive(attempts[k]) {
        return Some(k);
      }
      return None;
    }

    /** Lines 8661-8673: give `next` the turn, then announce it to the other waiting records. */
    method HandOver(next: nat)
      requires next < |attempts|
      modifies this`attempts
      ensures attempts == ToldAll(
        old(attempts)[next := old(attempts)[next].(isInTurn := true, inTurnPlayer := next)],
        next, Players(|old(attempts)|) - {next})
    {
      attempts := attempts[next := attempts[next].(isInTurn := true, inTurnPlayer := next)];
      ghost var handed := attempts;
      TellOthers(next);
      ToldIsToldAll(handed, attempts, next);
    }

    /** Lines 8665-8673: the announcement. */
    method TellOthers(next: nat)
      requires next < |attempts|
      modifies this`attempts
      ensures |attempts| == |old(attempts)|
      ensures forall l | 0 <= l < |attempts| ::
        attempts[l] == if l != next then Told(old(attempts)[l], next) else old(attempts)[l]
    {
      for k := 0 to |attempts|
        invariant |attempts| == |old(attempts)|
        invariant forall l | 0 <= l < k ::
          attempts[l] == if l != next then Told(old(attempts)[l], next) else old(attempts)[l]
        invariant forall l | k <= l < |attempts| :: attempts[l] == old(attempts)[l]
      {
        if k != next && attempts[k].isActive && !attempts[k].isInTurn {
          attempts := attempts[k := attempts[k].(inTurnPlayer := next)];
        }
      }
    }

    /** Lines 8691-8729: select the winner and store the final scoreboard. */
    method Evaluate() returns (ok: bool)
      modifies this
      ensures evaluations == old(evaluations) + 1
      ensures ok <==> Winner(old(attempts)).Some?
      ensures attempts == if ok then StoredAll(old(attempts), Board(old(attempts)), Players(|old(attempts)|))
                          else old(attempts)
    {
      evaluations := evaluations + 1;
      var board := SelectWinner(attempts);
      if board.None? {
        return false;
      }
      for k := 0 to |attempts|
        invariant |attempts| == |old(attempts)| && evaluations == old(evaluations) + 1
        invariant forall l | 0 <= l < k ::
          attempts[l] == old(attempts)[l].(isEvaluated := true, players := board.value)
        invariant forall l | k <= l < |attempts| :: attempts[l] == old(attempts)[l]
      {
        attempts := attempts[k := attempts[k].(isEvaluated := true, players := board.value)];
      }
      return true;
    }

    /** The turn is taken and goes to `next` (lines 8660-8688). */
    method PassTo(user: nat, attempt: Attempt, next: nat, ghost now: int)
      requires user < |attempts| && next < |attempts| && next != user && CanReceive(attempts[next])
      requires Inv(Taken(user, attempt, now))
      modifies this`attempts
      ensures Reaches(old(Taken(user, attempt, now)), View(now))
      ensures Agreed(View(now), next) && attempts[user].isActive == old(attempts)[user].isActive
      ensures SameTurns(old(attempts), attempts)
    {
      ghost var s := Taken(user, attempt, now);
      HandPhase(s, user, next);
      HandOverAgrees(s, user, next);
      HandOverKeepsTurns(s, next);
      HandOver(next);
      assert View(now) == HandedOver(s, next);
    }

    /** Nobody can receive the turn, and the caller has finished too (lines 8690-8735). */
    method EndAll(user: nat, attempt: Attempt, ghost now: int) returns (ok: bool)
      requires user < |attempts| && |attempt.turns| == 10
      requires forall k | 0 <= k < |attempts| && k != user :: !CanReceive(attempts[k])
      requires Sized(Taken(user, attempt, now))
      modifies this
      ensures Reaches(old(Taken(user, attempt, now)), View(now))
      ensures evaluations == old(evaluations) + 1
      ensures ok <==> Winner(attempts).Some?
      ensures ok ==> forall k | 0 <= k < |attempts| :: attempts[k].isEvaluated
      ensures SameTurns(old(attempts), attempts)
    {
      ghost var s := Taken(user, attempt, now);
      assert Enabled(s, FindNobody(user));
      EvaluatePhase(s, user);
      ok := Evaluate();
      assert attempts == Scored(s).attempts;
      if ok {
        ScoredKeepsWinner(s);
      }
    }

    /** Nobody can receive the turn: the caller plays on (lines 8736-8740). */
    method GiveBack(user: nat, attempt: Attempt, ghost now: int)
      requires user < |attempts| && |attempt.turns| < 10
      requires forall k | 0 <= k < |attempts| && k != user :: !CanReceive(attempts[k])
      requires Inv(Taken(user, attempt, now))
      modifies this`attempts
      ensures Reaches(old(Taken(user, attempt, now)), View(now))
      ensures attempt.inTurnPlayer == user ==> Agreed(View(now), user)
      ensures user < |attempts| && attempts[user].isActive && attempts[user].isInTurn
      ensures SameTurns(old(attempts), attempts)
    {
      ghost var s := Taken(user, attempt, now);
      GiveBackPhase(s, user);
      if attempt.inTurnPlayer == user {
        GiveBackAgrees(s, user);
      }
      assert PhaseOk(s, user);
      attempts := attempts[user := attempt.(isInTurn := true)];
      assert View(now) == GivenBack(s, user, attempt);
    }

    /** `user`'s request has taken the turn and is about to choose the next player. */
    ghost function Taken(user: nat, attempt: Attempt, now: int): State
      requires user < |attempts|
      reads this
    {
      View(now).(phases := Only(|attempts|, user, Choosing(attempt)))
    }

    /** Lines 8651-8741: the turn is taken, and goes to another player, back to the caller when all
        others have finished, or nowhere when the game is over. */
    method PassOn(user: nat, attempt: Attempt, ghost now: int) returns (r: Response)
      requires user < |attempts| && Inv(Taken(user, attempt, now))
      modifies this
      ensures Reaches(old(Taken(user, attempt, now)), View(now))
      ensures attempt.inTurnPlayer == user ==> QuietlyAgreed(View(now))
      ensures !r.NotFound? && user < |attempts| && SameTurns(old(attempts), attempts)
      ensures r.Passed? <==> SomeoneWaits(old(attempts), user)
      ensures r.Continue? <==> !SomeoneWaits(old(attempts), user) && |attempt.turns| != 10
      ensures TellsState(user, r, now)
      ensures r.Evaluated? || r.Failed? <==> evaluations == old(evaluations) + 1
    {
      ghost var s := Taken(user, attempt, now);
      assert PhaseOk(s, user) && RecordOk(s.attempts[user], s.phases[user]);
      var next := FindNext(user);
      if next.Some? {
        PassTo(user, attempt, next.value, now);
        r := Passed(|attempt.turns| == 10);
      } else if |attempt.turns| == 10 {
        var ok := EndAll(user, attempt, now);
        r := if ok then Evaluated else Failed;
      } else {
        GiveBack(user, attempt, now);
        r := Continue;
      }
    }

    /** The first half of a request: save the turn and bump the marks (lines 8611-8643). */
    method TakeTurn(user: nat, turn: Turn, now: int) returns (saved: Option<Attempt>)
      requires Inv(View(now))
      modifies this`attempts
      ensures saved.Some? <==> old(Playable(user, now))
      ensures saved.None? ==> attempts == old(attempts)
      ensures saved.Some? ==>
        && saved.value == Played(old(attempts)[user], turn)
        && attempts == Marked(old(attempts), user, turn)
        && TurnAdded(old(attempts), attempts, user, turn)
        && Reaches(old(View(now)), TurnSaved(old(View(now)), user, turn))
    {
      saved := SaveTurn(user, turn, now);
      if saved.Some? {
        if turn.isCorrect {
          BumpMarks(user);
        }
        TurnPhase(old(View(now)), user, turn);
      }
    }

    /** A tenth turn ends the caller's game (lines 8645-8649). */
    method CloseIfFinished(user: nat, attempt: Attempt, ghost now: int)
      requires user < |attempts| && Sized(View(now))
      requires |attempt.turns| == 10 || !attempt.isInTurn
      modifies this`attempts
      ensures |attempts| == |old(attempts)|
      ensures attempts[user].inTurnPlayer == old(attempts)[user].inTurnPlayer
      ensures SameTurns(old(attempts), attempts)
      ensures forall k | 0 <= k < |attempts| && k != user :: attempts[k] == old(attempts)[k]
      ensures Reaches(old(View(now).(phases := Only(|attempts|, user, AfterMarks(attempt)))), Taken(user, attempt, now))
    {
      ghost var s := View(now).(phases := Only(|attempts|, user, AfterMarks(attempt)));
      if |attempt.turns| == 10 {
        EndGame(user);
        EndPhase(s, user, attempt);
        assert Taken(user, attempt, now) == ResultFiled(s, user, attempt);
      } else {
        Stays(s);
      }
    }

    /** `playGame`, when no other request overlaps: a run of micro-steps after which, for any number
        of players, the records agree on who is in turn. */
    method PlayGame(user: nat, turn: Turn, now: int) returns (r: Response)
      requires Inv(View(now))
      modifies this
      ensures Inv(View(now)) && Reaches(old(View(now)), View(now))
      ensures QuietlyAgreed(old(View(now))) ==> QuietlyAgreed(View(now))
      ensures r.NotFound? <==>
        !(user < |old(attempts)| && expiresOn > now && old(attempts)[user].isActive && old(attempts)[user].isInTurn)
      ensures r.NotFound? ==> View(now) == old(View(now))
      ensures r.Continue? ==> user < |attempts| && attempts[user].isActive && attempts[user].isInTurn
      ensures r.Passed? ==> exists next: nat :: next != user && Agreed(View(now), next)
      ensures r.Passed? ==> user < |attempts| && (r.finish <==> !attempts[user].isActive)
      ensures r.Evaluated? || r.Failed? <==> evaluations == old(evaluations) + 1
      ensures r.Evaluated? ==> Winner(attempts).Some? && forall k | 0 <= k < |attempts| :: attempts[k].isEvaluated
      ensures r.Failed? ==> Winner(attempts).None?
      ensures |attempts| == |old(attempts)|
      ensures forall k | 0 <= k < |attempts| ::
        attempts[k].turns == old(attempts)[k].turns + if k == user && !r.NotFound? then [turn] else []
      ensures !r.NotFound? ==> var n := |old(attempts)[user].turns|;
        var waiting := exists k :: 0 <= k < |old(attempts)| && k != user
                                    && old(attempts)[k].isActive && !old(attempts)[k].isInTurn;
        && (r.Passed? <==> (!turn.isCorrect || n == 9) && waiting)
        && (r.Continue? <==> n != 9 && (turn.isCorrect || !waiting))
        && (r.Evaluated? || r.Failed? <==> n == 9 && !waiting)
    {
      r := Respond(user, turn, now);
    }

    /** The request itself. */
    method Respond(user: nat, turn: Turn, now: int) returns (r: Response)
      requires Inv(View(now))
      modifies this
      ensures Inv(View(now)) && Reaches(old(View(now)), View(now))
      ensures QuietlyAgreed(old(View(now))) ==> QuietlyAgreed(View(now))
      ensures r.NotFound? <==> !old(Playable(user, now))
      ensures r.NotFound? ==> View(now) == old(View(now))
      ensures !r.NotFound? ==> TellsState(user, r, now)
      ensures r.Evaluated? || r.Failed? <==> evaluations == old(evaluations) + 1
      ensures Fits(old(attempts), attempts, user, turn, r)
    {
      ghost var s0 := View(now);
      var saved := TakeTurn(user, turn, now);
      if saved.None? {
        Stays(s0);
        NothingFits(attempts, user, turn);
        return NotFound;
      }
      r := AfterTurn(user, turn, saved.value, now, s0);
    }

    /** The rest of an accepted request. */
    method AfterTurn(user: nat, turn: Turn, attempt: Attempt, now: int, ghost s0: State) returns (r: Response)
      requires Inv(s0) && Quiet(s0) && Enabled(s0, Play(user, turn)) && Reaches(s0, TurnSaved(s0, user, turn))
      requires attempt == Played(s0.attempts[user], turn) && TurnAdded(s0.attempts, attempts, user, turn)
      requires View(now) == s0.(attempts := Marked(s0.attempts, user, turn))
      modifies this
      ensures Inv(View(now)) && Reaches(s0, View(now)) && (QuietlyAgreed(s0) ==> QuietlyAgreed(View(now)))
      ensures !r.NotFound? && TellsState(user, r, now) && Fits(s0.attempts, attempts, user, turn, r)
      ensures r.Evaluated? || r.Failed? <==> evaluations == old(evaluations) + 1
    {
      ghost var played := attempts;
      SavedTurnAgrees(s0, user, turn);
      if |attempt.turns| != 10 && turn.isCorrect {
        assert View(now) == TurnSaved(s0, user, turn);
        ContinueFits(s0.attempts, attempts, user, turn);
        return Continue;
      }
      r := Conclude(user, attempt, now, s0, TurnSaved(s0, user, turn));
      PassingFits(s0.attempts, played, attempts, user, turn, r);
    }

    /** The answer of an accepted request tells the state it leaves. */
    ghost predicate TellsState(user: nat, r: Response, now: int)
      reads this
    {
      && user < |attempts| && Sized(View(now))
      && (r.Continue? ==> attempts[user].isActive && attempts[user].isInTurn)
      && (r.Passed? ==> (r.finish <==> !attempts[user].isActive))
      && (r.Passed? ==> exists next: nat :: next != user && Agreed(View(now), next))
      && (r.Evaluated? ==> Winner(attempts).Some? && forall k | 0 <= k < |attempts| :: attempts[k].isEvaluated)
      && (r.Failed? ==> Winner(attempts).None?)
    }

    /** The second half of a request whose caller does not simply play on. */
    method Conclude(user: nat, attempt: Attempt, ghost now: int, ghost s0: State, ghost s1: State) returns (r: Response)
      requires user < |attempts| && Inv(s0) && Reaches(s0, s1)
      requires s1 == View(now).(phases := Only(|attempts|, user, AfterMarks(attempt)))
      requires |attempt.turns| == 10 || !attempt.isInTurn
      modifies this
      ensures Inv(View(now)) && Reaches(s0, View(now))
      ensures attempt.inTurnPlayer == user ==> QuietlyAgreed(View(now))
      ensures !r.NotFound? && user < |attempts| && SameTurns(old(attempts), attempts)
      ensures r.Passed? <==> SomeoneWaits(old(attempts), user)
      ensures r.Continue? <==> !SomeoneWaits(old(attempts), user) && |attempt.turns| != 10
      ensures TellsState(user, r, now)
      ensures r.Evaluated? || r.Failed? <==> evaluations == old(evaluations) + 1
    {
      ghost var was := attempts;
      ReachesInv(s0, s1);
      CloseIfFinished(user, attempt, now);
      SomeoneStillWaits(was, attempts, user);
      ghost var s2 := Taken(user, attempt, now);
      ReachesOn(s0, s1, s2);
      ReachesInv(s0, s2);
      r := PassOn(user, attempt, now);
      ReachesOn(s0, s2, View(now));
      ReachesInv(s0, View(now));
    }
  }
}
