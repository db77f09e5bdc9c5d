/** What every micro-step of the quiz game keeps, for any number of players. */
module GameInvariant {
  import opened Game

  /** Player `i`'s request has taken the turn and not yet passed it on. */
  predicate InFlight(p: Phase) {
    p.Marking? || p.Ending? || p.Closing? || p.Choosing? || p.Handing? || p.Restoring?
  }

  /** Player `i` holds the turn: in its active record, or in its request on the way to the next. */
  predicate Holds(s: State, i: nat)
    requires i < |s.attempts| && i < |s.phases|
  {
    InFlight(s.phases[i]) || (s.attempts[i].isActive && s.attempts[i].isInTurn)
  }

  /** At most one holder; exactly one until the winner selection, none after it. */
  ghost predicate OneToken(s: State)
    requires Sized(s)
  {
    && (forall i, j | 0 <= i < |s.attempts| && 0 <= j < |s.attempts| && Holds(s, i) && Holds(s, j) :: i == j)
    && (s.evaluations == 0 <==> exists i | 0 <= i < |s.attempts| :: Holds(s, i))
  }

  /** The snapshot agrees with the record; after a wrong answer that does not end the game for
      the player, it differs from it at most in the name of the player in turn. */
  predicate FreshSnapshot(snapshot: Attempt, a: Attempt) {
    && snapshot.turns == a.turns
    && (|a.turns| < MAX_TURNS && !snapshot.isInTurn ==> snapshot == a.(inTurnPlayer := snapshot.inTurnPlayer))
  }

  /** The turn of `a` is taken but its owner has neither finished nor been handed the turn again. */
  predicate TurnTaken(snapshot: Attempt, a: Attempt) {
    && FreshSnapshot(snapshot, a)
    && (if |a.turns| == MAX_TURNS then !a.isActive
        else a.isActive && !a.isInTurn && !snapshot.isInTurn)
  }

  ghost predicate PhaseOk(s: State, i: nat)
    requires Sized(s) && i < |s.attempts|
  {
    var n := |s.attempts|;
    var a := s.attempts[i];
    match s.phases[i]
    case Idle => true
    case Marking(snapshot, pending) =>
      pending != {} && pending <= Everyone(s) && a.isActive && a.isInTurn && snapshot.isInTurn
      && |a.turns| > 0 && FreshSnapshot(snapshot, a)
    case Ending(snapshot) =>
      a.isActive && |a.turns| == MAX_TURNS && FreshSnapshot(snapshot, a)
    case Closing(snapshot, summary) =>
      a.isActive && |a.turns| == MAX_TURNS && FreshSnapshot(snapshot, a) && summary == Summarise(a.turns)
    case Choosing(snapshot) => TurnTaken(snapshot, a)
    case Handing(snapshot, j) =>
      TurnTaken(snapshot, a) && j < n && j != i && CanReceive(s.attempts[j])
    case Telling(j, pending) =>
      j < n && j != i && pending != {} && pending <= Everyone(s) - {j}
    case Restoring(snapshot) =>
      TurnTaken(snapshot, a) && |a.turns| < MAX_TURNS
      && |snapshot.players| == n
      && forall j | 0 <= j < n && j != i :: !s.attempts[j].isActive
    case Storing(board, pending) =>
      pending != {} && pending <= Everyone(s) && s.evaluations == 1
      && Winner(s.attempts).Some? && board == Board(s.attempts)
  }

  /** An attempt is inactive exactly when its ten turns are filed. */
  predicate RecordOk(a: Attempt, p: Phase) {
    && |a.turns| <= MAX_TURNS
    && (a.isActive <==> a.result.None?)
    && (a.result.Some? ==> |a.turns| == MAX_TURNS && a.result.value == Summarise(a.turns))
    && (a.isActive && |a.turns| == MAX_TURNS ==> p.Marking? || p.Ending? || p.Closing?)
  }

  /** Player `p`'s latest correct turn is not yet on record `k`'s scoreboard. */
  predicate Owed(s: State, k: nat, p: nat)
    requires p < |s.phases|
  {
    s.phases[p].Marking? && k in s.phases[p].pending
  }

  /** Every replica of the scoreboard shows the correct turns, but for a write still due. */
  ghost predicate BoardsOk(s: State)
    requires Sized(s)
  {
    forall k, p | 0 <= k < |s.attempts| && 0 <= p < |s.attempts| ::
      s.attempts[k].players[p].mark + (if Owed(s, k, p) then 1 else 0) == CorrectTurns(s.attempts[p].turns)
  }

  /** Record `k` waits for the final scoreboard from player `i`'s request. */
  predicate Awaits(s: State, k: nat, i: nat)
    requires i < |s.phases|
  {
    s.phases[i].Storing? && k in s.phases[i].pending
  }

  ghost predicate Awaited(s: State, k: nat)
    requires Sized(s)
  {
    exists i :: 0 <= i < |s.attempts| && Awaits(s, k, i)
  }

  /** The evaluation: it follows the last tenth turn, and reaches every record if there is a winner. */
  ghost predicate EvaluationOk(s: State)
    requires Sized(s)
  {
    var n := |s.attempts|;
    && s.evaluations <= 1
    && (s.evaluations == 1 ==> forall k | 0 <= k < n :: !s.attempts[k].isActive)
    && (forall i, j | 0 <= i < n && 0 <= j < n && s.phases[i].Storing? && s.phases[j].Storing? :: i == j)
    && (forall k | 0 <= k < n && s.attempts[k].isEvaluated ::
          s.evaluations == 1 && Winner(s.attempts).Some? && s.attempts[k].players == Board(s.attempts))
    && (s.evaluations == 1 && Winner(s.attempts).Some? ==>
          forall k | 0 <= k < n && !s.attempts[k].isEvaluated :: Awaited(s, k))
  }

  ghost predicate PlayersOk(s: State)
    requires Sized(s)
  {
    forall i | 0 <= i < |s.attempts| :: PhaseOk(s, i) && RecordOk(s.attempts[i], s.phases[i])
  }

  ghost predicate Inv(s: State) {
    Sized(s) && OneToken(s) && PlayersOk(s) && BoardsOk(s) && EvaluationOk(s)
  }

  lemma InitialInv(n: nat, requester: nat)
    requires requester < n
    ensures Inv(Initial(n, requester))
    ensures var s := Initial(n, requester);
      && |s.attempts| == n && s.evaluations == 0 && !s.expired
      && (forall i | 0 <= i < n ::
            s.attempts[i].isActive && (s.attempts[i].isInTurn <==> i == requester) && s.attempts[i].turns == []
            && s.attempts[i].inTurnPlayer == requester && !s.attempts[i].isEvaluated && s.phases[i].Idle?)
      && (forall i, j | 0 <= i < n && 0 <= j < n :: s.attempts[i].players[j].mark == 0)
  {
    assert Holds(Initial(n, requester), requester);
  }

  // ----- Frames -----

  /** While player `i` holds the turn, every other request is over or only announcing. */
  lemma HolderAlone(s: State, i: nat)
    requires Inv(s) && i < |s.attempts| && Holds(s, i)
    ensures s.evaluations == 0
    ensures forall m | 0 <= m < |s.attempts| && m != i ::
      (s.phases[m].Idle? || s.phases[m].Telling?) && !(s.attempts[m].isActive && s.attempts[m].isInTurn)
    ensures forall m | 0 <= m < |s.attempts| :: !s.phases[m].Storing? && !s.attempts[m].isEvaluated
  {
    forall m | 0 <= m < |s.attempts|
      ensures !s.phases[m].Storing? && (m != i ==> !Holds(s, m))
    {
      assert PhaseOk(s, m);
    }
  }

  lemma TokenFrame(s: State, s': State, i: nat, j: nat)
    requires Inv(s) && Sized(s') && |s'.attempts| == |s.attempts| && s'.evaluations == s.evaluations
    requires i < |s.attempts| && j < |s.attempts| && Holds(s, i) && Holds(s', j)
    requires forall m | 0 <= m < |s.attempts| && m != j :: !Holds(s', m)
    ensures OneToken(s')
  {
    HolderAlone(s, i);
  }

  lemma BoardsFrame(s: State, s': State)
    requires Sized(s) && Sized(s') && |s'.attempts| == |s.attempts| && BoardsOk(s)
    requires forall k | 0 <= k < |s.attempts| ::
      s'.attempts[k].turns == s.attempts[k].turns && s'.attempts[k].players == s.attempts[k].players
    requires forall p | 0 <= p < |s.attempts| ::
      s'.phases[p] == s.phases[p] || (!s.phases[p].Marking? && !s'.phases[p].Marking?)
    ensures BoardsOk(s')
  {
    forall k, p | 0 <= k < |s.attempts| && 0 <= p < |s.attempts|
      ensures s'.attempts[k].players[p].mark + (if Owed(s', k, p) then 1 else 0) == CorrectTurns(s'.attempts[p].turns)
    {
      assert Owed(s', k, p) == Owed(s, k, p);
      assert s.attempts[k].players[p].mark + (if Owed(s, k, p) then 1 else 0) == CorrectTurns(s.attempts[p].turns);
    }
  }

  lemma NotYetEvaluated(s: State)
    requires Sized(s) && s.evaluations == 0
    requires forall k | 0 <= k < |s.attempts| :: !s.phases[k].Storing? && !s.attempts[k].isEvaluated
    ensures EvaluationOk(s)
  {
  }

  /** The winner and the final scoreboard depend on the turns only. */
  lemma {:induction false} LeaderFrame(a: seq<Attempt>, b: seq<Attempt>, k: nat)
    requires |a| == |b| && k <= |a|
    requires forall i | 0 <= i < |a| :: a[i].turns == b[i].turns
    ensures Leader(a, k) == Leader(b, k)
  {
    if k > 0 {
      LeaderFrame(a, b, k - 1);
    }
  }

  lemma BoardFrame(a: seq<Attempt>, b: seq<Attempt>)
    requires |a| == |b|
    requires forall i | 0 <= i < |a| :: a[i].turns == b[i].turns
    ensures Winner(a) == Winner(b) && Board(a) == Board(b)
  {
    LeaderFrame(a, b, |a|);
  }

  // ----- Taking the turn and bumping the marks -----

  lemma PlayKeepsPlayer(s: State, i: nat, turn: Turn, m: nat)
    requires Inv(s) && Enabled(s, Play(i, turn)) && m < |s.attempts|
    ensures var s' := DoPlay(s, i, turn); PhaseOk(s', m) && RecordOk(s'.attempts[m], s'.phases[m])
  {
    HolderAlone(s, i);
    assert PhaseOk(s, m) && RecordOk(s.attempts[m], s.phases[m]);
    assert PhaseOk(s, i) && RecordOk(s.attempts[i], s.phases[i]);
  }

  lemma PlayKeepsBoards(s: State, i: nat, turn: Turn)
    requires Inv(s) && Enabled(s, Play(i, turn))
    ensures BoardsOk(DoPlay(s, i, turn))
  {
    var s' := DoPlay(s, i, turn);
    OneMoreTurn(s.attempts[i].turns, turn);
    forall k, p | 0 <= k < |s.attempts| && 0 <= p < |s.attempts|
      ensures s'.attempts[k].players[p].mark + (if Owed(s', k, p) then 1 else 0) == CorrectTurns(s'.attempts[p].turns)
    {
      assert s.attempts[k].players[p].mark + (if Owed(s, k, p) then 1 else 0) == CorrectTurns(s.attempts[p].turns);
      assert p != i ==> Owed(s', k, p) == Owed(s, k, p);
    }
  }

  lemma PlayKeepsInv(s: State, i: nat, turn: Turn)
    requires Inv(s) && Enabled(s, Play(i, turn))
    ensures Inv(DoPlay(s, i, turn))
  {
    var s' := DoPlay(s, i, turn);
    HolderAlone(s, i);
    forall m | 0 <= m < |s.attempts| ensures PhaseOk(s', m) && RecordOk(s'.attempts[m], s'.phases[m]) {
      PlayKeepsPlayer(s, i, turn, m);
    }
    PlayKeepsBoards(s, i, turn);
    TokenFrame(s, s', i, i);
    NotYetEvaluated(s');
  }

  lemma MarkKeepsPlayer(s: State, i: nat, k: nat, m: nat)
    requires Inv(s) && Enabled(s, Mark(i, k)) && m < |s.attempts|
    ensures var s' := DoMark(s, i, k); PhaseOk(s', m) && RecordOk(s'.attempts[m], s'.phases[m])
  {
    HolderAlone(s, i);
    assert PhaseOk(s, m) && RecordOk(s.attempts[m], s.phases[m]);
    assert PhaseOk(s, i) && RecordOk(s.attempts[i], s.phases[i]);
  }

  lemma MarkKeepsBoards(s: State, i: nat, k: nat)
    requires Inv(s) && Enabled(s, Mark(i, k))
    ensures BoardsOk(DoMark(s, i, k))
  {
    var s' := DoMark(s, i, k);
    forall l, p | 0 <= l < |s.attempts| && 0 <= p < |s.attempts|
      ensures s'.attempts[l].players[p].mark + (if Owed(s', l, p) then 1 else 0) == CorrectTurns(s'.attempts[p].turns)
    {
      assert s.attempts[l].players[p].mark + (if Owed(s, l, p) then 1 else 0) == CorrectTurns(s.attempts[p].turns);
      assert Owed(s', l, p) == (Owed(s, l, p) && !(p == i && l == k));
    }
  }

  lemma MarkKeepsInv(s: State, i: nat, k: nat)
    requires Inv(s) && Enabled(s, Mark(i, k))
    ensures Inv(DoMark(s, i, k))
  {
    var s' := DoMark(s, i, k);
    HolderAlone(s, i);
    forall m | 0 <= m < |s.attempts| ensures PhaseOk(s', m) && RecordOk(s'.attempts[m], s'.phases[m]) {
      MarkKeepsPlayer(s, i, k, m);
    }
    MarkKeepsBoards(s, i, k);
    assert PhaseOk(s, i);
    TokenFrame(s, s', i, i);
    NotYetEvaluated(s');
  }

  // ----- Ending the player's game and handing the turn over -----

  /** The steps of the holder that touch no turn and no mark, up to the hand-over. */
  predicate Passing(step: Step) {
    step.ReadResult? || step.Close? || step.Choose? || step.Hand? || step.Restore?
  }

  function Actor(step: Step): (i: nat)
    requires !step.Expire?
  {
    step.player
  }

  /** Who holds the turn after a passing step of the holder. */
  function Receiver(s: State, step: Step): nat
    requires Passing(step) && Actor(step) < |s.phases|
  {
    if step.Hand? && s.phases[step.player].Handing? then s.phases[step.player].next else step.player
  }

  /** What a passing step leaves of player `m`. */
  ghost predicate PassedOk(s: State, s': State, receiver: nat, m: nat)
    requires Sized(s) && Sized(s') && |s'.attempts| == |s.attempts| && m < |s.attempts|
  {
    && PhaseOk(s', m) && RecordOk(s'.attempts[m], s'.phases[m])
    && s'.attempts[m].turns == s.attempts[m].turns && s'.attempts[m].players == s.attempts[m].players
    && !s'.phases[m].Storing? && !s'.attempts[m].isEvaluated
    && (Holds(s', m) <==> m == receiver)
  }

  /** What is known of player `m` while player `i` holds the turn. */
  ghost predicate Stands(s: State, i: nat, m: nat)
    requires Sized(s) && m < |s.attempts|
  {
    && PhaseOk(s, m) && RecordOk(s.attempts[m], s.phases[m])
    && !s.phases[m].Storing? && !s.attempts[m].isEvaluated
    && (m != i ==> (s.phases[m].Idle? || s.phases[m].Telling?) && !(s.attempts[m].isActive && s.attempts[m].isInTurn))
  }

  lemma HolderStands(s: State, i: nat, m: nat)
    requires Inv(s) && i < |s.attempts| && m < |s.attempts| && Holds(s, i)
    ensures Stands(s, i, m)
  {
    HolderAlone(s, i);
    assert PhaseOk(s, m) && RecordOk(s.attempts[m], s.phases[m]);
  }

  lemma CloseKeepsPlayer(s: State, i: nat, m: nat)
    requires Sized(s) && Enabled(s, Close(i)) && m < |s.attempts| && Stands(s, i, i) && Stands(s, i, m)
    ensures PassedOk(s, DoClose(s, i), i, m)
  {
  }

  lemma HandKeepsPlayer(s: State, i: nat, m: nat)
    requires Sized(s) && Enabled(s, Hand(i)) && m < |s.attempts| && Stands(s, i, i) && Stands(s, i, m)
    ensures PassedOk(s, DoHand(s, i), s.phases[i].next, m)
  {
  }

  lemma RestoreKeepsPlayer(s: State, i: nat, m: nat)
    requires Sized(s) && Enabled(s, Restore(i)) && m < |s.attempts| && Stands(s, i, i) && Stands(s, i, m)
    ensures PassedOk(s, Next(s, Restore(i)), i, m)
  {
  }

  lemma ReadKeepsPlayer(s: State, i: nat, m: nat)
    requires Sized(s) && Enabled(s, ReadResult(i)) && m < |s.attempts| && Stands(s, i, i) && Stands(s, i, m)
    ensures PassedOk(s, Next(s, ReadResult(i)), i, m)
  {
  }

  lemma ChooseKeepsPlayer(s: State, i: nat, j: nat, m: nat)
    requires Sized(s) && Enabled(s, Choose(i, j)) && m < |s.attempts| && Stands(s, i, i) && Stands(s, i, m)
    ensures PassedOk(s, Next(s, Choose(i, j)), i, m)
  {
  }

  lemma PassingKeepsPlayer(s: State, step: Step, m: nat)
    requires Inv(s) && Enabled(s, step) && Passing(step) && m < |s.attempts|
    ensures PassedOk(s, Next(s, step), Receiver(s, step), m)
  {
    HolderStands(s, Actor(step), Actor(step));
    HolderStands(s, Actor(step), m);
    match step
    case Close(i) => CloseKeepsPlayer(s, i, m);
    case Hand(i) => HandKeepsPlayer(s, i, m);
    case Restore(i) => RestoreKeepsPlayer(s, i, m);
    case ReadResult(i) => ReadKeepsPlayer(s, i, m);
    case Choose(i, j) => ChooseKeepsPlayer(s, i, j, m);
  }

  lemma PassedKeepsInv(s: State, s': State, holder: nat, receiver: nat)
    requires Inv(s) && Sized(s') && |s'.attempts| == |s.attempts| && s'.evaluations == s.evaluations
    requires holder < |s.attempts| && receiver < |s.attempts| && Holds(s, holder)
    requires forall m | 0 <= m < |s.attempts| :: PassedOk(s, s', receiver, m)
    requires forall m | 0 <= m < |s.attempts| ::
      s'.phases[m] == s.phases[m] || (!s.phases[m].Marking? && !s'.phases[m].Marking?)
    ensures Inv(s')
  {
    HolderAlone(s, holder);
    forall m | 0 <= m < |s.attempts|
      ensures PhaseOk(s', m) && RecordOk(s'.attempts[m], s'.phases[m])
      ensures s'.attempts[m].turns == s.attempts[m].turns && s'.attempts[m].players == s.attempts[m].players
      ensures !s'.phases[m].Storing? && !s'.attempts[m].isEvaluated
      ensures Holds(s', m) <==> m == receiver
    {
      assert PassedOk(s, s', receiver, m);
    }
    BoardsFrame(s, s');
    TokenFrame(s, s', holder, receiver);
    NotYetEvaluated(s');
  }

  lemma PassingKeepsInv(s: State, step: Step)
    requires Inv(s) && Enabled(s, step) && Passing(step)
    ensures Inv(Next(s, step))
  {
    var i := Actor(step);
    var s' := Next(s, step);
    assert PhaseOk(s, i);
    forall m | 0 <= m < |s.attempts| ensures PassedOk(s, s', Receiver(s, step), m) {
      PassingKeepsPlayer(s, step, m);
    }
    PassedKeepsInv(s, s', i, Receiver(s, step));
  }

  // ----- Announcing the player in turn, evaluating, storing -----

  lemma TellTouchesNames(s: State, i: nat, k: nat, m: nat)
    requires Inv(s) && Enabled(s, Tell(i, k)) && m < |s.attempts|
    ensures var s' := DoTell(s, i, k);
      && Holds(s', m) == Holds(s, m) && s'.phases[m].Storing? == s.phases[m].Storing?
      && s'.attempts[m] == s.attempts[m].(inTurnPlayer := s'.attempts[m].inTurnPlayer)
      && RecordOk(s'.attempts[m], s'.phases[m])
  {
    assert RecordOk(s.attempts[m], s.phases[m]);
  }

  lemma TellKeepsTeller(s: State, i: nat, k: nat)
    requires Sized(s) && Enabled(s, Tell(i, k)) && PhaseOk(s, i)
    ensures PhaseOk(DoTell(s, i, k), i)
  {
  }

  lemma TellKeepsPhase(s: State, i: nat, k: nat, m: nat)
    requires Sized(s) && Enabled(s, Tell(i, k)) && m < |s.attempts| && m != i && PhaseOk(s, m)
    ensures PhaseOk(DoTell(s, i, k), m)
  {
    if s.phases[m].Storing? {
      BoardFrame(s.attempts, DoTell(s, i, k).attempts);
    }
  }

  lemma EvaluationFrame(s: State, s': State)
    requires Inv(s) && Sized(s') && |s'.attempts| == |s.attempts| && s'.evaluations == s.evaluations
    requires forall m | 0 <= m < |s.attempts| ::
      s'.attempts[m] == s.attempts[m].(inTurnPlayer := s'.attempts[m].inTurnPlayer)
    requires forall m | 0 <= m < |s.attempts| ::
      s'.phases[m] == s.phases[m] || (!s.phases[m].Storing? && !s'.phases[m].Storing?)
    ensures EvaluationOk(s')
  {
    BoardFrame(s.attempts, s'.attempts);
    forall k | 0 <= k < |s.attempts| && !s'.attempts[k].isEvaluated && s.evaluations == 1 && Winner(s.attempts).Some?
      ensures Awaited(s', k)
    {
      assert Awaited(s, k);
      var i :| 0 <= i < |s.attempts| && Awaits(s, k, i);
      assert Awaits(s', k, i);
    }
  }

  lemma TellKeepsInv(s: State, i: nat, k: nat)
    requires Inv(s) && Enabled(s, Tell(i, k))
    ensures Inv(DoTell(s, i, k))
  {
    var s' := DoTell(s, i, k);
    forall m | 0 <= m < |s.attempts|
      ensures PhaseOk(s', m) && RecordOk(s'.attempts[m], s'.phases[m])
      ensures Holds(s', m) == Holds(s, m) && s'.phases[m].Storing? == s.phases[m].Storing?
      ensures s'.attempts[m] == s.attempts[m].(inTurnPlayer := s'.attempts[m].inTurnPlayer)
    {
      TellTouchesNames(s, i, k, m);
      assert PhaseOk(s, m);
      if m == i {
        TellKeepsTeller(s, i, k);
      } else {
        TellKeepsPhase(s, i, k, m);
      }
    }
    BoardsFrame(s, s');
    EvaluationFrame(s, s');
    TokenUnmoved(s, s');
  }

  lemma TokenUnmoved(s: State, s': State)
    requires Inv(s) && Sized(s') && |s'.attempts| == |s.attempts| && s'.evaluations == s.evaluations
    requires forall m | 0 <= m < |s.attempts| :: Holds(s', m) == Holds(s, m)
    ensures OneToken(s')
  {
    if s.evaluations == 0 {
      var h :| 0 <= h < |s.attempts| && Holds(s, h);
      assert Holds(s', h);
    }
  }

  lemma ExpireKeepsInv(s: State)
    requires Inv(s) && Enabled(s, Expire)
    ensures Inv(Next(s, Expire))
  {
    var s' := Next(s, Expire);
    forall m | 0 <= m < |s.attempts| ensures PhaseOk(s', m) && Holds(s', m) == Holds(s, m) {
      assert PhaseOk(s, m);
    }
    assert BoardsOk(s') by { BoardsFrame(s, s'); }
    EvaluationFrame(s, s');
    TokenUnmoved(s, s');
  }

  /** When the holder of a tenth turn finds nobody, every attempt is inactive. */
  lemma NobodyLeft(s: State, i: nat)
    requires Inv(s) && Enabled(s, FindNobody(i))
    ensures forall m | 0 <= m < |s.attempts| && m != i :: !s.attempts[m].isActive
    ensures s.attempts[i].isActive <==> |s.phases[i].snapshot.turns| < MAX_TURNS
  {
    HolderAlone(s, i);
    assert PhaseOk(s, i) && RecordOk(s.attempts[i], s.phases[i]);
  }

  lemma FindNobodyKeepsPlayer(s: State, i: nat, m: nat)
    requires Sized(s) && Enabled(s, FindNobody(i)) && m < |s.attempts| && Stands(s, i, i) && Stands(s, i, m)
    requires s.evaluations == 0 && forall l | 0 <= l < |s.attempts| && l != i :: !s.attempts[l].isActive
    ensures var s' := DoFindNobody(s, i); PhaseOk(s', m) && RecordOk(s'.attempts[m], s'.phases[m])
  {
    assert DoFindNobody(s, i).attempts == s.attempts;
  }

  lemma GivingUpKeepsEvaluation(s: State, i: nat)
    requires Inv(s) && Enabled(s, FindNobody(i)) && |s.phases[i].snapshot.turns| < MAX_TURNS
    ensures EvaluationOk(DoFindNobody(s, i)) && OneToken(DoFindNobody(s, i))
  {
    var s' := DoFindNobody(s, i);
    HolderAlone(s, i);
    TokenFrame(s, s', i, i);
    NotYetEvaluated(s');
  }

  lemma EvaluatingIsFinal(s: State, i: nat)
    requires Inv(s) && Enabled(s, FindNobody(i)) && |s.phases[i].snapshot.turns| == MAX_TURNS
    ensures EvaluationOk(DoFindNobody(s, i)) && OneToken(DoFindNobody(s, i))
  {
    var s' := DoFindNobody(s, i);
    HolderAlone(s, i);
    NobodyLeft(s, i);
    assert s'.attempts == s.attempts;
    forall m | 0 <= m < |s.attempts| ensures !Holds(s', m) {
    }
    if Winner(s.attempts).Some? {
      forall k | 0 <= k < |s.attempts| ensures Awaited(s', k) {
        assert Awaits(s', k, i);
      }
    }
  }

  lemma FindNobodyKeepsInv(s: State, i: nat)
    requires Inv(s) && Enabled(s, FindNobody(i))
    ensures Inv(DoFindNobody(s, i))
  {
    var s' := DoFindNobody(s, i);
    HolderAlone(s, i);
    NobodyLeft(s, i);
    HolderStands(s, i, i);
    forall m | 0 <= m < |s.attempts| ensures PhaseOk(s', m) && RecordOk(s'.attempts[m], s'.phases[m]) {
      HolderStands(s, i, m);
      FindNobodyKeepsPlayer(s, i, m);
    }
    assert s'.attempts == s.attempts;
    BoardsFrame(s, s');
    if |s.phases[i].snapshot.turns| == MAX_TURNS {
      EvaluatingIsFinal(s, i);
    } else {
      assert PhaseOk(s, i) && RecordOk(s.attempts[i], s.phases[i]);
      GivingUpKeepsEvaluation(s, i);
    }
  }

  /** After the winner selection nobody is playing any more. */
  lemma GameIsOver(s: State, m: nat)
    requires Inv(s) && s.evaluations == 1 && m < |s.attempts|
    ensures !Holds(s, m) && !s.attempts[m].isActive && PhaseOk(s, m) && RecordOk(s.attempts[m], s.phases[m])
    ensures s.phases[m].Idle? || s.phases[m].Telling? || s.phases[m].Storing?
  {
  }

  lemma StoreKeepsPlayer(s: State, i: nat, k: nat, m: nat)
    requires Sized(s) && Enabled(s, Store(i, k)) && m < |s.attempts| && s.evaluations == 1
    requires PhaseOk(s, m) && RecordOk(s.attempts[m], s.phases[m]) && !s.attempts[m].isActive
    requires s.phases[m].Idle? || s.phases[m].Telling? || (m == i && s.phases[m].Storing?)
    ensures var s' := DoStore(s, i, k);
      && PhaseOk(s', m) && RecordOk(s'.attempts[m], s'.phases[m]) && !Holds(s', m)
  {
    if m == i {
      BoardFrame(s.attempts, DoStore(s, i, k).attempts);
    }
  }

  /** While the scoreboard is stored, nobody holds the turn. */
  lemma StoreHasNoHolder(s: State, i: nat, k: nat, m: nat)
    requires Inv(s) && Enabled(s, Store(i, k)) && m < |s.attempts|
    ensures var s' := DoStore(s, i, k);
      && PhaseOk(s', m) && RecordOk(s'.attempts[m], s'.phases[m]) && !Holds(s', m)
  {
    assert PhaseOk(s, i);
    GameIsOver(s, m);
    StoreKeepsPlayer(s, i, k, m);
  }

  /** Storing the final scoreboard changes no mark. */
  lemma StoreKeepsBoards(s: State, i: nat, k: nat)
    requires Inv(s) && Enabled(s, Store(i, k))
    ensures BoardsOk(DoStore(s, i, k))
  {
    var s' := DoStore(s, i, k);
    assert PhaseOk(s, i);
    forall l, p | 0 <= l < |s.attempts| && 0 <= p < |s.attempts|
      ensures s'.attempts[l].players[p].mark + (if Owed(s', l, p) then 1 else 0) == CorrectTurns(s'.attempts[p].turns)
    {
      assert s.attempts[l].players[p].mark + (if Owed(s, l, p) then 1 else 0) == CorrectTurns(s.attempts[p].turns);
      assert !Holds(s, p);
    }
  }

  lemma StillAwaited(s: State, i: nat, k: nat, l: nat)
    requires Sized(s) && EvaluationOk(s) && Enabled(s, Store(i, k)) && PhaseOk(s, i)
    requires l < |s.attempts| && !DoStore(s, i, k).attempts[l].isEvaluated
    ensures Awaited(DoStore(s, i, k), l)
  {
    assert Awaited(s, l);
    var j :| 0 <= j < |s.attempts| && Awaits(s, l, j);
    assert j == i && l != k;
    assert Awaits(DoStore(s, i, k), l, i);
  }

  lemma StoreKeepsEvaluation(s: State, i: nat, k: nat)
    requires Sized(s) && EvaluationOk(s) && Enabled(s, Store(i, k)) && PhaseOk(s, i)
    ensures EvaluationOk(DoStore(s, i, k))
  {
    var s' := DoStore(s, i, k);
    BoardFrame(s.attempts, s'.attempts);
    forall l | 0 <= l < |s.attempts| && !s'.attempts[l].isEvaluated ensures Awaited(s', l) {
      StillAwaited(s, i, k, l);
    }
  }

  lemma StoreKeepsInv(s: State, i: nat, k: nat)
    requires Inv(s) && Enabled(s, Store(i, k))
    ensures Inv(DoStore(s, i, k))
  {
    var s' := DoStore(s, i, k);
    assert PhaseOk(s, i);
    forall m | 0 <= m < |s.attempts|
      ensures PhaseOk(s', m) && RecordOk(s'.attempts[m], s'.phases[m]) && !Holds(s', m)
    {
      StoreHasNoHolder(s, i, k, m);
    }
    StoreKeepsBoards(s, i, k);
    StoreKeepsEvaluation(s, i, k);
  }

  /** Every micro-step, by whichever player, keeps the invariant. */
  lemma StepKeepsInv(s: State, step: Step)
    requires Inv(s) && Enabled(s, step)
    ensures Inv(Next(s, step))
  {
    match step
    case Expire => ExpireKeepsInv(s);
    case Play(i, turn) => PlayKeepsInv(s, i, turn);
    case Mark(i, k) => MarkKeepsInv(s, i, k);
    case ReadResult(_) => PassingKeepsInv(s, step);
    case Close(_) => PassingKeepsInv(s, step);
    case Choose(_, _) => PassingKeepsInv(s, step);
    case Hand(_) => PassingKeepsInv(s, step);
    case Tell(i, k) => TellKeepsInv(s, i, k);
    case FindNobody(i) => FindNobodyKeepsInv(s, i);
    case Restore(_) => PassingKeepsInv(s, step);
    case Store(i, k) => StoreKeepsInv(s, i, k);
  }

  lemma {:induction false} RunKeepsInv(s: State, steps: seq<Step>)
    requires Inv(s) && IsRun(s, steps)
    ensures Inv(After(s, steps))
    decreases |steps|
  {
    if steps != [] {
      StepKeepsInv(s, steps[0]);
      RunKeepsInv(Next(s, steps[0]), steps[1..]);
    }
  }
}
