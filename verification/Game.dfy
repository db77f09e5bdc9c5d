/**
 The turn-based quiz game as a state machine.

 Every player has one attempt record in the database.  A `playGame` request is
 not atomic: it is a chain of awaited database writes, and requests of several
 players interleave between the writes.  A `Phase` says how far a player's
 outstanding request has come; `Step` lists the single-document reads and writes.
 Player `i`'s record is `attempts[i]`, and players are named by their index.
 */
module Game {
  import opened Lists
  import opened Wrappers

  const MAX_TURNS: nat := 10

  datatype Turn = Turn(question: nat, answers: seq<nat>, isCorrect: bool, seconds: int)

  /** A row of the scoreboard that every attempt record replicates; a mark not yet stored is 0. */
  datatype PlayerRow = PlayerRow(mark: nat, time: int, isWinner: bool)

  /** What `endGame` files as the player's finished test. */
  datatype Summary = Summary(totalCorrects: nat, totalErrors: nat, totalMissed: nat, totalMark: nat, totalTime: int)

  datatype Attempt = Attempt(
    isActive: bool,
    isInTurn: bool,
    isEvaluated: bool,
    turns: seq<Turn>,
    players: seq<PlayerRow>,
    inTurnPlayer: nat,
    result: Option<Summary>)

  /** Where a player's outstanding `playGame` request stands.  `snapshot` is the document the
      first write returned; it is not refreshed afterwards. */
  datatype Phase =
    | Idle
    | Marking(snapshot: Attempt, pending: set<nat>)
    | Ending(snapshot: Attempt)
    | Closing(snapshot: Attempt, summary: Summary)
    | Choosing(snapshot: Attempt)
    | Handing(snapshot: Attempt, next: nat)
    | Telling(next: nat, pending: set<nat>)
    | Restoring(snapshot: Attempt)
    | Storing(board: seq<PlayerRow>, pending: set<nat>)

  /** `evaluations` counts how often a request reached the winner selection. */
  datatype State = State(attempts: seq<Attempt>, phases: seq<Phase>, evaluations: nat, expired: bool)

  datatype Step =
    | Expire
    | Play(player: nat, turn: Turn)
    | Mark(player: nat, target: nat)
    | ReadResult(player: nat)
    | Close(player: nat)
    | Choose(player: nat, next: nat)
    | Hand(player: nat)
    | Tell(player: nat, target: nat)
    | FindNobody(player: nat)
    | Restore(player: nat)
    | Store(player: nat, target: nat)

  // ----- Scores -----

  function CorrectTurns(turns: seq<Turn>): (r: nat)
    ensures r <= |turns|
  {
    if turns == [] then 0
    else CorrectTurns(turns[..|turns| - 1]) + if turns[|turns| - 1].isCorrect then 1 else 0
  }

  function Elapsed(turns: seq<Turn>): int {
    if turns == [] then 0 else Elapsed(turns[..|turns| - 1]) + turns[|turns| - 1].seconds
  }

  lemma OneMoreTurn(turns: seq<Turn>, t: Turn)
    ensures CorrectTurns(turns + [t]) == CorrectTurns(turns) + if t.isCorrect then 1 else 0
    ensures Elapsed(turns + [t]) == Elapsed(turns) + t.seconds
  {
    assert (turns + [t])[..|turns|] == turns;
  }

  /** Wrong turns with, respectively without, an answer. */
  function WrongTurns(turns: seq<Turn>, answered: bool): nat {
    if turns == [] then 0
    else
      var t := turns[|turns| - 1];
      WrongTurns(turns[..|turns| - 1], answered) + if !t.isCorrect && (t.answers != []) == answered then 1 else 0
  }

  function Summarise(turns: seq<Turn>): Summary {
    var corrects := CorrectTurns(turns);
    Summary(corrects, WrongTurns(turns, true), WrongTurns(turns, false), corrects, 1000 * Elapsed(turns))
  }

  lemma {:induction false} TurnCounts(turns: seq<Turn>)
    ensures CorrectTurns(turns) == |Places((t: Turn) => t.isCorrect, turns)|
    ensures WrongTurns(turns, true) == |Places((t: Turn) => !t.isCorrect && t.answers != [], turns)|
    ensures WrongTurns(turns, false) == |Places((t: Turn) => !t.isCorrect && t.answers == [], turns)|
    ensures Elapsed(turns) == SumBy((t: Turn) => t.seconds, turns)
  {
    var correct, wrong := (t: Turn) => t.isCorrect, (t: Turn) => !t.isCorrect && t.answers != [];
    var missed, seconds := (t: Turn) => !t.isCorrect && t.answers == [], (t: Turn) => t.seconds;
    if turns == [] {
      assert Places(correct, turns) == Places(wrong, turns) == Places(missed, turns) == {};
    } else {
      var front, t := turns[..|turns| - 1], turns[|turns| - 1];
      assert turns == front + [t];
      TurnCounts(front);
      PlacesSnoc(correct, front, t);
      PlacesSnoc(wrong, front, t);
      PlacesSnoc(missed, front, t);
      SumBySnoc(seconds, front, t);
    }
  }

  /** The filed result counts the correct turns, the wrong turns with an answer and those without, with one
      mark per correct turn and the time in milliseconds. */
  lemma SummaryCounts(turns: seq<Turn>)
    ensures var r := Summarise(turns);
      && r.totalCorrects == |set k | 0 <= k < |turns| && turns[k].isCorrect|
      && r.totalErrors == |set k | 0 <= k < |turns| && !turns[k].isCorrect && turns[k].answers != []|
      && r.totalMissed == |set k | 0 <= k < |turns| && !turns[k].isCorrect && turns[k].answers == []|
      && r.totalMark == r.totalCorrects
      && r.totalTime == 1000 * SumBy((t: Turn) => t.seconds, turns)
  {
    TurnCounts(turns);
    assert Places((t: Turn) => t.isCorrect, turns) == set k | 0 <= k < |turns| && turns[k].isCorrect;
    assert Places((t: Turn) => !t.isCorrect && t.answers != [], turns) ==
      set k | 0 <= k < |turns| && !turns[k].isCorrect && turns[k].answers != [];
    assert Places((t: Turn) => !t.isCorrect && t.answers == [], turns) ==
      set k | 0 <= k < |turns| && !turns[k].isCorrect && turns[k].answers == [];
  }

  /** It accounts for every turn, once. */
  lemma {:induction false} SummaryAddsUp(turns: seq<Turn>)
    ensures var r := Summarise(turns); r.totalCorrects + r.totalErrors + r.totalMissed == |turns|
  {
    if turns != [] {
      SummaryAddsUp(turns[..|turns| - 1]);
    }
  }

  datatype Score = Score(mark: nat, time: int)

  function ScoreOf(a: Attempt): Score { Score(CorrectTurns(a.turns), Elapsed(a.turns)) }

  predicate Beats(a: Score, b: Score) {
    b.mark < a.mark || (b.mark == a.mark && b.time > a.time)
  }

  /** The winner the selection loop ends with after the first `k` records, starting from
      mark 0 and time 0 with nobody named. */
  function Leader(attempts: seq<Attempt>, k: nat): (w: Option<nat>)
    requires k <= |attempts|
    ensures w.Some? ==> w.value < k
  {
    if k == 0 then None
    else
      var w := Leader(attempts, k - 1);
      if Beats(ScoreOf(attempts[k - 1]), LeaderScore(attempts, w)) then Some(k - 1) else w
  }

  function LeaderScore(attempts: seq<Attempt>, w: Option<nat>): Score
    requires w.Some? ==> w.value < |attempts|
  {
    if w.Some? then ScoreOf(attempts[w.value]) else Score(0, 0)
  }

  function Winner(attempts: seq<Attempt>): (w: Option<nat>)
    ensures w.Some? ==> w.value < |attempts|
  {
    Leader(attempts, |attempts|)
  }

  function Board(attempts: seq<Attempt>): (b: seq<PlayerRow>)
    ensures |b| == |attempts|
    ensures forall i | 0 <= i < |b| :: b[i].mark == CorrectTurns(attempts[i].turns)
  {
    var w := Winner(attempts);
    seq(|attempts|, i requires 0 <= i < |attempts| =>
      PlayerRow(CorrectTurns(attempts[i].turns), Elapsed(attempts[i].turns), w == Some(i)))
  }

  // ----- Steps -----

  /** The players 0..n-1. */
  function Players(n: nat): (r: set<nat>)
    ensures forall k: nat :: k in r <==> k < n
    ensures |r| == n
  {
    if n == 0 then {} else Players(n - 1) + {n - 1}
  }

  function Everyone(s: State): set<nat> { Players(|s.attempts|) }

  ghost predicate Sized(s: State) {
    && |s.phases| == |s.attempts|
    && forall k | 0 <= k < |s.attempts| :: |s.attempts[k].players| == |s.attempts|
  }

  function InitialAttempt(n: nat, requester: nat, i: nat): Attempt {
    Attempt(true, i == requester, false, [], seq(n, _ => PlayerRow(0, 0, false)), requester, None)
  }

  function Initial(n: nat, requester: nat): State {
    State(seq(n, i requires 0 <= i < n => InitialAttempt(n, requester, i)), seq(n, _ => Idle), 0, false)
  }

  /** What a request does once its scoreboard writes, if any, are over. */
  function AfterMarks(snapshot: Attempt): Phase {
    if |snapshot.turns| == MAX_TURNS then Ending(snapshot)
    else if snapshot.isInTurn then Idle
    else Choosing(snapshot)
  }

  function Played(a: Attempt, turn: Turn): Attempt {
    a.(isInTurn := turn.isCorrect, turns := a.turns + [turn])
  }

  function Bumped(a: Attempt, player: nat): Attempt
    requires player < |a.players|
  {
    a.(players := a.players[player := a.players[player].(mark := a.players[player].mark + 1)])
  }

  /** The filter of both hand-over queries. */
  predicate CanReceive(a: Attempt) { a.isActive && !a.isInTurn }

  function Told(a: Attempt, next: nat): Attempt {
    if CanReceive(a) then a.(inTurnPlayer := next) else a
  }

  /** `s` with record `k` and the request of player `i` replaced. */
  ghost function Put(s: State, k: nat, a: Attempt, i: nat, p: Phase): (s': State)
    requires Sized(s) && k < |s.attempts| && i < |s.attempts| && |a.players| == |s.attempts|
    ensures Sized(s') && |s'.attempts| == |s.attempts|
  {
    s.(attempts := s.attempts[k := a], phases := s.phases[i := p])
  }

  ghost predicate Enabled(s: State, step: Step)
    requires Sized(s)
  {
    var n := |s.attempts|;
    match step
    case Expire => !s.expired
    case Play(i, turn) => i < n && !s.expired && s.phases[i].Idle? && s.attempts[i].isActive && s.attempts[i].isInTurn
    case Mark(i, k) => i < n && k < n && s.phases[i].Marking? && k in s.phases[i].pending
    case ReadResult(i) => i < n && s.phases[i].Ending?
    case Close(i) => i < n && s.phases[i].Closing?
    case Choose(i, j) => i < n && j < n && j != i && s.phases[i].Choosing? && CanReceive(s.attempts[j])
    case Hand(i) => i < n && s.phases[i].Handing? && s.phases[i].next < n
    case Tell(i, k) => i < n && k < n && s.phases[i].Telling? && k in s.phases[i].pending
    case FindNobody(i) =>
      i < n && s.phases[i].Choosing? && forall j | 0 <= j < n && j != i :: !CanReceive(s.attempts[j])
    case Restore(i) => i < n && s.phases[i].Restoring? && |s.phases[i].snapshot.players| == n
    case Store(i, k) => i < n && k < n && s.phases[i].Storing? && k in s.phases[i].pending && |s.phases[i].board| == n
  }

  /** The guarded update that takes the caller's turn (line 8611). */
  ghost function DoPlay(s: State, i: nat, turn: Turn): (s': State)
    requires Sized(s) && Enabled(s, Play(i, turn))
    ensures Sized(s') && |s'.attempts| == |s.attempts|
  {
    var a := Played(s.attempts[i], turn);
    Put(s, i, a, i, if turn.isCorrect then Marking(a, Everyone(s)) else AfterMarks(a))
  }

  /** One record's share of the scoreboard increment (line 8628). */
  ghost function DoMark(s: State, i: nat, k: nat): (s': State)
    requires Sized(s) && Enabled(s, Mark(i, k))
    ensures Sized(s') && |s'.attempts| == |s.attempts|
  {
    var rest := s.phases[i].pending - {k};
    var snapshot := s.phases[i].snapshot;
    Put(s, k, Bumped(s.attempts[k], i), i, if rest == {} then AfterMarks(snapshot) else Marking(snapshot, rest))
  }

  /** `endGame` writes the result it has read and deactivates the record (line 8588). */
  ghost function DoClose(s: State, i: nat): (s': State)
    requires Sized(s) && Enabled(s, Close(i))
    ensures Sized(s') && |s'.attempts| == |s.attempts|
  {
    Put(s, i, s.attempts[i].(isActive := false, result := Some(s.phases[i].summary)), i, Choosing(s.phases[i].snapshot))
  }

  /** The turn is handed to the chosen record (line 8661). */
  ghost function DoHand(s: State, i: nat): (s': State)
    requires Sized(s) && Enabled(s, Hand(i))
    ensures Sized(s') && |s'.attempts| == |s.attempts|
  {
    var j := s.phases[i].next;
    var rest := Everyone(s) - {j};
    Put(s, j, s.attempts[j].(isInTurn := true, inTurnPlayer := j), i, if rest == {} then Idle else Telling(j, rest))
  }

  /** One record's share of announcing the player in turn (line 8665). */
  ghost function DoTell(s: State, i: nat, k: nat): (s': State)
    requires Sized(s) && Enabled(s, Tell(i, k))
    ensures Sized(s') && |s'.attempts| == |s.attempts|
  {
    var rest := s.phases[i].pending - {k};
    var j := s.phases[i].next;
    Put(s, k, Told(s.attempts[k], j), i, if rest == {} then Idle else Telling(j, rest))
  }

  /** Nobody can receive the turn: evaluate the game, or give the turn back (lines 8689-8740).
      Without a winner the selection throws, and nothing is stored. */
  ghost function DoFindNobody(s: State, i: nat): (s': State)
    requires Sized(s) && Enabled(s, FindNobody(i))
    ensures Sized(s') && |s'.attempts| == |s.attempts|
  {
    var snapshot := s.phases[i].snapshot;
    if |snapshot.turns| == MAX_TURNS then
      Put(s, i, s.attempts[i], i,
          if Winner(s.attempts).Some? then Storing(Board(s.attempts), Everyone(s)) else Idle)
      .(evaluations := s.evaluations + 1)
    else
      Put(s, i, s.attempts[i], i, Restoring(snapshot))
  }

  /** One record's share of storing the final scoreboard (line 8724). */
  ghost function DoStore(s: State, i: nat, k: nat): (s': State)
    requires Sized(s) && Enabled(s, Store(i, k))
    ensures Sized(s') && |s'.attempts| == |s.attempts|
  {
    var rest := s.phases[i].pending - {k};
    var board := s.phases[i].board;
    Put(s, k, s.attempts[k].(isEvaluated := true, players := board),
        i, if rest == {} then Idle else Storing(board, rest))
  }

  ghost function Next(s: State, step: Step): (s': State)
    requires Sized(s) && Enabled(s, step)
    ensures Sized(s') && |s'.attempts| == |s.attempts|
  {
    match step
    case Expire => s.(expired := true)
    case Play(i, turn) => DoPlay(s, i, turn)
    case Mark(i, k) => DoMark(s, i, k)
    case ReadResult(i) =>
      Put(s, i, s.attempts[i], i, Closing(s.phases[i].snapshot, Summarise(s.attempts[i].turns)))
    case Close(i) => DoClose(s, i)
    case Choose(i, j) => Put(s, i, s.attempts[i], i, Handing(s.phases[i].snapshot, j))
    case Hand(i) => DoHand(s, i)
    case Tell(i, k) => DoTell(s, i, k)
    case FindNobody(i) => DoFindNobody(s, i)
    case Restore(i) => Put(s, i, s.phases[i].snapshot.(isInTurn := true), i, Idle)
    case Store(i, k) => DoStore(s, i, k)
  }

  /** `steps` can be taken one after the other from `s`. */
  ghost predicate IsRun(s: State, steps: seq<Step>)
    requires Sized(s)
    decreases |steps|
  {
    steps == [] || (Enabled(s, steps[0]) && IsRun(Next(s, steps[0]), steps[1..]))
  }

  ghost function After(s: State, steps: seq<Step>): (s': State)
    requires Sized(s) && IsRun(s, steps)
    ensures Sized(s') && |s'.attempts| == |s.attempts|
    decreases |steps|
  {
    if steps == [] then s else After(Next(s, steps[0]), steps[1..])
  }

  lemma {:induction false} RunsCompose(s: State, a: seq<Step>, b: seq<Step>)
    requires Sized(s) && IsRun(s, a) && IsRun(After(s, a), b)
    ensures IsRun(s, a + b) && After(s, a + b) == After(After(s, a), b)
    decreases |a|
  {
    if a == [] {
      assert a + b == b;
    } else {
      RunsCompose(Next(s, a[0]), a[1..], b);
      assert (a + b)[1..] == a[1..] + b;
    }
  }

  /** Some run leads from `s` to `s'`. */
  ghost predicate Reaches(s: State, s': State) {
    Sized(s) && exists steps :: IsRun(s, steps) && After(s, steps) == s'
  }

  lemma Stays(s: State)
    requires Sized(s)
    ensures Reaches(s, s)
  {
    assert IsRun(s, []) && After(s, []) == s;
  }

  lemma ReachesOn(s: State, s': State, s'': State)
    requires Reaches(s, s') && Reaches(s', s'')
    ensures Reaches(s, s'')
  {
    var a :| IsRun(s, a) && After(s, a) == s';
    var b :| IsRun(s', b) && After(s', b) == s'';
    RunsCompose(s, a, b);
  }

  lemma StepReaches(s: State, step: Step, s': State)
    requires Sized(s) && Enabled(s, step) && Reaches(Next(s, step), s')
    ensures Reaches(s, s')
  {
    var rest :| IsRun(Next(s, step), rest) && After(Next(s, step), rest) == s';
    assert ([step] + rest)[1..] == rest;
    assert IsRun(s, [step] + rest) && After(s, [step] + rest) == s';
  }
}
