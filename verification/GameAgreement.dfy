/**
 Do the active records agree on the player in turn once all requests are over?

 The announcement after a hand-over (line 8665) is a separate write.  The new holder may play and
 hand the turn on before it arrives; it then overwrites the newer name.  With two players this
 cannot be seen, and `newGame` admits only one opponent; with three or more it can.
 */
module GameAgreement {
  import opened Game
  import opened GameInvariant

  ghost predicate Quiet(s: State) { forall i | 0 <= i < |s.phases| :: s.phases[i].Idle? }

  /** The holder is active and in turn, and every active record names it. */
  ghost predicate Agreed(s: State, h: nat)
    requires Sized(s)
  {
    && h < |s.attempts| && s.attempts[h].isActive && s.attempts[h].isInTurn
    && forall k | 0 <= k < |s.attempts| && s.attempts[k].isActive :: s.attempts[k].inTurnPlayer == h
  }

  /** A quiet, unevaluated game has a holder that all active records name. */
  ghost predicate QuietlyAgreed(s: State)
    requires Sized(s)
  {
    Quiet(s) && s.evaluations == 0 ==> exists h: nat :: Agreed(s, h)
  }

  // ----- Two players -----

  /** With `h` holding the turn, record `k` is right about it, or about to be told. */
  ghost predicate Names(s: State, h: nat, k: nat)
    requires Sized(s) && h < |s.attempts| && k < |s.attempts|
  {
    && (s.attempts[k].isActive ==> s.attempts[k].inTurnPlayer == h || (k != h && s.phases[k].Telling?))
    && (k == h && InFlight(s.phases[k]) ==> s.phases[k].snapshot.inTurnPlayer == h)
  }

  ghost predicate NamesHolder(s: State)
    requires Sized(s)
  {
    forall h, k | 0 <= h < |s.attempts| && 0 <= k < |s.attempts| && Holds(s, h) :: Names(s, h, k)
  }

  lemma PlayKeepsNames(s: State, i: nat, turn: Turn, h: nat, k: nat)
    requires Inv(s) && NamesHolder(s) && Enabled(s, Play(i, turn))
    requires h < |s.attempts| && k < |s.attempts| && Holds(DoPlay(s, i, turn), h)
    ensures Names(DoPlay(s, i, turn), h, k)
  {
    HolderAlone(s, i);
    assert Names(s, i, i) && Names(s, i, k);
  }

  lemma MarkKeepsNames(s: State, i: nat, l: nat, h: nat, k: nat)
    requires Inv(s) && NamesHolder(s) && Enabled(s, Mark(i, l))
    requires h < |s.attempts| && k < |s.attempts| && Holds(DoMark(s, i, l), h)
    ensures Names(DoMark(s, i, l), h, k)
  {
    HolderAlone(s, i);
    assert Names(s, i, h) && Names(s, i, k);
  }

  lemma PassingKeepsNames(s: State, step: Step, h: nat, k: nat)
    requires Inv(s) && |s.attempts| <= 2 && NamesHolder(s) && Enabled(s, step) && Passing(step)
    requires h < |s.attempts| && k < |s.attempts| && Holds(Next(s, step), h)
    ensures Names(Next(s, step), h, k)
  {
    var i := Actor(step);
    HolderAlone(s, i);
    PassingKeepsPlayer(s, step, h);
    assert PhaseOk(s, i);
    assert Names(s, i, i) && Names(s, i, k);
  }

  /** Among two players an announcement concerns the announcer's own record only. */
  lemma TellIsOwn(s: State, i: nat, l: nat)
    requires Inv(s) && |s.attempts| <= 2 && Enabled(s, Tell(i, l))
    ensures l == i && s.phases[i].pending == {i}
    ensures s.phases[i].next == 1 - i
    ensures DoTell(s, i, l) == Put(s, i, Told(s.attempts[i], s.phases[i].next), i, Idle)
  {
    assert PhaseOk(s, i);
    assert l in Everyone(s) - {s.phases[i].next};
    assert s.phases[i].pending - {l} == {};
  }

  lemma TellKeepsNames(s: State, i: nat, l: nat, h: nat, k: nat)
    requires Inv(s) && |s.attempts| <= 2 && NamesHolder(s) && Enabled(s, Tell(i, l))
    requires h < |s.attempts| && k < |s.attempts| && Holds(DoTell(s, i, l), h)
    ensures Names(DoTell(s, i, l), h, k)
  {
    TellIsOwn(s, i, l);
    TellTouchesNames(s, i, l, h);
    assert Names(s, h, k);
    if k == i && h != i {
      assert !Holds(s, i);
    }
  }

  lemma FindNobodyKeepsNames(s: State, i: nat, h: nat, k: nat)
    requires Inv(s) && NamesHolder(s) && Enabled(s, FindNobody(i))
    requires h < |s.attempts| && k < |s.attempts| && Holds(DoFindNobody(s, i), h)
    ensures Names(DoFindNobody(s, i), h, k)
  {
    HolderAlone(s, i);
    NobodyLeft(s, i);
    assert Names(s, i, i) && Names(s, i, k);
  }

  lemma StepKeepsNames(s: State, step: Step, h: nat, k: nat)
    requires Inv(s) && |s.attempts| <= 2 && NamesHolder(s) && Enabled(s, step)
    requires h < |s.attempts| && k < |s.attempts| && Holds(Next(s, step), h)
    ensures Names(Next(s, step), h, k)
  {
    match step
    case Expire => assert Holds(s, h) && Names(s, h, k);
    case Play(i, turn) => PlayKeepsNames(s, i, turn, h, k);
    case Mark(i, l) => MarkKeepsNames(s, i, l, h, k);
    case Tell(i, l) => TellKeepsNames(s, i, l, h, k);
    case FindNobody(i) => FindNobodyKeepsNames(s, i, h, k);
    case Store(i, l) => StoreHasNoHolder(s, i, l, h);
    case _ => PassingKeepsNames(s, step, h, k);
  }

  lemma {:induction false} RunKeepsNames(s: State, steps: seq<Step>)
    requires Inv(s) && |s.attempts| <= 2 && NamesHolder(s) && IsRun(s, steps)
    ensures NamesHolder(After(s, steps))
    decreases |steps|
  {
    if steps != [] {
      var s' := Next(s, steps[0]);
      forall h, k | 0 <= h < |s.attempts| && 0 <= k < |s.attempts| && Holds(s', h) ensures Names(s', h, k) {
        StepKeepsNames(s, steps[0], h, k);
      }
      StepKeepsInv(s, steps[0]);
      RunKeepsNames(s', steps[1..]);
    }
  }

  /** With at most two players, a quiet, unevaluated game agrees on who is in turn. */
  lemma TwoPlayersAgree(n: nat, requester: nat, steps: seq<Step>)
    requires requester < n <= 2 && IsRun(Initial(n, requester), steps)
    ensures QuietlyAgreed(After(Initial(n, requester), steps))
  {
    var s0 := Initial(n, requester);
    InitialInv(n, requester);
    RunKeepsInv(s0, steps);
    RunKeepsNames(s0, steps);
    var s := After(s0, steps);
    if Quiet(s) && s.evaluations == 0 {
      var h :| 0 <= h < n && Holds(s, h);
      forall k | 0 <= k < n && s.attempts[k].isActive ensures s.attempts[k].inTurnPlayer == h {
        assert Names(s, h, k);
      }
      assert Agreed(s, h);
    }
  }

  // ----- Three players and more -----

  /** The records after `next` has been announced to all of `pending`. */
  function ToldAll(attempts: seq<Attempt>, next: nat, pending: set<nat>): (r: seq<Attempt>)
    ensures |r| == |attempts|
    ensures forall k | 0 <= k < |r| :: r[k] == if k in pending then Told(attempts[k], next) else attempts[k]
  {
    seq(|attempts|, k requires 0 <= k < |attempts| => if k in pending then Told(attempts[k], next) else attempts[k])
  }

  /** Record `k` has been told; the rest of `pending` is still to come. */
  lemma ToldOneByOne(attempts: seq<Attempt>, next: nat, pending: set<nat>, k: nat)
    requires k < |attempts| && k in pending
    ensures ToldAll(attempts[k := Told(attempts[k], next)], next, pending - {k}) == ToldAll(attempts, next, pending)
    ensures pending == {k} ==> attempts[k := Told(attempts[k], next)] == ToldAll(attempts, next, pending)
  {
  }

  /** The state once player `i`'s announcement is through. */
  ghost function Announced(s: State, i: nat): State
    requires Sized(s) && i < |s.attempts| && s.phases[i].Telling?
  {
    s.(attempts := ToldAll(s.attempts, s.phases[i].next, s.phases[i].pending), phases := s.phases[i := Idle])
  }

  lemma TellThenAnnounce(s: State, i: nat, k: nat)
    requires Sized(s) && i < |s.attempts| && s.phases[i].Telling? && s.phases[i].pending <= Everyone(s)
    requires k in s.phases[i].pending && Enabled(s, Tell(i, k))
    ensures var s' := Next(s, Tell(i, k));
      if s.phases[i].pending == {k} then s' == Announced(s, i)
      else s'.phases[i].Telling? && Announced(s', i) == Announced(s, i)
  {
    ToldOneByOne(s.attempts, s.phases[i].next, s.phases[i].pending, k);
  }

  /** A request that is announcing the next player can complete without interruption. */
  lemma {:induction false} Announce(s: State, i: nat)
    requires Sized(s) && i < |s.attempts| && s.phases[i].Telling?
    requires s.phases[i].pending != {} && s.phases[i].pending <= Everyone(s)
    ensures Reaches(s, Announced(s, i))
    decreases |s.phases[i].pending|
  {
    var pending := s.phases[i].pending;
    var k :| k in pending;
    var s' := Next(s, Tell(i, k));
    TellThenAnnounce(s, i, k);
    if pending == {k} {
      Stays(s');
    } else {
      assert pending - {k} != {} && |pending - {k}| == |pending| - 1;
      Announce(s', i);
    }
    StepReaches(s, Tell(i, k), Announced(s, i));
  }

  const WRONG := Turn(0, [], false, 0)

  /** The state once the holder `i` has answered wrongly and handed the turn to `j`; the announcement
      is still due. */
  ghost function HandedOn(s: State, i: nat, j: nat): State
    requires i < |s.attempts| && j < |s.attempts| && |s.phases| == |s.attempts|
  {
    var next := s.attempts[j].(isInTurn := true, inTurnPlayer := j);
    s.(attempts := s.attempts[i := Played(s.attempts[i], WRONG)][j := next],
       phases := s.phases[i := Telling(j, Everyone(s) - {j})])
  }

  lemma PassTurn(s: State, i: nat, j: nat)
    requires Sized(s) && i < |s.attempts| && j < |s.attempts| && i != j
    requires Enabled(s, Play(i, WRONG)) && |s.attempts[i].turns| < 9 && CanReceive(s.attempts[j])
    ensures Reaches(s, HandedOn(s, i, j)) && Sized(HandedOn(s, i, j))
  {
    var s1 := Next(s, Play(i, WRONG));
    var s2 := Next(s1, Choose(i, j));
    var s3 := Next(s2, Hand(i));
    assert i in Everyone(s) - {j};
    assert s2.attempts == s1.attempts;
    assert s3.phases == HandedOn(s, i, j).phases;
    assert s3.attempts == HandedOn(s, i, j).attempts;
    Stays(s3);
    StepReaches(s2, Hand(i), s3);
    StepReaches(s1, Choose(i, j), s3);
    StepReaches(s, Play(i, WRONG), s3);
  }

  /** Player `r` handed the turn to `a`, and `a` to `c`; both announcements are still due. */
  ghost predicate Overtaken(s: State, r: nat, a: nat, c: nat) {
    && Sized(s) && r < |s.attempts| && a < |s.attempts| && c < |s.attempts| && r != a && a != c && r != c
    && s.phases[r] == Telling(a, Everyone(s) - {a}) && s.phases[a] == Telling(c, Everyone(s) - {c})
    && (forall k | 0 <= k < |s.phases| && k != r && k != a :: s.phases[k].Idle?)
    && CanReceive(s.attempts[r]) && CanReceive(s.attempts[a])
    && s.evaluations == 0
  }

  lemma TwoHandOvers(n: nat, r: nat, a: nat, c: nat) returns (s: State)
    requires r < n && a < n && c < n && r != a && a != c && r != c
    ensures Reaches(Initial(n, r), s) && Overtaken(s, r, a, c)
  {
    var s0 := Initial(n, r);
    var s1 := HandedOn(s0, r, a);
    s := HandedOn(s1, a, c);
    PassTurn(s0, r, a);
    PassTurn(s1, a, c);
    ReachesOn(s0, s1, s);
  }

  /** The newer announcement arrives first. */
  lemma NewerArrives(s: State, r: nat, a: nat, c: nat)
    requires Overtaken(s, r, a, c)
    ensures Reaches(s, Announced(s, a))
    ensures var s' := Announced(s, a);
      && Sized(s') && CanReceive(s'.attempts[r]) && CanReceive(s'.attempts[a])
      && s'.phases == s.phases[a := Idle] && s'.evaluations == 0
  {
    assert a in Everyone(s) - {c};
    Announce(s, a);
  }

  /** The older announcement arrives last: `r`'s record names `a`, while `c` is in turn. */
  lemma OlderNameWins(s: State, r: nat, a: nat)
    requires Sized(s) && r < |s.attempts| && a < |s.attempts| && r != a
    requires CanReceive(s.attempts[r]) && CanReceive(s.attempts[a])
    requires s.phases[r] == Telling(a, Everyone(s) - {a})
    ensures Reaches(s, Announced(s, r))
    ensures var s' := Announced(s, r);
      && s'.phases == s.phases[r := Idle] && s'.evaluations == s.evaluations && |s'.attempts| == |s.attempts|
      && s'.attempts[r].isActive && s'.attempts[r].inTurnPlayer == a && !s'.attempts[a].isInTurn
  {
    assert r in Everyone(s) - {a};
    Announce(s, r);
  }

  lemma OneWrongName(s: State, r: nat, a: nat)
    requires Sized(s) && Quiet(s) && s.evaluations == 0 && r < |s.attempts| && a < |s.attempts|
    requires s.attempts[r].isActive && s.attempts[r].inTurnPlayer == a && !s.attempts[a].isInTurn
    ensures !QuietlyAgreed(s)
  {
    forall h: nat ensures !Agreed(s, h) {
    }
  }

  lemma OlderArrives(s: State, r: nat, a: nat)
    requires Sized(s) && r < |s.attempts| && a < |s.attempts| && r != a
    requires CanReceive(s.attempts[r]) && CanReceive(s.attempts[a]) && s.evaluations == 0
    requires s.phases[r] == Telling(a, Everyone(s) - {a})
    requires forall k | 0 <= k < |s.phases| && k != r :: s.phases[k].Idle?
    ensures Reaches(s, Announced(s, r)) && Sized(Announced(s, r)) && !QuietlyAgreed(Announced(s, r))
  {
    OlderNameWins(s, r, a);
    OneWrongName(Announced(s, r), r, a);
  }

  lemma BothArrive(s: State, r: nat, a: nat, c: nat) returns (s': State)
    requires Overtaken(s, r, a, c)
    ensures Reaches(s, s') && Sized(s') && !QuietlyAgreed(s')
  {
    NewerArrives(s, r, a, c);
    var s1 := Announced(s, a);
    OlderArrives(s1, r, a);
    s' := Announced(s1, r);
    ReachesOn(s, s1, s');
  }

  /** With three or more players a late announcement leaves a record naming the wrong player. */
  lemma LateAnnouncement(n: nat, requester: nat) returns (s: State)
    requires 3 <= n && requester < n
    ensures Reaches(Initial(n, requester), s) && Sized(s) && !QuietlyAgreed(s)
  {
    var a: nat := if requester == 0 then 1 else 0;
    var c: nat := if requester <= 1 then 2 else 1;
    var s1 := TwoHandOvers(n, requester, a, c);
    s := BothArrive(s1, requester, a, c);
    ReachesOn(Initial(n, requester), s1, s);
  }

  /** The records agree in every quiet, reachable state, exactly for games of at most two players. */
  lemma AgreementExactlyForTwo(n: nat, requester: nat)
    requires requester < n
    ensures (forall s | Reaches(Initial(n, requester), s) :: Sized(s) && QuietlyAgreed(s)) <==> n <= 2
  {
    var s0 := Initial(n, requester);
    if n <= 2 {
      forall s | Reaches(s0, s) ensures Sized(s) && QuietlyAgreed(s) {
        var steps :| IsRun(s0, steps) && After(s0, steps) == s;
        TwoPlayersAgree(n, requester, steps);
      }
    } else {
      var s := LateAnnouncement(n, requester);
    }
  }
}
