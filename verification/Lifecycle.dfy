/** Attempts from start to hand-in, with the counters of their tests (attempt.service.ts lines 6786-6893,
    7068-7089, 7421-7482 and 7836-7899; AttemptProcessor.ts lines 1072-1150 and 1228-1651). */
module Lifecycle {
  import opened Lists
  import opened Wrappers

  /** Allowance for a slow connection, in milliseconds. */
  const LATE_GRACE: int := 2 * 60_000

  datatype Test = Test(
    author: nat, published: bool, opensOn: Option<int>, expiresOn: Option<int>, attemptAllowed: int,
    invitationOnly: bool, minutes: nat, showFeedback: bool, adaptive: bool, showsSubset: bool,
    questions: seq<nat>, totalJoinedStudent: int, totalAttempt: int)

  /** `score` is set by grading, `late` by the check of the time limit. */
  datatype Attempt = Attempt(
    user: nat, test: nat, createdAt: int, ongoing: bool, isAbandoned: bool, totalQuestions: nat,
    totalTime: nat, score: Option<int>, late: Option<bool>)

  /** A hand-in, with the marks and the time that grading its answers gives. */
  datatype Body = Body(isAbandoned: bool, order: seq<nat>, marks: int, time: nat)

  /** An attempt is named by its index in `attempts`; `drafts` are the submissions not processed yet. */
  datatype State = State(tests: map<nat, Test>, attempts: seq<Attempt>, drafts: map<nat, Body>)

  datatype Op =
    | Start(user: nat, test: nat, now: int, admitted: bool)
    | SubmitToQueue(attempt: nat, body: Body)
    | Work(attempt: nat)
    | Finish(attempt: nat, user: nat, body: Body, now: int)
    | UpdateAbandonStatus(attempt: nat, user: nat, isStaff: bool)

  datatype Refusal =
    | TestNotFound | NotOpen | Expired | OpensLater | UsedAll | NotInvited   // of a start
    | AttemptNotFound | AlreadySubmitted                                      // of a hand-in

  // ----- Counting attempts -----

  function Finished(user: nat, test: nat): Attempt -> int {
    (a: Attempt) => if a.user == user && a.test == test && !a.ongoing && !a.isAbandoned then 1 else 0
  }

  function Unfinished(user: nat, test: nat): Attempt -> int {
    (a: Attempt) => if a.user == user && a.test == test && (a.ongoing || a.isAbandoned) then 1 else 0
  }

  function Counted(test: nat): Attempt -> int {
    (a: Attempt) => if a.test == test && !a.isAbandoned then 1 else 0
  }

  function Students(attempts: seq<Attempt>, test: nat): set<nat> {
    set a | a in attempts && a.test == test :: a.user
  }

  /** These count the student's attempts at the test, those finished and those not. */
  lemma StudentCounts(attempts: seq<Attempt>, user: nat, test: nat)
    ensures SumBy(Finished(user, test), attempts) == |set i | 0 <= i < |attempts| && attempts[i].user == user
        && attempts[i].test == test && !attempts[i].ongoing && !attempts[i].isAbandoned|
    ensures SumBy(Unfinished(user, test), attempts) == |set i | 0 <= i < |attempts| && attempts[i].user == user
        && attempts[i].test == test && (attempts[i].ongoing || attempts[i].isAbandoned)|
  {
    var own := (a: Attempt) => a.user == user && a.test == test;
    var finished := (a: Attempt) => own(a) && !a.ongoing && !a.isAbandoned;
    var unfinished := (a: Attempt) => own(a) && (a.ongoing || a.isAbandoned);
    SumOfPlaces(Finished(user, test), finished, attempts);
    SumOfPlaces(Unfinished(user, test), unfinished, attempts);
    assert Places(finished, attempts) == set i | 0 <= i < |attempts| && attempts[i].user == user
      && attempts[i].test == test && !attempts[i].ongoing && !attempts[i].isAbandoned;
    assert Places(unfinished, attempts) == set i | 0 <= i < |attempts| && attempts[i].user == user
      && attempts[i].test == test && (attempts[i].ongoing || attempts[i].isAbandoned);
  }

  /** This counts the attempts at the test that are not abandoned. */
  lemma TestCounts(attempts: seq<Attempt>, test: nat)
    ensures SumBy(Counted(test), attempts) ==
      |set i | 0 <= i < |attempts| && attempts[i].test == test && !attempts[i].isAbandoned|
  {
    var counted := (a: Attempt) => a.test == test && !a.isAbandoned;
    SumOfPlaces(Counted(test), counted, attempts);
    assert Places(counted, attempts) ==
      set i | 0 <= i < |attempts| && attempts[i].test == test && !attempts[i].isAbandoned;
  }

  // ----- Starting -----

  function WhyNotStart(s: State, user: nat, test: nat, now: int, admitted: bool): Option<Refusal> {
    if test !in s.tests then Some(TestNotFound)
    else
      var t := s.tests[test];
      var taken := SumBy(Finished(user, test), s.attempts);
      if user != t.author && !t.published then Some(NotOpen)
      else if user != t.author && t.expiresOn.Some? && t.expiresOn.value < now then Some(Expired)
      else if user != t.author && t.opensOn.Some? && t.opensOn.value > now then Some(OpensLater)
      else if user != t.author && t.attemptAllowed > 0 && taken >= t.attemptAllowed then Some(UsedAll)
      else if user != t.author && t.invitationOnly && !admitted then Some(NotInvited)
      else None
  }

  predicate HasExpired(t: Test, now: int) { t.expiresOn.Some? && t.expiresOn.value < now }
  predicate OpensAfter(t: Test, now: int) { t.opensOn.Some? && now < t.opensOn.value }

  /** The test may be taken at this time by a student who is admitted, or not. */
  predicate IsOpen(t: Test, now: int, admitted: bool) {
    t.published && !HasExpired(t, now) && !OpensAfter(t, now) && (t.invitationOnly ==> admitted)
  }

  /** The student has handed in as many attempts as the test allows. */
  ghost predicate HasUsedAll(s: State, user: nat, test: nat)
    requires test in s.tests
  {
    s.tests[test].attemptAllowed > 0
    && |set i | 0 <= i < |s.attempts| && s.attempts[i].user == user && s.attempts[i].test == test
                && !s.attempts[i].ongoing && !s.attempts[i].isAbandoned| >= s.tests[test].attemptAllowed
  }

  /** A start is accepted exactly from the author, or at an open test whose allowance is not used up; each
      refusal comes exactly in its case, in this order. */
  lemma StartsExactly(s: State, user: nat, test: nat, now: int, admitted: bool)
    ensures var why := WhyNotStart(s, user, test, now, admitted);
      && (why == Some(TestNotFound) <==> test !in s.tests)
      && (why.None? <==>
            (test in s.tests
             && (s.tests[test].author == user || (IsOpen(s.tests[test], now, admitted) && !HasUsedAll(s, user, test)))))
    ensures var why := WhyNotStart(s, user, test, now, admitted);
      test in s.tests ==>
        var t := s.tests[test];
        var passed := t.author != user && t.published && !HasExpired(t, now) && !OpensAfter(t, now);
        && (why == Some(NotOpen) <==> t.author != user && !t.published)
        && (why == Some(Expired) <==> t.author != user && t.published && HasExpired(t, now))
        && (why == Some(OpensLater) <==> t.author != user && t.published && !HasExpired(t, now) && OpensAfter(t, now))
        && (why == Some(UsedAll) <==> passed && HasUsedAll(s, user, test))
        && (why == Some(NotInvited) <==> passed && !HasUsedAll(s, user, test) && t.invitationOnly && !admitted)
  {
    StudentCounts(s.attempts, user, test);
  }

  function NewAttempt(user: nat, test: nat, now: int): Attempt {
    Attempt(user, test, now, true, true, 0, 0, None, None)
  }

  function Started(s: State, user: nat, test: nat, now: int): State
    requires test in s.tests
  {
    var t := s.tests[test];
    var joined := if user in Students(s.attempts, test) then t else t.(totalJoinedStudent := t.totalJoinedStudent + 1);
    s.(tests := s.tests[test := joined], attempts := s.attempts + [NewAttempt(user, test, now)])
  }

  // ----- Grading -----

  function IsIn(order: seq<nat>): nat -> bool { (q: nat) => q in order }

  /** Only a test that shows a subset lets the client choose the graded questions. */
  function Graded(t: Test, order: seq<nat>): seq<nat> {
    if t.showsSubset && order != [] then Filter(IsIn(order), t.questions) else t.questions
  }

  function GradedAttempt(a: Attempt, t: Test, body: Body): Attempt {
    a.(ongoing := false, totalQuestions := |Graded(t, body.order)|, totalTime := body.time, score := Some(body.marks),
       isAbandoned := (body.isAbandoned || t.showFeedback) && !t.adaptive)
  }

  /** `totalAttempt` becomes the number of the test's attempts that are not abandoned. */
  function Recounted(s: State, test: nat): State
    requires test in s.tests
  {
    s.(tests := s.tests[test := s.tests[test].(totalAttempt := SumBy(Counted(test), s.attempts))])
  }

  function Processed(s: State, i: nat, body: Body): State
    requires i < |s.attempts| && s.attempts[i].test in s.tests
  {
    var test := s.attempts[i].test;
    var a := GradedAttempt(s.attempts[i], s.tests[test], body);
    var graded := s.(attempts := s.attempts[i := a]);
    if a.isAbandoned then graded else Recounted(graded, test)
  }

  function AbandonCleared(s: State, i: nat): State
    requires i < |s.attempts|
  {
    var cleared := s.(attempts := s.attempts[i := s.attempts[i].(isAbandoned := false)]);
    if s.attempts[i].test in s.tests then Recounted(cleared, s.attempts[i].test) else cleared
  }

  // ----- The time limit -----

  function Limited(a: Attempt, limit: nat, now: int): Attempt {
    a.(late := Some(now - a.createdAt > limit + LATE_GRACE),
       totalTime := if a.totalTime > limit then limit else a.totalTime)
  }

  function TimeLimited(s: State, i: nat, now: int): State
    requires i < |s.attempts|
  {
    var limit := if s.attempts[i].test in s.tests then s.tests[s.attempts[i].test].minutes * 60_000 else 0;
    if limit == 0 then s else s.(attempts := s.attempts[i := Limited(s.attempts[i], limit, now)])
  }

  // ----- Handing in -----

  function WhyNotFinish(s: State, i: nat, user: nat): Option<Refusal> {
    if i >= |s.attempts| || s.attempts[i].user != user then Some(AttemptNotFound)
    else if !s.attempts[i].ongoing && s.attempts[i].totalQuestions > 0 then Some(AlreadySubmitted)
    else if s.attempts[i].test !in s.tests then Some(TestNotFound)
    else None
  }

  function HandedIn(s: State, i: nat, body: Body, now: int): State
    requires i < |s.attempts| && s.attempts[i].test in s.tests
  {
    var graded := Processed(s, i, body);
    TimeLimited(if body.isAbandoned then graded else AbandonCleared(graded, i), i, now)
  }

  function Queued(s: State, i: nat, body: Body): State {
    var closed := if i < |s.attempts| then s.(attempts := s.attempts[i := s.attempts[i].(ongoing := false)]) else s;
    closed.(drafts := s.drafts[i := body])
  }

  /** The queue worker grades a draft once; an error leaves the attempt as it was. */
  function Worked(s: State, i: nat): State {
    if i !in s.drafts then s
    else
      var taken := s.(drafts := s.drafts - {i});
      if i < |s.attempts| && s.attempts[i].test in s.tests then Processed(taken, i, s.drafts[i]) else taken
  }

  function MayClear(s: State, i: nat, user: nat, isStaff: bool): bool {
    i < |s.attempts| && (isStaff || s.attempts[i].user == user)
  }

  function Apply(s: State, op: Op): State {
    match op
    case Start(user, test, now, admitted) =>
      if WhyNotStart(s, user, test, now, admitted).Some? then s else Started(s, user, test, now)
    case SubmitToQueue(i, body) => Queued(s, i, body)
    case Work(i) => Worked(s, i)
    case Finish(i, user, body, now) => if WhyNotFinish(s, i, user).Some? then s else HandedIn(s, i, body, now)
    case UpdateAbandonStatus(i, user, isStaff) => if MayClear(s, i, user, isStaff) then AbandonCleared(s, i) else s
  }

  function Run(s: State, ops: seq<Op>): State
    decreases |ops|
  {
    if ops == [] then s else Run(Apply(s, ops[0]), ops[1..])
  }

  // ----- What every operation keeps -----

  /** Nothing moves an attempt to another student or test, or reopens it. */
  ghost predicate Continues(a: Attempt, b: Attempt) {
    && b.user == a.user && b.test == a.test && b.createdAt == a.createdAt
    && (b.ongoing ==> a.ongoing)
    && (a.score.Some? ==> b.score.Some?)
    && (b.score.Some? ==> a.score.Some? || !b.ongoing)
  }

  ghost predicate Grows(s: State, s': State) {
    && |s.attempts| <= |s'.attempts|
    && forall i | 0 <= i < |s.attempts| :: Continues(s.attempts[i], s'.attempts[i])
  }

  /** A test without its two counters. */
  function Settings(t: Test): Test { t.(totalJoinedStudent := 0, totalAttempt := 0) }

  ghost predicate SameSettings(s: State, s': State) {
    s.tests.Keys == s'.tests.Keys && forall t | t in s.tests :: Settings(s.tests[t]) == Settings(s'.tests[t])
  }

  /** Every part of an operation but a start changes at most attempt `i` and the counters of the tests. */
  ghost predicate Touches(s: State, s': State, i: nat) {
    && |s'.attempts| == |s.attempts|
    && (i < |s.attempts| ==> s'.attempts == s.attempts[i := s'.attempts[i]] && Continues(s.attempts[i], s'.attempts[i]))
    && (i >= |s.attempts| ==> s'.attempts == s.attempts)
    && SameSettings(s, s')
    && forall t | t in s.tests :: s'.tests[t].totalJoinedStudent == s.tests[t].totalJoinedStudent
  }

  lemma TouchesCompose(s: State, s': State, s'': State, i: nat)
    requires Touches(s, s', i) && Touches(s', s'', i)
    ensures Touches(s, s'', i)
  {
  }

  lemma ProcessedTouches(s: State, i: nat, body: Body)
    requires i < |s.attempts| && s.attempts[i].test in s.tests
    ensures Touches(s, Processed(s, i, body), i)
  {
  }

  lemma ClearedTouches(s: State, i: nat)
    requires i < |s.attempts|
    ensures Touches(s, AbandonCleared(s, i), i)
  {
  }

  lemma LimitedTouches(s: State, i: nat, now: int)
    requires i < |s.attempts|
    ensures Touches(s, TimeLimited(s, i, now), i)
  {
  }

  lemma HandedInTouches(s: State, i: nat, body: Body, now: int)
    requires i < |s.attempts| && s.attempts[i].test in s.tests
    ensures Touches(s, HandedIn(s, i, body, now), i)
  {
    var graded := Processed(s, i, body);
    ProcessedTouches(s, i, body);
    if !body.isAbandoned {
      ClearedTouches(graded, i);
      TouchesCompose(s, graded, AbandonCleared(graded, i), i);
    }
    var closed := if body.isAbandoned then graded else AbandonCleared(graded, i);
    LimitedTouches(closed, i, now);
    TouchesCompose(s, closed, TimeLimited(closed, i, now), i);
  }

  lemma StepTouches(s: State, op: Op)
    requires !op.Start?
    ensures Touches(s, Apply(s, op), op.attempt)
  {
    match op
    case SubmitToQueue(i, body) =>
    case Work(i) =>
      if i in s.drafts && i < |s.attempts| && s.attempts[i].test in s.tests {
        var taken := s.(drafts := s.drafts - {i});
        assert Touches(s, taken, i);
        ProcessedTouches(taken, i, s.drafts[i]);
        TouchesCompose(s, taken, Apply(s, op), i);
      }
    case Finish(i, user, body, now) =>
      if WhyNotFinish(s, i, user).None? {
        HandedInTouches(s, i, body, now);
      }
    case UpdateAbandonStatus(i, user, isStaff) =>
      if MayClear(s, i, user, isStaff) {
        ClearedTouches(s, i);
      }
  }

  lemma StepGrows(s: State, op: Op)
    ensures Grows(s, Apply(s, op))
  {
    if !op.Start? {
      StepTouches(s, op);
    }
  }

  lemma StepKeepsSettings(s: State, op: Op)
    ensures SameSettings(s, Apply(s, op))
  {
    if !op.Start? {
      StepTouches(s, op);
    }
  }

  /** Over every run, a closed attempt stays closed and a graded one stays graded. */
  lemma {:induction false} OngoingNeverReturns(s: State, ops: seq<Op>)
    ensures Grows(s, Run(s, ops))
    decreases |ops|
  {
    if ops != [] {
      StepGrows(s, ops[0]);
      OngoingNeverReturns(Apply(s, ops[0]), ops[1..]);
    }
  }

  // ----- The number of students -----

  /** Only `i` changes, and neither its student nor its test do. */
  ghost predicate Rewrites(s: seq<Attempt>, s': seq<Attempt>, i: nat) {
    |s'| == |s| && i < |s| && s' == s[i := s'[i]] && s'[i].user == s[i].user && s'[i].test == s[i].test
  }

  lemma RewriteKeepsStudents(s: seq<Attempt>, s': seq<Attempt>, i: nat, test: nat)
    requires Rewrites(s, s', i)
    ensures Students(s', test) == Students(s, test)
  {
    forall u ensures u in Students(s', test) <==> u in Students(s, test) {
      if a :| a in s && a.test == test && a.user == u {
        var j :| 0 <= j < |s| && s[j] == a;
        assert s'[j] in s' && s'[j].test == test && s'[j].user == u;
      }
      if a :| a in s' && a.test == test && a.user == u {
        var j :| 0 <= j < |s'| && s'[j] == a;
        assert s[j] in s && s[j].test == test && s[j].user == u;
      }
    }
  }

  lemma NewStudent(s: seq<Attempt>, a: Attempt, test: nat)
    ensures Students(s + [a], test) == Students(s, test) + if a.test == test then {a.user} else {}
  {
    assert forall b :: b in s + [a] <==> b in s || b == a;
  }

  /** `totalJoinedStudent` is the number of students who have an attempt at the test. */
  ghost predicate JoinedIsTrue(s: State) {
    && TestsAreKnown(s)
    && (forall t | t in s.tests :: s.tests[t].totalJoinedStudent == |Students(s.attempts, t)|)
  }

  lemma StartCountsStudents(s: State, user: nat, test: nat, now: int, t: nat)
    requires JoinedIsTrue(s) && test in s.tests && t in s.tests
    ensures var s' := Started(s, user, test, now);
      t in s'.tests && s'.tests[t].totalJoinedStudent == |Students(s'.attempts, t)|
  {
    NewStudent(s.attempts, NewAttempt(user, test, now), t);
    if user in Students(s.attempts, t) {
      assert Students(s.attempts, t) + {user} == Students(s.attempts, t);
    }
  }

  lemma StartKeepsJoined(s: State, user: nat, test: nat, now: int)
    requires JoinedIsTrue(s) && test in s.tests
    ensures JoinedIsTrue(Started(s, user, test, now))
  {
    var s' := Started(s, user, test, now);
    forall t | t in s'.tests ensures s'.tests[t].totalJoinedStudent == |Students(s'.attempts, t)| {
      StartCountsStudents(s, user, test, now, t);
    }
  }

  lemma RewriteKeepsJoined(s: State, s': State, i: nat)
    requires JoinedIsTrue(s) && Rewrites(s.attempts, s'.attempts, i)
    requires s.tests.Keys == s'.tests.Keys
    requires forall t | t in s.tests :: s'.tests[t].totalJoinedStudent == s.tests[t].totalJoinedStudent
    ensures JoinedIsTrue(s')
  {
    forall t | t in s'.tests ensures s'.tests[t].totalJoinedStudent == |Students(s'.attempts, t)| {
      RewriteKeepsStudents(s.attempts, s'.attempts, i, t);
    }
  }

  lemma StepKeepsJoined(s: State, op: Op)
    requires JoinedIsTrue(s)
    ensures JoinedIsTrue(Apply(s, op))
  {
    if op.Start? {
      if WhyNotStart(s, op.user, op.test, op.now, op.admitted).None? {
        StartKeepsJoined(s, op.user, op.test, op.now);
      }
    } else {
      StepTouches(s, op);
      if op.attempt < |s.attempts| {
        RewriteKeepsJoined(s, Apply(s, op), op.attempt);
      }
    }
  }

  /** Over every run, `totalJoinedStudent` equals the number of distinct students who started. */
  lemma {:induction false} JoinedOverRuns(s: State, ops: seq<Op>)
    requires JoinedIsTrue(s)
    ensures JoinedIsTrue(Run(s, ops))
    decreases |ops|
  {
    if ops != [] {
      StepKeepsJoined(s, ops[0]);
      JoinedOverRuns(Apply(s, ops[0]), ops[1..]);
    }
  }

  // ----- Graded attempts -----

  ghost predicate GradedAreClosed(s: State) {
    forall i | 0 <= i < |s.attempts| :: s.attempts[i].score.Some? ==> !s.attempts[i].ongoing
  }

  lemma TouchingKeepsClosed(s: State, s': State, i: nat)
    requires GradedAreClosed(s) && Touches(s, s', i)
    ensures GradedAreClosed(s')
  {
  }

  lemma StepKeepsClosed(s: State, op: Op)
    requires GradedAreClosed(s)
    ensures GradedAreClosed(Apply(s, op))
  {
    if !op.Start? {
      StepTouches(s, op);
      TouchingKeepsClosed(s, Apply(s, op), op.attempt);
    }
  }

  lemma {:induction false} GradedStayClosed(s: State, ops: seq<Op>)
    requires GradedAreClosed(s)
    ensures GradedAreClosed(Run(s, ops))
    decreases |ops|
  {
    if ops != [] {
      StepKeepsClosed(s, ops[0]);
      GradedStayClosed(Apply(s, ops[0]), ops[1..]);
    }
  }

  ghost predicate TestsAreKnown(s: State) {
    forall i | 0 <= i < |s.attempts| :: s.attempts[i].test in s.tests
  }

  lemma StepKeepsTests(s: State, op: Op)
    requires TestsAreKnown(s)
    ensures TestsAreKnown(Apply(s, op))
  {
    StepKeepsSettings(s, op);
    if !op.Start? {
      StepTouches(s, op);
    }
  }

  lemma {:induction false} TestsStayKnown(s: State, ops: seq<Op>)
    requires TestsAreKnown(s)
    ensures TestsAreKnown(Run(s, ops))
    decreases |ops|
  {
    if ops != [] {
      StepKeepsTests(s, ops[0]);
      TestsStayKnown(Apply(s, ops[0]), ops[1..]);
    }
  }

  /** The state of a new service. */
  function NoAttempts(tests: map<nat, Test>): State { State(tests, [], map[]) }

  /** After every run from a new service, a graded attempt can be handed in again exactly if it was graded
      with no question at all. */
  lemma RegradeExactly(tests: map<nat, Test>, ops: seq<Op>, i: nat)
    requires i < |Run(NoAttempts(tests), ops).attempts| && Run(NoAttempts(tests), ops).attempts[i].score.Some?
    ensures var s := Run(NoAttempts(tests), ops);
      WhyNotFinish(s, i, s.attempts[i].user).None? <==> s.attempts[i].totalQuestions == 0
  {
    GradedStayClosed(NoAttempts(tests), ops);
    TestsStayKnown(NoAttempts(tests), ops);
  }

  /** The operation grades attempt `i` and gives it other marks than it has. */
  predicate Regrades(s: State, op: Op, i: nat)
    requires i < |s.attempts|
  {
    var a := s.attempts[i];
    || (op == Work(i) && i in s.drafts && a.test in s.tests && a.score != Some(s.drafts[i].marks))
    || (op.Finish? && op.attempt == i && WhyNotFinish(s, i, op.user).None? && a.score != Some(op.body.marks))
  }

  lemma HandedInScore(s: State, i: nat, body: Body, now: int)
    requires i < |s.attempts| && s.attempts[i].test in s.tests
    ensures var s' := HandedIn(s, i, body, now); i < |s'.attempts| && s'.attempts[i].score == Some(body.marks)
  {
  }

  /** The score of an attempt changes exactly in these steps. */
  lemma ScoreChangesExactly(s: State, op: Op, i: nat)
    requires i < |s.attempts|
    ensures i < |Apply(s, op).attempts|
    ensures Apply(s, op).attempts[i].score != s.attempts[i].score <==> Regrades(s, op, i)
  {
    StepGrows(s, op);
    if !op.Start? && op.attempt != i {
      StepTouches(s, op);
    } else if op.Finish? && WhyNotFinish(s, i, op.user).None? {
      HandedInScore(s, i, op.body, op.now);
    }
  }

  /** Among the steps, only queue work changes the score of an attempt graded with questions: exactly if its
      draft has other marks. */
  lemma QueueRegradesExactly(s: State, op: Op, i: nat)
    requires GradedAreClosed(s) && TestsAreKnown(s)
    requires i < |s.attempts| && s.attempts[i].score.Some? && s.attempts[i].totalQuestions > 0
    ensures i < |Apply(s, op).attempts|
    ensures Apply(s, op).attempts[i].score != s.attempts[i].score <==>
      op == Work(i) && i in s.drafts && s.drafts[i].marks != s.attempts[i].score.value
  {
    ScoreChangesExactly(s, op, i);
  }

  /** In all states of the run, attempt `i` has this score. */
  ghost predicate HasScore(s: State, ops: seq<Op>, i: nat, score: Option<int>)
    decreases |ops|
  {
    && i < |s.attempts| && s.attempts[i].score == score
    && (ops != [] ==> HasScore(Apply(s, ops[0]), ops[1..], i, score))
  }

  ghost predicate NeverRegraded(s: State, ops: seq<Op>, i: nat)
    decreases |ops|
  {
    && i < |s.attempts|
    && (ops != [] ==> !Regrades(s, ops[0], i) && NeverRegraded(Apply(s, ops[0]), ops[1..], i))
  }

  /** The score of an attempt stays the same throughout a run exactly if no step of the run regrades it. */
  lemma {:induction false} ScoreStaysExactly(s: State, ops: seq<Op>, i: nat)
    requires i < |s.attempts|
    ensures HasScore(s, ops, i, s.attempts[i].score) <==> NeverRegraded(s, ops, i)
    decreases |ops|
  {
    if ops != [] {
      ScoreChangesExactly(s, ops[0], i);
      ScoreStaysExactly(Apply(s, ops[0]), ops[1..], i);
    }
  }

  /** If the operation has a draft of attempt `i` graded, that gives these marks and grades some question. */
  predicate DraftAgrees(s: State, op: Op, i: nat, marks: int) {
    op == Work(i) && i in s.drafts && i < |s.attempts| && s.attempts[i].test in s.tests ==>
      s.drafts[i].marks == marks && Graded(s.tests[s.attempts[i].test], s.drafts[i].order) != []
  }

  ghost predicate QueueAgrees(s: State, ops: seq<Op>, i: nat, marks: int)
    decreases |ops|
  {
    ops != [] ==> DraftAgrees(s, ops[0], i, marks) && QueueAgrees(Apply(s, ops[0]), ops[1..], i, marks)
  }

  lemma StepKeepsQuestions(s: State, op: Op, i: nat)
    requires GradedAreClosed(s) && TestsAreKnown(s)
    requires i < |s.attempts| && s.attempts[i].score.Some? && s.attempts[i].totalQuestions > 0
    requires DraftAgrees(s, op, i, s.attempts[i].score.value)
    ensures var s' := Apply(s, op);
      i < |s'.attempts| && s'.attempts[i].score == s.attempts[i].score && s'.attempts[i].totalQuestions > 0
  {
    QueueRegradesExactly(s, op, i);
    if !op.Start? && op.attempt != i {
      StepTouches(s, op);
    }
  }

  lemma {:induction false} ScoreStaysFrom(s: State, ops: seq<Op>, i: nat)
    requires GradedAreClosed(s) && TestsAreKnown(s)
    requires i < |s.attempts| && s.attempts[i].score.Some? && s.attempts[i].totalQuestions > 0
    requires QueueAgrees(s, ops, i, s.attempts[i].score.value)
    ensures HasScore(s, ops, i, s.attempts[i].score)
    decreases |ops|
  {
    if ops != [] {
      StepKeepsClosed(s, ops[0]);
      StepKeepsTests(s, ops[0]);
      StepKeepsQuestions(s, ops[0], i);
      ScoreStaysFrom(Apply(s, ops[0]), ops[1..], i);
    }
  }

  /** After every run from a new service, an attempt graded with questions keeps its score over every further
      run in which the queue does not grade it otherwise: no hand-in changes it. */
  lemma ScoreStays(tests: map<nat, Test>, past: seq<Op>, ops: seq<Op>, i: nat)
    requires var s := Run(NoAttempts(tests), past);
      && i < |s.attempts| && s.attempts[i].score.Some? && s.attempts[i].totalQuestions > 0
      && QueueAgrees(s, ops, i, s.attempts[i].score.value)
    ensures var s := Run(NoAttempts(tests), past); HasScore(s, ops, i, s.attempts[i].score)
  {
    GradedStayClosed(NoAttempts(tests), past);
    TestsStayKnown(NoAttempts(tests), past);
    ScoreStaysFrom(Run(NoAttempts(tests), past), ops, i);
  }

  // ----- The number of attempts -----

  ghost predicate CountIsTrue(s: State, test: nat) {
    test in s.tests && s.tests[test].totalAttempt == SumBy(Counted(test), s.attempts)
  }

  /** The operation abandons an attempt at `test` that was counted, and does not count again. */
  predicate Uncounts(s: State, op: Op, test: nat) {
    && (op.Work? || op.Finish?)
    && op.attempt < |s.attempts| && s.attempts[op.attempt].test == test && test in s.tests
    && !s.attempts[op.attempt].isAbandoned && !s.tests[test].adaptive
    && (op.Work? ==> op.attempt in s.drafts && (s.drafts[op.attempt].isAbandoned || s.tests[test].showFeedback))
    && (op.Finish? ==> op.body.isAbandoned && WhyNotFinish(s, op.attempt, op.user).None?)
  }

  lemma CountAfter(attempts: seq<Attempt>, i: nat, a: Attempt, test: nat)
    requires i < |attempts|
    ensures SumBy(Counted(test), attempts[i := a]) ==
      SumBy(Counted(test), attempts) - Counted(test)(attempts[i]) + Counted(test)(a)
  {
    SumByUpdate(Counted(test), attempts, i, a);
  }

  lemma ProcessedCount(s: State, i: nat, body: Body, test: nat)
    requires i < |s.attempts| && s.attempts[i].test in s.tests && test in s.tests
    ensures var s', own := Processed(s, i, body), s.attempts[i].test == test;
      && (CountIsTrue(s, test) ==> (CountIsTrue(s', test) <==>
            !(own && !s.attempts[i].isAbandoned && s'.attempts[i].isAbandoned)))
      && (own && !s'.attempts[i].isAbandoned ==> CountIsTrue(s', test))
  {
    CountAfter(s.attempts, i, GradedAttempt(s.attempts[i], s.tests[s.attempts[i].test], body), test);
  }

  lemma ClearedCount(s: State, i: nat, test: nat)
    requires i < |s.attempts| && s.attempts[i].test in s.tests && test in s.tests
    ensures CountIsTrue(s, test) || s.attempts[i].test == test ==> CountIsTrue(AbandonCleared(s, i), test)
    ensures s.attempts[i].test != test ==> (CountIsTrue(AbandonCleared(s, i), test) <==> CountIsTrue(s, test))
  {
    CountAfter(s.attempts, i, s.attempts[i].(isAbandoned := false), test);
  }

  lemma LimitedCount(s: State, i: nat, now: int, test: nat)
    requires i < |s.attempts| && test in s.tests
    ensures CountIsTrue(TimeLimited(s, i, now), test) <==> CountIsTrue(s, test)
  {
    var s' := TimeLimited(s, i, now);
    if s' != s {
      CountAfter(s.attempts, i, s'.attempts[i], test);
    }
  }

  /** After every accepted hand-in that is not an abandonment, `totalAttempt` equals the number of the
      test's attempts that are not abandoned, whatever it was before. */
  lemma HandInCounts(s: State, i: nat, user: nat, body: Body, now: int)
    requires WhyNotFinish(s, i, user).None? && !body.isAbandoned
    ensures CountIsTrue(Apply(s, Finish(i, user, body, now)), s.attempts[i].test)
    ensures var s', test := Apply(s, Finish(i, user, body, now)), s.attempts[i].test;
      test in s'.tests && s'.tests[test].totalAttempt ==
        |set j | 0 <= j < |s'.attempts| && s'.attempts[j].test == test && !s'.attempts[j].isAbandoned|
    ensures !Apply(s, Finish(i, user, body, now)).attempts[i].isAbandoned
  {
    var graded, test := Processed(s, i, body), s.attempts[i].test;
    ClearedCount(graded, i, test);
    LimitedCount(AbandonCleared(graded, i), i, now, test);
    TestCounts(Apply(s, Finish(i, user, body, now)).attempts, test);
  }

  lemma HandInKeepsCount(s: State, i: nat, body: Body, now: int, test: nat)
    requires i < |s.attempts| && s.attempts[i].test in s.tests && CountIsTrue(s, test)
    ensures CountIsTrue(HandedIn(s, i, body, now), test) <==>
      !(body.isAbandoned && s.attempts[i].test == test && !s.attempts[i].isAbandoned && !s.tests[test].adaptive)
  {
    var graded := Processed(s, i, body);
    ProcessedCount(s, i, body, test);
    if body.isAbandoned {
      LimitedCount(graded, i, now, test);
    } else {
      ClearedCount(graded, i, test);
      LimitedCount(AbandonCleared(graded, i), i, now, test);
    }
  }

  /** A true count stays true through every operation, except exactly those that abandon a counted attempt. */
  lemma CountStaysTrueExactly(s: State, op: Op, test: nat)
    requires JoinedIsTrue(s) && CountIsTrue(s, test)
    ensures CountIsTrue(Apply(s, op), test) <==> !Uncounts(s, op, test)
  {
    match op
    case Start(user, t, now, admitted) =>
      SumBySnoc(Counted(test), s.attempts, NewAttempt(user, t, now));
    case SubmitToQueue(i, body) =>
      if i < |s.attempts| {
        CountAfter(s.attempts, i, s.attempts[i].(ongoing := false), test);
      }
    case Work(i) =>
      if i in s.drafts && i < |s.attempts| {
        ProcessedCount(s.(drafts := s.drafts - {i}), i, s.drafts[i], test);
      }
    case Finish(i, user, body, now) =>
      if WhyNotFinish(s, i, user).None? {
        HandInKeepsCount(s, i, body, now, test);
      }
    case UpdateAbandonStatus(i, user, isStaff) =>
      if MayClear(s, i, user, isStaff) {
        ClearedCount(s, i, test);
      }
  }

  // ----- The number of attempts a student may take -----

  function Own(user: nat, test: nat): Attempt -> int {
    (a: Attempt) => if a.user == user && a.test == test then 1 else 0
  }

  lemma {:induction false} OwnAreFinishedOrNot(attempts: seq<Attempt>, user: nat, test: nat)
    ensures SumBy(Own(user, test), attempts) ==
      SumBy(Finished(user, test), attempts) + SumBy(Unfinished(user, test), attempts)
    ensures SumBy(Unfinished(user, test), attempts) >= 0
  {
    if attempts != [] {
      OwnAreFinishedOrNot(attempts[1..], user, test);
    }
  }

  /** Along the run, the student never has more than `m` unfinished attempts at the test. */
  ghost predicate UnfinishedAtMost(s: State, ops: seq<Op>, user: nat, test: nat, m: nat)
    decreases |ops|
  {
    && SumBy(Unfinished(user, test), s.attempts) <= m
    && (ops != [] ==> UnfinishedAtMost(Apply(s, ops[0]), ops[1..], user, test, m))
  }

  lemma StepKeepsAllowance(s: State, op: Op, user: nat, test: nat, m: nat)
    requires IsLimited(s, user, test)
    requires SumBy(Own(user, test), s.attempts) < s.tests[test].attemptAllowed + m
    requires SumBy(Unfinished(user, test), Apply(s, op).attempts) <= m
    ensures SumBy(Own(user, test), Apply(s, op).attempts) < s.tests[test].attemptAllowed + m
  {
    var s' := Apply(s, op);
    OwnAreFinishedOrNot(s.attempts, user, test);
    OwnAreFinishedOrNot(s'.attempts, user, test);
    if op.Start? {
      if s' != s {
        var a := NewAttempt(op.user, op.test, op.now);
        SumBySnoc(Own(user, test), s.attempts, a);
        SumBySnoc(Unfinished(user, test), s.attempts, a);
      }
    } else {
      StepTouches(s, op);
      if op.attempt < |s.attempts| {
        SumByUpdate(Own(user, test), s.attempts, op.attempt, s'.attempts[op.attempt]);
      }
    }
  }

  lemma {:induction false} AllowanceOverRuns(s: State, ops: seq<Op>, user: nat, test: nat, m: nat)
    requires IsLimited(s, user, test)
    requires SumBy(Own(user, test), s.attempts) < s.tests[test].attemptAllowed + m
    requires UnfinishedAtMost(s, ops, user, test, m)
    ensures SumBy(Own(user, test), Run(s, ops).attempts) < s.tests[test].attemptAllowed + m
    decreases |ops|
  {
    if ops != [] {
      StepKeepsAllowance(s, ops[0], user, test, m);
      StepKeepsSettings(s, ops[0]);
      assert Settings(s.tests[test]) == Settings(Apply(s, ops[0]).tests[test]);
      AllowanceOverRuns(Apply(s, ops[0]), ops[1..], user, test, m);
    }
  }

  /** The student starts another attempt at an open test with as many attempts as it allows, some of them
      unfinished. */
  predicate StartsAtLimit(s: State, op: Op, user: nat, test: nat) {
    && op.Start? && op.user == user && op.test == test && test in s.tests && IsOpen(s.tests[test], op.now, op.admitted)
    && SumBy(Own(user, test), s.attempts) == s.tests[test].attemptAllowed
    && SumBy(Unfinished(user, test), s.attempts) > 0
  }

  /** The tests that limit this student. */
  predicate IsLimited(s: State, user: nat, test: nat) {
    test in s.tests && s.tests[test].author != user && s.tests[test].attemptAllowed > 0
  }

  lemma OwnAfter(s: State, op: Op, user: nat, test: nat)
    ensures var started := op.Start? && op.user == user && op.test == test
                           && WhyNotStart(s, user, test, op.now, op.admitted).None?;
      SumBy(Own(user, test), Apply(s, op).attempts) == SumBy(Own(user, test), s.attempts) + if started then 1 else 0
  {
    var s' := Apply(s, op);
    if op.Start? {
      SumBySnoc(Own(user, test), s.attempts, NewAttempt(op.user, op.test, op.now));
    } else {
      StepTouches(s, op);
      if op.attempt < |s.attempts| {
        SumByUpdate(Own(user, test), s.attempts, op.attempt, s'.attempts[op.attempt]);
      }
    }
  }

  /** At the allowed number, exactly those starts pass that are made at an open test by a student who has
      an unfinished attempt. */
  lemma LimitPassesExactly(s: State, user: nat, test: nat, now: int, admitted: bool)
    requires IsLimited(s, user, test) && SumBy(Own(user, test), s.attempts) == s.tests[test].attemptAllowed
    ensures WhyNotStart(s, user, test, now, admitted).None? <==>
      IsOpen(s.tests[test], now, admitted) && SumBy(Unfinished(user, test), s.attempts) > 0
  {
    OwnAreFinishedOrNot(s.attempts, user, test);
  }

  /** A step takes a student beyond the allowance exactly if it starts an attempt at the limit. */
  lemma ExceedsAllowanceExactly(s: State, op: Op, user: nat, test: nat)
    requires IsLimited(s, user, test) && SumBy(Own(user, test), s.attempts) <= s.tests[test].attemptAllowed
    ensures SumBy(Own(user, test), Apply(s, op).attempts) > s.tests[test].attemptAllowed <==>
      StartsAtLimit(s, op, user, test)
  {
    OwnAfter(s, op, user, test);
    if op.Start? && op.user == user && op.test == test
       && SumBy(Own(user, test), s.attempts) == s.tests[test].attemptAllowed {
      LimitPassesExactly(s, user, test, op.now, op.admitted);
    }
  }

  ghost predicate NeverStartsAtLimit(s: State, ops: seq<Op>, user: nat, test: nat)
    decreases |ops|
  {
    ops != [] ==> !StartsAtLimit(s, ops[0], user, test) && NeverStartsAtLimit(Apply(s, ops[0]), ops[1..], user, test)
  }

  lemma {:induction false} OwnNeverFalls(s: State, ops: seq<Op>, user: nat, test: nat)
    ensures SumBy(Own(user, test), Run(s, ops).attempts) >= SumBy(Own(user, test), s.attempts)
    decreases |ops|
  {
    if ops != [] {
      OwnAfter(s, ops[0], user, test);
      OwnNeverFalls(Apply(s, ops[0]), ops[1..], user, test);
    }
  }

  lemma {:induction false} AllowanceFrom(s: State, ops: seq<Op>, user: nat, test: nat, allowed: int)
    requires IsLimited(s, user, test) && s.tests[test].attemptAllowed == allowed
    requires SumBy(Own(user, test), s.attempts) <= allowed
    ensures SumBy(Own(user, test), Run(s, ops).attempts) <= allowed <==> NeverStartsAtLimit(s, ops, user, test)
    decreases |ops|
  {
    if ops != [] {
      var s' := Apply(s, ops[0]);
      ExceedsAllowanceExactly(s, ops[0], user, test);
      StepKeepsSettings(s, ops[0]);
      assert Settings(s.tests[test]) == Settings(s'.tests[test]);
      if StartsAtLimit(s, ops[0], user, test) {
        OwnNeverFalls(s', ops[1..], user, test);
      } else {
        AllowanceFrom(s', ops[1..], user, test, allowed);
      }
    }
  }

  /** Over every run, a student stays within the allowance exactly if no attempt is started at the limit. */
  lemma AllowanceHoldsExactly(s: State, ops: seq<Op>, user: nat, test: nat)
    requires IsLimited(s, user, test) && SumBy(Own(user, test), s.attempts) <= s.tests[test].attemptAllowed
    ensures SumBy(Own(user, test), Run(s, ops).attempts) <= s.tests[test].attemptAllowed <==>
      NeverStartsAtLimit(s, ops, user, test)
  {
    AllowanceFrom(s, ops, user, test, s.tests[test].attemptAllowed);
  }

  // ----- Unfinished attempts can be handed in -----

  lemma {:induction false} SomeUnfinished(attempts: seq<Attempt>, user: nat, test: nat) returns (i: nat)
    requires SumBy(Unfinished(user, test), attempts) > 0
    ensures i < |attempts| && Unfinished(user, test)(attempts[i]) == 1
  {
    if Unfinished(user, test)(attempts[0]) == 1 {
      i := 0;
    } else {
      i := SomeUnfinished(attempts[1..], user, test);
      i := i + 1;
    }
  }

  /** Handing in an open attempt, or clearing the flag of a closed one, finishes it. */
  function FinishingOp(s: State, i: nat): Op
    requires i < |s.attempts|
  {
    var user := s.attempts[i].user;
    if s.attempts[i].ongoing then Finish(i, user, Body(false, [], 0, 0), 0) else UpdateAbandonStatus(i, user, false)
  }

  lemma FinishingFinishes(s: State, i: nat, user: nat, test: nat)
    requires TestsAreKnown(s) && i < |s.attempts| && Unfinished(user, test)(s.attempts[i]) == 1
    ensures var s' := Apply(s, FinishingOp(s, i));
      && SumBy(Finished(user, test), s'.attempts) == SumBy(Finished(user, test), s.attempts) + 1
      && SumBy(Own(user, test), s'.attempts) == SumBy(Own(user, test), s.attempts)
  {
    var op := FinishingOp(s, i);
    OwnAfter(s, op, user, test);
    if s.attempts[i].ongoing {
      FinishAddsOne(s, i, user, op.body, op.now);
    } else {
      SumByUpdate(Finished(user, test), s.attempts, i, s.attempts[i].(isAbandoned := false));
    }
  }

  /** From every state, the student can hand in all attempts started: what was started beyond the allowance
      can also be finished. */
  lemma {:induction false} AllCanBeFinished(s: State, user: nat, test: nat) returns (ops: seq<Op>)
    requires TestsAreKnown(s)
    ensures SumBy(Finished(user, test), Run(s, ops).attempts) == SumBy(Own(user, test), s.attempts)
    decreases SumBy(Unfinished(user, test), s.attempts)
  {
    OwnAreFinishedOrNot(s.attempts, user, test);
    if SumBy(Unfinished(user, test), s.attempts) == 0 {
      ops := [];
    } else {
      var i := SomeUnfinished(s.attempts, user, test);
      var op := FinishingOp(s, i);
      FinishingFinishes(s, i, user, test);
      OwnAreFinishedOrNot(Apply(s, op).attempts, user, test);
      StepKeepsTests(s, op);
      var rest := AllCanBeFinished(Apply(s, op), user, test);
      ops := [op] + rest;
      assert ops[1..] == rest;
    }
  }

  /** A student, not the author, with at most one unfinished attempt at a time never takes more attempts
      than the test allows. */
  lemma OneAtATimeKeepsAllowance(s: State, ops: seq<Op>, user: nat, test: nat)
    requires IsLimited(s, user, test)
    requires SumBy(Own(user, test), s.attempts) == 0 && UnfinishedAtMost(s, ops, user, test, 1)
    ensures SumBy(Finished(user, test), Run(s, ops).attempts) <= SumBy(Own(user, test), Run(s, ops).attempts)
    ensures SumBy(Own(user, test), Run(s, ops).attempts) <= s.tests[test].attemptAllowed
  {
    AllowanceOverRuns(s, ops, user, test, 1);
    OwnAreFinishedOrNot(Run(s, ops).attempts, user, test);
  }

  lemma StartChangesNoCheck(s: State, user: nat, test: nat, now: int, admitted: bool)
    requires WhyNotStart(s, user, test, now, admitted).None?
    ensures var s' := Apply(s, Start(user, test, now, admitted));
      && WhyNotStart(s', user, test, now, admitted).None?
      && SumBy(Finished(user, test), s'.attempts) == SumBy(Finished(user, test), s.attempts)
      && s'.attempts == s.attempts + [NewAttempt(user, test, now)]
      && Settings(s'.tests[test]) == Settings(s.tests[test])
  {
    SumBySnoc(Finished(user, test), s.attempts, NewAttempt(user, test, now));
  }

  lemma FinishAddsOne(s: State, i: nat, user: nat, body: Body, now: int)
    requires WhyNotFinish(s, i, user).None? && s.attempts[i].ongoing && !body.isAbandoned
    ensures var s', test := Apply(s, Finish(i, user, body, now)), s.attempts[i].test;
      && SumBy(Finished(user, test), s'.attempts) == SumBy(Finished(user, test), s.attempts) + 1
      && Touches(s, s', i)
  {
    var s' := Apply(s, Finish(i, user, body, now));
    HandInCounts(s, i, user, body, now);
    HandedInTouches(s, i, body, now);
    HandInIsTimed(s, i, user, body, now);
    SumByUpdate(Finished(user, s.attempts[i].test), s.attempts, i, s'.attempts[i]);
  }

  /** The limit is checked against finished attempts only: whenever a student may take the last attempt,
      starting twice before handing in takes one more than the test allows. */
  lemma TwoAtOnceExceedAllowance(s: State, user: nat, test: nat, now: int, admitted: bool, body: Body)
    requires WhyNotStart(s, user, test, now, admitted).None? && !body.isAbandoned
    requires SumBy(Finished(user, test), s.attempts) == s.tests[test].attemptAllowed - 1
    ensures var n := |s.attempts|; var start := Start(user, test, now, admitted);
      var s2 := Apply(Apply(s, start), start);
      var s4 := Apply(Apply(s2, Finish(n, user, body, now)), Finish(n + 1, user, body, now));
      SumBy(Finished(user, test), s4.attempts) == s.tests[test].attemptAllowed + 1
  {
    var n, start := |s.attempts|, Start(user, test, now, admitted);
    var s1 := Apply(s, start);
    var s2 := Apply(s1, start);
    StartChangesNoCheck(s, user, test, now, admitted);
    StartChangesNoCheck(s1, user, test, now, admitted);
    FinishAddsOne(s2, n, user, body, now);
    FinishAddsOne(Apply(s2, Finish(n, user, body, now)), n + 1, user, body, now);
  }

  // ----- What grading and clearing store -----

  lemma {:induction false} NamedCount(questions: seq<nat>, order: seq<nat>)
    ensures |Filter(IsIn(order), questions)| == |Places(IsIn(order), questions)|
  {
    if questions == [] {
      assert Places(IsIn(order), questions) == {};
    } else {
      var front, q := questions[..|questions| - 1], questions[|questions| - 1];
      assert questions == front + [q];
      NamedCount(front, order);
      FilterSnoc(IsIn(order), front, q);
      PlacesSnoc(IsIn(order), front, q);
    }
  }

  /** How many questions are graded: all, or those the hand-in names if the test shows a subset. */
  lemma GradedCount(t: Test, order: seq<nat>)
    ensures |Graded(t, order)| == if t.showsSubset && order != []
      then |set k | 0 <= k < |t.questions| && t.questions[k] in order| else |t.questions|
  {
    NamedCount(t.questions, order);
    assert Places(IsIn(order), t.questions) == set k | 0 <= k < |t.questions| && t.questions[k] in order;
  }

  /** The test's attempts that are not abandoned. */
  ghost function NotAbandoned(attempts: seq<Attempt>, test: nat): set<int> {
    set i | 0 <= i < |attempts| && attempts[i].test == test && !attempts[i].isAbandoned
  }

  /** Grading closes the attempt and stores the marks, the time and the number of graded questions.  It is
      abandoned if the hand-in is, or the test gives feedback, unless the test is adaptive; if not, the test's
      attempts are counted.  Nothing else changes. */
  lemma ProcessStores(s: State, i: nat, body: Body)
    requires i < |s.attempts| && s.attempts[i].test in s.tests
    ensures var s', test := Processed(s, i, body), s.attempts[i].test;
      var t := s.tests[test];
      && |s'.attempts| == |s.attempts| && s'.drafts == s.drafts
      && (forall j | 0 <= j < |s.attempts| && j != i :: s'.attempts[j] == s.attempts[j])
      && var a := s'.attempts[i];
      && a == s.attempts[i].(ongoing := false, score := Some(body.marks), totalTime := body.time,
                             totalQuestions := a.totalQuestions, isAbandoned := a.isAbandoned)
      && a.totalQuestions == (if t.showsSubset && body.order != []
                              then |set k | 0 <= k < |t.questions| && t.questions[k] in body.order| else |t.questions|)
      && (a.isAbandoned <==> (body.isAbandoned || t.showFeedback) && !t.adaptive)
      && s'.tests == (if a.isAbandoned then s.tests
                      else s.tests[test := t.(totalAttempt := |NotAbandoned(s'.attempts, test)|)])
  {
    var s' := Processed(s, i, body);
    GradedCount(s.tests[s.attempts[i].test], body.order);
    TestCounts(s'.attempts, s.attempts[i].test);
  }

  /** Clearing the flag is left to the student and to staff; it counts the test's attempts. */
  lemma ClearStores(s: State, i: nat, user: nat, isStaff: bool)
    ensures var s' := Apply(s, UpdateAbandonStatus(i, user, isStaff));
      if i < |s.attempts| && (isStaff || s.attempts[i].user == user) then
        var test := s.attempts[i].test;
        && s'.attempts == s.attempts[i := s.attempts[i].(isAbandoned := false)] && s'.drafts == s.drafts
        && s'.tests == (if test in s.tests
                        then s.tests[test := s.tests[test].(totalAttempt := |NotAbandoned(s'.attempts, test)|)]
                        else s.tests)
      else s' == s
  {
    if i < |s.attempts| {
      TestCounts(s.attempts[i := s.attempts[i].(isAbandoned := false)], s.attempts[i].test);
    }
  }

  /** The worker takes a draft out and grades it as any hand-in; without a draft, or for an attempt that is
      not there, it grades nothing. */
  lemma WorkStores(s: State, i: nat)
    ensures var s' := Apply(s, Work(i));
      && s'.drafts.Keys == s.drafts.Keys - {i} && (forall j | j in s'.drafts :: s'.drafts[j] == s.drafts[j])
      && (if i in s.drafts && i < |s.attempts| && s.attempts[i].test in s.tests
          then s'.attempts == Processed(s, i, s.drafts[i]).attempts && s'.tests == Processed(s, i, s.drafts[i]).tests
          else s'.attempts == s.attempts && s'.tests == s.tests)
  {
  }

  /** A hand-in is refused exactly for an attempt that is not the student's, one that was graded with
      questions, or a test that is gone. */
  lemma FinishesExactly(s: State, i: nat, user: nat)
    ensures var why := WhyNotFinish(s, i, user);
      var own := i < |s.attempts| && s.attempts[i].user == user;
      && (why == Some(AttemptNotFound) <==> !own)
      && (why == Some(AlreadySubmitted) <==> own && !s.attempts[i].ongoing && s.attempts[i].totalQuestions > 0)
      && (why == Some(TestNotFound) <==>
            own && (s.attempts[i].ongoing || s.attempts[i].totalQuestions == 0) && s.attempts[i].test !in s.tests)
      && (why.None? <==>
            own && (s.attempts[i].ongoing || s.attempts[i].totalQuestions == 0) && s.attempts[i].test in s.tests)
  {
  }

  // ----- The time limit -----

  /** An accepted hand-in at a test with a limit is marked late exactly beyond limit and grace, and the time
      on record is the reported one, cut off at the limit.  The score is that of the answers, late or not. */
  lemma HandInIsTimed(s: State, i: nat, user: nat, body: Body, now: int)
    requires WhyNotFinish(s, i, user).None?
    ensures var a := Apply(s, Finish(i, user, body, now)).attempts[i];
      var limit := s.tests[s.attempts[i].test].minutes * 60_000;
      && a.score == Some(body.marks) && !a.ongoing
      && a.user == s.attempts[i].user && a.test == s.attempts[i].test && a.createdAt == s.attempts[i].createdAt
      && (a.isAbandoned <==> body.isAbandoned && !s.tests[a.test].adaptive)
      && a.totalQuestions == |Graded(s.tests[a.test], body.order)|
      && (limit > 0 ==> a.late == Some(now - s.attempts[i].createdAt > limit + 120_000))
      && (limit > 0 ==> a.totalTime == if body.time <= limit then body.time else limit)
      && (limit == 0 ==> a.totalTime == body.time && a.late == s.attempts[i].late)
  {
    var graded := Processed(s, i, body);
    ProcessedTouches(s, i, body);
    assert Settings(graded.tests[s.attempts[i].test]) == Settings(s.tests[s.attempts[i].test]);
    if !body.isAbandoned {
      var cleared := AbandonCleared(graded, i);
      ClearedTouches(graded, i);
      assert Settings(cleared.tests[s.attempts[i].test]) == Settings(graded.tests[s.attempts[i].test]);
    }
  }

  // ----- Where the code falls short -----

  /** A test of user 1, open to everybody, that keeps hand-ins in the count. */
  function OpenTest(questions: seq<nat>, showsSubset: bool): Test {
    Test(1, true, None, None, 0, false, 0, false, false, showsSubset, questions, 0, 0)
  }

  function Answered(order: seq<nat>, marks: int): Body { Body(false, order, marks, 0) }

  lemma {:induction false} RunsCompose(s: State, a: seq<Op>, b: seq<Op>)
    ensures Run(s, a + b) == Run(Run(s, a), b)
    decreases |a|
  {
    if a == [] {
      assert a + b == b;
    } else {
      RunsCompose(Apply(s, a[0]), a[1..], b);
      assert (a + b)[1..] == a[1..] + b;
    }
  }

  lemma RunOne(s: State, op: Op)
    ensures Run(s, [op]) == Apply(s, op)
  {
    assert [op][1..] == [];
  }

  lemma OneMoreStep(s: State, ops: seq<Op>, op: Op)
    ensures Run(s, ops + [op]) == Apply(Run(s, ops), op)
  {
    RunsCompose(s, ops, [op]);
    RunOne(Run(s, ops), op);
  }

  /** From a new service with one open test: user 2 has started an attempt. */
  lemma StartedRun(questions: seq<nat>, showsSubset: bool) returns (ops: seq<Op>)
    ensures var s := Run(NoAttempts(map[5 := OpenTest(questions, showsSubset)]), ops);
      && s.attempts == [NewAttempt(2, 5, 0)] && s.drafts == map[] && s.tests.Keys == {5}
      && Settings(s.tests[5]) == Settings(OpenTest(questions, showsSubset))
  {
    ops := [Start(2, 5, 0, true)];
    RunOne(NoAttempts(map[5 := OpenTest(questions, showsSubset)]), ops[0]);
  }

  lemma FirstGraded(s: State, body: Body)
    requires |s.attempts| == 1 && s.attempts[0] == NewAttempt(2, 5, 0) && 5 in s.tests
    requires !s.tests[5].showFeedback && !s.tests[5].adaptive && s.tests[5].minutes == 0 && !body.isAbandoned
    ensures var s' := Apply(s, Finish(0, 2, body, 0));
      && |s'.attempts| == 1 && s'.attempts[0] == GradedAttempt(s.attempts[0], s.tests[5], body)
      && s'.tests.Keys == s.tests.Keys && Settings(s'.tests[5]) == Settings(s.tests[5]) && s'.drafts == s.drafts
  {
    HandedInTouches(s, 0, body, 0);
  }

  /** A true count is left wrong: user 2 starts, has the flag cleared, and then abandons the attempt. */
  lemma AbandonmentUncounts(questions: seq<nat>) returns (ops: seq<Op>, op: Op)
    ensures var s := Run(NoAttempts(map[5 := OpenTest(questions, false)]), ops);
      && JoinedIsTrue(s) && CountIsTrue(s, 5) && Uncounts(s, op, 5) && !CountIsTrue(Apply(s, op), 5)
  {
    var s0 := NoAttempts(map[5 := OpenTest(questions, false)]);
    var start := StartedRun(questions, false);
    var clear := UpdateAbandonStatus(0, 2, false);
    ops, op := start + [clear], Finish(0, 2, Body(true, [], 0, 0), 0);
    var s1 := Run(s0, start);
    OneMoreStep(s0, start, clear);
    assert Students([], 5) == {};
    JoinedOverRuns(s0, start);
    JoinedOverRuns(s0, ops);
    ClearedCount(s1, 0, 5);
    CountStaysTrueExactly(Run(s0, ops), op, 5);
  }

  /** A graded attempt can be handed in again: the first order named no question of a test that shows a
      subset. */
  lemma EmptyOrderRegrades(q: nat) returns (ops: seq<Op>)
    ensures var s := Run(NoAttempts(map[5 := OpenTest([q], true)]), ops);
      |s.attempts| == 1 && s.attempts[0].score.Some? && WhyNotFinish(s, 0, 2).None?
  {
    var s0 := NoAttempts(map[5 := OpenTest([q], true)]);
    var start := StartedRun([q], true);
    var finish := Finish(0, 2, Answered([q + 1], 0), 0);
    ops := start + [finish];
    OneMoreStep(s0, start, finish);
    var t := Run(s0, start).tests[5];
    assert Settings(t).questions == [q] && t.showsSubset;
    FirstGraded(Run(s0, start), Answered([q + 1], 0));
    FilterCons(IsIn([q + 1]), q, []);
    assert [q] + [] == [q] && Graded(t, [q + 1]) == [];
  }

  /** A score is overwritten: after a hand-in with 1 mark, a submission with 2 goes through the queue. */
  lemma QueueOverwrites(q: nat) returns (ops: seq<Op>)
    ensures var s := Run(NoAttempts(map[5 := OpenTest([q], false)]), ops);
      && |s.attempts| == 1 && s.attempts[0].score == Some(1) && s.attempts[0].totalQuestions > 0
      && Apply(s, Work(0)).attempts[0].score == Some(2)
  {
    var s0 := NoAttempts(map[5 := OpenTest([q], false)]);
    var start := StartedRun([q], false);
    var finish, submit := Finish(0, 2, Answered([], 1), 0), SubmitToQueue(0, Answered([], 2));
    var s1 := Run(s0, start);
    assert Settings(s1.tests[5]).questions == [q];
    FirstGraded(s1, Answered([], 1));
    OneMoreStep(s0, start, finish);
    OneMoreStep(s0, start + [finish], submit);
    ops := start + [finish] + [submit];
  }

  // ----- The service -----

  class AttemptService {
    var tests: map<nat, Test>
    var attempts: seq<Attempt>
    var drafts: map<nat, Body>

    ghost function View(): State
      reads this
    {
      State(tests, attempts, drafts)
    }

    constructor (tests: map<nat, Test>)
      ensures View() == NoAttempts(tests)
    {
      this.tests, this.attempts, this.drafts := tests, [], map[];
    }

    /** `start`: the checks are made first; a student is counted once. */
    method Start(user: nat, test: nat, now: int, admitted: bool) returns (refused: Option<Refusal>)
      modifies this
      ensures refused == WhyNotStart(old(View()), user, test, now, admitted)
      ensures View() == Apply(old(View()), Op.Start(user, test, now, admitted))
      ensures refused.None? <==>
        (test in old(tests)
         && (old(tests)[test].author == user
             || (IsOpen(old(tests)[test], now, admitted) && !HasUsedAll(old(View()), user, test))))
      ensures refused.Some? ==> View() == old(View())
      ensures refused.None? ==> attempts == old(attempts) + [Attempt(user, test, now, true, true, 0, 0, None, None)]
      ensures refused.None? ==>
        var joined := if exists a :: a in old(attempts) && a.user == user && a.test == test then 0 else 1;
        tests == old(tests)[test :=
          old(tests)[test].(totalJoinedStudent := old(tests)[test].totalJoinedStudent + joined)]
      ensures drafts == old(drafts)
    {
      StartsExactly(View(), user, test, now, admitted);
      if test !in tests {
        return Some(TestNotFound);
      }
      var t := tests[test];
      var isAuthor := t.author == user;
      if !isAuthor {
        if !t.published {
          return Some(NotOpen);
        }
        if t.expiresOn.Some? && t.expiresOn.value < now {
          return Some(Expired);
        }
        if t.opensOn.Some? && t.opensOn.value > now {
          return Some(OpensLater);
        }
        if t.attemptAllowed > 0 {
          var taken := SumBy(Finished(user, test), attempts);
          if taken >= t.attemptAllowed {
            return Some(UsedAll);
          }
        }
        if t.invitationOnly && !admitted {
          return Some(NotInvited);
        }
      }
      var alreadyAttempted := HasAttempt(user, test);
      if !alreadyAttempted {
        t := t.(totalJoinedStudent := t.totalJoinedStudent + 1);
      }
      tests := tests[test := t];
      attempts := attempts + [NewAttempt(user, test, now)];
      return None;
    }

    method HasAttempt(user: nat, test: nat) returns (found: bool)
      ensures found <==> user in Students(attempts, test)
    {
      found := false;
      for i := 0 to |attempts|
        invariant found <==> exists j | 0 <= j < i :: attempts[j].user == user && attempts[j].test == test
      {
        found := found || (attempts[i].user == user && attempts[i].test == test);
      }
    }

    /** `submitToQueue`: closes the attempt and keeps the body as a draft. */
    method SubmitToQueue(attempt: nat, body: Body)
      modifies this
      ensures View() == Apply(old(View()), Op.SubmitToQueue(attempt, body))
      ensures tests == old(tests) && drafts == old(drafts)[attempt := body]
      ensures attempts == if attempt < |old(attempts)|
        then old(attempts)[attempt := old(attempts)[attempt].(ongoing := false)] else old(attempts)
    {
      if attempt < |attempts| {
        attempts := attempts[attempt := attempts[attempt].(ongoing := false)];
      }
      drafts := drafts[attempt := body];
    }

    /** The queue worker. */
    method Work(attempt: nat)
      modifies this
      ensures View() == Apply(old(View()), Op.Work(attempt))
    {
      if attempt in drafts {
        var body := drafts[attempt];
        drafts := drafts - {attempt};
        if attempt < |attempts| && attempts[attempt].test in tests {
          Process(attempt, body);
        }
      }
    }

    /** `AttemptProcessor.process` */
    method Process(i: nat, body: Body)
      requires i < |attempts| && attempts[i].test in tests
      modifies this
      ensures View() == Processed(old(View()), i, body)
    {
      var test := attempts[i].test;
      var isAbandoned := body.isAbandoned || tests[test].showFeedback;
      if tests[test].adaptive {
        isAbandoned := false;
      }
      attempts := attempts[i := attempts[i].(
        ongoing := false, totalQuestions := |Graded(tests[test], body.order)|, totalTime := body.time,
        score := Some(body.marks), isAbandoned := isAbandoned)];
      if !isAbandoned {
        CountAttempts(test);
      }
    }

    method CountAttempts(test: nat)
      requires test in tests
      modifies this
      ensures View() == Recounted(old(View()), test)
    {
      var count := SumBy(Counted(test), attempts);
      tests := tests[test := tests[test].(totalAttempt := count)];
    }

    /** `updateAbandonStatus` */
    method UpdateAbandonStatus(attempt: nat, user: nat, isStaff: bool) returns (refused: Option<Refusal>)
      modifies this
      ensures View() == Apply(old(View()), Op.UpdateAbandonStatus(attempt, user, isStaff))
      ensures refused == if MayClear(old(View()), attempt, user, isStaff) then None else Some(AttemptNotFound)
    {
      if attempt >= |attempts| || (!isStaff && attempts[attempt].user != user) {
        return Some(AttemptNotFound);
      }
      attempts := attempts[attempt := attempts[attempt].(isAbandoned := false)];
      if attempts[attempt].test in tests {
        CountAttempts(attempts[attempt].test);
      }
      return None;
    }

    /** `applyTimeLimit` */
    method ApplyTimeLimit(i: nat, now: int)
      requires i < |attempts|
      modifies this
      ensures View() == TimeLimited(old(View()), i, now)
    {
      var limit := if attempts[i].test in tests then tests[attempts[i].test].minutes * 60_000 else 0;
      if limit == 0 {
        return;
      }
      var saved := attempts[i];
      saved := saved.(late := Some(now - saved.createdAt > limit + LATE_GRACE));
      if saved.totalTime > limit {
        saved := saved.(totalTime := limit);
      }
      attempts := attempts[i := saved];
    }

    /** `finish`: only the student's own attempt, and a graded one stays graded. */
    method Finish(attempt: nat, user: nat, body: Body, now: int) returns (refused: Option<Refusal>)
      modifies this
      ensures refused == WhyNotFinish(old(View()), attempt, user)
      ensures View() == Apply(old(View()), Op.Finish(attempt, user, body, now))
      ensures refused.None? && !body.isAbandoned ==> CountIsTrue(View(), old(attempts)[attempt].test)
    {
      if attempt >= |attempts| || attempts[attempt].user != user {
        return Some(AttemptNotFound);
      }
      if !attempts[attempt].ongoing && attempts[attempt].totalQuestions > 0 {
        return Some(AlreadySubmitted);
      }
      if attempts[attempt].test !in tests {
        return Some(TestNotFound);
      }
      ghost var was := View();
      Process(attempt, body);
      if !body.isAbandoned {
        var cleared := UpdateAbandonStatus(attempt, user, false);
        HandInCounts(was, attempt, user, body, now);
      }
      ApplyTimeLimit(attempt, now);
      return None;
    }
  }
}
