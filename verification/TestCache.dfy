/** Opening a test through the cache (assessment.service.ts lines 7676-8193), with the operations that
    drop cached copies (lines 379-400 and 1162-1173) or do not (lines 1400-1438, 1931-1940, 2373-2430 and
    9152-9230). */
module TestCache {
  import opened Pipelines
  import opened Wrappers

  datatype Status = Draft | Published | Revoked

  /** `totalTime` is in minutes, dates in milliseconds; `content` stands for the sections and the owner. */
  datatype Test = Test(
    status: Status, expiresOn: Option<int>, isRandom: bool, isProctored: bool, camera: bool, isInvitation: bool,
    startDate: int, totalTime: real, questions: seq<nat>, classRooms: seq<nat>, content: nat)

  datatype Shown = Shown(question: nat, hasMeta: bool)
  datatype Limit = Limit(attempts: int, offscreen: int)

  /** What a student receives. */
  datatype Doc = Doc(
    test: Test, questions: seq<Shown>, totalTime: real, orgTotalTime: Option<real>, serverTime: int,
    cameraTime: Option<nat>, attendance: Option<Limit>, classRooms: seq<nat>)

  /** One request: the clock, the settings and what other services answer.  `permitted` is the outcome of the
      checks of this student, `picked` the draw of a random test. */
  datatype Request = Request(
    now: int, permitted: bool, endTimeFixed: bool, fraudDetect: bool, intervals: Option<nat>,
    limit: Option<Limit>, picked: seq<nat>, hasMeta: bool)

  datatype Answer = NotFound | NotPermitted | TimeOver | Opened(doc: Doc)

  datatype Key = Key(id: nat, hasMeta: bool)

  datatype State = State(tests: map<nat, Test>, cache: map<Key, Doc>)

  datatype Op =
    | Open(id: nat, req: Request)
    | Update(id: nat, test: Test)
    | Withdraw(id: nat)
    | Import(id: nat, more: seq<nat>)
    | Amend(id: nat, content: nat)
    | Expire(key: Key)

  // ----- What a student should get -----

  function ShowAll(questions: seq<nat>, hasMeta: bool): seq<Shown> {
    Map((q: nat) => Shown(q, hasMeta), questions)
  }

  predicate CanFind(t: Test, now: int) {
    t.status.Published? && (t.expiresOn.None? || t.expiresOn.value > now)
  }

  predicate FixedEnd(t: Test, req: Request) { t.isProctored && req.endTimeFixed }

  /** Minutes until the end that is fixed for everyone. */
  function MinutesLeft(t: Test, now: int): real {
    (t.startDate as real + t.totalTime * 60_000.0 - now as real) / 60_000.0
  }

  function TimeFor(t: Test, req: Request): real {
    if FixedEnd(t, req) then MinutesLeft(t, req.now) else t.totalTime
  }

  function CameraFor(t: Test, req: Request): Option<nat> {
    if t.camera && t.isProctored && req.fraudDetect then req.intervals else None
  }

  /** The document built from the stored test itself. */
  function Direct(t: Test, req: Request): Doc {
    Doc(t, ShowAll(if t.isRandom then req.picked else t.questions, req.hasMeta), TimeFor(t, req),
        if FixedEnd(t, req) then Some(t.totalTime) else None, req.now, CameraFor(t, req), req.limit, t.classRooms)
  }

  function Refusal(s: State, id: nat, req: Request): Option<Answer> {
    if id !in s.tests || !CanFind(s.tests[id], req.now) then Some(NotFound)
    else if !req.permitted then Some(NotPermitted)
    else if FixedEnd(s.tests[id], req) && MinutesLeft(s.tests[id], req.now) <= 0.0 then Some(TimeOver)
    else None
  }

  // ----- The code -----

  /** The copy that a miss stores: full time, nothing of this student but the camera times. */
  function CopyFor(t: Test, req: Request): Doc {
    Direct(t, req).(totalTime := t.totalTime, attendance := None)
  }

  /** What a hit makes of the stored copy. */
  function Adapted(doc: Doc, t: Test, req: Request): Doc {
    doc.(attendance := if req.limit.Some? then req.limit else doc.attendance,
         cameraTime := if t.camera && t.isProctored then CameraFor(t, req) else doc.cameraTime,
         classRooms := if t.isInvitation then t.classRooms else doc.classRooms,
         totalTime := if FixedEnd(t, req) then MinutesLeft(t, req.now) else doc.totalTime)
  }

  function Answered(s: State, id: nat, req: Request): Answer {
    if Refusal(s, id, req).Some? then Refusal(s, id, req).value
    else if Key(id, req.hasMeta) in s.cache then Opened(Adapted(s.cache[Key(id, req.hasMeta)], s.tests[id], req))
    else Opened(Direct(s.tests[id], req))
  }

  function Dropped(s: State, id: nat): State {
    s.(cache := s.cache - {Key(id, false), Key(id, true)})
  }

  function Apply(s: State, op: Op): State {
    match op
    case Open(id, req) =>
      var key := Key(id, req.hasMeta);
      if Refusal(s, id, req).Some? || key in s.cache || s.tests[id].isRandom then s
      else s.(cache := s.cache[key := CopyFor(s.tests[id], req)])
    case Update(id, test) =>
      if id !in s.tests then s
      else
        var saved := s.(tests := s.tests[id := test]);
        if test.status.Published? then Dropped(saved, id) else saved
    case Withdraw(id) =>
      if id !in s.tests then s
      else Dropped(s.(tests := s.tests[id := s.tests[id].(status := Revoked)]), id)
    case Import(id, more) =>
      if id !in s.tests then s
      else s.(tests := s.tests[id := s.tests[id].(questions := s.tests[id].questions + more)])
    case Amend(id, content) =>
      if id !in s.tests then s else s.(tests := s.tests[id := s.tests[id].(content := content)])
    case Expire(key) => s.(cache := s.cache - {key})
  }

  function Run(s: State, ops: seq<Op>): State
    decreases |ops|
  {
    if ops == [] then s else Run(Apply(s, ops[0]), ops[1..])
  }

  // ----- The cached copies are true -----

  /** A copy of the stored test with its original time and without a student's limits. */
  ghost predicate IsCopy(d: Doc, t: Test, hasMeta: bool) {
    && !t.isRandom && d.test == t && d.questions == ShowAll(t.questions, hasMeta) && d.totalTime == t.totalTime
    && d.classRooms == t.classRooms && d.attendance == None && ((t.camera && t.isProctored) || d.cameraTime == None)
  }

  /** A copy may be old while its test is not published: it is dropped when the test is published again. */
  ghost predicate CopiesAreTrue(s: State) {
    forall key | key in s.cache ::
      key.id in s.tests && (s.tests[key.id].status.Published? ==> IsCopy(s.cache[key], s.tests[key.id], key.hasMeta))
  }

  predicate IsCached(s: State, id: nat) {
    Key(id, false) in s.cache || Key(id, true) in s.cache
  }

  /** The operation changes the questions, sections or owner of a published test behind the back of the cache. */
  predicate LeavesOldCopy(s: State, op: Op) {
    && ((op.Import? && op.more != []) || (op.Amend? && op.id in s.tests && op.content != s.tests[op.id].content))
    && op.id in s.tests && s.tests[op.id].status.Published? && IsCached(s, op.id)
  }

  lemma MoreQuestionsShow(q: seq<nat>, more: seq<nat>, hasMeta: bool)
    ensures ShowAll(q + more, hasMeta) == ShowAll(q, hasMeta) <==> more == []
  {
    assert |ShowAll(q + more, hasMeta)| == |q| + |more|;
    if more == [] {
      assert q + more == q;
    }
  }

  lemma ImportKeepsCopiesExactly(s: State, id: nat, more: seq<nat>)
    requires CopiesAreTrue(s)
    ensures CopiesAreTrue(Apply(s, Import(id, more))) <==> !LeavesOldCopy(s, Import(id, more))
  {
    var s' := Apply(s, Import(id, more));
    if id in s.tests {
      MoreQuestionsShow(s.tests[id].questions, more, false);
      MoreQuestionsShow(s.tests[id].questions, more, true);
      if more == [] {
        assert s.tests[id].questions + more == s.tests[id].questions;
        assert s' == s;
      }
      forall key | key in s.cache && key.id == id ensures key == Key(id, false) || key == Key(id, true) {
      }
    }
  }

  lemma AmendKeepsCopiesExactly(s: State, id: nat, content: nat)
    requires CopiesAreTrue(s)
    ensures CopiesAreTrue(Apply(s, Amend(id, content))) <==> !LeavesOldCopy(s, Amend(id, content))
  {
    var s' := Apply(s, Amend(id, content));
    if id in s.tests && content == s.tests[id].content {
      assert s' == s;
    }
    forall key | key in s.cache && key.id == id ensures key == Key(id, false) || key == Key(id, true) {
    }
  }

  /** True copies stay true through every operation, except exactly a change of a published and cached test
      by an import, of its sections, or of its owner. */
  lemma CopiesStayTrueExactly(s: State, op: Op)
    requires CopiesAreTrue(s)
    ensures CopiesAreTrue(Apply(s, op)) <==> !LeavesOldCopy(s, op)
  {
    if op.Import? {
      ImportKeepsCopiesExactly(s, op.id, op.more);
    } else if op.Amend? {
      AmendKeepsCopiesExactly(s, op.id, op.content);
    }
  }

  /** No operation of the run leaves an old copy. */
  ghost predicate NoneLeavesOldCopy(s: State, ops: seq<Op>)
    decreases |ops|
  {
    ops == [] || (!LeavesOldCopy(s, ops[0]) && NoneLeavesOldCopy(Apply(s, ops[0]), ops[1..]))
  }

  lemma {:induction false} CopiesStayTrueOverRuns(s: State, ops: seq<Op>)
    requires CopiesAreTrue(s) && NoneLeavesOldCopy(s, ops)
    ensures CopiesAreTrue(Run(s, ops))
    decreases |ops|
  {
    if ops != [] {
      CopiesStayTrueExactly(s, ops[0]);
      CopiesStayTrueOverRuns(Apply(s, ops[0]), ops[1..]);
    }
  }

  /** Every cached document is a copy of the test it was made from, as that was then. */
  ghost predicate CopiesOfSomeTest(s: State) {
    forall key | key in s.cache :: key.id in s.tests && IsCopy(s.cache[key], s.cache[key].test, key.hasMeta)
  }

  lemma StepKeepsCopies(s: State, op: Op)
    requires CopiesOfSomeTest(s)
    ensures CopiesOfSomeTest(Apply(s, op))
  {
  }

  lemma {:induction false} RunKeepsCopies(s: State, ops: seq<Op>)
    requires CopiesOfSomeTest(s)
    ensures CopiesOfSomeTest(Run(s, ops))
    decreases |ops|
  {
    if ops != [] {
      StepKeepsCopies(s, ops[0]);
      RunKeepsCopies(Apply(s, ops[0]), ops[1..]);
    }
  }

  /** Every copy of a published test was made of the test as it is now stored. */
  predicate MadeOfStoredTests(s: State) {
    forall key | key in s.cache ::
      key.id in s.tests && (s.tests[key.id].status.Published? ==> s.cache[key].test == s.tests[key.id])
  }

  /** After every run from an empty cache, whatever was imported or changed on the way, the copies are true
      exactly if each copy of a published test was made of the test as it is now stored. */
  lemma CopiesAreTrueExactly(tests: map<nat, Test>, ops: seq<Op>)
    ensures var s := Run(State(tests, map[]), ops); CopiesAreTrue(s) <==> MadeOfStoredTests(s)
  {
    RunKeepsCopies(State(tests, map[]), ops);
  }

  /** An import makes a copy old: a published test is opened, and a question added. */
  lemma ImportLeavesOldCopy(t: Test, req: Request, q: nat)
    requires CanFind(t, req.now) && !t.isRandom && !t.isProctored && req.permitted
    ensures var s := Apply(State(map[1 := t], map[]), Open(1, req));
      && CopiesAreTrue(s) && LeavesOldCopy(s, Import(1, [q])) && !CopiesAreTrue(Apply(s, Import(1, [q])))
      && Answered(Apply(s, Import(1, [q])), 1, req) != Answered(WithoutCache(Apply(s, Import(1, [q]))), 1, req)
  {
    var s := Apply(State(map[1 := t], map[]), Open(1, req));
    CopiesStayTrueExactly(State(map[1 := t], map[]), Open(1, req));
    assert Key(1, req.hasMeta) in s.cache;
    CopiesStayTrueExactly(s, Import(1, [q]));
    MoreQuestionsShow(t.questions, [q], req.hasMeta);
  }

  // ----- A hit gives what a miss gives -----

  function WithoutCache(s: State): State { s.(cache := map[]) }

  /** Over every run, a student gets the same refusal, or the same questions, limits and remaining time,
      whether the test is cached or not; only the server time, and the original time when the settings
      changed, may be those of the request that filled the cache. */
  lemma HitGivesWhatMissGives(s0: State, ops: seq<Op>, id: nat, req: Request)
    requires CopiesAreTrue(s0) && NoneLeavesOldCopy(s0, ops)
    ensures var s := Run(s0, ops); var hit, miss := Answered(s, id, req), Answered(WithoutCache(s), id, req);
      && (hit.Opened? <==> miss.Opened?) && (!hit.Opened? ==> hit == miss)
      && (hit.Opened? ==>
            hit.doc.(serverTime := miss.doc.serverTime, orgTotalTime := miss.doc.orgTotalTime) == miss.doc)
  {
    CopiesStayTrueOverRuns(s0, ops);
  }

  /** A hit is the same document exactly if it was filled at this instant and with the same kind of end. */
  lemma HitIsMissExactly(s: State, id: nat, req: Request)
    requires CopiesAreTrue(s) && Refusal(s, id, req).None? && Key(id, req.hasMeta) in s.cache
    ensures var d := s.cache[Key(id, req.hasMeta)];
      Answered(s, id, req) == Answered(WithoutCache(s), id, req) <==>
        d.serverTime == req.now && d.orgTotalTime == Direct(s.tests[id], req).orgTotalTime
  {
    HitGivesWhatMissGives(s, [], id, req);
  }

  lemma OpenedTestIsStoredTest(s: State, id: nat, req: Request)
    requires CopiesAreTrue(s) && Answered(s, id, req).Opened?
    ensures var t, d := s.tests[id], Answered(s, id, req).doc;
      && t.status.Published? && d.test == t && d.attendance == req.limit && d.classRooms == t.classRooms
      && d.cameraTime == (if t.camera && t.isProctored && req.fraudDetect then req.intervals else None)
      && (!t.isRandom ==> forall q <- d.questions :: q.hasMeta == req.hasMeta)
      && (!t.isRandom ==> |d.questions| == |t.questions|)
      && (!t.isRandom ==> forall i | 0 <= i < |t.questions| :: d.questions[i].question == t.questions[i])
      && (FixedEnd(t, req) ==>
            0.0 < d.totalTime
            && req.now as real + d.totalTime * 60_000.0 == t.startDate as real + t.totalTime * 60_000.0)
      && (!FixedEnd(t, req) ==> d.totalTime == t.totalTime)
  {
    HitGivesWhatMissGives(s, [], id, req);
  }

  /** Without a cached copy, the document has the time of this request, the original time where the end is
      fixed, and the questions drawn for a random test. */
  lemma MissIsFresh(s: State, id: nat, req: Request)
    requires Answered(s, id, req).Opened? && Key(id, req.hasMeta) !in s.cache
    ensures var t, d := s.tests[id], Answered(s, id, req).doc;
      && d.serverTime == req.now && d.test == t && d.attendance == req.limit
      && d.orgTotalTime == (if t.isProctored && req.endTimeFixed then Some(t.totalTime) else None)
      && |d.questions| == |if t.isRandom then req.picked else t.questions|
      && forall i | 0 <= i < |d.questions| ::
           d.questions[i] == Shown((if t.isRandom then req.picked else t.questions)[i], req.hasMeta)
  {
  }

  /** Cached or not, a test opens exactly if it is stored, published and not expired, the student is permitted,
      and, with an end fixed for everyone, time is left; each refusal comes exactly in its case. */
  lemma OpensExactly(s: State, id: nat, req: Request)
    ensures var r := Answered(s, id, req);
      var found := id in s.tests && s.tests[id].status.Published?
                   && (s.tests[id].expiresOn.Some? ==> req.now < s.tests[id].expiresOn.value);
      && (r.NotFound? <==> !found)
      && (r.NotPermitted? <==> found && !req.permitted)
      && (found && req.permitted ==>
            var t := s.tests[id];
            var over := t.isProctored && req.endTimeFixed
                        && t.startDate as real + t.totalTime * 60_000.0 <= req.now as real;
            (r.TimeOver? <==> over) && (r.Opened? <==> !over))
  {
  }

  /** What the operations store: a saved test as given, a withdrawn one revoked, the questions of an import
      behind those there are; a published or withdrawn test loses both copies, an expired copy is gone. */
  lemma OperationsStore(s: State, op: Op, id: nat)
    requires id in s.tests
    ensures var s' := Apply(s, op);
      && s'.tests.Keys == s.tests.Keys
      && s'.tests[id] == (
           match op
           case Open(_, _) => s.tests[id]
           case Expire(_) => s.tests[id]
           case Update(i, t) => if i == id then t else s.tests[id]
           case Withdraw(i) => if i == id then s.tests[id].(status := Revoked) else s.tests[id]
           case Import(i, more) =>
             if i == id then s.tests[id].(questions := s.tests[id].questions + more) else s.tests[id]
           case Amend(i, content) => if i == id then s.tests[id].(content := content) else s.tests[id])
      && ((op.Withdraw? || (op.Update? && op.test.status.Published?)) && op.id == id ==> !IsCached(s', id))
      && (forall key | key in s'.cache && key in s.cache :: s'.cache[key] == s.cache[key])
      && (op.Expire? ==> s'.cache.Keys == s.cache.Keys - {op.key})
      && (!op.Open? ==> s'.cache.Keys <= s.cache.Keys)
  {
  }

  // ----- The service -----

  class TestService {
    var tests: map<nat, Test>
    var cache: map<Key, Doc>

    ghost function View(): State
      reads this
    {
      State(tests, cache)
    }

    constructor (tests: map<nat, Test>)
      ensures View() == State(tests, map[])
      ensures CopiesAreTrue(View())
    {
      this.tests, this.cache := tests, map[];
    }

    /** `getAndSetOne`: the cached value, or the given one after storing it. */
    method GetAndSetOne(key: Key, value: Option<Doc>) returns (found: Option<Doc>)
      modifies this`cache
      ensures found == if key in old(cache) then Some(old(cache)[key]) else value
      ensures cache == if key !in old(cache) && value.Some? then old(cache)[key := value.value] else old(cache)
    {
      if key in cache {
        return Some(cache[key]);
      }
      if value.Some? {
        cache := cache[key := value.value];
      }
      return value;
    }

    /** `findOneWithQuestionsAccessMode` */
    method FindOneWithQuestions(id: nat, req: Request) returns (answer: Answer)
      modifies this`cache
      ensures answer == Answered(old(View()), id, req)
      ensures View() == Apply(old(View()), Open(id, req))
      ensures CopiesAreTrue(old(View())) ==> CopiesAreTrue(View())
    {
      if CopiesAreTrue(View()) {
        CopiesStayTrueExactly(View(), Open(id, req));
      }
      if id !in tests || !CanFind(tests[id], req.now) {
        return NotFound;
      }
      if !req.permitted {
        return NotPermitted;
      }
      var t := tests[id];
      var practiceSet := Doc(t, [], t.totalTime, None, req.now, None, None, t.classRooms);
      if t.camera && t.isProctored && req.fraudDetect {
        practiceSet := practiceSet.(cameraTime := req.intervals);
      }
      if t.isProctored && req.endTimeFixed {
        var minutes := MinutesLeft(t, req.now);
        if minutes <= 0.0 {
          return TimeOver;
        }
        practiceSet := practiceSet.(orgTotalTime := Some(t.totalTime), totalTime := minutes);
      }
      var key := Key(id, req.hasMeta);
      var cached := GetAndSetOne(key, None);
      if cached.Some? {
        var doc := cached.value;
        if req.limit.Some? {
          doc := doc.(attendance := req.limit);
        }
        if t.camera && t.isProctored {
          doc := doc.(cameraTime := practiceSet.cameraTime);
        }
        if t.isInvitation {
          doc := doc.(classRooms := practiceSet.classRooms);
        }
        if t.isProctored && req.endTimeFixed {
          doc := doc.(totalTime := practiceSet.totalTime);
        }
        return Opened(doc);
      }
      practiceSet := practiceSet.(questions := ShowAll(if t.isRandom then req.picked else t.questions, req.hasMeta));
      var totalTime := practiceSet.totalTime;
      practiceSet := practiceSet.(totalTime := t.totalTime);
      if !t.isRandom {
        var stored := GetAndSetOne(key, Some(practiceSet));
      }
      practiceSet := practiceSet.(totalTime := totalTime);
      if req.limit.Some? {
        practiceSet := practiceSet.(attendance := req.limit);
      }
      return Opened(practiceSet);
    }

    method Drop(id: nat)
      modifies this`cache
      ensures View() == Dropped(old(View()), id)
    {
      cache := cache - {Key(id, false)};
      cache := cache - {Key(id, true)};
    }

    /** The saving part of `updateAssessment`. */
    method UpdateAssessment(id: nat, test: Test) returns (ok: bool)
      modifies this
      ensures ok == (id in old(tests))
      ensures View() == Apply(old(View()), Update(id, test))
      ensures CopiesAreTrue(old(View())) ==> CopiesAreTrue(View())
    {
      if CopiesAreTrue(View()) {
        CopiesStayTrueExactly(View(), Update(id, test));
      }
      if id !in tests {
        return false;
      }
      tests := tests[id := test];
      if test.status.Published? {
        Drop(id);
      }
      return true;
    }

    method WithDrawn(id: nat) returns (ok: bool)
      modifies this
      ensures ok == (id in old(tests))
      ensures View() == Apply(old(View()), Withdraw(id))
      ensures CopiesAreTrue(old(View())) ==> CopiesAreTrue(View())
    {
      if CopiesAreTrue(View()) {
        CopiesStayTrueExactly(View(), Withdraw(id));
      }
      if id !in tests {
        return false;
      }
      tests := tests[id := tests[id].(status := Revoked)];
      Drop(id);
      return true;
    }
  }
}
