/** The three-stage grouping of `summaryAttemptedStudent` (lines 5967-6118 of the attempt service):
    answers by attempt, attempts by test, tests by student. */
module AttemptSummary {
  import opened Lists
  import opened Pipelines
  import opened AttemptRows

  /** Join, match on the joined records, unwind. */
  function Rows(attempts: seq<Attempt>, details: seq<Detail>, keep: Record -> bool): seq<Row> {
    FlatMap(Unwind(), Filter(keep, FlatMap(RecordsOf(details), attempts)))
  }

  /** The rows of one attempt. */
  function RowsOf(details: seq<Detail>, keep: Record -> bool): Attempt -> seq<Row> {
    Chained(Filtered(keep, RecordsOf(details)), Unwind())
  }

  // ----- The totals -----

  /** Four totals count answers; the others are stored with the attempt. */
  datatype Measure = Questions | Done | Time | TestMark | Missed | Corrects | Mark {
    predicate PerAnswer() { Questions? || Done? || Time? || TestMark? }
  }

  datatype Totals = Totals(questions: int, done: int, time: int, testMark: int, missed: int, corrects: int, mark: int) {
    function Get(m: Measure): int {
      match m
      case Questions => questions
      case Done => done
      case Time => time
      case TestMark => testMark
      case Missed => missed
      case Corrects => corrects
      case Mark => mark
    }
  }

  /** What one answer adds to a total of answers. */
  function OfAnswer(m: Measure): Row -> int {
    (r: Row) =>
      match m
      case Questions => 1
      case Done => if r.answer.status == MISSED then 0 else 1
      case Time => r.answer.time
      case TestMark => r.answer.marks
      case _ => 0
  }

  /** What one attempt adds to a total of attempts. */
  function OfAttempt(m: Measure): Attempt -> int {
    (a: Attempt) =>
      match m
      case Missed => a.missed
      case Corrects => a.corrects
      case Mark => a.mark
      case _ => 0
  }

  function SumTotals<T>(get: Measure -> T -> int, s: seq<T>): Totals {
    Totals(SumBy(get(Questions), s), SumBy(get(Done), s), SumBy(get(Time), s), SumBy(get(TestMark), s),
           SumBy(get(Missed), s), SumBy(get(Corrects), s), SumBy(get(Mark), s))
  }

  // ----- The three stages -----

  datatype TestKey = TestKey(user: nat, test: nat, abandoned: bool)
  datatype UserKey = UserKey(user: nat, abandoned: bool)

  datatype AttemptLine = AttemptLine(key: TestKey, totals: Totals)
  datatype TestLine = TestLine(key: TestKey, totals: Totals, attempts: int)
  datatype UserLine = UserLine(key: UserKey, totals: Totals, attempts: int, tests: int)

  function TestOf(): AttemptLine -> TestKey { (l: AttemptLine) => l.key }
  function UserOf(): TestLine -> UserKey { (l: TestLine) => UserKey(l.key.user, l.key.abandoned) }

  function OfAttemptLine(): Measure -> AttemptLine -> int { (m: Measure) => (l: AttemptLine) => l.totals.Get(m) }
  function OfTestLine(): Measure -> TestLine -> int { (m: Measure) => (l: TestLine) => l.totals.Get(m) }

  function KeyOf(a: Attempt): TestKey { TestKey(a.user, a.test, a.abandoned) }

  /** The first stage: answers are added up; what the attempt stores comes from the first row. */
  function ToAttemptLine(): Group<nat, Row> -> AttemptLine {
    (g: Group<nat, Row>) =>
      var first := if g.rows == [] then Attempt(g.key, 0, 0, false, false, 0, 0, 0) else g.rows[0].attempt;
      AttemptLine(KeyOf(first),
        Totals(SumBy(OfAnswer(Questions), g.rows), SumBy(OfAnswer(Done), g.rows), SumBy(OfAnswer(Time), g.rows),
               SumBy(OfAnswer(TestMark), g.rows), first.missed, first.corrects, first.mark))
  }

  function ToTestLine(): Group<TestKey, AttemptLine> -> TestLine {
    (g: Group<TestKey, AttemptLine>) => TestLine(g.key, SumTotals(OfAttemptLine(), g.rows), SumBy(One(), g.rows))
  }

  function Attempts(): TestLine -> int { (l: TestLine) => l.attempts }

  function ToUserLine(): Group<UserKey, TestLine> -> UserLine {
    (g: Group<UserKey, TestLine>) =>
      UserLine(g.key, SumTotals(OfTestLine(), g.rows), SumBy(Attempts(), g.rows), SumBy(One(), g.rows))
  }

  function AttemptLines(rows: seq<Row>): seq<AttemptLine> { Map(ToAttemptLine(), GroupBy(AttemptId(), rows)) }
  function TestLines(lines: seq<AttemptLine>): seq<TestLine> { Map(ToTestLine(), GroupBy(TestOf(), lines)) }
  function UserLines(lines: seq<TestLine>): seq<UserLine> { Map(ToUserLine(), GroupBy(UserOf(), lines)) }

  /** `$sort` by student, and then abandoned last. */
  function ById(): (UserLine, UserLine) -> bool {
    (a: UserLine, b: UserLine) =>
      a.key.user < b.key.user || (a.key.user == b.key.user && (b.key.abandoned || !a.key.abandoned))
  }

  function Summary(attempts: seq<Attempt>, details: seq<Detail>, keep: Record -> bool): seq<UserLine> {
    Sort(ById(), UserLines(TestLines(AttemptLines(Rows(attempts, details, keep)))))
  }

  // ----- What each line adds up -----

  /** The attempts that have any rows. */
  function Answered(attempts: seq<Attempt>, details: seq<Detail>, keep: Record -> bool): seq<Attempt> {
    Filter(HasRows(RowsOf(details, keep)), attempts)
  }

  function Belongs(k: UserKey): Attempt -> bool {
    (a: Attempt) => UserKey(a.user, a.abandoned) == k
  }

  function KeyBelongs(k: UserKey): TestKey -> bool {
    (t: TestKey) => UserKey(t.user, t.abandoned) == k
  }

  lemma RowsByAttempt(attempts: seq<Attempt>, details: seq<Detail>, keep: Record -> bool)
    ensures Rows(attempts, details, keep) == FlatMap(RowsOf(details, keep), attempts)
  {
    var f := RecordsOf(details);
    FilterFlatMap(keep, f, attempts);
    FlatMapFlatMap(Filtered(keep, f), Unwind(), attempts);
  }

  lemma RowsCarryAttempt(a: Attempt, details: seq<Detail>, keep: Record -> bool, r: Row)
    requires r in RowsOf(details, keep)(a)
    ensures r.attempt == a
  {
    FilterElements(keep, RecordsOf(details)(a));
    RecordsCarryAttempt(a, details);
    RowCarriesAttempt(a, Filter(keep, RecordsOf(details)(a)), r);
  }

  function LineOf(details: seq<Detail>, keep: Record -> bool): Attempt -> AttemptLine {
    (a: Attempt) => ToAttemptLine()(Group(a.id, RowsOf(details, keep)(a)))
  }

  /** The first stage makes one line of every attempt that has rows. */
  lemma AttemptLinesAreAttempts(attempts: seq<Attempt>, details: seq<Detail>, keep: Record -> bool)
    requires UniqueIds(attempts)
    ensures AttemptLines(Rows(attempts, details, keep)) == Map(LineOf(details, keep), Answered(attempts, details, keep))
  {
    var f, id := RowsOf(details, keep), (a: Attempt) => a.id;
    RowsByAttempt(attempts, details, keep);
    forall a, r | a in attempts && r in f(a) ensures AttemptId()(r) == id(a) {
      RowsCarryAttempt(a, details, keep, r);
    }
    GroupingUndoesFlatMap(id, AttemptId(), f, attempts);
  }

  /** What an attempt adds to each total. */
  function Value(details: seq<Detail>, keep: Record -> bool, m: Measure): Attempt -> int {
    (a: Attempt) => if m.PerAnswer() then SumBy(OfAnswer(m), RowsOf(details, keep)(a)) else OfAttempt(m)(a)
  }

  lemma LineOfAnswered(a: Attempt, details: seq<Detail>, keep: Record -> bool, m: Measure)
    requires HasRows(RowsOf(details, keep))(a)
    ensures LineOf(details, keep)(a).key == KeyOf(a)
    ensures LineOf(details, keep)(a).totals.Get(m) == Value(details, keep, m)(a)
  {
    var rows := RowsOf(details, keep)(a);
    RowsCarryAttempt(a, details, keep, rows[0]);
  }

  /** A sum over the attempt lines of one student is the sum over that student's attempts. */
  lemma {:induction false} SumOfLines(answered: seq<Attempt>, details: seq<Detail>, keep: Record -> bool,
                                      m: Measure, k: UserKey)
    requires forall a <- answered :: HasRows(RowsOf(details, keep))(a)
    ensures var lines := Map(LineOf(details, keep), answered);
      SumBy(OfAttemptLine()(m), Filter(RowPasses(TestOf(), KeyBelongs(k)), lines)) ==
        SumBy(Value(details, keep, m), Filter(Belongs(k), answered))
  {
    if answered != [] {
      var line := LineOf(details, keep);
      SumOfLines(answered[1..], details, keep, m, k);
      LineOfAnswered(answered[0], details, keep, m);
      MapCons(line, answered);
      FilterCons(RowPasses(TestOf(), KeyBelongs(k)), line(answered[0]), Map(line, answered[1..]));
    }
  }

  lemma SumTotalsGet<T>(get: Measure -> T -> int, s: seq<T>, m: Measure)
    ensures SumTotals(get, s).Get(m) == SumBy(get(m), s)
  {
  }

  /** A quantity that each test line adds up over its attempts adds up over all attempts of the student. */
  lemma TestLinesConserve(lines: seq<AttemptLine>, v: AttemptLine -> int, w: TestLine -> int, k: UserKey)
    requires forall g: Group<TestKey, AttemptLine> :: w(ToTestLine()(g)) == SumBy(v, g.rows)
    ensures SumBy(w, Filter(HasKey(UserOf(), k), TestLines(lines))) ==
      SumBy(v, Filter(RowPasses(TestOf(), KeyBelongs(k)), lines))
  {
    var groups := GroupBy(TestOf(), lines);
    FilterMap(ToTestLine(), HasKey(UserOf(), k), groups);
    FilterSame(Composed(ToTestLine(), HasKey(UserOf(), k)), KeyPasses(KeyBelongs(k)), groups);
    var mine := Filter(KeyPasses<AttemptLine, TestKey>(KeyBelongs(k)), groups);
    SumByMap(ToTestLine(), w, mine);
    SumBySame(Composed(ToTestLine(), w), RowsSum(v), mine);
    GroupingConservesSums(TestOf(), v, lines, KeyBelongs(k));
  }

  lemma TestLineTotals(m: Measure)
    ensures forall g: Group<TestKey, AttemptLine> ::
      OfTestLine()(m)(ToTestLine()(g)) == SumBy(OfAttemptLine()(m), g.rows)
  {
    forall g: Group<TestKey, AttemptLine>
      ensures OfTestLine()(m)(ToTestLine()(g)) == SumBy(OfAttemptLine()(m), g.rows)
    {
      SumTotalsGet(OfAttemptLine(), g.rows, m);
    }
  }

  /** The line of student `k`, before sorting. */
  function LineFor(lines: seq<TestLine>, k: UserKey): UserLine {
    ToUserLine()(Group(k, Filter(HasKey(UserOf(), k), lines)))
  }

  lemma UserLineIsLineFor(lines: seq<TestLine>, l: UserLine)
    requires l in UserLines(lines)
    ensures l == LineFor(lines, l.key) && l.key in Keys(UserOf(), lines)
  {
    var i :| 0 <= i < |UserLines(lines)| && UserLines(lines)[i] == l;
    GroupsAreAsMany(UserOf(), lines, Keys(UserOf(), lines));
    GroupsForAt(UserOf(), lines, Keys(UserOf(), lines), i);
  }

  /** The totals and the number of attempts of a student's line. */
  lemma LineTotals(attempts: seq<Attempt>, details: seq<Detail>, keep: Record -> bool, k: UserKey, m: Measure)
    requires UniqueIds(attempts)
    ensures var lines := TestLines(AttemptLines(Rows(attempts, details, keep)));
      LineFor(lines, k).totals.Get(m) ==
        SumBy(Value(details, keep, m), Filter(Belongs(k), Answered(attempts, details, keep)))
  {
    var first := AttemptLines(Rows(attempts, details, keep));
    var answered := Answered(attempts, details, keep);
    AttemptLinesAreAttempts(attempts, details, keep);
    FilterElements(HasRows(RowsOf(details, keep)), attempts);
    TestLineTotals(m);
    TestLinesConserve(first, OfAttemptLine()(m), OfTestLine()(m), k);
    SumOfLines(answered, details, keep, m, k);
    SumTotalsGet(OfTestLine(), Filter(HasKey(UserOf(), k), TestLines(first)), m);
  }

  lemma {:induction false} CountOfLines(answered: seq<Attempt>, details: seq<Detail>, keep: Record -> bool, k: UserKey)
    requires forall a <- answered :: HasRows(RowsOf(details, keep))(a)
    ensures var lines := Map(LineOf(details, keep), answered);
      SumBy(One<AttemptLine>(), Filter(RowPasses(TestOf(), KeyBelongs(k)), lines)) == |Filter(Belongs(k), answered)|
  {
    if answered != [] {
      var line := LineOf(details, keep);
      CountOfLines(answered[1..], details, keep, k);
      LineOfAnswered(answered[0], details, keep, Questions);
      MapCons(line, answered);
      FilterCons(RowPasses(TestOf(), KeyBelongs(k)), line(answered[0]), Map(line, answered[1..]));
    }
  }

  lemma LineAttempts(attempts: seq<Attempt>, details: seq<Detail>, keep: Record -> bool, k: UserKey)
    requires UniqueIds(attempts)
    ensures var lines := TestLines(AttemptLines(Rows(attempts, details, keep)));
      LineFor(lines, k).attempts == |Filter(Belongs(k), Answered(attempts, details, keep))|
  {
    var first := AttemptLines(Rows(attempts, details, keep));
    AttemptLinesAreAttempts(attempts, details, keep);
    FilterElements(HasRows(RowsOf(details, keep)), attempts);
    assert forall g: Group<TestKey, AttemptLine> :: Attempts()(ToTestLine()(g)) == SumBy(One<AttemptLine>(), g.rows);
    TestLinesConserve(first, One<AttemptLine>(), Attempts(), k);
    CountOfLines(Answered(attempts, details, keep), details, keep, k);
  }

  // ----- The number of tests -----

  lemma {:induction false} GroupKeys<R, K>(key: R -> K, rows: seq<R>, keys: seq<K>, p: K -> bool)
    ensures |Filter(KeyPasses<R, K>(p), GroupsFor(key, rows, keys))| == |Filter(p, keys)|
  {
    if keys != [] {
      GroupKeys(key, rows, keys[1..], p);
      var first := Group(keys[0], Filter(HasKey(key, keys[0]), rows));
      FilterCons(KeyPasses<R, K>(p), first, GroupsFor(key, rows, keys[1..]));
    }
  }

  function TestIn(): TestKey -> nat { (t: TestKey) => t.test }

  lemma TestsDiffer(keys: seq<TestKey>, k: UserKey)
    requires Distinct(keys)
    ensures Distinct(Map(TestIn(), Filter(KeyBelongs(k), keys)))
  {
    var mine := Filter(KeyBelongs(k), keys);
    FilterDistinct(KeyBelongs(k), keys);
    FilterElements(KeyBelongs(k), keys);
    forall i, j | 0 <= i < j < |mine| ensures mine[i].test != mine[j].test {
      assert KeyBelongs(k)(mine[i]) && KeyBelongs(k)(mine[j]);
    }
  }

  /** The test keys of student `k` differ in their tests. */
  lemma TestsOfKeys(keys: seq<TestKey>, k: UserKey)
    requires Distinct(keys)
    ensures var mine := Filter(KeyBelongs(k), keys);
      |mine| == |set t | t in mine :: t.test|
  {
    var mine := Filter(KeyBelongs(k), keys);
    var tests := Map(TestIn(), mine);
    TestsDiffer(keys, k);
    DistinctCardinality(tests);
    forall x ensures x in tests <==> exists t :: t in mine && t.test == x {
      MapElement(TestIn(), mine, x);
    }
    assert (set t | t in mine :: t.test) == SetOf(tests);
  }

  lemma TestCount(lines: seq<AttemptLine>, k: UserKey)
    ensures SumBy(One<TestLine>(), Filter(HasKey(UserOf(), k), TestLines(lines))) ==
      |set t | t in Filter(KeyBelongs(k), Keys(TestOf(), lines)) :: t.test|
  {
    var groups, keys := GroupBy(TestOf(), lines), Keys(TestOf(), lines);
    SumOfOnes(Filter(HasKey(UserOf(), k), TestLines(lines)));
    FilterMap(ToTestLine(), HasKey(UserOf(), k), groups);
    FilterSame(Composed(ToTestLine(), HasKey(UserOf(), k)), KeyPasses(KeyBelongs(k)), groups);
    GroupKeys(TestOf(), lines, keys, KeyBelongs(k));
    KeysAreDistinct(TestOf(), lines);
    TestsOfKeys(keys, k);
  }

  lemma KeysOfLines(answered: seq<Attempt>, details: seq<Detail>, keep: Record -> bool, t: TestKey)
    requires forall a <- answered :: HasRows(RowsOf(details, keep))(a)
    ensures t in Keys(TestOf(), Map(LineOf(details, keep), answered)) <==> exists a :: a in answered && KeyOf(a) == t
  {
    var line := LineOf(details, keep);
    forall a | a in answered ensures line(a).key == KeyOf(a) {
      LineOfAnswered(a, details, keep, Questions);
    }
    KeysOccur(TestOf(), Map(line, answered), t);
    if a :| a in answered && KeyOf(a) == t {
      MapElement(line, answered, line(a));
      assert TestOf()(line(a)) == t;
    }
    if l :| l in Map(line, answered) && TestOf()(l) == t {
      MapElement(line, answered, l);
    }
  }

  lemma KeysOfAttempts(attempts: seq<Attempt>, details: seq<Detail>, keep: Record -> bool, t: TestKey)
    requires UniqueIds(attempts)
    ensures t in Keys(TestOf(), AttemptLines(Rows(attempts, details, keep))) <==>
      exists a :: a in Answered(attempts, details, keep) && KeyOf(a) == t
  {
    AttemptLinesAreAttempts(attempts, details, keep);
    FilterElements(HasRows(RowsOf(details, keep)), attempts);
    KeysOfLines(Answered(attempts, details, keep), details, keep, t);
  }

  lemma LineTests(attempts: seq<Attempt>, details: seq<Detail>, keep: Record -> bool, k: UserKey)
    requires UniqueIds(attempts)
    ensures var lines := TestLines(AttemptLines(Rows(attempts, details, keep)));
      LineFor(lines, k).tests == |set a | a in Answered(attempts, details, keep) && Belongs(k)(a) :: a.test|
  {
    var answered, first := Answered(attempts, details, keep), AttemptLines(Rows(attempts, details, keep));
    var keys := Keys(TestOf(), first);
    TestCount(first, k);
    var s, t := set t | t in Filter(KeyBelongs(k), keys) :: t.test, set a | a in answered && Belongs(k)(a) :: a.test;
    forall x ensures x in s <==> x in t {
      if x in s {
        var key :| key in Filter(KeyBelongs(k), keys) && key.test == x;
        FilterElement(KeyBelongs(k), keys, key);
        KeysOfAttempts(attempts, details, keep, key);
        var a :| a in answered && KeyOf(a) == key;
        assert Belongs(k)(a);
      }
      if x in t {
        var a :| a in answered && Belongs(k)(a) && a.test == x;
        KeysOfAttempts(attempts, details, keep, KeyOf(a));
        FilterElement(KeyBelongs(k), keys, KeyOf(a));
      }
    }
    assert s == t;
  }

  // ----- The summary -----

  lemma SummaryLines(lines: seq<TestLine>, l: UserLine)
    ensures l in Sort(ById(), UserLines(lines)) <==> l in UserLines(lines)
  {
    SortElements(ById(), UserLines(lines));
    SameElements(Sort(ById(), UserLines(lines)), UserLines(lines));
  }

  /** The sum of `w` over the student's attempts with this flag. */
  function StudentSum(attempts: seq<Attempt>, k: UserKey, w: Attempt -> int): int {
    SumBy((a: Attempt) => if a.user == k.user && a.abandoned == k.abandoned then w(a) else 0, attempts)
  }

  /** The sum of `v` over the answers of an attempt. */
  function AnswersOf(details: seq<Detail>, keep: Record -> bool, v: Answer -> int): Attempt -> int {
    (a: Attempt) => AnswerSum(a, details, keep, AnyAnswer(), v)
  }

  lemma RowsArePicked(a: Attempt, details: seq<Detail>, keep: Record -> bool)
    ensures RowsOf(details, keep)(a) == Picked(a, details, keep, AnyAnswer())
  {
    FilterAll(OnRow(AnyAnswer()), RowsOf(details, keep)(a));
  }

  lemma ValueIsAnswers(a: Attempt, details: seq<Detail>, keep: Record -> bool, m: Measure, v: Answer -> int)
    requires m.PerAnswer() && forall r: Row :: OfAnswer(m)(r) == v(r.answer)
    ensures Value(details, keep, m)(a) == AnswersOf(details, keep, v)(a)
    ensures !HasRows(RowsOf(details, keep))(a) ==> AnswersOf(details, keep, v)(a) == 0
  {
    RowsArePicked(a, details, keep);
    SumBySame(OfAnswer(m), OfRow(v), RowsOf(details, keep)(a));
    PickedSum(a, details, keep, AnyAnswer(), v);
  }

  /** A sum over the student's attempts that have rows, as one over all attempts. */
  lemma SumOverStudent(attempts: seq<Attempt>, details: seq<Detail>, keep: Record -> bool, k: UserKey,
                       v: Attempt -> int, w: Attempt -> int)
    requires forall a <- attempts :: w(a) == if HasRows(RowsOf(details, keep))(a) then v(a) else 0
    ensures SumBy(v, Filter(Belongs(k), Answered(attempts, details, keep))) == StudentSum(attempts, k, w)
  {
    var mine := (a: Attempt) => if a.user == k.user && a.abandoned == k.abandoned then v(a) else 0;
    var all := (a: Attempt) => if a.user == k.user && a.abandoned == k.abandoned then w(a) else 0;
    SumOfFiltered(v, Belongs(k), mine, Answered(attempts, details, keep));
    SumOfFiltered(mine, HasRows(RowsOf(details, keep)), all, attempts);
    SumBySame(all, (a: Attempt) => if a.user == k.user && a.abandoned == k.abandoned then w(a) else 0, attempts);
  }

  lemma AnswersOfLine(attempts: seq<Attempt>, details: seq<Detail>, keep: Record -> bool, l: UserLine,
                      m: Measure, v: Answer -> int)
    requires UniqueIds(attempts) && l in Summary(attempts, details, keep)
    requires m.PerAnswer() && forall r: Row :: OfAnswer(m)(r) == v(r.answer)
    ensures l.totals.Get(m) == StudentSum(attempts, l.key, AnswersOf(details, keep, v))
  {
    var lines := TestLines(AttemptLines(Rows(attempts, details, keep)));
    SummaryLines(lines, l);
    UserLineIsLineFor(lines, l);
    LineTotals(attempts, details, keep, l.key, m);
    forall a | a in attempts
      ensures Value(details, keep, m)(a) == AnswersOf(details, keep, v)(a)
      ensures !HasRows(RowsOf(details, keep))(a) ==> AnswersOf(details, keep, v)(a) == 0
    {
      ValueIsAnswers(a, details, keep, m, v);
    }
    SumOverStudent(attempts, details, keep, l.key, Value(details, keep, m), AnswersOf(details, keep, v));
  }

  /** `v` of an attempt that has any answer. */
  ghost function IfAnswered(details: seq<Detail>, keep: Record -> bool, v: Attempt -> int): Attempt -> int {
    (a: Attempt) => if HasAnswer(a, details, keep, AnyAnswer()) then v(a) else 0
  }

  lemma StoredOfLine(attempts: seq<Attempt>, details: seq<Detail>, keep: Record -> bool, l: UserLine,
                     m: Measure, v: Attempt -> int)
    requires UniqueIds(attempts) && l in Summary(attempts, details, keep)
    requires !m.PerAnswer() && forall a: Attempt :: OfAttempt(m)(a) == v(a)
    ensures l.totals.Get(m) == StudentSum(attempts, l.key, IfAnswered(details, keep, v))
  {
    var lines := TestLines(AttemptLines(Rows(attempts, details, keep)));
    SummaryLines(lines, l);
    UserLineIsLineFor(lines, l);
    LineTotals(attempts, details, keep, l.key, m);
    forall a | a in attempts
      ensures HasRows(RowsOf(details, keep))(a) <==> HasAnswer(a, details, keep, AnyAnswer())
    {
      RowsArePicked(a, details, keep);
      PickedExists(a, details, keep, AnyAnswer());
    }
    SumOverStudent(attempts, details, keep, l.key, Value(details, keep, m), IfAnswered(details, keep, v));
  }

  /** The student has this flag and any answer in attempt `a`. */
  ghost predicate Takes(k: UserKey, details: seq<Detail>, keep: Record -> bool, a: Attempt) {
    a.user == k.user && a.abandoned == k.abandoned && HasAnswer(a, details, keep, AnyAnswer())
  }

  lemma TakesIff(a: Attempt, attempts: seq<Attempt>, details: seq<Detail>, keep: Record -> bool, k: UserKey)
    ensures HasRows(RowsOf(details, keep))(a) && Belongs(k)(a) <==> Takes(k, details, keep, a)
    ensures a in Answered(attempts, details, keep) && Belongs(k)(a) <==> a in attempts && Takes(k, details, keep, a)
  {
    RowsArePicked(a, details, keep);
    PickedExists(a, details, keep, AnyAnswer());
    FilterElement(HasRows(RowsOf(details, keep)), attempts, a);
  }

  lemma CountOfStudent(attempts: seq<Attempt>, details: seq<Detail>, keep: Record -> bool, k: UserKey)
    ensures |Filter(Belongs(k), Answered(attempts, details, keep))| ==
      |set i | 0 <= i < |attempts| && Takes(k, details, keep, attempts[i])|
  {
    var has, both := HasRows(RowsOf(details, keep)), (a: Attempt) => HasRows(RowsOf(details, keep))(a) && Belongs(k)(a);
    var ifMine := (a: Attempt) => if Belongs(k)(a) then 1 else 0;
    var ifBoth := (a: Attempt) => if has(a) && Belongs(k)(a) then 1 else 0;
    SumOfOnes(Filter(Belongs(k), Answered(attempts, details, keep)));
    SumOfFiltered(One<Attempt>(), Belongs(k), ifMine, Answered(attempts, details, keep));
    SumOfFiltered(ifMine, has, ifBoth, attempts);
    SumOfPlaces(ifBoth, both, attempts);
    forall i | 0 <= i < |attempts| ensures both(attempts[i]) <==> Takes(k, details, keep, attempts[i]) {
      TakesIff(attempts[i], attempts, details, keep, k);
    }
    assert Places(both, attempts) == set i | 0 <= i < |attempts| && Takes(k, details, keep, attempts[i]);
  }

  lemma AttemptsOfLine(attempts: seq<Attempt>, details: seq<Detail>, keep: Record -> bool, l: UserLine)
    requires UniqueIds(attempts) && l in Summary(attempts, details, keep)
    ensures l.attempts == |set i | 0 <= i < |attempts| && Takes(l.key, details, keep, attempts[i])|
    ensures l.tests == |set a | a in attempts && Takes(l.key, details, keep, a) :: a.test|
  {
    var lines, k := TestLines(AttemptLines(Rows(attempts, details, keep))), l.key;
    SummaryLines(lines, l);
    UserLineIsLineFor(lines, l);
    LineAttempts(attempts, details, keep, k);
    LineTests(attempts, details, keep, k);
    CountOfStudent(attempts, details, keep, k);
    var s := set a | a in Answered(attempts, details, keep) && Belongs(k)(a) :: a.test;
    forall a
      ensures a in Answered(attempts, details, keep) && Belongs(k)(a) <==> a in attempts && Takes(k, details, keep, a)
    {
      TakesIff(a, attempts, details, keep, k);
    }
    assert s == set a | a in attempts && Takes(k, details, keep, a) :: a.test;
  }

  /** Each line of the summary conserves its student's totals, over all attempts of the student with this flag:
      the number of answers, of those given, their times and marks; what an attempt stores, once per attempt
      that has any answer; the number of those attempts, and of the distinct tests among them.  An answer is
      one of a detail of the attempt that meets the condition on the joined record. */
  lemma EachLineConservesTotals(attempts: seq<Attempt>, details: seq<Detail>, keep: Record -> bool, l: UserLine,
                                v: Answer -> int, w: Attempt -> int)
    requires UniqueIds(attempts) && l in Summary(attempts, details, keep)
    ensures var t, sum := l.totals, StudentSum(attempts, l.key, AnswersOf(details, keep, v));
      && ((forall x :: v(x) == 1) ==> t.questions == sum)
      && ((forall x: Answer :: v(x) == if x.status == 3 then 0 else 1) ==> t.done == sum)
      && ((forall x: Answer :: v(x) == x.time) ==> t.time == sum)
      && ((forall x: Answer :: v(x) == x.marks) ==> t.testMark == sum)
    ensures var t, sum := l.totals, StudentSum(attempts, l.key, IfAnswered(details, keep, w));
      && ((forall a: Attempt :: w(a) == a.missed) ==> t.missed == sum)
      && ((forall a: Attempt :: w(a) == a.corrects) ==> t.corrects == sum)
      && ((forall a: Attempt :: w(a) == a.mark) ==> t.mark == sum)
    ensures l.attempts == |set i | 0 <= i < |attempts| && Takes(l.key, details, keep, attempts[i])|
    ensures l.tests == |set a | a in attempts && Takes(l.key, details, keep, a) :: a.test|
  {
    AnswerTotals(attempts, details, keep, l, v);
    StoredTotals(attempts, details, keep, l, w);
    AttemptsOfLine(attempts, details, keep, l);
  }

  lemma AnswerTotals(attempts: seq<Attempt>, details: seq<Detail>, keep: Record -> bool, l: UserLine, v: Answer -> int)
    requires UniqueIds(attempts) && l in Summary(attempts, details, keep)
    ensures var t, sum := l.totals, StudentSum(attempts, l.key, AnswersOf(details, keep, v));
      && ((forall x :: v(x) == 1) ==> t.questions == sum)
      && ((forall x: Answer :: v(x) == if x.status == 3 then 0 else 1) ==> t.done == sum)
      && ((forall x: Answer :: v(x) == x.time) ==> t.time == sum)
      && ((forall x: Answer :: v(x) == x.marks) ==> t.testMark == sum)
  {
    if forall x :: v(x) == 1 {
      AnswersOfLine(attempts, details, keep, l, Questions, v);
    }
    if forall x: Answer :: v(x) == if x.status == 3 then 0 else 1 {
      AnswersOfLine(attempts, details, keep, l, Done, v);
    }
    if forall x: Answer :: v(x) == x.time {
      AnswersOfLine(attempts, details, keep, l, Time, v);
    }
    if forall x: Answer :: v(x) == x.marks {
      AnswersOfLine(attempts, details, keep, l, TestMark, v);
    }
  }

  lemma StoredTotals(attempts: seq<Attempt>, details: seq<Detail>, keep: Record -> bool, l: UserLine, w: Attempt -> int)
    requires UniqueIds(attempts) && l in Summary(attempts, details, keep)
    ensures var t, sum := l.totals, StudentSum(attempts, l.key, IfAnswered(details, keep, w));
      && ((forall a: Attempt :: w(a) == a.missed) ==> t.missed == sum)
      && ((forall a: Attempt :: w(a) == a.corrects) ==> t.corrects == sum)
      && ((forall a: Attempt :: w(a) == a.mark) ==> t.mark == sum)
  {
    if forall a: Attempt :: w(a) == a.missed {
      StoredOfLine(attempts, details, keep, l, Missed, w);
    }
    if forall a: Attempt :: w(a) == a.corrects {
      StoredOfLine(attempts, details, keep, l, Corrects, w);
    }
    if forall a: Attempt :: w(a) == a.mark {
      StoredOfLine(attempts, details, keep, l, Mark, w);
    }
  }

  lemma UserKeysOccur(attempts: seq<Attempt>, details: seq<Detail>, keep: Record -> bool, k: UserKey)
    requires UniqueIds(attempts)
    ensures k in Keys(UserOf(), TestLines(AttemptLines(Rows(attempts, details, keep)))) <==>
      exists a :: a in Answered(attempts, details, keep) && Belongs(k)(a)
  {
    var first := AttemptLines(Rows(attempts, details, keep));
    var lines := TestLines(first);
    KeysOccur(UserOf(), lines, k);
    if l :| l in lines && UserOf()(l) == k {
      TestLineKey(first, l.key);
      KeysOfAttempts(attempts, details, keep, l.key);
    }
    if a :| a in Answered(attempts, details, keep) && Belongs(k)(a) {
      KeysOfAttempts(attempts, details, keep, KeyOf(a));
      TestLineKey(first, KeyOf(a));
    }
  }

  lemma TestLineKey(first: seq<AttemptLine>, t: TestKey)
    ensures t in Keys(TestOf(), first) <==> exists l :: l in TestLines(first) && l.key == t
  {
    var keys, lines := Keys(TestOf(), first), TestLines(first);
    GroupsAreAsMany(TestOf(), first, keys);
    forall i | 0 <= i < |keys| ensures lines[i].key == keys[i] {
      GroupsForAt(TestOf(), first, keys, i);
    }
    if t in keys {
      var i :| 0 <= i < |keys| && keys[i] == t;
      assert lines[i] in lines && lines[i].key == t;
    }
  }

  function KeyIn(): UserLine -> UserKey { (l: UserLine) => l.key }

  lemma UserLinesByKey(lines: seq<TestLine>)
    ensures Map(KeyIn(), UserLines(lines)) == Keys(UserOf(), lines)
  {
    var keys, all := Keys(UserOf(), lines), UserLines(lines);
    GroupsAreAsMany(UserOf(), lines, keys);
    forall i | 0 <= i < |keys| ensures all[i].key == keys[i] {
      GroupsForAt(UserOf(), lines, keys, i);
    }
  }

  /** Sorting keeps the keys apart. */
  lemma KeysStayApart(lines: seq<TestLine>)
    ensures var s := Sort(ById(), UserLines(lines)); Sorted(ById(), s) && Distinct(Map(KeyIn(), s))
  {
    var users := UserLines(lines);
    UserLinesByKey(lines);
    KeysAreDistinct(UserOf(), lines);
    SortElements(ById(), users);
    SortSorts(ById(), users);
    MapPermutation(KeyIn(), users, Sort(ById(), users));
    DistinctPermutation(Map(KeyIn(), users), Map(KeyIn(), Sort(ById(), users)));
  }

  /** The summary is sorted, and has one line for every student and flag that some attempt with rows
      bears, and no other. */
  lemma OneLinePerStudent(attempts: seq<Attempt>, details: seq<Detail>, keep: Record -> bool, k: UserKey)
    requires UniqueIds(attempts)
    ensures var s := Summary(attempts, details, keep);
      && (forall i, j | 0 <= i < j < |s| ::
            s[i].key.user < s[j].key.user
            || (s[i].key.user == s[j].key.user && !s[i].key.abandoned && s[j].key.abandoned))
      && ((exists l :: l in s && l.key == k) <==> exists a :: a in attempts && Takes(k, details, keep, a))
  {
    var lines := TestLines(AttemptLines(Rows(attempts, details, keep)));
    var s := Summary(attempts, details, keep);
    KeysStayApart(lines);
    UserLinesByKey(lines);
    MapElement(KeyIn(), UserLines(lines), k);
    UserKeysOccur(attempts, details, keep, k);
    forall l ensures l in s <==> l in UserLines(lines) {
      SummaryLines(lines, l);
    }
    forall a
      ensures a in Answered(attempts, details, keep) && Belongs(k)(a) <==> a in attempts && Takes(k, details, keep, a)
    {
      FilterElement(HasRows(RowsOf(details, keep)), attempts, a);
      RowsArePicked(a, details, keep);
      PickedExists(a, details, keep, AnyAnswer());
    }
    forall i, j | 0 <= i < j < |s| ensures s[i].key != s[j].key {
      assert Map(KeyIn(), s)[i] == s[i].key && Map(KeyIn(), s)[j] == s[j].key;
    }
  }
}
