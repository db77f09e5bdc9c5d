/** The speed and accuracy ranks of a student in a test (lines 4899-5162 of the attempt service). */
module Ranks {
  import opened Lists
  import opened Pipelines
  import opened Wrappers
  import opened AttemptRows

  /** Less time per answer is better, and more accuracy is. */
  datatype Kind = Speed | Accuracy {
    predicate Ahead(x: real, y: real) { if Speed? then x < y else x > y }
  }

  datatype Request = Request(test: nat, subject: Option<nat>, user: nat)

  // ----- The rows of an attempt -----

  /** The accuracy rank also takes attempts that are not evaluated yet. */
  function Matches(kind: Kind, test: nat): Attempt -> bool {
    (a: Attempt) => a.test == test && !a.abandoned && (kind.Speed? ==> a.evaluated)
  }

  function OnSubject(subject: Option<nat>): Row -> bool {
    (r: Row) => subject.None? || r.answer.subject == subject.value
  }

  function Rows(matched: seq<Attempt>, details: seq<Detail>, subject: Option<nat>): seq<Row> {
    Filter(OnSubject(subject), FlatMap(Unwind(), FlatMap(RecordsOf(details), matched)))
  }

  function RowsOf(details: seq<Detail>, subject: Option<nat>): Attempt -> seq<Row> {
    Filtered(OnSubject(subject), Chained(RecordsOf(details), Unwind()))
  }

  lemma RowsByAttempt(matched: seq<Attempt>, details: seq<Detail>, subject: Option<nat>)
    ensures Rows(matched, details, subject) == FlatMap(RowsOf(details, subject), matched)
  {
    var f := RecordsOf(details);
    FlatMapFlatMap(f, Unwind(), matched);
    FilterFlatMap(OnSubject(subject), Chained(f, Unwind()), matched);
  }

  lemma RowsCarryAttempt(a: Attempt, details: seq<Detail>, subject: Option<nat>, r: Row)
    requires r in RowsOf(details, subject)(a)
    ensures r.attempt == a
  {
    FilterElement(OnSubject(subject), FlatMap(Unwind(), RecordsOf(details)(a)), r);
    RecordsCarryAttempt(a, details);
    RowCarriesAttempt(a, RecordsOf(details)(a), r);
  }

  // ----- The score of an attempt -----

  function Answered(): Row -> int { (r: Row) => if r.answer.status == MISSED then 0 else 1 }
  function TimeOf(): Row -> int { (r: Row) => r.answer.time }

  /** The average time of the answered rows, or the share of correct answers among all rows. */
  function Score(kind: Kind, corrects: int, rows: seq<Row>): real {
    match kind
    case Speed =>
      var n := SumBy(Answered(), rows);
      if n == 0 then 0.0 else SumBy(TimeOf(), rows) as real / n as real
    case Accuracy =>
      if |rows| == 0 then 0.0 else corrects as real / |rows| as real * 100.0
  }

  datatype Line = Line(user: nat, value: real)

  function UserIn(): Line -> nat { (l: Line) => l.user }

  /** What the attempt stores comes from the first row. */
  function ToAttemptLine(kind: Kind): Group<nat, Row> -> Line {
    (g: Group<nat, Row>) =>
      if g.rows == [] then Line(0, 0.0)
      else Line(g.rows[0].attempt.user, Score(kind, g.rows[0].attempt.corrects, g.rows))
  }

  /** `$min` or `$max` of a group. */
  function Best(kind: Kind, lines: seq<Line>): real
    requires lines != []
  {
    if |lines| == 1 then lines[0].value
    else
      var rest := Best(kind, lines[1..]);
      if kind.Ahead(rest, lines[0].value) then rest else lines[0].value
  }

  function ToUserLine(kind: Kind): Group<nat, Line> -> Line {
    (g: Group<nat, Line>) => Line(g.key, if g.rows == [] then 0.0 else Best(kind, g.rows))
  }

  function AttemptLines(kind: Kind, rows: seq<Row>): seq<Line> { Map(ToAttemptLine(kind), GroupBy(AttemptId(), rows)) }
  function UserLines(kind: Kind, lines: seq<Line>): seq<Line> { Map(ToUserLine(kind), GroupBy(UserIn(), lines)) }

  function NotBehind(kind: Kind): (Line, Line) -> bool {
    (x: Line, y: Line) => !kind.Ahead(y.value, x.value)
  }

  // ----- What the rank means -----

  /** The attempts that count: they match, and have rows on the subject. */
  function Counting(kind: Kind, attempts: seq<Attempt>, details: seq<Detail>, q: Request): seq<Attempt> {
    Filter(HasRows(RowsOf(details, q.subject)), Filter(Matches(kind, q.test), attempts))
  }

  function ScoreOf(kind: Kind, details: seq<Detail>, subject: Option<nat>): Attempt -> real {
    (a: Attempt) => Score(kind, a.corrects, RowsOf(details, subject)(a))
  }

  /** `x` is reached by one of the student's attempts and no other attempt of theirs is ahead of it. */
  ghost predicate IsBest(kind: Kind, counting: seq<Attempt>, score: Attempt -> real, user: nat, x: real) {
    && (exists a :: a in counting && a.user == user && score(a) == x)
    && (forall a | a in counting && a.user == user :: !kind.Ahead(score(a), x))
  }

  /** The students with an attempt ahead of `x`. */
  ghost function UsersAhead(kind: Kind, counting: seq<Attempt>, score: Attempt -> real, x: real): set<nat> {
    set a | a in counting && kind.Ahead(score(a), x) :: a.user
  }

  // ----- The lines are the students' bests -----

  function LineOf(kind: Kind, details: seq<Detail>, subject: Option<nat>): Attempt -> Line {
    (a: Attempt) => ToAttemptLine(kind)(Group(a.id, RowsOf(details, subject)(a)))
  }

  /** The first grouping makes one line of every attempt that has rows. */
  lemma AttemptLinesAreAttempts(kind: Kind, matched: seq<Attempt>, details: seq<Detail>, subject: Option<nat>)
    requires UniqueIds(matched)
    ensures AttemptLines(kind, Rows(matched, details, subject)) ==
      Map(LineOf(kind, details, subject), Filter(HasRows(RowsOf(details, subject)), matched))
  {
    var f, id := RowsOf(details, subject), (a: Attempt) => a.id;
    RowsByAttempt(matched, details, subject);
    forall a, r | a in matched && r in f(a) ensures AttemptId()(r) == id(a) {
      RowsCarryAttempt(a, details, subject, r);
    }
    GroupingUndoesFlatMap(id, AttemptId(), f, matched);
  }

  lemma LineOfCounting(kind: Kind, details: seq<Detail>, subject: Option<nat>, a: Attempt)
    requires HasRows(RowsOf(details, subject))(a)
    ensures LineOf(kind, details, subject)(a) == Line(a.user, ScoreOf(kind, details, subject)(a))
  {
    RowsCarryAttempt(a, details, subject, RowsOf(details, subject)(a)[0]);
  }

  lemma {:induction false} BestIsBest(kind: Kind, lines: seq<Line>)
    requires lines != []
    ensures exists l :: l in lines && l.value == Best(kind, lines)
    ensures forall l <- lines :: !kind.Ahead(l.value, Best(kind, lines))
  {
    assert lines[0] in lines;
    if |lines| > 1 {
      BestIsBest(kind, lines[1..]);
      forall l <- lines ensures !kind.Ahead(l.value, Best(kind, lines)) {
        assert l == lines[0] || l in lines[1..];
      }
    }
  }

  lemma UserLinesByKey(kind: Kind, lines: seq<Line>)
    ensures Map(UserIn(), UserLines(kind, lines)) == Keys(UserIn(), lines)
  {
    var keys, all := Keys(UserIn(), lines), UserLines(kind, lines);
    GroupsAreAsMany(UserIn(), lines, keys);
    forall i | 0 <= i < |keys| ensures all[i].user == keys[i] {
      GroupsForAt(UserIn(), lines, keys, i);
    }
  }

  /** A student's line holds the best value of that student's lines. */
  lemma UserLineIsBest(kind: Kind, lines: seq<Line>, l: Line)
    requires l in UserLines(kind, lines)
    ensures exists x :: x in lines && x.user == l.user && x.value == l.value
    ensures forall x | x in lines && x.user == l.user :: !kind.Ahead(x.value, l.value)
  {
    var keys, all := Keys(UserIn(), lines), UserLines(kind, lines);
    var i :| 0 <= i < |all| && all[i] == l;
    GroupsAreAsMany(UserIn(), lines, keys);
    GroupsForAt(UserIn(), lines, keys, i);
    KeysOccur(UserIn(), lines, keys[i]);
    var mine := Filter(HasKey(UserIn(), keys[i]), lines);
    forall x ensures x in mine <==> x in lines && x.user == l.user {
      FilterElement(HasKey(UserIn(), keys[i]), lines, x);
    }
    var x :| x in lines && UserIn()(x) == keys[i];
    assert x in mine;
    BestIsBest(kind, mine);
  }

  // ----- Two searches in a sorted list -----

  /** The index of the first element that satisfies `p`, or -1. */
  function FindIndex<T>(p: T -> bool, s: seq<T>): (i: int)
    ensures -1 <= i < |s|
    ensures if i == -1 then forall x <- s :: !p(x) else p(s[i]) && forall j | 0 <= j < i :: !p(s[j])
  {
    if s == [] then -1
    else if p(s[0]) then 0
    else
      var i := FindIndex(p, s[1..]);
      if i == -1 then -1 else i + 1
  }

  function HasUser(user: nat): Line -> bool { (l: Line) => l.user == user }
  function HasValue(x: real): Line -> bool { (l: Line) => l.value == x }
  function AheadOf(kind: Kind, x: real): Line -> bool { (l: Line) => kind.Ahead(l.value, x) }

  /** In a sorted list, the first index of a value counts the lines ahead of it. */
  lemma {:induction false} IndexCountsAhead(kind: Kind, result: seq<Line>, x: real)
    requires Sorted(NotBehind(kind), result) && exists l :: l in result && l.value == x
    ensures FindIndex(HasValue(x), result) == |Filter(AheadOf(kind, x), result)|
  {
    if result[0].value == x {
      forall l | l in result ensures !AheadOf(kind, x)(l) {
        var i :| 0 <= i < |result| && result[i] == l;
        assert i > 0 ==> NotBehind(kind)(result[0], result[i]);
      }
      FilterNone(AheadOf(kind, x), result);
    } else {
      var l :| l in result && l.value == x;
      var i :| 0 <= i < |result| && result[i] == l;
      assert NotBehind(kind)(result[0], result[i]);
      assert l in result[1..];
      IndexCountsAhead(kind, result[1..], x);
    }
  }

  /** The lines of distinct students are as many as the students. */
  lemma LinesAreUsers(p: Line -> bool, result: seq<Line>)
    requires Distinct(Map(UserIn(), result))
    ensures |Filter(p, result)| == |set l | l in result && p(l) :: l.user|
  {
    var kept := Filter(p, result);
    UsersStayApart(p, result);
    DistinctCardinality(Map(UserIn(), kept));
    forall u ensures u in Map(UserIn(), kept) <==> exists l :: l in result && p(l) && l.user == u {
      MapElement(UserIn(), kept, u);
      forall l ensures l in kept <==> l in result && p(l) {
        FilterElement(p, result, l);
      }
    }
    assert (set l | l in result && p(l) :: l.user) == SetOf(Map(UserIn(), kept));
  }

  lemma {:induction false} UsersStayApart(p: Line -> bool, result: seq<Line>)
    requires Distinct(Map(UserIn(), result))
    ensures Distinct(Map(UserIn(), Filter(p, result)))
  {
    if result != [] {
      var rest, users := result[1..], Map(UserIn(), result);
      assert Map(UserIn(), rest) == users[1..];
      UsersStayApart(p, rest);
      forall l | l in Filter(p, rest) ensures l.user != result[0].user {
        FilterElement(p, rest, l);
        MapElement(UserIn(), rest, l.user);
        assert forall i | 0 < i < |users| :: users[i] != users[0];
      }
      MapCons(UserIn(), result);
    }
  }

  ghost function LinesAhead(kind: Kind, result: seq<Line>, x: real): set<nat> {
    set l | l in result && kind.Ahead(l.value, x) :: l.user
  }

  /** The code after the pipeline: the position of the student, and then that of the first equal value.
      However equal values are ordered, the rank is one more than the number of students strictly ahead. */
  method SearchRank(kind: Kind, result: seq<Line>, user: nat) returns (rank: Option<nat>)
    requires Sorted(NotBehind(kind), result) && Distinct(Map(UserIn(), result))
    ensures rank.None? <==> forall l <- result :: l.user != user
    ensures rank.Some? ==>
      exists l :: l in result && l.user == user && rank.value == 1 + |LinesAhead(kind, result, l.value)|
  {
    var post := FindIndex(HasUser(user), result);
    if post > -1 {
      var mine := result[post];
      var newRank := FindIndex(HasValue(mine.value), result);
      assert mine in result;
      IndexCountsAhead(kind, result, mine.value);
      LinesAreUsers(AheadOf(kind, mine.value), result);
      assert LinesAhead(kind, result, mine.value) == set m | m in result && AheadOf(kind, mine.value)(m) :: m.user;
      return Some((if newRank > post then post else newRank) + 1);
    }
    return None;
  }

  // ----- The whole query -----

  /** `lines` are the scores of the attempts that count, with their students. */
  ghost predicate LinesOf(kind: Kind, counting: seq<Attempt>, score: Attempt -> real, lines: seq<Line>) {
    && (forall a | a in counting :: Line(a.user, score(a)) in lines)
    && (forall l | l in lines :: exists a :: a in counting && l == Line(a.user, score(a)))
  }

  lemma AttemptLinesOf(kind: Kind, attempts: seq<Attempt>, details: seq<Detail>, q: Request)
    requires UniqueIds(attempts)
    ensures LinesOf(kind, Counting(kind, attempts, details, q), ScoreOf(kind, details, q.subject),
                    AttemptLines(kind, Rows(Filter(Matches(kind, q.test), attempts), details, q.subject)))
  {
    var matched, f := Filter(Matches(kind, q.test), attempts), RowsOf(details, q.subject);
    var counting, line := Filter(HasRows(f), matched), LineOf(kind, details, q.subject);
    UniqueIdsFiltered(Matches(kind, q.test), attempts);
    AttemptLinesAreAttempts(kind, matched, details, q.subject);
    FilterElements(HasRows(f), matched);
    forall a | a in counting ensures line(a) == Line(a.user, ScoreOf(kind, details, q.subject)(a)) {
      LineOfCounting(kind, details, q.subject, a);
    }
    forall l ensures l in Map(line, counting) <==> exists a :: a in counting && line(a) == l {
      MapElement(line, counting, l);
    }
    forall a | a in counting ensures line(a) in Map(line, counting) {
      MapElement(line, counting, line(a));
    }
  }

  lemma SortedLines(kind: Kind, users: seq<Line>)
    requires Distinct(Map(UserIn(), users))
    ensures var result := Sort(NotBehind(kind), users);
      && Sorted(NotBehind(kind), result) && Distinct(Map(UserIn(), result))
      && forall l :: l in result <==> l in users
  {
    var result := Sort(NotBehind(kind), users);
    SortElements(NotBehind(kind), users);
    SortSorts(NotBehind(kind), users);
    SameElements(result, users);
    MapPermutation(UserIn(), users, result);
    DistinctPermutation(Map(UserIn(), users), Map(UserIn(), result));
  }

  /** Every student with lines has one line among the bests, and no one else has. */
  lemma UserLineExists(kind: Kind, lines: seq<Line>, user: nat)
    ensures (exists l :: l in UserLines(kind, lines) && l.user == user) <==> exists x :: x in lines && x.user == user
  {
    UserLinesByKey(kind, lines);
    KeysOccur(UserIn(), lines, user);
    MapElement(UserIn(), UserLines(kind, lines), user);
  }

  lemma BestOfUser(kind: Kind, counting: seq<Attempt>, score: Attempt -> real, lines: seq<Line>, l: Line)
    requires LinesOf(kind, counting, score, lines) && l in UserLines(kind, lines)
    ensures IsBest(kind, counting, score, l.user, l.value)
  {
    UserLineIsBest(kind, lines, l);
    var x :| x in lines && x.user == l.user && x.value == l.value;
    var a :| a in counting && x == Line(a.user, score(a));
    assert a.user == l.user && score(a) == l.value;
    forall b | b in counting && b.user == l.user ensures !kind.Ahead(score(b), l.value) {
      assert Line(b.user, score(b)) in lines;
    }
  }

  lemma AheadIsAhead(kind: Kind, counting: seq<Attempt>, score: Attempt -> real, lines: seq<Line>, x: real)
    requires LinesOf(kind, counting, score, lines)
    ensures LinesAhead(kind, UserLines(kind, lines), x) == UsersAhead(kind, counting, score, x)
  {
    var users := UserLines(kind, lines);
    forall u ensures u in LinesAhead(kind, users, x) <==> u in UsersAhead(kind, counting, score, x) {
      if u in LinesAhead(kind, users, x) {
        var l :| l in users && kind.Ahead(l.value, x) && l.user == u;
        BestOfUser(kind, counting, score, lines, l);
        var a :| a in counting && a.user == u && score(a) == l.value;
      }
      if u in UsersAhead(kind, counting, score, x) {
        var a :| a in counting && kind.Ahead(score(a), x) && a.user == u;
        assert Line(u, score(a)) in lines;
        UserLineExists(kind, lines, u);
        var l :| l in users && l.user == u;
        BestOfUser(kind, counting, score, lines, l);
      }
    }
  }

  /** `r` is one more than the number of students ahead of the best of `user`. */
  ghost predicate IsRank(kind: Kind, counting: seq<Attempt>, score: Attempt -> real, user: nat, r: nat) {
    exists x :: IsBest(kind, counting, score, user, x) && r == 1 + |UsersAhead(kind, counting, score, x)|
  }

  lemma LineGivesRank(kind: Kind, counting: seq<Attempt>, score: Attempt -> real,
                      lines: seq<Line>, result: seq<Line>, l: Line)
    requires LinesOf(kind, counting, score, lines) && l in result
    requires forall m :: m in result <==> m in UserLines(kind, lines)
    ensures IsRank(kind, counting, score, l.user, 1 + |LinesAhead(kind, result, l.value)|)
  {
    BestOfUser(kind, counting, score, lines, l);
    AheadIsAhead(kind, counting, score, lines, l.value);
    assert LinesAhead(kind, result, l.value) == LinesAhead(kind, UserLines(kind, lines), l.value);
  }

  lemma NoLineNoAttempt(kind: Kind, counting: seq<Attempt>, score: Attempt -> real,
                        lines: seq<Line>, result: seq<Line>, user: nat)
    requires LinesOf(kind, counting, score, lines)
    requires forall m :: m in result <==> m in UserLines(kind, lines)
    ensures (forall l <- result :: l.user != user) <==> forall a <- counting :: a.user != user
  {
    UserLineExists(kind, lines, user);
    if a :| a in counting && a.user == user {
      assert Line(a.user, score(a)) in lines;
    }
  }

  /** `getSpeedRank` and `getAccuracyRank`: one more than the number of students who have an attempt ahead
      of this student's best, over all matching attempts; none if no attempt of the student counts. */
  method GetRank(kind: Kind, attempts: seq<Attempt>, details: seq<Detail>, q: Request) returns (rank: Option<nat>)
    requires UniqueIds(attempts)
    ensures var counting, score := Counting(kind, attempts, details, q), ScoreOf(kind, details, q.subject);
      && (rank.None? <==> forall a <- counting :: a.user != q.user)
      && (rank.Some? ==> IsRank(kind, counting, score, q.user, rank.value))
  {
    var lines := AttemptLines(kind, Rows(Filter(Matches(kind, q.test), attempts), details, q.subject));
    var users := UserLines(kind, lines);
    ghost var counting, score := Counting(kind, attempts, details, q), ScoreOf(kind, details, q.subject);
    AttemptLinesOf(kind, attempts, details, q);
    UserLinesByKey(kind, lines);
    KeysAreDistinct(UserIn(), lines);
    SortedLines(kind, users);
    var result := Sort(NotBehind(kind), users);
    rank := SearchRank(kind, result, q.user);
    NoLineNoAttempt(kind, counting, score, lines, result, q.user);
    if rank.Some? {
      ghost var l :| l in result && l.user == q.user && rank.value == 1 + |LinesAhead(kind, result, l.value)|;
      LineGivesRank(kind, counting, score, lines, result, l);
    }
  }

  // ----- The ranks, without the pipeline -----

  function Asked(subject: Option<nat>): Answer -> bool {
    (x: Answer) => subject.None? || x.subject == subject.value
  }

  function GivenOnce(): Answer -> int { (x: Answer) => if x.status == 3 then 0 else 1 }
  function Seconds(): Answer -> int { (x: Answer) => x.time }

  /** The sum of `v` over the answers of attempt `a` on the subject. */
  function SumOn(a: Attempt, details: seq<Detail>, subject: Option<nat>, v: Answer -> int): int {
    AnswerSum(a, details, AnyRecord(), Asked(subject), v)
  }

  /** The time of the answers per answer given. */
  function SpeedOf(a: Attempt, details: seq<Detail>, subject: Option<nat>): real {
    var given := SumOn(a, details, subject, GivenOnce());
    if given == 0 then 0.0 else SumOn(a, details, subject, Seconds()) as real / given as real
  }

  /** The correct answers per answer, in percent. */
  function AccuracyOf(a: Attempt, details: seq<Detail>, subject: Option<nat>): real {
    var all := SumOn(a, details, subject, EachOnce());
    if all == 0 then 0.0 else a.corrects as real / all as real * 100.0
  }

  /** An attempt at the test that is not abandoned and has an answer on the subject. */
  ghost predicate Counts(a: Attempt, details: seq<Detail>, q: Request) {
    a.test == q.test && !a.abandoned && HasAnswer(a, details, AnyRecord(), Asked(q.subject))
  }

  lemma RowsArePicked(a: Attempt, details: seq<Detail>, subject: Option<nat>)
    ensures RowsOf(details, subject)(a) == Picked(a, details, AnyRecord(), Asked(subject))
  {
    FilterAll(AnyRecord(), RecordsOf(details)(a));
    FilterSame(OnSubject(subject), OnRow(Asked(subject)), FlatMap(Unwind(), RecordsOf(details)(a)));
  }

  lemma RowSumOn(a: Attempt, details: seq<Detail>, subject: Option<nat>, f: Row -> int, v: Answer -> int)
    requires forall r: Row :: f(r) == v(r.answer)
    ensures SumBy(f, RowsOf(details, subject)(a)) == SumOn(a, details, subject, v)
  {
    RowsArePicked(a, details, subject);
    SumBySame(f, OfRow(v), RowsOf(details, subject)(a));
    PickedSum(a, details, AnyRecord(), Asked(subject), v);
  }

  lemma ScoreIsDirect(kind: Kind, a: Attempt, details: seq<Detail>, subject: Option<nat>)
    ensures ScoreOf(kind, details, subject)(a) ==
      if kind.Speed? then SpeedOf(a, details, subject) else AccuracyOf(a, details, subject)
  {
    RowSumOn(a, details, subject, Answered(), GivenOnce());
    RowSumOn(a, details, subject, TimeOf(), Seconds());
    RowSumOn(a, details, subject, One<Row>(), EachOnce());
    SumOfOnes(RowsOf(details, subject)(a));
  }

  lemma CountingIsDirect(kind: Kind, attempts: seq<Attempt>, details: seq<Detail>, q: Request, a: Attempt)
    ensures a in Counting(kind, attempts, details, q) <==>
      a in attempts && Counts(a, details, q) && (kind.Speed? ==> a.evaluated)
  {
    FilterElement(HasRows(RowsOf(details, q.subject)), Filter(Matches(kind, q.test), attempts), a);
    FilterElement(Matches(kind, q.test), attempts, a);
    RowsArePicked(a, details, q.subject);
    PickedExists(a, details, AnyRecord(), Asked(q.subject));
  }

  /** The students with an evaluated attempt that counts and takes less time per answer than `x`. */
  ghost function FasterStudents(attempts: seq<Attempt>, details: seq<Detail>, q: Request, x: real): set<nat> {
    set a | a in attempts && Counts(a, details, q) && a.evaluated && SpeedOf(a, details, q.subject) < x :: a.user
  }

  /** The students with an attempt that counts and is more accurate than `x`. */
  ghost function BetterStudents(attempts: seq<Attempt>, details: seq<Detail>, q: Request, x: real): set<nat> {
    set a | a in attempts && Counts(a, details, q) && AccuracyOf(a, details, q.subject) > x :: a.user
  }

  /** `b` is the student's fastest evaluated attempt that counts, and `r` the rank it gives. */
  ghost predicate GivesSpeedRank(b: Attempt, attempts: seq<Attempt>, details: seq<Detail>, q: Request, r: nat) {
    && b in attempts && Counts(b, details, q) && b.evaluated && b.user == q.user
    && (forall a <- attempts | Counts(a, details, q) && a.evaluated && a.user == q.user ::
          SpeedOf(b, details, q.subject) <= SpeedOf(a, details, q.subject))
    && r == 1 + |FasterStudents(attempts, details, q, SpeedOf(b, details, q.subject))|
  }

  /** `b` is the student's most accurate attempt that counts, and `r` the rank it gives. */
  ghost predicate GivesAccuracyRank(b: Attempt, attempts: seq<Attempt>, details: seq<Detail>, q: Request, r: nat) {
    && b in attempts && Counts(b, details, q) && b.user == q.user
    && (forall a <- attempts | Counts(a, details, q) && a.user == q.user ::
          AccuracyOf(a, details, q.subject) <= AccuracyOf(b, details, q.subject))
    && r == 1 + |BetterStudents(attempts, details, q, AccuracyOf(b, details, q.subject))|
  }

  lemma BestAttempt(kind: Kind, counting: seq<Attempt>, score: Attempt -> real, user: nat, r: nat) returns (b: Attempt)
    requires IsRank(kind, counting, score, user, r)
    ensures b in counting && b.user == user && r == 1 + |UsersAhead(kind, counting, score, score(b))|
    ensures forall a | a in counting && a.user == user :: !kind.Ahead(score(a), score(b))
  {
    var x :| IsBest(kind, counting, score, user, x) && r == 1 + |UsersAhead(kind, counting, score, x)|;
    b :| b in counting && b.user == user && score(b) == x;
  }

  lemma AheadIsDirect(kind: Kind, attempts: seq<Attempt>, details: seq<Detail>, q: Request, x: real)
    ensures UsersAhead(kind, Counting(kind, attempts, details, q), ScoreOf(kind, details, q.subject), x) ==
      if kind.Speed? then FasterStudents(attempts, details, q, x) else BetterStudents(attempts, details, q, x)
  {
    var ahead := UsersAhead(kind, Counting(kind, attempts, details, q), ScoreOf(kind, details, q.subject), x);
    forall a ensures a in Counting(kind, attempts, details, q) <==>
      a in attempts && Counts(a, details, q) && (kind.Speed? ==> a.evaluated)
    {
      CountingIsDirect(kind, attempts, details, q, a);
    }
    forall a ensures ScoreOf(kind, details, q.subject)(a) ==
      if kind.Speed? then SpeedOf(a, details, q.subject) else AccuracyOf(a, details, q.subject)
    {
      ScoreIsDirect(kind, a, details, q.subject);
    }
    if kind.Speed? {
      assert ahead == FasterStudents(attempts, details, q, x);
    } else {
      assert ahead == BetterStudents(attempts, details, q, x);
    }
  }

  lemma RankIsDirect(kind: Kind, attempts: seq<Attempt>, details: seq<Detail>, q: Request, r: nat) returns (b: Attempt)
    requires IsRank(kind, Counting(kind, attempts, details, q), ScoreOf(kind, details, q.subject), q.user, r)
    ensures if kind.Speed? then GivesSpeedRank(b, attempts, details, q, r)
      else GivesAccuracyRank(b, attempts, details, q, r)
  {
    var counting, score := Counting(kind, attempts, details, q), ScoreOf(kind, details, q.subject);
    b := BestAttempt(kind, counting, score, q.user, r);
    CountingIsDirect(kind, attempts, details, q, b);
    ScoreIsDirect(kind, b, details, q.subject);
    AheadIsDirect(kind, attempts, details, q, score(b));
    forall a | a in attempts && Counts(a, details, q) && (kind.Speed? ==> a.evaluated) && a.user == q.user
      ensures !kind.Ahead(score(a), score(b))
      ensures score(a) == if kind.Speed? then SpeedOf(a, details, q.subject) else AccuracyOf(a, details, q.subject)
    {
      CountingIsDirect(kind, attempts, details, q, a);
      ScoreIsDirect(kind, a, details, q.subject);
    }
  }

  /** `getSpeedRank`: one more than the number of students who are faster than this student's best; none if
      no evaluated attempt of the student counts. */
  method GetSpeedRank(attempts: seq<Attempt>, details: seq<Detail>, q: Request) returns (rank: Option<nat>)
    requires UniqueIds(attempts)
    ensures rank.None? <==> forall a <- attempts :: Counts(a, details, q) && a.evaluated ==> a.user != q.user
    ensures rank.Some? ==> exists b :: GivesSpeedRank(b, attempts, details, q, rank.value)
  {
    rank := GetRank(Speed, attempts, details, q);
    forall a
      ensures a in Counting(Speed, attempts, details, q) <==> a in attempts && Counts(a, details, q) && a.evaluated
    {
      CountingIsDirect(Speed, attempts, details, q, a);
    }
    if rank.Some? {
      ghost var b := RankIsDirect(Speed, attempts, details, q, rank.value);
    }
  }

  /** `getAccuracyRank`: one more than the number of students who are more accurate than this student's best;
      none if no attempt of the student counts. */
  method GetAccuracyRank(attempts: seq<Attempt>, details: seq<Detail>, q: Request) returns (rank: Option<nat>)
    requires UniqueIds(attempts)
    ensures rank.None? <==> forall a <- attempts :: Counts(a, details, q) ==> a.user != q.user
    ensures rank.Some? ==> exists b :: GivesAccuracyRank(b, attempts, details, q, rank.value)
  {
    rank := GetRank(Accuracy, attempts, details, q);
    forall a ensures a in Counting(Accuracy, attempts, details, q) <==> a in attempts && Counts(a, details, q) {
      CountingIsDirect(Accuracy, attempts, details, q, a);
    }
    if rank.Some? {
      ghost var b := RankIsDirect(Accuracy, attempts, details, q, rank.value);
    }
  }

  /** Students with the same best share the rank, and a better best has a better rank. */
  lemma BetterBestRanksHigher(kind: Kind, counting: seq<Attempt>, score: Attempt -> real,
                              u: nat, x: real, w: nat, y: real)
    requires IsBest(kind, counting, score, u, x) && IsBest(kind, counting, score, w, y)
    ensures x == y <==> |UsersAhead(kind, counting, score, x)| == |UsersAhead(kind, counting, score, y)|
    ensures kind.Ahead(x, y) <==> |UsersAhead(kind, counting, score, x)| < |UsersAhead(kind, counting, score, y)|
  {
    if kind.Ahead(x, y) {
      StrictlyFewer(kind, counting, score, u, x, y);
    } else if kind.Ahead(y, x) {
      StrictlyFewer(kind, counting, score, w, y, x);
    }
  }

  lemma StrictlyFewer(kind: Kind, counting: seq<Attempt>, score: Attempt -> real, u: nat, x: real, y: real)
    requires IsBest(kind, counting, score, u, x) && kind.Ahead(x, y)
    ensures |UsersAhead(kind, counting, score, x)| < |UsersAhead(kind, counting, score, y)|
  {
    var a, b := UsersAhead(kind, counting, score, x), UsersAhead(kind, counting, score, y);
    assert a <= b && u in b && u !in a;
    Smaller(a, b, u);
  }

  lemma Smaller(a: set<nat>, b: set<nat>, u: nat)
    requires a <= b && u in b && u !in a
    ensures |a| < |b|
  {
    assert |b| == |a| + |b - a|;
    assert u in b - a;
  }
}
