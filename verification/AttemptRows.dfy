/** Attempts joined with their answers, as the reports over them start (attempt.service.ts lines 4909-4933,
    5044-5068 and 5978-6007). */
module AttemptRows {
  import opened Lists
  import opened Pipelines

  datatype Answer = Answer(status: int, time: int, marks: int, subject: nat)

  datatype Attempt = Attempt(
    id: nat, user: nat, test: nat, abandoned: bool, evaluated: bool, missed: int, corrects: int, mark: int)

  datatype Detail = Detail(attempt: nat, answers: seq<Answer>)

  /** An attempt joined with one of its details, and then with one answer of it. */
  datatype Record = Record(attempt: Attempt, answers: seq<Answer>)
  datatype Row = Row(attempt: Attempt, answer: Answer)

  /** The status of an answer that was not given. */
  const MISSED := 3

  function Linked(): Attempt -> Detail -> bool {
    (a: Attempt) => (d: Detail) => d.attempt == a.id
  }

  function WithAnswers(): Attempt -> Detail -> Record {
    (a: Attempt) => (d: Detail) => Record(a, d.answers)
  }

  /** The records of one attempt: one per detail. */
  function RecordsOf(details: seq<Detail>): Attempt -> seq<Record> {
    Joined(details, Linked(), WithAnswers())
  }

  function Unwind(): Record -> seq<Row> {
    (r: Record) => Map((x: Answer) => Row(r.attempt, x), r.answers)
  }

  function AttemptId(): Row -> nat { (r: Row) => r.attempt.id }

  ghost predicate UniqueIds(attempts: seq<Attempt>) {
    forall i, j | 0 <= i < j < |attempts| :: attempts[i].id != attempts[j].id
  }

  lemma {:induction false} UniqueIdsFiltered(p: Attempt -> bool, s: seq<Attempt>)
    requires UniqueIds(s)
    ensures UniqueIds(Filter(p, s))
  {
    if s != [] {
      UniqueIdsFiltered(p, s[1..]);
      FilterElements(p, s[1..]);
      assert forall a <- s[1..] :: a.id != s[0].id by {
        assert forall i | 0 < i < |s| :: s[i].id != s[0].id;
      }
    }
  }

  lemma RecordsCarryAttempt(a: Attempt, details: seq<Detail>)
    ensures forall x <- RecordsOf(details)(a) :: x.attempt == a
  {
    forall x | x in RecordsOf(details)(a) ensures x.attempt == a {
      MapElement(WithAnswers()(a), Filter(Linked()(a), details), x);
      var d :| WithAnswers()(a)(d) == x;
    }
  }

  /** Every row of an attempt carries that attempt. */
  lemma RowCarriesAttempt(a: Attempt, records: seq<Record>, r: Row)
    requires r in FlatMap(Unwind(), records) && forall x <- records :: x.attempt == a
    ensures r.attempt == a
  {
    var x := FlatMapElement(Unwind(), records, r);
  }

  // ----- The answers of an attempt, without the join -----

  function AnyRecord(): Record -> bool { (r: Record) => true }
  function AnyAnswer(): Answer -> bool { (x: Answer) => true }
  function EachOnce(): Answer -> int { (x: Answer) => 1 }

  function IfOn(on: Answer -> bool, v: Answer -> int): Answer -> int {
    (x: Answer) => if on(x) then v(x) else 0
  }

  /** What a detail adds for attempt `a`: its answers count if it is a detail of `a` and `keep` lets the joined
      record through. */
  function OfDetail(a: Attempt, keep: Record -> bool, on: Answer -> bool, v: Answer -> int): Detail -> int {
    (d: Detail) => if d.attempt == a.id && keep(Record(a, d.answers)) then SumBy(IfOn(on, v), d.answers) else 0
  }

  /** The sum of `v` over the answers of attempt `a` that `on` selects. */
  function AnswerSum(a: Attempt, details: seq<Detail>, keep: Record -> bool,
                     on: Answer -> bool, v: Answer -> int): int
  {
    SumBy(OfDetail(a, keep, on, v), details)
  }

  /** Attempt `a` has an answer that `on` selects. */
  ghost predicate HasAnswer(a: Attempt, details: seq<Detail>, keep: Record -> bool, on: Answer -> bool) {
    exists d, x :: d in details && d.attempt == a.id && keep(Record(a, d.answers)) && x in d.answers && on(x)
  }

  function OfRow(v: Answer -> int): Row -> int { (r: Row) => v(r.answer) }
  function OnRow(on: Answer -> bool): Row -> bool { (r: Row) => on(r.answer) }

  function Picked(a: Attempt, details: seq<Detail>, keep: Record -> bool, on: Answer -> bool): seq<Row> {
    Filter(OnRow(on), FlatMap(Unwind(), Filter(keep, RecordsOf(details)(a))))
  }

  lemma {:induction false} UnwoundSum(a: Attempt, answers: seq<Answer>, on: Answer -> bool, v: Answer -> int)
    ensures SumBy(OfRow(v), Filter(OnRow(on), Map((x: Answer) => Row(a, x), answers))) == SumBy(IfOn(on, v), answers)
  {
    if answers != [] {
      var f := (x: Answer) => Row(a, x);
      UnwoundSum(a, answers[1..], on, v);
      MapCons(f, answers);
      FilterCons(OnRow(on), f(answers[0]), Map(f, answers[1..]));
    }
  }

  lemma PickedNext(a: Attempt, details: seq<Detail>, keep: Record -> bool, on: Answer -> bool, v: Answer -> int)
    requires details != []
    ensures SumBy(OfRow(v), Picked(a, details, keep, on)) ==
      OfDetail(a, keep, on, v)(details[0]) + SumBy(OfRow(v), Picked(a, details[1..], keep, on))
  {
    var d, rest := details[0], RecordsOf(details[1..])(a);
    if Linked()(a)(d) {
      var r := Record(a, d.answers);
      MapCons(WithAnswers()(a), Filter(Linked()(a), details));
      assert Filter(Linked()(a), details)[1..] == Filter(Linked()(a), details[1..]);
      assert RecordsOf(details)(a) == [r] + rest;
      FilterCons(keep, r, rest);
      if keep(r) {
        var later := Filter(keep, rest);
        assert ([r] + later)[1..] == later;
        FilterAppend(OnRow(on), Unwind()(r), FlatMap(Unwind(), later));
        SumByAppend(OfRow(v), Filter(OnRow(on), Unwind()(r)), Filter(OnRow(on), FlatMap(Unwind(), later)));
        UnwoundSum(a, d.answers, on, v);
      }
    }
  }

  /** The rows that the join makes of an attempt add up to its answers. */
  lemma {:induction false} PickedSum(a: Attempt, details: seq<Detail>, keep: Record -> bool,
                                     on: Answer -> bool, v: Answer -> int)
    ensures SumBy(OfRow(v), Picked(a, details, keep, on)) == AnswerSum(a, details, keep, on, v)
  {
    if details == [] {
      assert RecordsOf(details)(a) == [];
      assert Picked(a, details, keep, on) == [];
    } else {
      PickedNext(a, details, keep, on, v);
      PickedSum(a, details[1..], keep, on, v);
    }
  }

  /** There is a row exactly if there is such an answer. */
  lemma PickedExists(a: Attempt, details: seq<Detail>, keep: Record -> bool, on: Answer -> bool)
    ensures Picked(a, details, keep, on) != [] <==> HasAnswer(a, details, keep, on)
  {
    var rows, records := FlatMap(Unwind(), Filter(keep, RecordsOf(details)(a))), RecordsOf(details)(a);
    if Picked(a, details, keep, on) != [] {
      var r := Picked(a, details, keep, on)[0];
      FilterElement(OnRow(on), rows, r);
      var x := FlatMapElement(Unwind(), Filter(keep, records), r);
      FilterElement(keep, records, x);
      MapElement(WithAnswers()(a), Filter(Linked()(a), details), x);
      var d :| d in Filter(Linked()(a), details) && WithAnswers()(a)(d) == x;
      FilterElement(Linked()(a), details, d);
      MapElement((y: Answer) => Row(x.attempt, y), x.answers, r);
      assert r.answer in d.answers;
    }
    if d, y :| d in details && d.attempt == a.id && keep(Record(a, d.answers)) && y in d.answers && on(y) {
      var x := Record(a, d.answers);
      FilterElement(Linked()(a), details, d);
      assert WithAnswers()(a)(d) == x;
      MapElement(WithAnswers()(a), Filter(Linked()(a), details), x);
      FilterElement(keep, records, x);
      MapElement((z: Answer) => Row(a, z), d.answers, Row(a, y));
      FlatMapHas(Unwind(), Filter(keep, records), x, Row(a, y));
      FilterElement(OnRow(on), rows, Row(a, y));
    }
  }
}
