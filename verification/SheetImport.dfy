/** Saving the questions of a sheet concurrently (practiceSetExcelService.ts lines 905-1040).  The rows are
    saved in any order; each saved row is pushed to a shared list, which is sorted by creation stamp. */
module SheetImport {
  import opened Lists
  import opened Pipelines

  /** What becomes of a row: a row whose languages do not match is dropped, a failed save rejects. */
  datatype Outcome = Saved(question: nat, section: nat) | Dropped | Failed

  /** `order` is 0 when the sheet gives none. */
  datatype Row = Row(order: nat, outcome: Outcome)
  datatype Question = Question(question: nat, createdAt: int, section: nat, order: nat)

  /** Milliseconds between the creation stamps of neighbouring rows. */
  const STEP := 100

  function Made(rows: seq<Row>, created: int, i: nat): seq<Question> {
    if i < |rows| && rows[i].outcome.Saved? then
      [Question(rows[i].outcome.question, created + STEP * i, rows[i].outcome.section,
                if rows[i].order == 0 then i + 1 else rows[i].order)]
    else []
  }

  /** What a row adds to the shared list. */
  function QuestionOf(rows: seq<Row>, created: int): nat -> seq<Question> {
    (i: nat) => Made(rows, created, i)
  }

  function Upto(n: nat): seq<nat> {
    if n == 0 then [] else Upto(n - 1) + [n - 1]
  }

  /** The saved rows in the order of the sheet. */
  function InSheetOrder(rows: seq<Row>, created: int): seq<Question> {
    FlatMap(QuestionOf(rows, created), Upto(|rows|))
  }

  predicate NotLater(a: Question, b: Question) { a.createdAt <= b.createdAt }

  // ----- The order of completion does not matter -----

  lemma {:induction false} FlatMapWithout<A, R>(f: A -> seq<R>, t: seq<A>, i: nat)
    requires i < |t|
    ensures multiset(FlatMap(f, t)) == multiset(f(t[i])) + multiset(FlatMap(f, t[..i] + t[i + 1..]))
  {
    var rest := t[..i] + t[i + 1..];
    if i == 0 {
      assert rest == t[1..];
    } else {
      FlatMapWithout(f, t[1..], i - 1);
      assert rest[1..] == t[1..][..i - 1] + t[1..][i..];
    }
  }

  /** Permuting the elements permutes what they contribute. */
  lemma {:induction false} FlatMapPermutation<A, R>(f: A -> seq<R>, s: seq<A>, t: seq<A>)
    requires multiset(s) == multiset(t)
    ensures multiset(FlatMap(f, s)) == multiset(FlatMap(f, t))
  {
    if s == [] {
      SameElements(s, t);
    } else {
      var i := PermutedRest(s, t);
      FlatMapPermutation(f, s[1..], t[..i] + t[i + 1..]);
      FlatMapWithout(f, t, i);
    }
  }

  lemma OneMoreRow(rows: seq<Row>, created: int, n: nat)
    ensures FlatMap(QuestionOf(rows, created), Upto(n + 1)) ==
      FlatMap(QuestionOf(rows, created), Upto(n)) + Made(rows, created, n)
  {
    FlatMapSnoc(QuestionOf(rows, created), Upto(n), n);
  }

  lemma {:induction false} StampsGrow(rows: seq<Row>, created: int, n: nat)
    ensures var list := FlatMap(QuestionOf(rows, created), Upto(n));
      && (forall q <- list :: q.createdAt < created + STEP * n)
      && (forall i, j | 0 <= i < j < |list| :: list[i].createdAt < list[j].createdAt)
  {
    if n > 0 {
      StampsGrow(rows, created, n - 1);
      OneMoreRow(rows, created, n - 1);
      assert STEP * n == STEP * (n - 1) + STEP;
    }
  }

  lemma StampsTellApart(list: seq<Question>)
    requires forall i, j | 0 <= i < j < |list| :: list[i].createdAt < list[j].createdAt
    ensures Sorted(NotLater, list)
    ensures forall a, b | a in list && b in list && NotLater(a, b) && NotLater(b, a) :: a == b
  {
    forall a, b | a in list && b in list && NotLater(a, b) && NotLater(b, a) ensures a == b {
      var i :| 0 <= i < |list| && list[i] == a;
      var j :| 0 <= j < |list| && list[j] == b;
    }
  }

  lemma SortedByStamp(pushed: seq<Question>, list: seq<Question>)
    requires multiset(pushed) == multiset(list)
    requires forall i, j | 0 <= i < j < |list| :: list[i].createdAt < list[j].createdAt
    ensures Sort(NotLater, pushed) == list
  {
    var s := Sort(NotLater, pushed);
    StampsTellApart(list);
    SortElements(NotLater, pushed);
    SortSorts(NotLater, pushed);
    SameElements(s, list);
    SortedUnique(NotLater, s, list);
  }

  /** Whatever order the rows complete in, pushing and sorting by creation stamp gives the saved rows in the
      order of the sheet. */
  lemma AnyCompletionOrder(rows: seq<Row>, created: int, finishing: seq<nat>)
    requires multiset(finishing) == multiset(Upto(|rows|))
    ensures Sort(NotLater, FlatMap(QuestionOf(rows, created), finishing)) == InSheetOrder(rows, created)
  {
    FlatMapPermutation(QuestionOf(rows, created), finishing, Upto(|rows|));
    StampsGrow(rows, created, |rows|);
    SortedByStamp(FlatMap(QuestionOf(rows, created), finishing), InSheetOrder(rows, created));
  }

  /** How many of the first `n` rows are saved. */
  ghost function SavedBefore(rows: seq<Row>, n: nat): nat {
    |set i | 0 <= i < n && i < |rows| && rows[i].outcome.Saved?|
  }

  lemma SavedStep(rows: seq<Row>, n: nat)
    requires n < |rows|
    ensures SavedBefore(rows, n + 1) == SavedBefore(rows, n) + if rows[n].outcome.Saved? then 1 else 0
  {
    var s := set i | 0 <= i < n && i < |rows| && rows[i].outcome.Saved?;
    var s' := set i | 0 <= i < n + 1 && i < |rows| && rows[i].outcome.Saved?;
    assert s' == if rows[n].outcome.Saved? then s + {n} else s;
  }

  lemma {:induction false} SheetLength(rows: seq<Row>, created: int, n: nat)
    requires n <= |rows|
    ensures |FlatMap(QuestionOf(rows, created), Upto(n))| == SavedBefore(rows, n)
  {
    if n > 0 {
      SheetLength(rows, created, n - 1);
      OneMoreRow(rows, created, n - 1);
      SavedStep(rows, n - 1);
    }
  }

  lemma {:induction false} SheetAt(rows: seq<Row>, created: int, n: nat, i: nat)
    requires i < n <= |rows| && rows[i].outcome.Saved?
    ensures var list := FlatMap(QuestionOf(rows, created), Upto(n));
      SavedBefore(rows, i) < |list| && list[SavedBefore(rows, i)] == Made(rows, created, i)[0]
  {
    OneMoreRow(rows, created, n - 1);
    if i < n - 1 {
      SheetAt(rows, created, n - 1, i);
    } else {
      SheetLength(rows, created, n - 1);
    }
  }

  /** The list has every saved row, behind the saved rows before it: its question and section, a stamp of 100
      milliseconds per row, and the order of the sheet, or else its row number. */
  lemma SheetOrderHolds(rows: seq<Row>, created: int, i: nat)
    requires i < |rows| && rows[i].outcome.Saved?
    ensures var list := InSheetOrder(rows, created);
      && |list| == SavedBefore(rows, |rows|) && SavedBefore(rows, i) < |list|
      && list[SavedBefore(rows, i)] == Question(rows[i].outcome.question, created + 100 * i, rows[i].outcome.section,
                                                if rows[i].order == 0 then i + 1 else rows[i].order)
  {
    SheetLength(rows, created, |rows|);
    SheetAt(rows, created, |rows|, i);
  }

  // ----- The default orders -----

  /** No saved row comes after one that was not saved. */
  predicate SavedFirst(rows: seq<Row>) {
    forall i, j | 0 <= i < j < |rows| :: rows[j].outcome.Saved? ==> rows[i].outcome.Saved?
  }

  predicate Counted(list: seq<Question>) {
    forall k | 0 <= k < |list| :: list[k].order == k + 1
  }

  predicate NoOrders(rows: seq<Row>) { forall r <- rows :: r.order == 0 }

  lemma CountedSnoc(list: seq<Question>, q: Question)
    ensures Counted(list + [q]) <==> Counted(list) && q.order == |list| + 1
  {
    assert forall k | 0 <= k < |list| :: (list + [q])[k] == list[k];
    assert (list + [q])[|list|] == q;
  }

  lemma SavedFirstSnoc(rows: seq<Row>, r: Row)
    ensures SavedFirst(rows + [r]) <==>
      SavedFirst(rows) && (r.outcome.Saved? ==> forall i | 0 <= i < |rows| :: rows[i].outcome.Saved?)
  {
    assert forall k | 0 <= k < |rows| :: (rows + [r])[k] == rows[k];
    assert (rows + [r])[|rows|] == r;
  }

  lemma MadeDefault(rows: seq<Row>, created: int, i: nat)
    requires i < |rows| && rows[i].order == 0
    ensures var made := Made(rows, created, i);
      if rows[i].outcome.Saved? then made == [made[0]] && made[0].order == i + 1 else made == []
  {
  }

  lemma {:induction false} DefaultOrders(rows: seq<Row>, created: int, n: nat)
    requires n <= |rows| && NoOrders(rows)
    ensures var list := FlatMap(QuestionOf(rows, created), Upto(n));
      && |list| <= n
      && (|list| == n <==> forall i | 0 <= i < n :: rows[i].outcome.Saved?)
      && (Counted(list) <==> SavedFirst(rows[..n]))
  {
    if n > 0 {
      var before, made := FlatMap(QuestionOf(rows, created), Upto(n - 1)), Made(rows, created, n - 1);
      DefaultOrders(rows, created, n - 1);
      OneMoreRow(rows, created, n - 1);
      assert rows[..n] == rows[..n - 1] + [rows[n - 1]];
      assert rows[n - 1] in rows;
      SavedFirstSnoc(rows[..n - 1], rows[n - 1]);
      MadeDefault(rows, created, n - 1);
      if made != [] {
        CountedSnoc(before, made[0]);
      } else {
        assert before + made == before;
      }
    }
  }

  /** Without orders in the sheet, the questions are numbered 1, 2, 3... exactly if no saved row comes after
      one that was not. */
  lemma OrdersCountExactly(rows: seq<Row>, created: int)
    requires NoOrders(rows)
    ensures Counted(InSheetOrder(rows, created)) <==> SavedFirst(rows)
  {
    DefaultOrders(rows, created, |rows|);
    assert rows[..|rows|] == rows;
  }

  // ----- The import -----

  predicate Succeeds(rows: seq<Row>, i: nat) { i < |rows| && !rows[i].outcome.Failed? }

  predicate NoneFails(rows: seq<Row>) {
    forall i | 0 <= i < |rows| :: Succeeds(rows, i)
  }

  predicate AllSucceed(rows: seq<Row>, finished: seq<nat>) {
    forall j | 0 <= j < |finished| :: Succeeds(rows, finished[j])
  }

  class Import {
    const rows: seq<Row>
    const created: int
    var practiceQuestions: seq<Question>
    var stored: seq<Question>

    constructor (rows: seq<Row>, created: int)
      ensures this.rows == rows && this.created == created && practiceQuestions == [] && stored == []
    {
      this.rows, this.created := rows, created;
      practiceQuestions, stored := [], [];
    }

    /** The end of one row's callback: a saved question is pushed to the shared list. */
    method Complete(idx: nat) returns (ok: bool)
      requires idx < |rows|
      modifies this`practiceQuestions
      ensures ok <==> !rows[idx].outcome.Failed?
      ensures practiceQuestions == old(practiceQuestions) + Made(rows, created, idx)
    {
      match rows[idx].outcome
      case Saved(question, section) =>
        var order := if rows[idx].order == 0 then idx + 1 else rows[idx].order;
        practiceQuestions := practiceQuestions + [Question(question, created + STEP * idx, section, order)];
        return true;
      case Dropped =>
        return true;
      case Failed =>
        return false;
    }

    /** `storePracticeSetData`, from the creation of the questions on: the callbacks end in the order of
        `finishing`, and nothing is stored if one of them failed. */
    method StorePracticeSetData(finishing: seq<nat>) returns (ok: bool)
      requires practiceQuestions == [] && stored == []
      requires multiset(finishing) == multiset(Upto(|rows|))
      modifies this
      ensures ok <==> NoneFails(rows)
      ensures stored == if ok then InSheetOrder(rows, created) else []
    {
      ok := true;
      for k := 0 to |finishing|
        invariant stored == []
        invariant practiceQuestions == FlatMap(QuestionOf(rows, created), finishing[..k])
        invariant ok <==> AllSucceed(rows, finishing[..k])
      {
        FinishedIsRow(rows, finishing, finishing[k]);
        FlatMapSnoc(QuestionOf(rows, created), finishing[..k], finishing[k]);
        assert finishing[..k + 1] == finishing[..k] + [finishing[k]];
        var done := Complete(finishing[k]);
        ok := ok && done;
      }
      assert finishing[..|finishing|] == finishing;
      AllRowsFinish(rows, finishing);
      if ok {
        AnyCompletionOrder(rows, created, finishing);
        stored := Sort(NotLater, practiceQuestions);
      }
    }
  }

  lemma {:induction false} UptoHolds(n: nat)
    ensures forall i: nat :: i in Upto(n) <==> i < n
  {
    if n > 0 {
      UptoHolds(n - 1);
    }
  }


  lemma FinishedSucceeds(rows: seq<Row>, finishing: seq<nat>, i: nat)
    requires i in finishing && AllSucceed(rows, finishing)
    ensures Succeeds(rows, i)
  {
    var j :| 0 <= j < |finishing| && finishing[j] == i;
  }

  lemma FinishedIsRow(rows: seq<Row>, finishing: seq<nat>, i: nat)
    requires multiset(finishing) == multiset(Upto(|rows|))
    ensures i in finishing <==> i < |rows|
  {
    SameElements(finishing, Upto(|rows|));
    UptoHolds(|rows|);
  }

  lemma AllRowsFinish(rows: seq<Row>, finishing: seq<nat>)
    requires multiset(finishing) == multiset(Upto(|rows|))
    ensures NoneFails(rows) <==> AllSucceed(rows, finishing)
  {
    if NoneFails(rows) {
      forall j | 0 <= j < |finishing| ensures Succeeds(rows, finishing[j]) {
        FinishedIsRow(rows, finishing, finishing[j]);
      }
    }
    if AllSucceed(rows, finishing) {
      forall i: nat | i < |rows| ensures Succeeds(rows, i) {
        FinishedIsRow(rows, finishing, i);
        FinishedSucceeds(rows, finishing, i);
      }
    }
  }
}
