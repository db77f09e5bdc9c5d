/** The order of the questions of a test, and the list students and teachers see. */
module QuestionOrder {
  import opened Lists

  /** A question of a test; `order` 0 stands for an order that was never stored. */
  datatype QRef = QRef(question: nat, order: nat, section: string)

  /** `sortBy(questions, 'order')`: a missing order sorts last. */
  predicate Before(a: QRef, b: QRef) {
    b.order == 0 || (a.order != 0 && a.order <= b.order)
  }

  function Ids(qs: seq<QRef>): (r: seq<nat>)
    ensures |r| == |qs|
  {
    seq(|qs|, i requires 0 <= i < |qs| => qs[i].question)
  }

  /** The question list (`getQuestionList`, line 2367). */
  function Listing(qs: seq<QRef>): (r: seq<nat>) {
    Ids(Sort(Before, qs))
  }

  /** The orders are a permutation of 1..n. */
  ghost predicate Numbered(qs: seq<QRef>) {
    && (forall i | 0 <= i < |qs| :: 1 <= qs[i].order <= |qs|)
    && (forall i, j | 0 <= i < j < |qs| :: qs[i].order != qs[j].order)
  }

  /** No order was ever stored. */
  ghost predicate Unnumbered(qs: seq<QRef>) {
    forall i | 0 <= i < |qs| :: qs[i].order == 0
  }

  ghost predicate WellKept(qs: seq<QRef>) {
    Distinct(Ids(qs)) && (Numbered(qs) || Unnumbered(qs))
  }

  // ----- The listing of a numbered test -----

  lemma {:induction false} StrictlyIncreasingOrders(s: seq<QRef>, k: nat)
    requires k < |s|
    requires forall i | 0 <= i < |s| :: 1 <= s[i].order <= |s|
    requires forall i, j | 0 <= i < j < |s| :: s[i].order < s[j].order
    ensures s[k].order >= k + 1
    ensures s[|s| - 1 - k].order <= |s| - k
  {
    if k > 0 {
      StrictlyIncreasingOrders(s, k - 1);
    }
  }

  lemma SortedOrders(qs: seq<QRef>)
    requires Numbered(qs)
    ensures var s := Sort(Before, qs);
      |s| == |qs| && forall k | 0 <= k < |s| :: s[k].order == k + 1 && s[k] in qs
  {
    var s := Sort(Before, qs);
    SortSorts(Before, qs);
    SortElements(Before, qs);
    SameElements(s, qs);
    assert Distinct(qs);
    DistinctCounts(qs);
    DistinctCounts(s);
    forall i, j | 0 <= i < j < |s| ensures s[i].order < s[j].order {
      assert Before(s[i], s[j]) && s[i] in qs && s[j] in qs && s[i] != s[j];
    }
    forall k | 0 <= k < |s| ensures s[k].order == k + 1 {
      assert forall i | 0 <= i < |s| :: s[i] in qs;
      StrictlyIncreasingOrders(s, k);
      StrictlyIncreasingOrders(s, |s| - 1 - k);
    }
  }

  /** `l` shows every question at its order. */
  ghost predicate Shows(l: seq<nat>, qs: seq<QRef>) {
    |l| == |qs| && forall i | 0 <= i < |qs| :: 1 <= qs[i].order <= |qs| && l[qs[i].order - 1] == qs[i].question
  }

  lemma SameOrderSameQuestion(qs: seq<QRef>, q: QRef, i: nat)
    requires Numbered(qs) && q in qs && i < |qs| && q.order == qs[i].order
    ensures q == qs[i]
  {
  }

  lemma ListingIsShown(qs: seq<QRef>)
    requires Numbered(qs)
    ensures Shows(Listing(qs), qs)
  {
    var s := Sort(Before, qs);
    SortedOrders(qs);
    forall i | 0 <= i < |qs| ensures Listing(qs)[qs[i].order - 1] == qs[i].question {
      var k := qs[i].order - 1;
      assert s[k].order == k + 1 && s[k] in qs;
      SameOrderSameQuestion(qs, s[k], i);
    }
  }

  lemma ShownAt(qs: seq<QRef>, s: seq<QRef>, l: seq<nat>, k: nat)
    requires Shows(l, qs) && k < |s| == |qs| && s[k].order == k + 1 && s[k] in qs
    ensures l[k] == s[k].question
  {
    var i :| 0 <= i < |qs| && qs[i] == s[k];
    assert l[qs[i].order - 1] == qs[i].question;
  }

  lemma ShownIsListed(qs: seq<QRef>, l: seq<nat>)
    requires Numbered(qs) && Shows(l, qs)
    ensures l == Listing(qs)
  {
    var s := Sort(Before, qs);
    SortedOrders(qs);
    forall k | 0 <= k < |l| ensures l[k] == Listing(qs)[k] {
      assert s[k].order == k + 1 && s[k] in qs;
      ShownAt(qs, s, l, k);
    }
  }

  /** For a numbered test the listing is the one list that shows every question at its order. */
  lemma ListingShows(qs: seq<QRef>, l: seq<nat>)
    requires Numbered(qs)
    ensures Shows(l, qs) <==> l == Listing(qs)
  {
    ListingIsShown(qs);
    if Shows(l, qs) {
      ShownIsListed(qs, l);
    }
  }

  // ----- Numbering an old test -----

  /** Orders by position, as stored when the first question has none (lines 4786-4790). */
  function ByPosition(qs: seq<QRef>): (r: seq<QRef>)
    ensures |r| == |qs|
  {
    seq(|qs|, i requires 0 <= i < |qs| => qs[i].(order := i + 1))
  }

  function WithOrders(qs: seq<QRef>): (r: seq<QRef>)
    ensures |r| == |qs|
  {
    if qs != [] && qs[0].order == 0 then ByPosition(qs) else qs
  }

  lemma PositionsShow(qs: seq<QRef>)
    ensures Shows(Ids(qs), ByPosition(qs))
  {
  }

  lemma PositionsList(qs: seq<QRef>)
    ensures Numbered(ByPosition(qs)) && Ids(ByPosition(qs)) == Ids(qs) == Listing(ByPosition(qs))
  {
    PositionsShow(qs);
    ShownIsListed(ByPosition(qs), Ids(qs));
  }

  lemma UnnumberedListing(qs: seq<QRef>)
    requires Unnumbered(qs)
    ensures Listing(qs) == Ids(qs)
  {
    SortOfSorted(Before, qs);
  }

  /** Numbering an old test does not change what is listed. */
  lemma WithOrdersKeepsListing(qs: seq<QRef>)
    requires WellKept(qs)
    ensures Numbered(WithOrders(qs)) && Ids(WithOrders(qs)) == Ids(qs)
    ensures Listing(WithOrders(qs)) == Listing(qs)
  {
    if Unnumbered(qs) {
      UnnumberedListing(qs);
      PositionsList(qs);
    } else {
      assert WithOrders(qs) == qs;
    }
  }

  // ----- Moving a question -----

  /** The new order of a question with order `o`, when the one with order `from` goes to `to`. */
  function Shift(o: int, from: int, to: int): int {
    if o == from then to
    else if from > to && to <= o < from then o + 1
    else if from <= to && from < o <= to then o - 1
    else o
  }

  lemma ShiftBack(o: int, from: int, to: int)
    ensures Shift(Shift(o, from, to), to, from) == o
  {
  }

  function Moved(qs: seq<QRef>, from: int, to: int): (r: seq<QRef>)
    requires Numbered(qs) && 1 <= from <= |qs| && 1 <= to <= |qs|
    ensures |r| == |qs| && Numbered(r)
    ensures forall i | 0 <= i < |qs| ::
      r[i] == qs[i].(order := r[i].order) && r[i].order == Shift(qs[i].order, from, to)
  {
    var r := seq(|qs|, i requires 0 <= i < |qs| => qs[i].(order := Shift(qs[i].order, from, to)));
    ShiftedNumbered(qs, r, from, to);
    r
  }

  lemma ShiftedNumbered(qs: seq<QRef>, r: seq<QRef>, from: int, to: int)
    requires Numbered(qs) && 1 <= from <= |qs| && 1 <= to <= |qs| && |r| == |qs|
    requires forall i | 0 <= i < |qs| :: r[i].order == Shift(qs[i].order, from, to)
    ensures Numbered(r)
  {
    forall i, j | 0 <= i < j < |qs| ensures r[i].order != r[j].order {
      ShiftBack(qs[i].order, from, to);
      ShiftBack(qs[j].order, from, to);
    }
  }

  /** Take the element at `from` out of `l` and put it back in at `to`. */
  function MoveElement<T>(l: seq<T>, from: nat, to: nat): (r: seq<T>)
    requires from < |l| && to < |l|
    ensures |r| == |l|
  {
    var rest := l[..from] + l[from + 1..];
    rest[..to] + [l[from]] + rest[to..]
  }

  lemma MovedElementAt<T>(l: seq<T>, from: nat, to: nat, o: nat)
    requires 1 <= from <= |l| && 1 <= to <= |l| && 1 <= o <= |l|
    ensures 1 <= Shift(o, from, to) <= |l|
    ensures MoveElement(l, from - 1, to - 1)[Shift(o, from, to) - 1] == l[o - 1]
  {
  }

  /** The listing after a move is the old listing with the question taken out and re-inserted. */
  lemma MoveListing(qs: seq<QRef>, from: nat, to: nat)
    requires Numbered(qs) && 1 <= from <= |qs| && 1 <= to <= |qs|
    ensures |Listing(qs)| == |qs|
    ensures Listing(Moved(qs, from, to)) == MoveElement(Listing(qs), from - 1, to - 1)
  {
    ListingIsShown(qs);
    MoveShows(Listing(qs), qs, from, to);
    ShownIsListed(Moved(qs, from, to), MoveElement(Listing(qs), from - 1, to - 1));
  }

  lemma MoveShows(l: seq<nat>, qs: seq<QRef>, from: nat, to: nat)
    requires Numbered(qs) && Shows(l, qs) && 1 <= from <= |qs| && 1 <= to <= |qs|
    ensures Shows(MoveElement(l, from - 1, to - 1), Moved(qs, from, to))
  {
    var r := Moved(qs, from, to);
    forall i | 0 <= i < |r|
      ensures 1 <= r[i].order <= |r| && MoveElement(l, from - 1, to - 1)[r[i].order - 1] == r[i].question
    {
      MovedElementAt(l, from, to, qs[i].order);
      assert l[qs[i].order - 1] == qs[i].question;
    }
  }

  /** Moving the question back restores every order. */
  lemma MoveBack(qs: seq<QRef>, from: nat, to: nat)
    requires Numbered(qs) && 1 <= from <= |qs| && 1 <= to <= |qs|
    ensures Moved(Moved(qs, from, to), to, from) == qs
  {
    forall i | 0 <= i < |qs| ensures Moved(Moved(qs, from, to), to, from)[i] == qs[i] {
      ShiftBack(qs[i].order, from, to);
    }
  }

  /** Questions other than the moved one keep their relative order. */
  lemma OthersKeepOrder(qs: seq<QRef>, from: nat, to: nat, i: nat, j: nat)
    requires Numbered(qs) && 1 <= from <= |qs| && 1 <= to <= |qs|
    requires i < |qs| && j < |qs| && qs[i].order != from && qs[j].order != from
    ensures var r := Moved(qs, from, to); r[i].order < r[j].order <==> qs[i].order < qs[j].order
  {
  }

  /** The shifts of lines 4810-4827 on any records: the one at `at` goes to `to`, and the records of other
      questions between its old and its new order make room. */
  function Reordered(qs: seq<QRef>, at: nat, to: nat): (r: seq<QRef>)
    requires at < |qs|
    ensures |r| == |qs|
  {
    var from := qs[at].order;
    seq(|qs|, i requires 0 <= i < |qs| =>
      if i == at then qs[i].(order := to)
      else if qs[i].question == qs[at].question || qs[i].order == from then qs[i]
      else qs[i].(order := Shift(qs[i].order, from, to)))
  }

  lemma ReorderedIsMoved(qs: seq<QRef>, at: nat, to: nat)
    requires at < |qs| && Numbered(qs) && Distinct(Ids(qs)) && 1 <= to <= |qs|
    ensures Reordered(qs, at, to) == Moved(qs, qs[at].order, to)
  {
    assert forall i | 0 <= i < |qs| && i != at :: Ids(qs)[i] != Ids(qs)[at] && qs[i].order != qs[at].order;
  }

  // ----- Removing a question -----

  function NotQuestion(id: nat): QRef -> bool { (q: QRef) => q.question != id }

  /** The questions as stored after a removal: pulled, sorted if they had orders, numbered anew. */
  function Removed(qs: seq<QRef>, id: nat): seq<QRef> {
    var left := Filter(NotQuestion(id), qs);
    ByPosition(if left != [] && left[0].order != 0 then Sort(Before, left) else left)
  }

  function Without(l: seq<nat>, id: nat): (r: seq<nat>)
    ensures id !in r && |r| <= |l|
    ensures forall x <- r :: x in l
  {
    if l == [] then []
    else if l[0] != id then [l[0]] + Without(l[1..], id)
    else Without(l[1..], id)
  }

  lemma {:induction false} WithoutDistinct(l: seq<nat>, id: nat)
    requires Distinct(l)
    ensures Distinct(Without(l, id))
    ensures |Without(l, id)| == if id in l then |l| - 1 else |l|
  {
    if l != [] {
      var t := l[1..];
      assert l[0] !in t by {
        assert forall i | 0 <= i < |t| :: t[i] == l[i + 1] && l[0] != l[i + 1];
      }
      WithoutDistinct(t, id);
      assert l[0] !in Without(t, id);
    }
  }

  lemma {:induction false} FilterIds(qs: seq<QRef>, id: nat)
    ensures Ids(Filter(NotQuestion(id), qs)) == Without(Ids(qs), id)
  {
    if qs != [] {
      FilterIds(qs[1..], id);
      assert Ids(qs)[1..] == Ids(qs[1..]);
    }
  }

  /** All questions have an order, or none has. */
  ghost predicate Uniform(qs: seq<QRef>) {
    Unnumbered(qs) || forall q <- qs :: q.order != 0
  }

  /** Even if the orders have gaps, after a removal they are 1..n again, the listing is the old one without
      the question, and the questions are stored in listing order. */
  lemma RemoveListing(qs: seq<QRef>, id: nat)
    requires Uniform(qs)
    ensures var r := Removed(qs, id);
      Numbered(r) && Ids(r) == Listing(r) == Without(Listing(qs), id)
  {
    var p := NotQuestion(id);
    var left := Filter(p, qs);
    var r := Removed(qs, id);
    FilterElements(p, qs);
    FilterIds(Sort(Before, qs), id);
    if Unnumbered(qs) {
      UnnumberedListing(qs);
      FilterIds(qs, id);
      assert left != [] ==> left[0] in qs;
    } else {
      SortFiltered(p, Before, qs);
      assert left != [] ==> left[0] in qs;
    }
    PositionsList(if left != [] && left[0].order != 0 then Sort(Before, left) else left);
  }

  /** Pulling a question without numbering the rest takes it out of the listing all the same. */
  lemma PullListing(qs: seq<QRef>, id: nat)
    ensures Listing(Filter(NotQuestion(id), qs)) == Without(Listing(qs), id)
  {
    SortFiltered(NotQuestion(id), Before, qs);
    FilterIds(Sort(Before, qs), id);
  }

  /** But it leaves a gap, except exactly if the question was the last. */
  lemma PullNumberedExactly(qs: seq<QRef>, i: nat)
    requires Numbered(qs) && i < |qs|
    ensures Numbered(qs[..i] + qs[i + 1..]) <==> qs[i].order == |qs|
  {
    var left := qs[..i] + qs[i + 1..];
    assert forall j | 0 <= j < |left| :: left[j] == qs[if j < i then j else j + 1];
    if qs[i].order != |qs| {
      var k := OneHasOrder(qs, |qs|);
      assert left[if k < i then k else k - 1].order == |qs|;
    }
  }

  lemma OneHasOrder(qs: seq<QRef>, o: nat) returns (k: nat)
    requires Numbered(qs) && 1 <= o <= |qs|
    ensures k < |qs| && qs[k].order == o
  {
    SortedOrders(qs);
    var q := Sort(Before, qs)[o - 1];
    k :| 0 <= k < |qs| && qs[k] == q;
  }

  /** With distinct ids, pulling a question takes one record out. */
  lemma {:induction false} PullsOne(qs: seq<QRef>, i: nat)
    requires Distinct(Ids(qs)) && i < |qs|
    ensures Filter(NotQuestion(qs[i].question), qs) == qs[..i] + qs[i + 1..]
  {
    var rest := qs[1..];
    assert Ids(rest) == Ids(qs)[1..];
    if i == 0 {
      forall q | q in rest ensures q.question != qs[0].question {
        var j :| 0 <= j < |rest| && rest[j] == q;
        assert Ids(qs)[j + 1] == q.question && Ids(qs)[0] != Ids(qs)[j + 1];
      }
      KeepsAll(rest, qs[0].question);
    } else {
      assert Ids(qs)[0] != Ids(qs)[i];
      PullsOne(rest, i - 1);
      assert qs[..i] + qs[i + 1..] == [qs[0]] + (rest[..i - 1] + rest[i..]);
    }
  }

  lemma {:induction false} KeepsAll(qs: seq<QRef>, id: nat)
    requires forall q <- qs :: q.question != id
    ensures Filter(NotQuestion(id), qs) == qs
  {
    if qs != [] {
      KeepsAll(qs[1..], id);
    }
  }

  // ----- Importing questions -----

  /** A question to import, with the name of its subject. */
  datatype Addition = Addition(question: nat, subject: string)

  /** The imported questions, numbered from `n` on (lines 9199-9206). */
  function Appended(n: nat, added: seq<Addition>): (r: seq<QRef>)
    ensures |r| == |added|
  {
    seq(|added|, i requires 0 <= i < |added| => QRef(added[i].question, n + i + 1, added[i].subject))
  }

  function Imported(qs: seq<QRef>, added: seq<Addition>): seq<QRef> {
    WithOrders(qs) + Appended(|qs|, added)
  }

  function AddedIds(added: seq<Addition>): (r: seq<nat>)
    ensures |r| == |added|
  {
    Ids(Appended(0, added))
  }

  lemma AppendShows(l: seq<nat>, qs: seq<QRef>, added: seq<Addition>)
    requires Shows(l, qs)
    ensures Shows(l + AddedIds(added), qs + Appended(|qs|, added))
  {
    var r := qs + Appended(|qs|, added);
    forall i | 0 <= i < |r|
      ensures 1 <= r[i].order <= |r| && (l + AddedIds(added))[r[i].order - 1] == r[i].question
    {
      if i < |qs| {
        assert r[i] == qs[i];
      }
    }
  }

  lemma AppendNumbered(qs: seq<QRef>, added: seq<Addition>)
    requires Numbered(qs)
    ensures var r := qs + Appended(|qs|, added);
      && Numbered(r) && Ids(r) == Ids(qs) + AddedIds(added)
      && Listing(r) == Listing(qs) + AddedIds(added)
  {
    var r := qs + Appended(|qs|, added);
    ListingIsShown(qs);
    AppendShows(Listing(qs), qs, added);
    forall i | 0 <= i < |r| ensures r[i].order == if i < |qs| then qs[i].order else i + 1 {
    }
    ShownIsListed(r, Listing(qs) + AddedIds(added));
  }

  /** An import appends to the listing and keeps the orders 1..n. */
  lemma ImportListing(qs: seq<QRef>, added: seq<Addition>)
    requires WellKept(qs)
    ensures var r := Imported(qs, added);
      && Numbered(r) && Ids(r) == Ids(qs) + AddedIds(added)
      && Listing(r) == Listing(qs) + AddedIds(added)
  {
    WithOrdersKeepsListing(qs);
    AppendNumbered(WithOrders(qs), added);
  }
}
