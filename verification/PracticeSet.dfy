/** A test under editing: importing, reordering and removing questions, and saving its sections. */
module PracticeSet {
  import opened Lists
  import opened Wrappers
  import opened QuestionOrder
  import opened Sections

  // ----- The question edits on values, and their plain counterparts -----

  /** The stored questions with the stored count. */
  datatype Draft = Draft(questions: seq<QRef>, totalQuestion: int)

  /** `bank` maps each active question to its subject's name; `known` says whether the removed question's
      own record still exists. */
  datatype Edit =
    | Import(ids: seq<nat>, bank: map<nat, string>)
    | Reorder(id: nat, position: int)
    | Remove(id: nat, known: bool)

  ghost predicate Kept(d: Draft) {
    WellKept(d.questions) && d.totalQuestion == |d.questions|
  }

  /** The requested questions that are active, in request order (lines 9188-9195). */
  function Active(ids: seq<nat>, bank: map<nat, string>): (r: seq<Addition>) {
    if ids == [] then []
    else
      var rest := Active(ids[..|ids| - 1], bank);
      var id := ids[|ids| - 1];
      if id in bank then rest + [Addition(id, bank[id])] else rest
  }

  predicate Conflict(qs: seq<QRef>, ids: seq<nat>) {
    exists i | 0 <= i < |qs| :: qs[i].question in ids
  }

  /** The first position of `id`, or the length of the list. */
  function IndexOf(l: seq<nat>, id: nat): (i: nat)
    ensures i <= |l|
    ensures i < |l| ==> l[i] == id
    ensures i == |l| <==> id !in l
  {
    if l == [] || l[0] == id then 0 else 1 + IndexOf(l[1..], id)
  }

  /** The order of a question once the test is numbered. */
  function OrderOf(qs: seq<QRef>, id: nat): nat
    requires id in Ids(qs)
  {
    WithOrders(qs)[IndexOf(Ids(qs), id)].order
  }

  /** A request for the order a question already has saves nothing. */
  function AfterReorder(qs: seq<QRef>, id: nat, position: int): seq<QRef> {
    if id !in Ids(qs) || position < 1 || position > |qs| then qs
    else if OrderOf(qs, id) == position then qs
    else Reordered(WithOrders(qs), IndexOf(Ids(qs), id), position)
  }

  /** A removal of a question whose record is gone fails after the pull (line 6448): nothing is renumbered. */
  ghost function Apply(d: Draft, e: Edit): Draft {
    match e
    case Import(ids, bank) =>
      var added := Active(ids, bank);
      if Conflict(d.questions, ids) || added == [] then d
      else Draft(Imported(d.questions, added), |d.questions| + |added|)
    case Reorder(id, position) => d.(questions := AfterReorder(d.questions, id, position))
    case Remove(id, known) =>
      if id !in Ids(d.questions) then d
      else if known then Draft(Removed(d.questions, id), d.totalQuestion - 1)
      else Draft(Filter(NotQuestion(id), d.questions), d.totalQuestion - 1)
  }

  function MovedTo(l: seq<nat>, id: nat, position: int): seq<nat> {
    if id !in l || position < 1 || position > |l| then l
    else MoveElement(l, IndexOf(l, id), position - 1)
  }

  /** The same edit on a plain list of question ids. */
  function PlainApply(l: seq<nat>, e: Edit): seq<nat> {
    match e
    case Import(ids, bank) =>
      if exists i | 0 <= i < |l| :: l[i] in ids then l else l + AddedIds(Active(ids, bank))
    case Reorder(id, position) => MovedTo(l, id, position)
    case Remove(id, _) => Without(l, id)
  }

  /** An accepted import names each of its active questions once; a removed question's record exists, or the
      question has the last order, or the test has no orders. */
  ghost predicate Clean(d: Draft, e: Edit) {
    match e
    case Import(ids, bank) => Conflict(d.questions, ids) || Distinct(AddedIds(Active(ids, bank)))
    case Reorder(_, _) => true
    case Remove(id, known) =>
      known || id !in Ids(d.questions) || Unnumbered(d.questions) || OrderOf(d.questions, id) == |d.questions|
  }

  lemma {:induction false} ActiveRequested(ids: seq<nat>, bank: map<nat, string>)
    ensures forall a | a in Active(ids, bank) :: a.question in ids
  {
    if ids != [] {
      ActiveRequested(ids[..|ids| - 1], bank);
    }
  }

  /** An import keeps the ids distinct exactly when it is clean. */
  lemma ImportKeptIff(d: Draft, ids: seq<nat>, bank: map<nat, string>)
    requires Kept(d) && !Conflict(d.questions, ids) && Active(ids, bank) != []
    ensures Kept(Apply(d, Import(ids, bank))) <==> Distinct(AddedIds(Active(ids, bank)))
  {
    var added := Active(ids, bank);
    var r := Imported(d.questions, added);
    ImportListing(d.questions, added);
    ActiveRequested(ids, bank);
    DistinctAppend(Ids(d.questions), AddedIds(added));
    forall i, j | 0 <= i < |d.questions| && 0 <= j < |added|
      ensures Ids(d.questions)[i] != AddedIds(added)[j]
    {
      assert added[j] in added;
    }
  }

  lemma DistinctAppend(a: seq<nat>, b: seq<nat>)
    requires Distinct(a)
    ensures Distinct(a + b) <==>
      Distinct(b) && forall i, j | 0 <= i < |a| && 0 <= j < |b| :: a[i] != b[j]
  {
    var s := a + b;
    if Distinct(s) {
      forall i, j | 0 <= i < j < |b| ensures b[i] != b[j] {
        assert s[|a| + i] == b[i] && s[|a| + j] == b[j];
      }
      forall i, j | 0 <= i < |a| && 0 <= j < |b| ensures a[i] != b[j] {
        assert s[i] == a[i] && s[|a| + j] == b[j];
      }
    }
  }

  lemma OneQuestionPerId(qs: seq<QRef>, a: QRef, b: QRef)
    requires Distinct(Ids(qs)) && a in qs && b in qs && a.question == b.question
    ensures a == b
  {
    var i :| 0 <= i < |qs| && qs[i] == a;
    var j :| 0 <= j < |qs| && qs[j] == b;
    assert Ids(qs)[i] == Ids(qs)[j];
  }

  lemma IdsFollow(a: seq<QRef>, b: seq<QRef>, id: nat)
    requires forall q :: q in a ==> q in b
    ensures id in Ids(a) ==> id in Ids(b)
  {
    if id in Ids(a) {
      var i :| 0 <= i < |a| && Ids(a)[i] == id;
      assert a[i] in b;
      var j :| 0 <= j < |b| && b[j] == a[i];
      assert Ids(b)[j] == id;
    }
  }

  /** The listing has the questions of the test, each once. */
  lemma ListingDistinct(qs: seq<QRef>)
    requires Distinct(Ids(qs))
    ensures Distinct(Listing(qs)) && |Listing(qs)| == |qs|
    ensures forall id :: id in Listing(qs) <==> id in Ids(qs)
  {
    var s := Sort(Before, qs);
    SortElements(Before, qs);
    SameElements(s, qs);
    forall i, j | 0 <= i < j < |qs| ensures qs[i] != qs[j] {
      assert Ids(qs)[i] != Ids(qs)[j];
    }
    DistinctCounts(qs);
    DistinctCounts(s);
    forall i, j | 0 <= i < j < |s| ensures s[i].question != s[j].question {
      if s[i].question == s[j].question {
        OneQuestionPerId(qs, s[i], s[j]);
      }
    }
    forall id ensures id in Listing(qs) <==> id in Ids(qs) {
      IdsFollow(s, qs, id);
      IdsFollow(qs, s, id);
    }
  }

  /** A question's order is its place in the listing. */
  lemma OrderIsPlace(qs: seq<QRef>, id: nat)
    requires Distinct(Ids(qs)) && Numbered(qs) && id in Ids(qs)
    ensures id in Listing(qs) && qs[IndexOf(Ids(qs), id)].order == IndexOf(Listing(qs), id) + 1
  {
    ListingDistinct(qs);
    ListingIsShown(qs);
    var l, i := Listing(qs), IndexOf(Ids(qs), id);
    assert Ids(qs)[i] == qs[i].question;
    assert l[qs[i].order - 1] == id;
  }

  /** In a well-kept test a question's order, numbered or not, is its place in the listing. */
  lemma OrderOfIsPlace(qs: seq<QRef>, id: nat)
    requires WellKept(qs) && id in Ids(qs)
    ensures 1 <= OrderOf(qs, id) <= |qs| && OrderOf(qs, id) == IndexOf(Listing(qs), id) + 1
  {
    WithOrdersKeepsListing(qs);
    OrderIsPlace(WithOrders(qs), id);
  }

  /** In a well-kept test the stored shifts are the move of the numbered test. */
  lemma ReorderIsMove(qs: seq<QRef>, id: nat, to: nat)
    requires WellKept(qs) && id in Ids(qs) && 1 <= to <= |qs|
    ensures Numbered(WithOrders(qs)) && 1 <= OrderOf(qs, id) <= |qs|
    ensures Reordered(WithOrders(qs), IndexOf(Ids(qs), id), to) == Moved(WithOrders(qs), OrderOf(qs, id), to)
  {
    WithOrdersKeepsListing(qs);
    ReorderedIsMoved(WithOrders(qs), IndexOf(Ids(qs), id), to);
  }

  lemma MoveNowhere(l: seq<nat>, i: nat)
    requires i < |l|
    ensures MoveElement(l, i, i) == l
  {
  }

  lemma ShiftListing(qs: seq<QRef>, id: nat, to: nat)
    requires WellKept(qs) && id in Ids(qs) && 1 <= to <= |qs|
    ensures |Listing(qs)| == |qs| && IndexOf(Listing(qs), id) < |qs|
    ensures Listing(Reordered(WithOrders(qs), IndexOf(Ids(qs), id), to)) ==
      MoveElement(Listing(qs), IndexOf(Listing(qs), id), to - 1)
  {
    WithOrdersKeepsListing(qs);
    OrderOfIsPlace(qs, id);
    ReorderIsMove(qs, id, to);
    MoveListing(WithOrders(qs), OrderOf(qs, id), to);
  }

  lemma StayListing(qs: seq<QRef>, id: nat)
    requires WellKept(qs) && id in Ids(qs)
    ensures |Listing(qs)| == |qs| && IndexOf(Listing(qs), id) < |qs| && 1 <= OrderOf(qs, id) <= |qs|
    ensures MoveElement(Listing(qs), IndexOf(Listing(qs), id), OrderOf(qs, id) - 1) == Listing(qs)
  {
    ListingDistinct(qs);
    OrderOfIsPlace(qs, id);
    MoveNowhere(Listing(qs), OrderOf(qs, id) - 1);
  }

  lemma ReorderListing(qs: seq<QRef>, id: nat, position: int)
    requires WellKept(qs)
    ensures Listing(AfterReorder(qs, id, position)) == MovedTo(Listing(qs), id, position)
  {
    ListingDistinct(qs);
    if id in Ids(qs) && 1 <= position <= |qs| {
      if OrderOf(qs, id) == position {
        StayListing(qs, id);
      } else {
        ShiftListing(qs, id, position);
      }
    }
  }

  /** Every edit of the stored test is the same edit of the plain list that is shown. */
  lemma EditListing(d: Draft, e: Edit)
    requires Kept(d)
    ensures Listing(Apply(d, e).questions) == PlainApply(Listing(d.questions), e)
  {
    ListingDistinct(d.questions);
    match e
    case Import(ids, bank) =>
      var l := Listing(d.questions);
      ImportListing(d.questions, Active(ids, bank));
      ConflictIsShown(d.questions, ids);
      assert l + AddedIds([]) == l;
    case Reorder(id, position) => ReorderListing(d.questions, id, position);
    case Remove(id, _) =>
      RemoveListing(d.questions, id);
      PullListing(d.questions, id);
      if id !in Ids(d.questions) {
        WithoutAbsent(Listing(d.questions), id);
      }
  }

  lemma ConflictIsShown(qs: seq<QRef>, ids: seq<nat>)
    requires forall id :: id in Listing(qs) <==> id in Ids(qs)
    ensures Conflict(qs, ids) <==> exists i | 0 <= i < |Listing(qs)| :: Listing(qs)[i] in ids
  {
    var l := Listing(qs);
    if i :| 0 <= i < |qs| && qs[i].question in ids {
      assert Ids(qs)[i] in l;
    }
    if i :| 0 <= i < |l| && l[i] in ids {
      assert l[i] in Ids(qs);
    }
  }

  lemma {:induction false} WithoutAbsent(l: seq<nat>, id: nat)
    requires id !in l
    ensures Without(l, id) == l
  {
    if l != [] {
      WithoutAbsent(l[1..], id);
    }
  }

  lemma ReorderKeeps(d: Draft, id: nat, position: int)
    requires Kept(d)
    ensures var d' := Apply(d, Reorder(id, position)); Kept(d') && (Numbered(d.questions) ==> Numbered(d'.questions))
  {
    var d' := Apply(d, Reorder(id, position));
    if d' != d {
      ReorderIsMove(d.questions, id, position);
      WithOrdersKeepsListing(d.questions);
      assert Ids(d'.questions) == Ids(WithOrders(d.questions));
    }
  }

  lemma RemoveKeeps(d: Draft, id: nat)
    requires Kept(d)
    ensures var d' := Apply(d, Remove(id, true)); Kept(d') && (Numbered(d.questions) ==> Numbered(d'.questions))
  {
    RemoveListing(d.questions, id);
    ListingDistinct(d.questions);
    WithoutDistinct(Listing(d.questions), id);
  }

  lemma PullLeaves(qs: seq<QRef>, i: nat)
    requires WellKept(qs) && i < |qs|
    ensures var left := qs[..i] + qs[i + 1..];
      && Distinct(Ids(left)) && Uniform(left)
      && (Unnumbered(qs) ==> Unnumbered(left)) && (Unnumbered(left) ==> Unnumbered(qs) || left == [])
  {
    var left := qs[..i] + qs[i + 1..];
    assert forall j | 0 <= j < |left| :: left[j] == qs[if j < i then j else j + 1];
    assert forall j | 0 <= j < |left| :: Ids(left)[j] == Ids(qs)[if j < i then j else j + 1];
    if left != [] {
      assert left[0] in left;
    }
  }

  /** A removal that fails after the pull keeps the orders exactly if there are none, or the question had
      the last one. */
  lemma PullKeepsExactly(d: Draft, id: nat)
    requires Kept(d) && id in Ids(d.questions)
    ensures var d' := Apply(d, Remove(id, false)); var last := OrderOf(d.questions, id) == |d.questions|;
      && (Kept(d') <==> Unnumbered(d.questions) || last)
      && (Numbered(d.questions) && last ==> Numbered(d'.questions))
      && Distinct(Ids(d'.questions)) && d'.totalQuestion == |d'.questions| && Uniform(d'.questions)
  {
    var qs, i := d.questions, IndexOf(Ids(d.questions), id);
    PullsOne(qs, i);
    PullLeaves(qs, i);
    if Numbered(qs) {
      PullNumberedExactly(qs, i);
      assert WithOrders(qs) == qs;
    }
  }

  /** An edit keeps the ids distinct, the orders a permutation of 1..n (or none) and the count right exactly
      if it is clean. */
  lemma EditKeepsExactly(d: Draft, e: Edit)
    requires Kept(d)
    ensures var d' := Apply(d, e);
      && (Kept(d') <==> Clean(d, e))
      && (Clean(d, e) && Numbered(d.questions) ==> Numbered(d'.questions))
  {
    match e
    case Import(ids, bank) =>
      if !Conflict(d.questions, ids) && Active(ids, bank) != [] {
        ImportKeptIff(d, ids, bank);
        ImportListing(d.questions, Active(ids, bank));
      }
    case Reorder(id, position) => ReorderKeeps(d, id, position);
    case Remove(id, known) =>
      if known {
        RemoveKeeps(d, id);
      } else if id in Ids(d.questions) {
        PullKeepsExactly(d, id);
      }
  }

  /** A removal that completes repairs the orders, whatever gaps failed removals have left. */
  lemma RemoveRepairs(d: Draft, id: nat)
    requires Distinct(Ids(d.questions)) && d.totalQuestion == |d.questions| && Uniform(d.questions)
    requires id in Ids(d.questions)
    ensures var d' := Apply(d, Remove(id, true));
      Kept(d') && Numbered(d'.questions) && Listing(d'.questions) == Without(Listing(d.questions), id)
  {
    RemoveListing(d.questions, id);
    ListingDistinct(d.questions);
    WithoutDistinct(Listing(d.questions), id);
  }

  // ----- What becomes of the records -----

  /** `q` is a record of `qs` with at most its order changed. */
  ghost predicate IsRecordOf(q: QRef, qs: seq<QRef>) {
    exists p :: p in qs && q == p.(order := q.order)
  }

  ghost predicate AllRecordsOf(r: seq<QRef>, qs: seq<QRef>) {
    forall q <- r :: IsRecordOf(q, qs)
  }

  lemma ByIndex(r: seq<QRef>, qs: seq<QRef>)
    requires |r| == |qs| && forall i | 0 <= i < |r| :: r[i] == qs[i].(order := r[i].order)
    ensures AllRecordsOf(r, qs)
  {
    forall q | q in r ensures IsRecordOf(q, qs) {
      var i :| 0 <= i < |r| && r[i] == q;
      assert qs[i] in qs;
    }
  }

  lemma Subrecords(s: seq<QRef>, r: seq<QRef>, qs: seq<QRef>)
    requires AllRecordsOf(r, s) && forall p <- s :: p in qs
    ensures AllRecordsOf(r, qs)
  {
    forall q | q in r ensures IsRecordOf(q, qs) {
      assert IsRecordOf(q, s);
    }
  }

  lemma NumberingKeepsRecords(qs: seq<QRef>)
    ensures AllRecordsOf(ByPosition(qs), qs) && AllRecordsOf(WithOrders(qs), qs) && AllRecordsOf(qs, qs)
  {
    ByIndex(ByPosition(qs), qs);
    ByIndex(WithOrders(qs), qs);
    ByIndex(qs, qs);
  }

  lemma ReorderKeepsRecords(qs: seq<QRef>, id: nat, position: int)
    ensures AllRecordsOf(AfterReorder(qs, id, position), qs)
  {
    ByIndex(AfterReorder(qs, id, position), qs);
  }

  lemma RemoveKeepsRecords(qs: seq<QRef>, id: nat)
    ensures AllRecordsOf(Removed(qs, id), qs) && AllRecordsOf(Filter(NotQuestion(id), qs), qs)
  {
    var left := Filter(NotQuestion(id), qs);
    var sorted := Sort(Before, left);
    FilterElements(NotQuestion(id), qs);
    SortElements(Before, left);
    SameElements(sorted, left);
    NumberingKeepsRecords(left);
    NumberingKeepsRecords(sorted);
    Subrecords(left, left, qs);
    Subrecords(if left != [] && left[0].order != 0 then sorted else left, Removed(qs, id), qs);
  }

  lemma RemovalFacts(qs: seq<QRef>, id: nat)
    ensures AllRecordsOf(Removed(qs, id), qs) && AllRecordsOf(Filter(NotQuestion(id), qs), qs)
    ensures forall i | 0 <= i < |Removed(qs, id)| :: Removed(qs, id)[i].order == i + 1
    ensures forall q :: q in Filter(NotQuestion(id), qs) <==> q in qs && q.question != id
  {
    RemoveKeepsRecords(qs, id);
    forall q ensures q in Filter(NotQuestion(id), qs) <==> q in qs && q.question != id {
      FilterElement(NotQuestion(id), qs, q);
    }
  }

  lemma KeptRemoval(d: Draft, id: nat)
    requires Kept(d) && id in Ids(d.questions)
    ensures Kept(Apply(d, Remove(id, true)))
    ensures Ids(Apply(d, Remove(id, true)).questions) == Without(Listing(d.questions), id)
    ensures Kept(Apply(d, Remove(id, false))) <==>
      Unnumbered(d.questions) || OrderOf(d.questions, id) == |d.questions|
  {
    RemoveKeeps(d, id);
    PullKeepsExactly(d, id);
    RemoveListing(d.questions, id);
  }

  /** Numbered from `n` on, the records of the requested questions of the bank, with the names of their
      subjects. */
  lemma {:induction false} ActiveAreRequested(ids: seq<nat>, bank: map<nat, string>)
    ensures var kept := Filter((id: nat) => id in bank, ids);
      && |Active(ids, bank)| == |kept| && (forall id <- kept :: id in bank)
      && forall i | 0 <= i < |kept| :: Active(ids, bank)[i] == Addition(kept[i], bank[kept[i]])
  {
    var inBank := (id: nat) => id in bank;
    FilterElements(inBank, ids);
    if ids != [] {
      var front, id := ids[..|ids| - 1], ids[|ids| - 1];
      assert ids == front + [id];
      ActiveAreRequested(front, bank);
      FilterSnoc(inBank, front, id);
    }
  }

  /** After an edit, every record is an old one with at most its order changed, or one of a question that
      the edit imports, with the name of its subject. */
  ghost predicate ComesFrom(q: QRef, qs: seq<QRef>, e: Edit) {
    IsRecordOf(q, qs) || (e.Import? && q.question in e.ids && q.question in e.bank && q.section == e.bank[q.question])
  }

  lemma AppendedComesFrom(n: nat, qs: seq<QRef>, ids: seq<nat>, bank: map<nat, string>, k: nat)
    requires k < |Active(ids, bank)|
    ensures ComesFrom(Appended(n, Active(ids, bank))[k], qs, Import(ids, bank))
  {
    var inBank := (id: nat) => id in bank;
    ActiveAreRequested(ids, bank);
    FilterElement(inBank, ids, Filter(inBank, ids)[k]);
  }

  lemma ImportedComesFrom(d: Draft, ids: seq<nat>, bank: map<nat, string>, q: QRef)
    requires q in Imported(d.questions, Active(ids, bank))
    ensures ComesFrom(q, d.questions, Import(ids, bank))
  {
    var qs, more := d.questions, Appended(|d.questions|, Active(ids, bank));
    NumberingKeepsRecords(qs);
    if q !in WithOrders(qs) {
      assert q in more;
      var k :| 0 <= k < |more| && more[k] == q;
      AppendedComesFrom(|qs|, qs, ids, bank, k);
    }
  }

  lemma EditKeepsRecords(d: Draft, e: Edit)
    ensures forall q <- Apply(d, e).questions :: ComesFrom(q, d.questions, e)
  {
    forall q | q in Apply(d, e).questions ensures ComesFrom(q, d.questions, e) {
      NumberingKeepsRecords(d.questions);
      match e
      case Import(ids, bank) =>
        if Apply(d, e) != d {
          ImportedComesFrom(d, ids, bank, q);
        }
      case Reorder(id, position) => ReorderKeepsRecords(d.questions, id, position);
      case Remove(id, _) => RemoveKeepsRecords(d.questions, id);
    }
  }

  // ----- Runs of edits -----

  ghost function ApplyAll(d: Draft, es: seq<Edit>): (r: Draft)
    decreases |es|
  {
    if es == [] then d else ApplyAll(Apply(d, es[0]), es[1..])
  }

  function PlainApplyAll(l: seq<nat>, es: seq<Edit>): seq<nat>
    decreases |es|
  {
    if es == [] then l else PlainApplyAll(PlainApply(l, es[0]), es[1..])
  }

  /** Every edit of the run is clean where it is made. */
  ghost predicate CleanRun(d: Draft, es: seq<Edit>)
    decreases |es|
  {
    es == [] || (Clean(d, es[0]) && CleanRun(Apply(d, es[0]), es[1..]))
  }

  ghost predicate KeptThroughout(d: Draft, es: seq<Edit>)
    decreases |es|
  {
    Kept(d) && (es == [] || KeptThroughout(Apply(d, es[0]), es[1..]))
  }

  /** A run keeps the stored test consistent throughout exactly if every edit is clean. */
  lemma {:induction false} RunsKeepExactly(d: Draft, es: seq<Edit>)
    requires Kept(d)
    ensures KeptThroughout(d, es) <==> CleanRun(d, es)
    decreases |es|
  {
    if es != [] {
      EditKeepsExactly(d, es[0]);
      if Clean(d, es[0]) {
        RunsKeepExactly(Apply(d, es[0]), es[1..]);
      }
    }
  }

  /** Over any run of clean imports, reorderings and removals the stored test stays consistent, and its
      listing is that of a plain list under append, move and delete. */
  lemma {:induction false} RunsRefinePlainLists(d: Draft, es: seq<Edit>)
    requires Kept(d) && CleanRun(d, es)
    ensures var r := ApplyAll(d, es);
      && Distinct(Ids(r.questions)) && r.totalQuestion == |r.questions|
      && (Numbered(d.questions) ==> Numbered(r.questions))
      && Listing(r.questions) == PlainApplyAll(Listing(d.questions), es)
    decreases |es|
  {
    if es != [] {
      EditKeepsExactly(d, es[0]);
      EditListing(d, es[0]);
      RunsRefinePlainLists(Apply(d, es[0]), es[1..]);
    }
  }

  ghost predicate ComesFromRun(q: QRef, qs: seq<QRef>, es: seq<Edit>) {
    IsRecordOf(q, qs) || exists e :: e in es && e.Import? && q.question in e.ids && q.question in e.bank
                                        && q.section == e.bank[q.question]
  }

  /** Over every run of edits, clean or not, a record keeps everything but its order: each record at the end
      is one of the start or of an import. */
  lemma {:induction false} RunsKeepRecords(d: Draft, es: seq<Edit>)
    ensures forall q <- ApplyAll(d, es).questions :: ComesFromRun(q, d.questions, es)
    decreases |es|
  {
    forall q | q in ApplyAll(d, es).questions ensures ComesFromRun(q, d.questions, es) {
      if es == [] {
        NumberingKeepsRecords(d.questions);
      } else {
        var d' := Apply(d, es[0]);
        RunsKeepRecords(d', es[1..]);
        EditKeepsRecords(d, es[0]);
        if p :| p in d'.questions && q == p.(order := q.order) {
          assert ComesFrom(p, d.questions, es[0]);
          if r :| r in d.questions && p == r.(order := p.order) {
            assert q == r.(order := q.order);
          } else {
            assert es[0] in es;
          }
        }
      }
    }
  }

  // ----- Where the edits fail -----

  const EMPTY := Draft([], 0)

  lemma TwoActive(a: nat, b: nat, subject: string)
    ensures Active([a, b], map[a := subject, b := subject]) == [Addition(a, subject), Addition(b, subject)]
  {
    var ids, bank := [a, b], map[a := subject, b := subject];
    assert ids[..1] == [a] && [a][..0] == [];
    assert Active([a], bank) == [Addition(a, subject)];
  }

  /** A question requested twice is stored twice. */
  lemma RepeatedImportBreaks(id: nat, subject: string)
    ensures Kept(EMPTY) && !Kept(Apply(EMPTY, Import([id, id], map[id := subject])))
  {
    var ids, bank := [id, id], map[id := subject];
    TwoActive(id, id, subject);
    assert bank == map[id := subject, id := subject];
    ImportKeptIff(EMPTY, ids, bank);
    assert AddedIds(Active(ids, bank))[0] == AddedIds(Active(ids, bank))[1];
  }

  lemma TwoQuestions(a: nat, b: nat, subject: string)
    requires a != b
    ensures var d := Draft([QRef(a, 1, subject), QRef(b, 2, subject)], 2);
      Apply(EMPTY, Import([a, b], map[a := subject, b := subject])) == d && Kept(d) && Numbered(d.questions)
  {
    TwoActive(a, b, subject);
    var d := Draft([QRef(a, 1, subject), QRef(b, 2, subject)], 2);
    assert Ids(d.questions) == [a, b];
  }

  lemma FirstPulled(a: nat, b: nat, subject: string)
    requires a != b
    ensures Filter(NotQuestion(a), [QRef(a, 1, subject), QRef(b, 2, subject)]) == [QRef(b, 2, subject)]
    ensures a in Ids([QRef(a, 1, subject), QRef(b, 2, subject)]) && !WellKept([QRef(b, 2, subject)])
  {
    var qs := [QRef(a, 1, subject), QRef(b, 2, subject)];
    assert Ids(qs)[0] == a && Ids(qs)[1] == b;
    PullsOne(qs, 0);
    assert qs[..0] + qs[1..] == [QRef(b, 2, subject)];
    assert [QRef(b, 2, subject)][0].order == 2;
  }

  /** Two questions are imported and the first is then removed, its record having been deleted by way of
      another test: the other keeps order 2 of 1. */
  lemma FailedRemovalBreaks(a: nat, b: nat, subject: string)
    requires a != b
    ensures var d := Apply(EMPTY, Import([a, b], map[a := subject, b := subject]));
      && Kept(d) && Numbered(d.questions)
      && Apply(d, Remove(a, false)) == Draft([QRef(b, 2, subject)], 1) && !Kept(Apply(d, Remove(a, false)))
  {
    TwoQuestions(a, b, subject);
    FirstPulled(a, b, subject);
  }

  /** With such gaps a move can miss: of two questions with the orders 2 and 3, the first does not go to
      position 2. */
  lemma GapsMisplaceMoves(b: nat, c: nat, subject: string)
    requires b != c
    ensures var d := Draft([QRef(b, 2, subject), QRef(c, 3, subject)], 2);
      && Apply(d, Reorder(b, 2)) == d && Listing(d.questions) == [b, c]
      && PlainApply([b, c], Reorder(b, 2)) == [c, b]
  {
    var qs := [QRef(b, 2, subject), QRef(c, 3, subject)];
    SortOfSorted(Before, qs);
    assert Ids(qs) == [b, c] && Ids(qs)[0] == b;
    assert IndexOf([b, c], b) == 0;
    assert [b, c][..0] + [b, c][1..] == [c];
  }

  // ----- The stored test -----

  /** The order of each question, of its last record if there are several. */
  function OrderMap(qs: seq<QRef>): map<nat, nat> {
    if qs == [] then map[]
    else
      var last := qs[|qs| - 1];
      OrderMap(qs[..|qs| - 1])[last.question := last.order]
  }

  lemma {:induction false} OrderMapHolds(qs: seq<QRef>, i: nat)
    requires Distinct(Ids(qs)) && i < |qs|
    ensures qs[i].question in OrderMap(qs) && OrderMap(qs)[qs[i].question] == qs[i].order
  {
    if i < |qs| - 1 {
      var front := qs[..|qs| - 1];
      assert Ids(front) == Ids(qs)[..|qs| - 1];
      OrderMapHolds(front, i);
      assert Ids(qs)[i] != Ids(qs)[|qs| - 1];
    }
  }

  lemma OrderMapTells(qs: seq<QRef>)
    requires Distinct(Ids(qs))
    ensures forall i | 0 <= i < |qs| :: qs[i].question in OrderMap(qs) && OrderMap(qs)[qs[i].question] == qs[i].order
  {
    forall i | 0 <= i < |qs| ensures qs[i].question in OrderMap(qs) && OrderMap(qs)[qs[i].question] == qs[i].order {
      OrderMapHolds(qs, i);
    }
  }

  /** The ids an import asks for: those a search finds, if it is one, or those given. */
  function Requested(given: Option<seq<nat>>, search: Option<seq<nat>>): seq<nat> {
    if search.Some? then search.value else if given.Some? then given.value else []
  }

  datatype Status = DraftStatus | Tempt | Published | Revoked | Expired

  datatype Outcome =
    | Saved(orders: map<nat, nat>)   // the new order of each question
    | Unchanged
    | NotFound
    | Forbidden
    | BadRequest
    | Failed                         // an error that is not foreseen
    | Counted(totalQuestion: int)

  class Test {
    var status: Status
    var questions: seq<QRef>
    var totalQuestion: int
    var sections: seq<Section>
    var sectionTimeLimit: bool
    var totalTime: int

    ghost function View(): Draft
      reads this
    {
      Draft(questions, totalQuestion)
    }

    ghost predicate Valid()
      reads this
    {
      Kept(View()) && forall i | 0 <= i < |sections| :: sections[i].id.Some?
    }

    predicate IsDraft()
      reads this
    {
      status == DraftStatus || status == Tempt
    }

    /** `getQuestionList`. */
    method GetQuestionList() returns (r: seq<QRef>)
      ensures Ids(r) == Listing(questions)
      ensures multiset(r) == multiset(questions)
      ensures forall i, j | 0 <= i < j < |r| :: r[j].order == 0 || 0 < r[i].order <= r[j].order
    {
      SortElements(Before, questions);
      SortSorts(Before, questions);
      return Sort(Before, questions);
    }

    /** Lines 4786-4790: number by position a test whose first question has no order. */
    method NumberIfNeeded(qs: seq<QRef>) returns (r: seq<QRef>)
      ensures r == WithOrders(qs)
    {
      r := qs;
      if |qs| > 0 && qs[0].order == 0 {
        r := Renumber(qs);
      }
    }

    /** The loops of lines 4810-4827, on the questions read from the database. */
    method ShiftOrders(qs: seq<QRef>, at: nat, to: nat) returns (r: seq<QRef>)
      requires at < |qs|
      ensures r == Reordered(qs, at, to)
    {
      var id, from := qs[at].question, qs[at].order;
      ghost var shifted := Reordered(qs, at, to);
      r := qs;
      if from > to {
        for i := 0 to |qs|
          invariant |r| == |qs| && r[at] == qs[at]
          invariant forall j | 0 <= j < i && j != at :: r[j] == shifted[j]
          invariant forall j | i <= j < |qs| :: r[j] == qs[j]
        {
          if r[i].question != id && r[i].order >= to && r[i].order < r[at].order {
            r := r[i := r[i].(order := r[i].order + 1)];
          }
        }
      } else {
        for i := 0 to |qs|
          invariant |r| == |qs| && r[at] == qs[at]
          invariant forall j | 0 <= j < i && j != at :: r[j] == shifted[j]
          invariant forall j | i <= j < |qs| :: r[j] == qs[j]
        {
          if r[i].question != id && r[i].order <= to && r[i].order > r[at].order {
            r := r[i := r[i].(order := r[i].order - 1)];
          }
        }
      }
      r := r[at := r[at].(order := to)];
    }

    /** The response of both edits: the order of each question, of its last record if there are several. */
    method Answer(qs: seq<QRef>) returns (m: map<nat, nat>)
      ensures m == OrderMap(qs)
    {
      m := map[];
      for i := 0 to |qs|
        invariant m == OrderMap(qs[..i])
      {
        assert qs[..i + 1][..i] == qs[..i];
        m := m[qs[i].question := qs[i].order];
      }
      assert qs[..|qs|] == qs;
    }

    /** The request names a question and an order, and the test is a draft with questions. */
    ghost predicate Asks(question: Option<nat>, order: int)
      reads this
    {
      IsDraft() && |questions| > 0 && question.Some? && order != 0
    }

    /** `updateQuestionOrder`; a missing question or order in the request is `None` or 0. */
    method UpdateQuestionOrder(mayManage: bool, question: Option<nat>, order: int) returns (r: Outcome)
      modifies this`questions
      ensures View() == if mayManage && IsDraft() && question.Some?
        then Apply(old(View()), Reorder(question.value, order)) else old(View())
      ensures old(Valid()) ==> Valid()
      ensures |questions| == |old(questions)|
      ensures forall q <- questions :: exists p :: p in old(questions) && q == p.(order := q.order)
      ensures r.Saved? ==> r.orders == OrderMap(questions)
      ensures old(Valid()) && r.Saved? ==> forall i | 0 <= i < |questions| ::
        questions[i].question in r.orders && r.orders[questions[i].question] == questions[i].order
      ensures !r.Saved? ==> View() == old(View())
      ensures r.BadRequest? <==> mayManage && !IsDraft()
      ensures r.Forbidden? <==> !mayManage || (old(Asks(question, order)) && !(1 <= order <= |questions|))
      ensures r.NotFound? <==>
        (mayManage && old(Asks(question, order)) && 1 <= order <= |questions| && question.value !in Ids(old(questions)))
      ensures r.Saved? <==>
        (mayManage && old(Asks(question, order)) && 1 <= order <= |questions| && question.value in Ids(old(questions))
         && OrderOf(old(questions), question.value) != order)
      ensures r.BadRequest? || r.Forbidden? || r.NotFound? || r.Saved? || r.Unchanged?
    {
      NumberingKeepsRecords(questions);
      if !mayManage {
        return Forbidden;
      }
      if !IsDraft() {
        return BadRequest;
      }
      if |questions| == 0 {
        return Unchanged;
      }
      var qs := NumberIfNeeded(questions);
      if question.None? || order == 0 {
        return Unchanged;
      }
      if order < 1 || order > |qs| {
        return Forbidden;
      }
      assert Ids(qs) == Ids(questions);
      var at := IndexOf(Ids(qs), question.value);
      if at == |qs| {
        return NotFound;
      }
      if qs[at].order == order {
        return Unchanged;
      }
      ReorderKeepsRecords(questions, question.value, order);
      if Valid() {
        ReorderKeeps(View(), question.value, order);
      }
      questions := ShiftOrders(qs, at, order);
      var orders := Answer(questions);
      if Valid() {
        OrderMapTells(questions);
      }
      return Saved(orders);
    }

    /** The totals of the sections, as recomputed on a removal and on a save. */
    method SectionTime(ss: seq<Section>) returns (total: int)
      ensures total == SumBy(TimeOf, ss)
    {
      total := 0;
      for i := 0 to |ss|
        invariant total + SumBy(TimeOf, ss[i..]) == SumBy(TimeOf, ss)
      {
        total := total + ss[i].time;
      }
    }

    /** `removeQuestion`; `known` says whether the question's own record still exists.  If it does not,
        line 6448 throws after the question was pulled. */
    method RemoveQuestion(mayManage: bool, question: nat, known: bool) returns (r: Outcome)
      modifies this`questions, this`totalQuestion, this`totalTime
      ensures r.Saved? <==> mayManage && IsDraft() && question in old(Ids(questions)) && known
      ensures r.Failed? <==> mayManage && IsDraft() && question in old(Ids(questions)) && !known
      ensures r.Forbidden? <==> !mayManage
      ensures r.BadRequest? <==> mayManage && !IsDraft()
      ensures r.NotFound? <==> mayManage && IsDraft() && question !in old(Ids(questions))
      ensures View() == if r.Saved? || r.Failed? then Apply(old(View()), Remove(question, known)) else old(View())
      ensures forall q <- questions :: exists p :: p in old(questions) && q == p.(order := q.order)
      ensures r.Saved? ==> forall i | 0 <= i < |questions| :: questions[i].order == i + 1
      ensures r.Saved? && old(Valid()) ==> Ids(questions) == Without(old(Listing(questions)), question)
      ensures r.Failed? ==> forall q :: q in questions <==> q in old(questions) && q.question != question
      ensures totalQuestion == if r.Saved? || r.Failed? then old(totalQuestion) - 1 else old(totalQuestion)
      ensures old(Valid()) && !r.Failed? ==> Valid()
      ensures old(Valid()) && r.Failed? ==>
        (Valid() <==> old(Unnumbered(questions)) || OrderOf(old(questions), question) == old(|questions|))
      ensures r.Saved? ==> r.orders == OrderMap(questions)
      ensures old(Valid()) && r.Saved? ==> forall i | 0 <= i < |questions| ::
        questions[i].question in r.orders && r.orders[questions[i].question] == questions[i].order
      ensures totalTime == if r.Saved? && sectionTimeLimit then SumBy(TimeOf, sections) else old(totalTime)
    {
      NumberingKeepsRecords(questions);
      if !mayManage {
        return Forbidden;
      }
      if !IsDraft() {
        return BadRequest;
      }
      if question !in Ids(questions) {
        return NotFound;
      }
      r := Pull(question, known);
      if Valid() {
        OrderMapTells(questions);
      }
    }

    /** Lines 6429-6520: pull the question, and number the rest if the question's record exists. */
    method Pull(question: nat, known: bool) returns (r: Outcome)
      requires question in Ids(questions)
      modifies this`questions, this`totalQuestion, this`totalTime
      ensures if known then r == Saved(OrderMap(questions)) else r.Failed?
      ensures View() == Apply(old(View()), Remove(question, known))
      ensures AllRecordsOf(questions, old(questions))
      ensures known ==> forall i | 0 <= i < |questions| :: questions[i].order == i + 1
      ensures !known ==> forall q :: q in questions <==> q in old(questions) && q.question != question
      ensures old(Valid()) && known ==> Valid() && Ids(questions) == Without(old(Listing(questions)), question)
      ensures old(Valid()) && !known ==>
        (Valid() <==> old(Unnumbered(questions)) || OrderOf(old(questions), question) == old(|questions|))
      ensures totalTime == if known && sectionTimeLimit then SumBy(TimeOf, sections) else old(totalTime)
    {
      RemovalFacts(questions, question);
      if Valid() {
        KeptRemoval(View(), question);
      }
      var left := Filter(NotQuestion(question), questions);
      questions, totalQuestion := left, totalQuestion - 1;
      if !known {
        return Failed;
      }
      if sectionTimeLimit {
        totalTime := SectionTime(sections);
      }
      questions := SortAndRenumber(left);
      var orders := Answer(questions);
      return Saved(orders);
    }

    /** Lines 6499-6516. */
    method SortAndRenumber(left: seq<QRef>) returns (r: seq<QRef>)
      ensures r == ByPosition(if left != [] && left[0].order != 0 then Sort(Before, left) else left)
    {
      r := left;
      if |left| > 0 && left[0].order != 0 {
        r := Sort(Before, left);
      }
      r := Renumber(r);
    }

    /** Lines 6511-6516: the orders 1, 2, 3, ... by position. */
    method Renumber(left: seq<QRef>) returns (r: seq<QRef>)
      ensures r == ByPosition(left)
    {
      r := left;
      for i := 0 to |left|
        invariant |r| == |left|
        invariant forall j | 0 <= j < i :: r[j] == left[j].(order := j + 1)
        invariant forall j | i <= j < |left| :: r[j] == left[j]
      {
        r := r[i := r[i].(order := i + 1)];
      }
    }

    /** `importQuestion`, with ids given in the request, or found by a search. */
    method ImportQuestion(given: Option<seq<nat>>, search: Option<seq<nat>>, bank: map<nat, string>)
      returns (r: Outcome)
      modifies this`questions, this`totalQuestion
      ensures View() == Apply(old(View()), Import(Requested(given, search), bank))
      ensures r.Unchanged? <==> given.None? && search.None?
      ensures r.BadRequest? <==> Conflict(old(questions), Requested(given, search))
      ensures r.NotFound? <==>
        (!Conflict(old(questions), Requested(given, search)) && Active(Requested(given, search), bank) == []
         && search != Some([]) && !(given.None? && search.None?))
      ensures r.Unchanged? || r.BadRequest? || r.NotFound? || r == Counted(totalQuestion)
      ensures r.Counted? && search != Some([]) ==>
        var asked := if search.Some? then search.value else if given.Some? then given.value else [];
        var n, kept := |old(questions)|, Filter((id: nat) => id in bank, asked);
        && |questions| == totalQuestion == n + |kept|
        && (forall i | 0 <= i < n :: questions[i] ==
              old(questions)[i].(order := if old(questions)[0].order == 0 then i + 1 else old(questions)[i].order))
        && (forall i | n <= i < |questions| ::
              kept[i - n] in bank && questions[i] == QRef(kept[i - n], i + 1, bank[kept[i - n]]))
      ensures old(Valid()) ==> (Valid() <==> Clean(old(View()), Import(Requested(given, search), bank)))
    {
      var ids := Requested(given, search);
      if Valid() {
        EditKeepsExactly(View(), Import(ids, bank));
      }
      if given.None? && search.None? {
        return Unchanged;
      }
      if search == Some([]) {
        return Counted(totalQuestion);
      }
      if i: nat :| i < |questions| && questions[i].question in ids {
        return BadRequest;
      }
      var orderList := FindActive(ids, bank);
      ActiveAreRequested(ids, bank);
      if |orderList| == 0 {
        return NotFound;
      }
      var base := NumberIfNeeded(questions);
      questions := AppendAll(base, orderList);
      totalQuestion := |questions|;
      return Counted(totalQuestion);
    }

    method FindActive(ids: seq<nat>, bank: map<nat, string>) returns (orderList: seq<Addition>)
      ensures orderList == Active(ids, bank)
    {
      orderList := [];
      for i := 0 to |ids|
        invariant orderList == Active(ids[..i], bank)
      {
        assert ids[..i + 1][..i] == ids[..i];
        if ids[i] in bank {
          orderList := orderList + [Addition(ids[i], bank[ids[i]])];
        }
      }
      assert ids[..|ids|] == ids;
    }

    method AppendAll(base: seq<QRef>, added: seq<Addition>) returns (r: seq<QRef>)
      ensures r == base + Appended(|base|, added)
    {
      r := base;
      for i := 0 to |added|
        invariant r == base + Appended(|base|, added[..i])
      {
        r := r + [QRef(added[i].question, |r| + 1, added[i].subject)];
      }
      assert added[..|added|] == added;
    }

    /** The merging loop of lines 1110-1122. */
    method MergeSections(ss: seq<Section>) returns (merged: seq<Section>)
      ensures merged == Merge(ss)
    {
      merged := [];
      for i := 0 to |ss|
        invariant merged == Merge(ss[..i])
      {
        assert ss[..i + 1][..i] == ss[..i];
        var at := IndexOfName(merged, ss[i].name);
        if at == |merged| {
          merged := merged + [ss[i]];
        } else {
          merged := merged[at := merged[at].(time := merged[at].time + ss[i].time)];
        }
      }
      assert ss[..|ss|] == ss;
    }

    /** The renaming table of lines 1128-1140; `None` when the look-up by id throws. */
    method RenamingTable(before: seq<Section>, after: seq<Section>) returns (table: Option<map<string, string>>)
      requires forall i | 0 <= i < |before| :: before[i].id.Some?
      ensures table == Renames(before, after, |before|)
      ensures table.None? <==> BlocksRenaming(before, after, |before|)
    {
      RenamingThrowsExactly(before, after, |before|);
      var t: map<string, string> := map[];
      for i := 0 to |before|
        invariant Renames(before, after, i) == Some(t)
      {
        var at := FindById(after, before[i].id.value);
        if at.Throws? {
          SearchThrowsExactly(after, before[i].id.value);
          return None;
        }
        if at.Found? && before[i].name != after[at.index].name {
          t := t[before[i].name := after[at.index].name];
        }
      }
      return Some(t);
    }

    /** Lines 1142-1148: every question of a renamed section gets its new name. */
    method RenameQuestions(qs: seq<QRef>, table: map<string, string>) returns (r: seq<QRef>)
      ensures r == RenameAll(table, qs)
    {
      r := qs;
      for i := 0 to |qs|
        invariant |r| == |qs|
        invariant forall j | 0 <= j < i :: r[j] == Rename(table, qs[j])
        invariant forall j | i <= j < |qs| :: r[j] == qs[j]
      {
        if r[i].section in table {
          r := r[i := r[i].(section := table[r[i].section])];
        }
      }
    }

    /** The section part of `updateAssessment` (lines 1106-1160): merge, rename, recompute the time.
        On saving, the database gives the section at position `i` the id `assign(i)` if it has none. */
    method UpdateSections(after: seq<Section>, timeLimit: bool, assign: nat -> nat) returns (ok: bool)
      requires Valid()
      modifies this`questions, this`sections, this`sectionTimeLimit, this`totalTime
      ensures Valid()
      ensures ok <==> !BlocksRenaming(old(sections), after, |old(sections)|)
      ensures !ok ==> questions == old(questions) && sections == old(sections)
      ensures !ok ==> sectionTimeLimit == old(sectionTimeLimit) && totalTime == old(totalTime)
      ensures ok ==> sections == Identified(Merge(after), assign) && sectionTimeLimit == timeLimit
      ensures ok ==> |sections| == |Merge(after)| && forall i | 0 <= i < |sections| ::
        sections[i].id == if Merge(after)[i].id.Some? then Merge(after)[i].id else Some(assign(i))
      ensures ok ==> var table := Renames(old(sections), after, |old(sections)|);
        table.Some? && questions == RenameAll(table.value, old(questions))
      ensures ok && !timeLimit ==> totalTime == old(totalTime)
      ensures ok && timeLimit ==> totalTime == SumBy(TimeOf, after) == SumBy(TimeOf, sections)
    {
      var merged := MergeSections(after);
      var table := RenamingTable(sections, after);
      if table.None? {
        return false;
      }
      var renamed := RenameQuestions(questions, table.value);
      RenameKeeps(questions, table.value);
      questions, sections, sectionTimeLimit := renamed, Identified(merged, assign), timeLimit;
      if timeLimit {
        MergeKeepsTime(after, "");
        IdentifiedKeepsTime(merged, assign);
        totalTime := SectionTime(merged);
      }
      return true;
    }
  }

  /** Renaming touches neither ids nor orders. */
  lemma RenameKeeps(qs: seq<QRef>, table: map<string, string>)
    requires WellKept(qs)
    ensures WellKept(RenameAll(table, qs))
  {
    assert Ids(RenameAll(table, qs)) == Ids(qs);
  }
}
