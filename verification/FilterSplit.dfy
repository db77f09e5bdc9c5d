/** Splitting flat filters around a join (lines 1748-1827 and 3481-3490 of the attempt service).
    The conditions on the joined field `QA` are moved behind the join; the others stay in front of it. */
module FilterSplit {
  import opened Lists
  import opened Pipelines
  import opened Wrappers

  /** A stored record by field.  A condition looks at the field its key starts with. */
  datatype Value =
    | Number(number: int)
    | Flag(flag: bool)
    | Text(text: string)
    | Items(items: seq<Value>)
    | Record(fields: map<string, Value>)
  type Document = map<string, Value>
  type Condition = Option<Value> -> bool
  type Query = map<string, Condition>

  const JOINED := "QA"

  predicate StandsAt(key: string, part: string, i: nat) {
    i + |part| <= |key| && key[i..i + |part|] == part
  }

  /** `key.indexOf("QA") + 1` */
  predicate Mentions(key: string) {
    exists i | 0 <= i < |key| :: StandsAt(key, JOINED, i)
  }

  lemma MentionsExactly(key: string)
    ensures Mentions(key) <==> exists i :: 0 <= i && i + 1 < |key| && key[i] == 'Q' && key[i + 1] == 'A'
  {
    if i :| 0 <= i && i + 1 < |key| && key[i] == 'Q' && key[i + 1] == 'A' {
      assert key[i..i + 2] == ['Q', 'A'];
      assert StandsAt(key, JOINED, i);
    }
    if i :| 0 <= i < |key| && StandsAt(key, JOINED, i) {
      assert key[i] == key[i..i + 2][0] && key[i + 1] == key[i..i + 2][1];
    }
  }

  /** The field that a dotted key starts with. */
  function Head(key: string): string {
    if key == [] || key[0] == '.' then [] else [key[0]] + Head(key[1..])
  }

  lemma {:induction false} HeadIsPrefix(key: string)
    ensures |Head(key)| <= |key| && Head(key) == key[..|Head(key)|]
  {
    if key != [] && key[0] != '.' {
      HeadIsPrefix(key[1..]);
    }
  }

  /** A key that reads the joined field mentions it; the converse fails, as for "isQA". */
  lemma ReadersMention(key: string)
    ensures Head(key) == JOINED ==> Mentions(key)
  {
    HeadIsPrefix(key);
    if Head(key) == JOINED {
      assert StandsAt(key, JOINED, 0);
    }
  }

  function Field(d: Document, key: string): Option<Value> {
    if Head(key) in d then Some(d[Head(key)]) else None
  }

  predicate Meets(q: Query, d: Document) {
    forall k <- q :: q[k](Field(d, k))
  }

  predicate MeetsAll(filter: seq<Query>, d: Document) {
    forall i | 0 <= i < |filter| :: Meets(filter[i], d)
  }

  // ----- The split -----

  /** The part of a query that stays in front of the join. */
  function Front(q: Query): Query { map k | k in q && !Mentions(k) :: q[k] }

  /** The part that moves behind it. */
  function Behind(q: Query): Query { map k | k in q && Mentions(k) :: q[k] }

  /** Every condition is in exactly one part, unchanged. */
  lemma SplitIsPartition(q: Query)
    ensures Front(q).Keys !! Behind(q).Keys
    ensures Front(q) + Behind(q) == q
  {
  }

  /** Exactly the conditions move whose key contains the name of the joined field. */
  lemma SplitByName(q: Query, k: string)
    ensures k in Behind(q) <==> k in q && exists i :: 0 <= i && i + 1 < |k| && k[i] == 'Q' && k[i + 1] == 'A'
    ensures k in Front(q) <==> k in q && k !in Behind(q)
    ensures k in q ==> q[k] == if k in Behind(q) then Behind(q)[k] else Front(q)[k]
  {
    MentionsExactly(k);
  }

  lemma MeetsSplit(q: Query, d: Document)
    ensures Meets(q, d) <==> Meets(Front(q), d) && Meets(Behind(q), d)
  {
    if Meets(Front(q), d) && Meets(Behind(q), d) {
      forall k <- q ensures q[k](Field(d, k)) {
        assert k in Front(q) || k in Behind(q);
      }
    }
  }

  /** The front part reads no joined field, so it says the same before and after the join. */
  lemma FrontIgnoresJoin(q: Query, d: Document, v: Value)
    ensures Meets(Front(q), d) <==> Meets(Front(q), d[JOINED := v])
  {
    forall k | k in Front(q) ensures Field(d, k) == Field(d[JOINED := v], k) {
      ReadersMention(k);
    }
  }

  function Fronts(filter: seq<Query>): seq<Query> {
    Map((q: Query) => Front(q), filter)
  }

  /** The moved parts that hold a condition at all. */
  function Behinds(filter: seq<Query>): seq<Query> {
    if filter == [] then []
    else if Behind(filter[0]).Keys == {} then Behinds(filter[1..])
    else [Behind(filter[0])] + Behinds(filter[1..])
  }

  lemma MeetsSplitAcross(q: Query, d: Document, v: Value)
    ensures Meets(q, d[JOINED := v]) <==> Meets(Front(q), d) && Meets(Behind(q), d[JOINED := v])
    ensures Behind(q).Keys == {} ==> Meets(Behind(q), d[JOINED := v])
  {
    MeetsSplit(q, d[JOINED := v]);
    FrontIgnoresJoin(q, d, v);
  }

  lemma FilterMeetsCons(filter: seq<Query>, d: Document)
    requires filter != []
    ensures MeetsAll(filter, d) <==> Meets(filter[0], d) && MeetsAll(filter[1..], d)
  {
    MeetsAllCons(filter[0], filter[1..], d);
    assert filter == [filter[0]] + filter[1..];
  }

  lemma FrontsCons(filter: seq<Query>, d: Document)
    requires filter != []
    ensures MeetsAll(Fronts(filter), d) <==> Meets(Front(filter[0]), d) && MeetsAll(Fronts(filter[1..]), d)
  {
    MeetsAllCons(Front(filter[0]), Fronts(filter[1..]), d);
    assert Fronts(filter) == [Front(filter[0])] + Fronts(filter[1..]);
  }

  lemma BehindsCons(filter: seq<Query>, d: Document)
    requires filter != [] && (Behind(filter[0]).Keys == {} ==> Meets(Behind(filter[0]), d))
    ensures MeetsAll(Behinds(filter), d) <==> Meets(Behind(filter[0]), d) && MeetsAll(Behinds(filter[1..]), d)
  {
    MeetsAllCons(Behind(filter[0]), Behinds(filter[1..]), d);
  }

  lemma {:induction false} MeetsAllSplit(filter: seq<Query>, d: Document, v: Value)
    ensures var dv := d[JOINED := v];
      MeetsAll(filter, dv) <==> MeetsAll(Fronts(filter), d) && MeetsAll(Behinds(filter), dv)
  {
    if filter != [] {
      MeetsAllSplit(filter[1..], d, v);
      MeetsSplitAcross(filter[0], d, v);
      FilterMeetsCons(filter, d[JOINED := v]);
      FrontsCons(filter, d);
      BehindsCons(filter, d[JOINED := v]);
    }
  }

  lemma MeetsAllCons(q: Query, rest: seq<Query>, d: Document)
    ensures MeetsAll([q] + rest, d) <==> Meets(q, d) && MeetsAll(rest, d)
  {
    var all := [q] + rest;
    assert all[0] == q;
    assert forall i | 0 <= i < |rest| :: rest[i] == all[i + 1];
    if Meets(q, d) && MeetsAll(rest, d) {
      assert forall i | 0 < i < |all| :: all[i] == rest[i - 1];
    }
  }

  // ----- The pipeline -----

  datatype Attempt = Attempt(id: nat, doc: Document)
  datatype Detail = Detail(attempt: nat, answers: Value)

  function Linked(): Attempt -> Detail -> bool {
    (a: Attempt) => (d: Detail) => d.attempt == a.id
  }

  function WithAnswers(): Attempt -> Detail -> Attempt {
    (a: Attempt) => (d: Detail) => a.(doc := a.doc[JOINED := d.answers])
  }

  function Keeps(filter: seq<Query>): Attempt -> bool {
    (a: Attempt) => MeetsAll(filter, a.doc)
  }

  /** Every attempt joined with each of its details. */
  function JoinDetails(attempts: seq<Attempt>, details: seq<Detail>): seq<Attempt> {
    FlatMap(Joined(details, Linked(), WithAnswers()), attempts)
  }

  /** Match, join and match again. */
  function Pipeline(before: seq<Query>, behind: seq<Query>, attempts: seq<Attempt>, details: seq<Detail>): seq<Attempt>
  {
    Filter(Keeps(behind), JoinDetails(Filter(Keeps(before), attempts), details))
  }

  lemma SplitForOne(filter: seq<Query>, a: Attempt, ds: seq<Detail>)
    ensures Filter(Keeps(filter), Map(WithAnswers()(a), ds)) ==
      if Keeps(Fronts(filter))(a) then Filter(Keeps(Behinds(filter)), Map(WithAnswers()(a), ds)) else []
  {
    var rows := Map(WithAnswers()(a), ds);
    forall r <- rows ensures Keeps(filter)(r) <==> Keeps(Fronts(filter))(a) && Keeps(Behinds(filter))(r) {
      var i :| 0 <= i < |rows| && rows[i] == r;
      MeetsAllSplit(filter, a.doc, ds[i].answers);
    }
    if Keeps(Fronts(filter))(a) {
      FilterSame(Keeps(filter), Keeps(Behinds(filter)), rows);
    } else {
      FilterNone(Keeps(filter), rows);
    }
  }

  /** The split filter selects, in the same order, what the whole filter selects from the joined records. */
  lemma {:induction false} SplitSelectsTheSame(filter: seq<Query>, attempts: seq<Attempt>, details: seq<Detail>)
    ensures Pipeline(Fronts(filter), Behinds(filter), attempts, details) ==
      Filter(Keeps(filter), JoinDetails(attempts, details))
  {
    if attempts != [] {
      var a, rest := attempts[0], attempts[1..];
      var f := Joined(details, Linked(), WithAnswers());
      SplitSelectsTheSame(filter, rest, details);
      SplitForOne(filter, a, Filter(Linked()(a), details));
      FilterAppend(Keeps(filter), f(a), FlatMap(f, rest));
      var kept := Filter(Keeps(Fronts(filter)), rest);
      if Keeps(Fronts(filter))(a) {
        assert ([a] + kept)[1..] == kept;
        FilterAppend(Keeps(Behinds(filter)), f(a), FlatMap(f, kept));
      }
    }
  }

  // ----- Counting -----

  /** The details of attempt `a` that make its joined record meet the filter. */
  ghost function MatchingDetails(filter: seq<Query>, a: Attempt, details: seq<Detail>): set<int> {
    set j | 0 <= j < |details| && details[j].attempt == a.id && MeetsAll(filter, a.doc["QA" := details[j].answers])
  }

  ghost function MatchesOf(filter: seq<Query>, details: seq<Detail>): Attempt -> int {
    (a: Attempt) => |MatchingDetails(filter, a, details)|
  }

  /** Some detail of attempt `a` makes its joined record meet the filter. */
  ghost predicate MeetsWithDetail(filter: seq<Query>, a: Attempt, details: seq<Detail>) {
    exists d <- details :: d.attempt == a.id && MeetsAll(filter, a.doc["QA" := d.answers])
  }

  ghost predicate OneDetailEach(attempts: seq<Attempt>, details: seq<Detail>) {
    forall a <- attempts :: |set j | 0 <= j < |details| && details[j].attempt == a.id| == 1
  }

  lemma MatchesOfOne(filter: seq<Query>, a: Attempt, details: seq<Detail>)
    ensures |Filter(Keeps(filter), Joined(details, Linked(), WithAnswers())(a))| ==
      |MatchingDetails(filter, a, details)|
  {
    var linked, join := Linked()(a), WithAnswers()(a);
    var both := (d: Detail) => d.attempt == a.id && MeetsAll(filter, a.doc["QA" := d.answers]);
    FilterMap(join, Keeps(filter), Filter(linked, details));
    FilterTwice(linked, Composed(join, Keeps(filter)), both, details);
    FilterCount(both, details);
    assert Places(both, details) == MatchingDetails(filter, a, details);
  }

  /** The records that meet the filter are as many as the pairs of an attempt and one of its details that do. */
  lemma {:induction false} JoinedCount(filter: seq<Query>, attempts: seq<Attempt>, details: seq<Detail>)
    ensures |Filter(Keeps(filter), JoinDetails(attempts, details))| == SumBy(MatchesOf(filter, details), attempts)
  {
    if attempts != [] {
      var f := Joined(details, Linked(), WithAnswers());
      FilterAppend(Keeps(filter), f(attempts[0]), FlatMap(f, attempts[1..]));
      MatchesOfOne(filter, attempts[0], details);
      JoinedCount(filter, attempts[1..], details);
    }
  }

  lemma OneMatch(filter: seq<Query>, a: Attempt, details: seq<Detail>)
    requires |set j | 0 <= j < |details| && details[j].attempt == a.id| == 1
    ensures MatchesOf(filter, details)(a) == if MeetsWithDetail(filter, a, details) then 1 else 0
  {
    var own := set j | 0 <= j < |details| && details[j].attempt == a.id;
    var matching := MatchingDetails(filter, a, details);
    var j :| j in own;
    assert own - {j} == {} by {
      assert |own - {j}| == 0;
    }
    assert matching <= {j};
    if MeetsWithDetail(filter, a, details) {
      var d :| d in details && d.attempt == a.id && MeetsAll(filter, a.doc["QA" := d.answers]);
      var k :| 0 <= k < |details| && details[k] == d;
      assert k in own && k == j && matching == {j};
    } else {
      assert j !in matching && matching == {};
    }
  }

  /** With one detail per attempt, the pipeline returns as many records as there are attempts that meet
      the whole filter on their joined record. */
  lemma OneDetailCount(filter: seq<Query>, attempts: seq<Attempt>, details: seq<Detail>)
    requires OneDetailEach(attempts, details)
    ensures |Filter(Keeps(filter), JoinDetails(attempts, details))| ==
      |set i | 0 <= i < |attempts| && MeetsWithDetail(filter, attempts[i], details)|
  {
    var meets := (a: Attempt) => MeetsWithDetail(filter, a, details);
    JoinedCount(filter, attempts, details);
    forall a | a in attempts ensures MatchesOf(filter, details)(a) == if meets(a) then 1 else 0 {
      OneMatch(filter, a, details);
    }
    SumOfPlaces(MatchesOf(filter, details), meets, attempts);
    assert Places(meets, attempts) == set i | 0 <= i < |attempts| && MeetsWithDetail(filter, attempts[i], details);
  }

  // ----- The code that splits -----

  /** A filter object, whose keys are deleted in place. */
  class FilterObject {
    var conds: Query

    constructor (q: Query)
      ensures conds == q
    {
      conds := q;
    }

    /** `createMatch`: moves the conditions that mention the joined field to a new object. */
    method CreateMatch() returns (moved: Query)
      modifies this
      ensures moved == Behind(old(conds)) && conds == Front(old(conds))
    {
      var keys := conds.Keys;
      moved := map[];
      while keys != {}
        invariant keys <= conds.Keys <= old(conds).Keys
        invariant forall k | k in conds :: conds[k] == old(conds)[k]
        invariant forall k | k in old(conds) && k !in keys :: k in conds <==> !Mentions(k)
        invariant moved == map k | k in old(conds) && k !in keys && Mentions(k) :: old(conds)[k]
        decreases |keys|
      {
        var k :| k in keys;
        if Mentions(k) {
          moved := moved[k := conds[k]];
          conds := conds - {k};
        }
        keys := keys - {k};
      }
    }
  }

  ghost function Contents(filter: seq<FilterObject>): seq<Query>
    reads filter
  {
    seq(|filter|, i requires 0 <= i < |filter| reads filter => filter[i].conds)
  }

  lemma BehindsSnoc(filter: seq<Query>, q: Query)
    ensures Behinds(filter + [q]) == if Behind(q).Keys == {} then Behinds(filter) else Behinds(filter) + [Behind(q)]
  {
    if filter == [] {
      assert filter + [q] == [q];
    } else {
      BehindsSnoc(filter[1..], q);
      assert (filter + [q])[1..] == filter[1..] + [q];
    }
  }

  /** `extractFromFilter`: splits every object of the filter. */
  method ExtractFromFilter(filter: seq<FilterObject>) returns (moved: seq<Query>)
    requires Distinct(filter)
    modifies filter
    ensures moved == Behinds(old(Contents(filter)))
    ensures Contents(filter) == Fronts(old(Contents(filter)))
  {
    ghost var was := Contents(filter);
    moved := [];
    for i := 0 to |filter|
      invariant moved == Behinds(was[..i])
      invariant forall j | 0 <= j < i :: filter[j].conds == Front(was[j])
      invariant forall j | i <= j < |filter| :: filter[j].conds == was[j]
    {
      var part := filter[i].CreateMatch();
      BehindsSnoc(was[..i], was[i]);
      assert was[..i + 1] == was[..i] + [was[i]];
      if part.Keys != {} {
        moved := moved + [part];
      }
    }
    assert was[..|filter|] == was;
  }

  // ----- summaryPractice -----

  datatype Request = Request(lastDay: Option<int>, subject: Option<string>)

  function Since(day: int): Condition {
    (v: Option<Value>) => v.Some? && v.value.Number? && v.value.number >= day
  }

  predicate OfSubject(answer: Value, subject: string) {
    && answer.Record? && "subject" in answer.fields
    && answer.fields["subject"].Record? && "_id" in answer.fields["subject"].fields
    && answer.fields["subject"].fields["_id"] == Text(subject)
  }

  /** Some element of the joined list is about the subject. */
  function AboutSubject(subject: string): Condition {
    (v: Option<Value>) => v.Some? && v.value.Items? && exists a <- v.value.items :: OfSubject(a, subject)
  }

  function NotAbandoned(): Condition {
    (v: Option<Value>) => v.Some? && v.value == Flag(false)
  }

  /** What `conditionCount` adds to the filter; abandoned attempts are left out unless they are asked for. */
  function Extra(request: Request, isAbandoned: bool): seq<Query> {
    (if request.lastDay.Some? then [map["createdAt" := Since(request.lastDay.value)]] else [])
    + (if request.subject.Some? then [map["QA.subject._id" := AboutSubject(request.subject.value)]] else [])
    + (if isAbandoned then [] else [map["isAbandoned" := NotAbandoned()]])
  }

  lemma MeetsAllAppend(f: seq<Query>, g: seq<Query>, d: Document)
    ensures MeetsAll(f + g, d) <==> MeetsAll(f, d) && MeetsAll(g, d)
  {
    assert forall i | 0 <= i < |f| :: (f + g)[i] == f[i];
    if MeetsAll(f + g, d) {
      forall i | 0 <= i < |g| ensures Meets(g[i], d) {
        assert (f + g)[|f| + i] == g[i];
      }
    }
  }

  lemma {:induction false} HeadBeforeDot(key: string, n: nat)
    requires n <= |key| && '.' !in key[..n] && (n < |key| ==> key[n] == '.')
    ensures Head(key) == key[..n]
  {
    if n > 0 {
      assert key[0] == key[..n][0];
      assert key[1..][..n - 1] == key[..n][1..];
      HeadBeforeDot(key[1..], n - 1);
    }
  }

  lemma OneCondition(key: string, c: Condition, d: Document)
    ensures MeetsAll([map[key := c]], d) <==> c(Field(d, key))
  {
    var q: Query := map[key := c];
    assert [q][0] == q && q[key] == c;
    if c(Field(d, key)) {
      assert forall k <- q :: k == key;
    }
  }

  lemma DayAsks(day: int, d: Document)
    ensures MeetsAll([map["createdAt" := Since(day)]], d) <==>
      "createdAt" in d && d["createdAt"].Number? && d["createdAt"].number >= day
  {
    OneCondition("createdAt", Since(day), d);
    HeadBeforeDot("createdAt", 9);
    assert "createdAt"[..9] == "createdAt";
  }

  lemma SubjectAsks(subject: string, d: Document)
    ensures MeetsAll([map["QA.subject._id" := AboutSubject(subject)]], d) <==>
      ("QA" in d && d["QA"].Items?
       && exists x :: x in d["QA"].items && x.Record? && "subject" in x.fields && x.fields["subject"].Record?
                      && "_id" in x.fields["subject"].fields && x.fields["subject"].fields["_id"] == Text(subject))
  {
    OneCondition("QA.subject._id", AboutSubject(subject), d);
    HeadBeforeDot("QA.subject._id", 2);
    assert "QA.subject._id"[..2] == "QA";
  }

  lemma FlagAsks(d: Document)
    ensures MeetsAll([map["isAbandoned" := NotAbandoned()]], d) <==>
      "isAbandoned" in d && d["isAbandoned"] == Flag(false)
  {
    OneCondition("isAbandoned", NotAbandoned(), d);
    HeadBeforeDot("isAbandoned", 11);
    assert "isAbandoned"[..11] == "isAbandoned";
  }

  lemma ExtraParts(request: Request, isAbandoned: bool, d: Document)
    ensures MeetsAll(Extra(request, isAbandoned), d) <==>
      && (request.lastDay.Some? ==> MeetsAll([map["createdAt" := Since(request.lastDay.value)]], d))
      && (request.subject.Some? ==> MeetsAll([map["QA.subject._id" := AboutSubject(request.subject.value)]], d))
      && (!isAbandoned ==> MeetsAll([map["isAbandoned" := NotAbandoned()]], d))
  {
    var day := if request.lastDay.Some? then [map["createdAt" := Since(request.lastDay.value)]] else [];
    var subject := if request.subject.Some? then [map["QA.subject._id" := AboutSubject(request.subject.value)]] else [];
    var flag := if isAbandoned then [] else [map["isAbandoned" := NotAbandoned()]];
    MeetsAllAppend(day + subject, flag, d);
    MeetsAllAppend(day, subject, d);
  }

  /** What the added conditions ask of a record. */
  lemma ExtraAsks(request: Request, isAbandoned: bool, d: Document)
    ensures MeetsAll(Extra(request, isAbandoned), d) <==>
      && (request.lastDay.Some? ==>
            "createdAt" in d && d["createdAt"].Number? && d["createdAt"].number >= request.lastDay.value)
      && (request.subject.Some? ==>
            "QA" in d && d["QA"].Items?
            && exists x :: x in d["QA"].items && x.Record? && "subject" in x.fields && x.fields["subject"].Record?
                           && "_id" in x.fields["subject"].fields
                           && x.fields["subject"].fields["_id"] == Text(request.subject.value))
      && (!isAbandoned ==> "isAbandoned" in d && d["isAbandoned"] == Flag(false))
  {
    ExtraParts(request, isAbandoned, d);
    FlagAsks(d);
    if request.lastDay.Some? {
      DayAsks(request.lastDay.value, d);
    }
    if request.subject.Some? {
      SubjectAsks(request.subject.value, d);
    }
  }

  method ConditionCount(request: Request, filter: seq<FilterObject>, isAbandoned: bool) returns (all: seq<FilterObject>)
    requires Distinct(filter)
    ensures Distinct(all) && |all| >= |filter| && all[..|filter|] == filter && fresh(all[|filter|..])
    ensures Contents(all) == old(Contents(filter)) + Extra(request, isAbandoned)
  {
    all := filter;
    if request.lastDay.Some? {
      var o := new FilterObject(map["createdAt" := Since(request.lastDay.value)]);
      all := all + [o];
    }
    if request.subject.Some? {
      var o := new FilterObject(map["QA.subject._id" := AboutSubject(request.subject.value)]);
      all := all + [o];
    }
    if !isAbandoned {
      var o := new FilterObject(map["isAbandoned" := NotAbandoned()]);
      all := all + [o];
    }
  }

  lemma EmptyQueryKeepsAll(before: seq<Query>, any: Query, attempts: seq<Attempt>, details: seq<Detail>)
    requires any.Keys == {}
    ensures Pipeline(before, [any], attempts, details) == Pipeline(before, [], attempts, details)
  {
    FilterSame(Keeps([any]), Keeps([]), JoinDetails(Filter(Keeps(before), attempts), details));
  }

  /** The queries of the filter objects, as they are sent to the database. */
  method Conditions(filter: seq<FilterObject>) returns (queries: seq<Query>)
    ensures queries == Contents(filter)
  {
    queries := [];
    for i := 0 to |filter|
      invariant queries == Contents(filter)[..i]
    {
      queries := queries + [filter[i].conds];
    }
  }

  /** The second half of `summaryPractice`: splitting the filter and running the pipeline. */
  method SplitAndRun(filter: seq<FilterObject>, attempts: seq<Attempt>, details: seq<Detail>) returns (count: nat)
    requires Distinct(filter)
    modifies filter
    ensures count == |Filter(Keeps(old(Contents(filter))), JoinDetails(attempts, details))|
  {
    ghost var full := Contents(filter);
    var filter2 := ExtractFromFilter(filter);
    if |filter2| == 0 {
      filter2 := [map[]];
      EmptyQueryKeepsAll(Fronts(full), map[], attempts, details);
    }
    var before := Conditions(filter);
    var records := Pipeline(before, filter2, attempts, details);
    SplitSelectsTheSame(full, attempts, details);
    return |records|;
  }

  /** `summaryPractice`: how many joined records meet the filter given and the conditions added. */
  method SummaryPractice(request: Request, filter: seq<FilterObject>, attempts: seq<Attempt>, details: seq<Detail>)
    returns (count: nat)
    requires Distinct(filter)
    modifies filter
    ensures var full := old(Contents(filter)) + Extra(request, false);
      && count == SumBy(MatchesOf(full, details), attempts)
      && (OneDetailEach(attempts, details) ==>
            count == |set i | 0 <= i < |attempts| && MeetsWithDetail(full, attempts[i], details)|)
  {
    var all := ConditionCount(request, filter, false);
    ghost var full := Contents(all);
    assert all == filter + all[|filter|..];
    count := SplitAndRun(all, attempts, details);
    JoinedCount(full, attempts, details);
    if OneDetailEach(attempts, details) {
      OneDetailCount(full, attempts, details);
    }
  }
}
