/** The sections of a test: merging them by name, and renaming the questions' references. */
module Sections {
  import opened Lists
  import opened Wrappers
  import opened QuestionOrder

  /** A stored section has an id; one just added by the editor may not. */
  datatype Section = Section(id: Option<nat>, name: string, time: int)

  function TimeOf(s: Section): int { s.time }

  function Names(ss: seq<Section>): (r: seq<string>)
    ensures |r| == |ss|
  {
    seq(|ss|, i requires 0 <= i < |ss| => ss[i].name)
  }

  ghost predicate UniqueNames(ss: seq<Section>) {
    forall i, j | 0 <= i < j < |ss| :: ss[i].name != ss[j].name
  }

  // ----- Merging -----

  /** The position of the first section of that name, or the length of the list. */
  function IndexOfName(ss: seq<Section>, name: string): (i: nat)
    ensures i <= |ss|
    ensures i < |ss| ==> ss[i].name == name
    ensures forall j | 0 <= j < i :: ss[j].name != name
  {
    if ss == [] || ss[0].name == name then 0 else 1 + IndexOfName(ss[1..], name)
  }

  function MergeInto(merged: seq<Section>, s: Section): seq<Section> {
    var i := IndexOfName(merged, s.name);
    if i < |merged| then merged[i := merged[i].(time := merged[i].time + s.time)] else merged + [s]
  }

  /** The sections merged by name, one after the other (lines 1110-1122). */
  function Merge(ss: seq<Section>): seq<Section> {
    if ss == [] then [] else MergeInto(Merge(ss[..|ss| - 1]), ss[|ss| - 1])
  }

  /** The names of `names` without repetitions, each where it first occurs. */
  function FirstOccurrences(names: seq<string>): seq<string> {
    if names == [] then []
    else
      var rest := FirstOccurrences(names[..|names| - 1]);
      var last := names[|names| - 1];
      if last in rest then rest else rest + [last]
  }

  function TimeUnder(name: string): Section -> int {
    (s: Section) => if s.name == name then s.time else 0
  }

  lemma NamesAfterMergeInto(merged: seq<Section>, s: Section)
    ensures Names(MergeInto(merged, s)) == if s.name in Names(merged) then Names(merged) else Names(merged) + [s.name]
  {
    var i := IndexOfName(merged, s.name);
    assert i < |merged| ==> Names(merged)[i] == s.name;
  }

  lemma {:induction false} SameNames(names: seq<string>, n: string)
    ensures n in FirstOccurrences(names) <==> n in names
  {
    if names != [] {
      SameNames(names[..|names| - 1], n);
      assert names == names[..|names| - 1] + [names[|names| - 1]];
      SameNames(names[..|names| - 1], names[|names| - 1]);
    }
  }

  lemma MergeIntoUnique(merged: seq<Section>, s: Section)
    requires UniqueNames(merged)
    ensures UniqueNames(MergeInto(merged, s))
  {
  }

  /** Merging leaves each name once, in the order of first occurrence. */
  lemma {:induction false} MergeNames(ss: seq<Section>)
    ensures Names(Merge(ss)) == FirstOccurrences(Names(ss))
    ensures UniqueNames(Merge(ss))
  {
    if ss != [] {
      var front, last := ss[..|ss| - 1], ss[|ss| - 1];
      MergeNames(front);
      MergeIntoUnique(Merge(front), last);
      NamesAfterMergeInto(Merge(front), last);
      assert Names(ss)[..|ss| - 1] == Names(front);
    }
  }

  /** Whatever is summed per name is kept when one more section is merged in. */
  lemma MergeIntoKeepsTime(f: Section -> int, merged: seq<Section>, s: Section)
    requires forall a <- merged | a.name == s.name :: f(a.(time := a.time + s.time)) == f(a) + f(s)
    ensures SumBy(f, MergeInto(merged, s)) == SumBy(f, merged) + f(s)
  {
    var i := IndexOfName(merged, s.name);
    if i < |merged| {
      SumByUpdate(f, merged, i, merged[i].(time := merged[i].time + s.time));
      assert merged[i] in merged && merged[i].name == s.name;
    } else {
      SumBySnoc(f, merged, s);
    }
  }

  lemma {:induction false} MergeKeepsTime(ss: seq<Section>, name: string)
    ensures SumBy(TimeOf, Merge(ss)) == SumBy(TimeOf, ss)
    ensures SumBy(TimeUnder(name), Merge(ss)) == SumBy(TimeUnder(name), ss)
  {
    if ss != [] {
      var front, last := ss[..|ss| - 1], ss[|ss| - 1];
      assert ss == front + [last];
      MergeKeepsTime(front, name);
      MergeIntoKeepsTime(TimeOf, Merge(front), last);
      MergeIntoKeepsTime(TimeUnder(name), Merge(front), last);
      SumBySnoc(TimeOf, front, last);
      SumBySnoc(TimeUnder(name), front, last);
    }
  }

  lemma {:induction false} OneSectionUnder(ss: seq<Section>, k: nat)
    requires k < |ss| && UniqueNames(ss)
    ensures SumBy(TimeUnder(ss[k].name), ss) == ss[k].time
  {
    if k == 0 {
      NoneUnder(ss[1..], ss[0].name);
    } else {
      assert ss[1..][k - 1] == ss[k] && ss[0].name != ss[k].name;
      OneSectionUnder(ss[1..], k - 1);
    }
  }

  lemma {:induction false} NoneUnder(ss: seq<Section>, name: string)
    requires forall i | 0 <= i < |ss| :: ss[i].name != name
    ensures SumBy(TimeUnder(name), ss) == 0
  {
    if ss != [] {
      NoneUnder(ss[1..], name);
    }
  }

  /** Each merged section's time is the sum of the times of all sections of its name. */
  lemma MergedTime(ss: seq<Section>, k: nat)
    requires k < |Merge(ss)|
    ensures Merge(ss)[k].time == SumBy(TimeUnder(Merge(ss)[k].name), ss)
  {
    MergeNames(ss);
    MergeKeepsTime(ss, Merge(ss)[k].name);
    OneSectionUnder(Merge(ss), k);
  }

  lemma {:induction false} MergeOfUnique(ss: seq<Section>)
    requires UniqueNames(ss)
    ensures Merge(ss) == ss
  {
    if ss != [] {
      var front, last := ss[..|ss| - 1], ss[|ss| - 1];
      MergeOfUnique(front);
      assert forall i | 0 <= i < |front| :: front[i].name != last.name;
      assert front + [last] == ss;
    }
  }

  /** Each merged section keeps the id of the first section of its name. */
  lemma {:induction false} MergedId(ss: seq<Section>, k: nat) returns (first: nat)
    requires k < |Merge(ss)|
    ensures first < |ss| && Merge(ss)[k].name == ss[first].name && Merge(ss)[k].id == ss[first].id
    ensures forall i | 0 <= i < first :: ss[i].name != ss[first].name
  {
    var front, last := ss[..|ss| - 1], ss[|ss| - 1];
    if k < |Merge(front)| {
      first := MergedId(front, k);
    } else {
      first := |ss| - 1;
      NamedInMerge(front, last.name);
    }
  }

  lemma NamedInMerge(ss: seq<Section>, name: string)
    ensures IndexOfName(Merge(ss), name) == |Merge(ss)| ==> forall i | 0 <= i < |ss| :: ss[i].name != name
  {
    MergeNames(ss);
    SameNames(Names(ss), name);
    forall i | 0 <= i < |ss| && ss[i].name == name ensures name in Names(Merge(ss)) {
      assert Names(ss)[i] == name;
    }
  }

  /** Merging twice is merging once. */
  lemma MergeIdempotent(ss: seq<Section>)
    ensures Merge(Merge(ss)) == Merge(ss)
  {
    MergeNames(ss);
    MergeOfUnique(Merge(ss));
  }

  /** The sections as saved: each has an id. */
  function Identified(ss: seq<Section>, assign: nat -> nat): (r: seq<Section>)
    ensures Names(r) == Names(ss) && |r| == |ss|
    ensures forall i | 0 <= i < |r| ::
      r[i].time == ss[i].time && r[i].id == if ss[i].id.Some? then ss[i].id else Some(assign(i))
  {
    seq(|ss|, i requires 0 <= i < |ss| => if ss[i].id.None? then ss[i].(id := Some(assign(i))) else ss[i])
  }

  lemma {:induction false} SameTimes(a: seq<Section>, b: seq<Section>)
    requires |a| == |b| && forall i | 0 <= i < |a| :: a[i].time == b[i].time
    ensures SumBy(TimeOf, a) == SumBy(TimeOf, b)
  {
    if a != [] {
      SameTimes(a[1..], b[1..]);
    }
  }

  lemma IdentifiedKeepsTime(ss: seq<Section>, assign: nat -> nat)
    ensures SumBy(TimeOf, Identified(ss, assign)) == SumBy(TimeOf, ss)
  {
    assert |Names(Identified(ss, assign))| == |Names(ss)|;
    SameTimes(Identified(ss, assign), ss);
  }

  // ----- Renaming -----

  datatype Search = Found(index: nat) | Missing | Throws

  /** Looking for a section by id; reading the id of one that has none throws (line 1134). */
  function FindById(ss: seq<Section>, id: nat): (r: Search)
    ensures r.Found? ==> r.index < |ss| && ss[r.index].id == Some(id)
    ensures r.Found? ==> forall i | 0 <= i < r.index :: ss[i].id != Some(id)
    ensures r.Missing? ==> forall i | 0 <= i < |ss| :: ss[i].id != Some(id)
  {
    if ss == [] then Missing
    else if ss[0].id.None? then Throws
    else if ss[0].id == Some(id) then Found(0)
    else
      var r := FindById(ss[1..], id);
      if r.Found? then Found(r.index + 1) else r
  }

  /** A section without id stands before any section with this id. */
  predicate BlocksSearch(ss: seq<Section>, id: nat) {
    exists j :: 0 <= j < |ss| && ss[j].id.None? && forall l | 0 <= l < j :: ss[l].id != Some(id)
  }

  lemma {:induction false} SearchThrowsExactly(ss: seq<Section>, id: nat)
    ensures FindById(ss, id).Throws? <==> BlocksSearch(ss, id)
  {
    if ss != [] && ss[0].id.Some? && ss[0].id != Some(id) {
      var rest := ss[1..];
      SearchThrowsExactly(rest, id);
      if BlocksSearch(rest, id) {
        var j :| 0 <= j < |rest| && rest[j].id.None? && forall l | 0 <= l < j :: rest[l].id != Some(id);
        assert ss[j + 1].id.None? && forall l | 0 <= l < j + 1 :: ss[l].id != Some(id);
      }
      if BlocksSearch(ss, id) {
        var j :| 0 <= j < |ss| && ss[j].id.None? && forall l | 0 <= l < j :: ss[l].id != Some(id);
        assert rest[j - 1].id.None? && forall l | 0 <= l < j - 1 :: rest[l].id != Some(id);
      }
    }
  }

  /** What the renaming table holds after the first `k` old sections. */
  function Renames(before: seq<Section>, after: seq<Section>, k: nat): Option<map<string, string>>
    requires k <= |before|
    requires forall i | 0 <= i < |before| :: before[i].id.Some?
  {
    if k == 0 then Some(map[])
    else
      var table := Renames(before, after, k - 1);
      if table.None? then None
      else
        var s := before[k - 1];
        match FindById(after, s.id.value)
        case Throws => None
        case Missing => table
        case Found(i) =>
          if s.name != after[i].name then Some(table.value[s.name := after[i].name]) else table
  }

  /** One of the first `k` old sections is looked up behind a submitted section without id. */
  predicate BlocksRenaming(before: seq<Section>, after: seq<Section>, k: nat)
    requires k <= |before| && forall i | 0 <= i < |before| :: before[i].id.Some?
  {
    exists i :: 0 <= i < k && BlocksSearch(after, before[i].id.value)
  }

  /** The renaming throws exactly if a submitted section without id stands before any section with the id
      of some old section. */
  lemma {:induction false} RenamingThrowsExactly(before: seq<Section>, after: seq<Section>, k: nat)
    requires k <= |before| && forall i | 0 <= i < |before| :: before[i].id.Some?
    ensures Renames(before, after, k).None? <==> BlocksRenaming(before, after, k)
  {
    if k > 0 {
      RenamingThrowsExactly(before, after, k - 1);
      SearchThrowsExactly(after, before[k - 1].id.value);
      if BlocksRenaming(before, after, k - 1) {
        var i :| 0 <= i < k - 1 && BlocksSearch(after, before[i].id.value);
        assert 0 <= i < k;
      }
    }
  }

  /** For example, adding a section in front of the only one there is. */
  lemma NewSectionInFrontThrows()
    ensures var kept, added := Section(Some(1), "A", 30), Section(None, "B", 10);
      Renames([kept], [added, kept], 1).None? && Renames([kept], [kept, added], 1).Some?
  {
    var kept, added := Section(Some(1), "A", 30), Section(None, "B", 10);
    RenamingThrowsExactly([kept], [added, kept], 1);
    RenamingThrowsExactly([kept], [kept, added], 1);
    assert [added, kept][0].id.None? && BlocksSearch([added, kept], 1);
    assert [kept, added][0].id == Some(1) && !BlocksSearch([kept, added], 1);
  }

  function Rename(table: map<string, string>, q: QRef): QRef {
    if q.section in table then q.(section := table[q.section]) else q
  }

  function RenameAll(table: map<string, string>, qs: seq<QRef>): (r: seq<QRef>)
    ensures |r| == |qs|
    ensures forall i | 0 <= i < |qs| :: r[i] == Rename(table, qs[i])
  {
    seq(|qs|, i requires 0 <= i < |qs| => Rename(table, qs[i]))
  }

  /** The name that questions of old section `i` get: that of the section its id became, or the old
      one if the id was dropped. */
  function NewName(before: seq<Section>, after: seq<Section>, i: nat): string
    requires i < |before| && before[i].id.Some?
  {
    var r := FindById(after, before[i].id.value);
    if r.Found? then after[r.index].name else before[i].name
  }

  /** What the table does to `name`, once the first `k` old sections are entered. */
  lemma {:induction false} TableHolds(before: seq<Section>, after: seq<Section>, k: nat, name: string)
    requires k <= |before| && forall i | 0 <= i < |before| :: before[i].id.Some?
    requires UniqueNames(before) && Renames(before, after, k).Some?
    ensures var table := Renames(before, after, k).value;
      && (name in table ==> exists i :: 0 <= i < k && before[i].name == name)
      && (forall i | 0 <= i < k && before[i].name == name ::
            (if name in table then table[name] else name) == NewName(before, after, i))
  {
    if k > 0 {
      TableHolds(before, after, k - 1, name);
      assert before[k - 1].name == name ==> forall i | 0 <= i < k - 1 :: before[i].name != before[k - 1].name;
    }
  }

  /** Renaming is a simultaneous substitution: a question of old section `i` ends up with the name its
      section's id now has, however the names were exchanged. */
  lemma RenameIsSubstitution(before: seq<Section>, after: seq<Section>, q: QRef, i: nat)
    requires forall j | 0 <= j < |before| :: before[j].id.Some?
    requires UniqueNames(before) && Renames(before, after, |before|).Some?
    requires i < |before| && q.section == before[i].name
    ensures Rename(Renames(before, after, |before|).value, q) == q.(section := NewName(before, after, i))
  {
    TableHolds(before, after, |before|, q.section);
  }

  /** A question of no old section stays as it is. */
  lemma RenameLeavesOthers(before: seq<Section>, after: seq<Section>, q: QRef)
    requires forall j | 0 <= j < |before| :: before[j].id.Some?
    requires UniqueNames(before) && Renames(before, after, |before|).Some?
    requires forall j | 0 <= j < |before| :: before[j].name != q.section
    ensures Rename(Renames(before, after, |before|).value, q) == q
  {
    TableHolds(before, after, |before|, q.section);
  }

  /** After rename and merge, the section of a question exists exactly when its section's id was kept,
      or another section now has its old name; and then it exists once. */
  lemma SectionExistsIff(before: seq<Section>, after: seq<Section>, q: QRef, i: nat)
    requires forall j | 0 <= j < |before| :: before[j].id.Some?
    requires UniqueNames(before) && Renames(before, after, |before|).Some?
    requires i < |before| && q.section == before[i].name
    ensures var q' := Rename(Renames(before, after, |before|).value, q);
      && (q'.section in Names(Merge(after)) <==>
            (exists j :: 0 <= j < |after| && after[j].id == before[i].id) || before[i].name in Names(after))
      && (forall a, b | 0 <= a < |Merge(after)| && 0 <= b < |Merge(after)|
            && Merge(after)[a].name == q'.section && Merge(after)[b].name == q'.section :: a == b)
  {
    RenameIsSubstitution(before, after, q, i);
    MergeNames(after);
    SameNames(Names(after), NewName(before, after, i));
    var r := FindById(after, before[i].id.value);
    RenamingThrowsExactly(before, after, |before|);
    SearchThrowsExactly(after, before[i].id.value);
    if r.Found? {
      assert Names(after)[r.index] == after[r.index].name;
    }
  }

  /** With unique old names and no id dropped, a question of old section `i` ends up in exactly one
      merged section: the one that the section with that id became, or was merged into. */
  lemma QuestionsKeepTheirSection(before: seq<Section>, after: seq<Section>, q: QRef, i: nat) returns (k: nat)
    requires forall j | 0 <= j < |before| :: before[j].id.Some?
    requires UniqueNames(before) && Renames(before, after, |before|).Some?
    requires forall j | 0 <= j < |before| :: !FindById(after, before[j].id.value).Missing?
    requires i < |before| && q.section == before[i].name
    ensures var q' := Rename(Renames(before, after, |before|).value, q);
      && FindById(after, before[i].id.value).Found?
      && q'.section == after[FindById(after, before[i].id.value).index].name
      && k < |Merge(after)| && Merge(after)[k].name == q'.section
      && forall l | 0 <= l < |Merge(after)| && l != k :: Merge(after)[l].name != q'.section
  {
    RenameIsSubstitution(before, after, q, i);
    RenamingThrowsExactly(before, after, |before|);
    SearchThrowsExactly(after, before[i].id.value);
    MergeNames(after);
    var name := NewName(before, after, i);
    SameNames(Names(after), name);
    assert Names(after)[FindById(after, before[i].id.value).index] == name;
    k :| 0 <= k < |Merge(after)| && Names(Merge(after))[k] == name;
  }
}
