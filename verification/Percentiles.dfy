/** The percentile of an attempt among the other students' best attempts (lines 1456-1478 of the
    attempt service).  Percentages are rounded to hundredths, and counted as such. */
module Percentiles {
  import opened Lists
  import opened Pipelines

  /** `Number(x.toFixed(2))`, in hundredths. */
  function Hundredths(x: real): int {
    if x >= 0.0 then (x * 100.0 + 0.5).Floor else -(-x * 100.0 + 0.5).Floor
  }

  /** The current percentage is the quotient of the marks, rounded; infinite for maximum marks of 0. */
  lemma CurrentIsQuotient(totalMark: real, maximumMarks: real)
    ensures var current := CurrentPercent(totalMark, maximumMarks);
      && (totalMark <= 0.0 ==> current == Finite(0))
      && (totalMark > 0.0 ==> (current.Infinite? <==> maximumMarks == 0.0))
      && (totalMark > 0.0 && maximumMarks != 0.0 ==>
            IsNearest(current.hundredths, totalMark / maximumMarks * 100.0))
  {
    if totalMark > 0.0 && maximumMarks != 0.0 {
      var x := totalMark / maximumMarks * 100.0;
      HundredthsAreNearest(x, Hundredths(x));
    }
  }

  /** `h` is `x` in hundredths, to the nearest one, halves away from 0. */
  predicate IsNearest(h: int, x: real) {
    if x >= 0.0 then x * 100.0 - 0.5 < h as real <= x * 100.0 + 0.5
    else x * 100.0 - 0.5 <= h as real < x * 100.0 + 0.5
  }

  lemma HundredthsAreNearest(x: real, h: int)
    ensures h == Hundredths(x) <==> IsNearest(h, x)
  {
    var y := x * 100.0;
    if x < 0.0 {
      assert -x * 100.0 == -y;
    }
  }

  lemma HundredthsExact(c: int)
    ensures Hundredths(c as real / 100.0) == c
  {
    var x := c as real / 100.0;
    assert x * 100.0 == c as real;
    if c < 0 {
      assert -x * 100.0 + 0.5 == (-c) as real + 0.5;
    }
  }

  /** Dividing by maximum marks of 0 gives an infinite percentage. */
  datatype Percent = Finite(hundredths: int) | Infinite

  /** The percentage of the current attempt: no marks, or less, count as 0. */
  function CurrentPercent(totalMark: real, maximumMarks: real): Percent {
    if totalMark <= 0.0 then Finite(0)
    else if maximumMarks == 0.0 then Infinite
    else Finite(Hundredths(totalMark / maximumMarks * 100.0))
  }

  /** Twice what one other score contributes to the mid-rank of score `c`. */
  function Weight(c: int): real -> int {
    (y: real) => if c > Hundredths(y) then 2 else if c == Hundredths(y) then 1 else 0
  }

  /** Twice the mid-rank of `c` in `scores`. */
  function TwiceRank(scores: seq<real>, c: int): int { SumBy(Weight(c), scores) }

  function Percentile(others: seq<real>, c: int): real {
    var scores := others + [c as real / 100.0];
    (TwiceRank(scores, c) as real / 2.0) / |scores| as real * 100.0
  }

  /** The current attempt itself adds half a rank. */
  lemma OwnScore(others: seq<real>, c: int)
    ensures TwiceRank(others + [c as real / 100.0], c) == TwiceRank(others, c) + 1
  {
    var own := [c as real / 100.0];
    SumByAppend(Weight(c), others, own);
    HundredthsExact(c);
    assert SumBy(Weight(c), own) == Weight(c)(own[0]) + SumBy(Weight(c), own[1..]);
  }

  lemma {:induction false} RankBounds(scores: seq<real>, c: int)
    ensures 0 <= TwiceRank(scores, c) <= 2 * |scores|
  {
    if scores != [] {
      RankBounds(scores[1..], c);
    }
  }

  /** The percentile lies between 50/N and 100 - 50/N, N counting the current attempt too. */
  lemma PercentileBounds(others: seq<real>, c: int)
    ensures var n := |others| as real + 1.0; 50.0 / n <= Percentile(others, c) <= 100.0 - 50.0 / n
  {
    OwnScore(others, c);
    RankBounds(others, c);
    var n := |others| as real + 1.0;
    var r := TwiceRank(others + [c as real / 100.0], c) as real;
    assert 1.0 <= r <= 2.0 * n - 1.0;
    assert Percentile(others, c) == r / 2.0 / n * 100.0 == r * 50.0 / n;
    Divide(50.0, r * 50.0, n);
    Divide(r * 50.0, (2.0 * n - 1.0) * 50.0, n);
    assert (2.0 * n - 1.0) * 50.0 / n == 100.0 - 50.0 / n;
  }

  lemma Divide(x: real, y: real, n: real)
    requires x <= y && n > 0.0
    ensures x / n <= y / n
  {
  }

  lemma {:induction false} RankMonotone(scores: seq<real>, c: int, d: int)
    requires c <= d
    ensures TwiceRank(scores, c) <= TwiceRank(scores, d)
  {
    if scores != [] {
      RankMonotone(scores[1..], c, d);
    }
  }

  /** A higher current score never has a lower percentile. */
  lemma PercentileMonotone(others: seq<real>, c: int, d: int)
    requires c <= d
    ensures Percentile(others, c) <= Percentile(others, d)
  {
    OwnScore(others, c);
    OwnScore(others, d);
    RankMonotone(others, c, d);
    var n := |others| as real + 1.0;
    Divide((TwiceRank(others, c) + 1) as real / 2.0, (TwiceRank(others, d) + 1) as real / 2.0, n);
  }

  /** The percentile does not depend on the order of the other scores. */
  lemma PercentileOrderFree(others: seq<real>, others': seq<real>, c: int)
    requires multiset(others) == multiset(others')
    ensures Percentile(others, c) == Percentile(others', c)
  {
    SameElements(others, others');
    SumByPermutation(Weight(c), others, others');
    OwnScore(others, c);
    OwnScore(others', c);
  }

  // ----- The ranks of a whole list -----

  /** The mid-ranks of all of `list` within `scores`, doubled and summed. */
  function AllRanks(list: seq<real>, scores: seq<real>): int {
    SumBy((x: real) => TwiceRank(scores, Hundredths(x)), list)
  }

  lemma {:induction false} RanksGrow(list: seq<real>, scores: seq<real>, x: real)
    ensures AllRanks(list, scores + [x]) + TwiceRank(list, Hundredths(x)) == AllRanks(list, scores) + 2 * |list|
  {
    if list != [] {
      RanksGrow(list[1..], scores, x);
      var c := Hundredths(list[0]);
      SumByAppend(Weight(c), scores, [x]);
      assert SumBy(Weight(c), [x]) == Weight(c)(x) + SumBy(Weight(c), [x][1..]);
    }
  }

  /** If each of N scores is ranked against the whole list, the mid-ranks sum to half of N squared. */
  lemma {:induction false} RanksSumToHalfSquare(list: seq<real>)
    ensures AllRanks(list, list) == |list| * |list|
  {
    if list != [] {
      var n := |list| - 1;
      var front, x := list[..n], list[n];
      assert list == front + [x];
      RanksSumToHalfSquare(front);
      RanksGrow(front, front, x);
      var c := Hundredths(x);
      SumByAppend(Weight(c), front, [x]);
      assert SumBy(Weight(c), [x]) == Weight(c)(x) + SumBy(Weight(c), [x][1..]);
      AllRanksAppend(front, x, list);
      assert (n + 1) * (n + 1) == n * n + 2 * n + 1;
    }
  }

  lemma AllRanksAppend(front: seq<real>, x: real, scores: seq<real>)
    ensures AllRanks(front + [x], scores) == AllRanks(front, scores) + TwiceRank(scores, Hundredths(x))
  {
    var f := (y: real) => TwiceRank(scores, Hundredths(y));
    SumByAppend(f, front, [x]);
    assert SumBy(f, [x]) == f(x) + SumBy(f, [x][1..]);
  }

  lemma PercentileWithin(list: seq<real>, i: nat)
    requires i < |list|
    ensures Percentile(list[..i] + list[i + 1..], Hundredths(list[i])) ==
      TwiceRank(list, Hundredths(list[i])) as real / 2.0 / |list| as real * 100.0
  {
    var c := Hundredths(list[i]);
    var others := list[..i] + list[i + 1..];
    SumByWithout(Weight(c), list, i);
    OwnScore(others, c);
  }

  /** The percentile of each score of `list` among all the others. */
  function AllPercentiles(list: seq<real>): (r: seq<real>)
    ensures |r| == |list|
  {
    seq(|list|, i requires 0 <= i < |list| => Percentile(list[..i] + list[i + 1..], Hundredths(list[i])))
  }

  function RealSum(s: seq<real>): real {
    if s == [] then 0.0 else RealSum(s[..|s| - 1]) + s[|s| - 1]
  }

  function Share(ranks: int, n: nat): real
    requires n > 0
  {
    ranks as real * 50.0 / n as real
  }

  lemma AddShares(a: int, b: int, n: nat)
    requires n > 0
    ensures Share(a, n) + b as real / 2.0 / n as real * 100.0 == Share(a + b, n)
  {
    assert b as real / 2.0 / n as real * 100.0 == b as real * 50.0 / n as real;
  }

  lemma {:induction false} PercentilesAreShares(list: seq<real>, k: nat)
    requires k <= |list| && list != []
    ensures RealSum(AllPercentiles(list)[..k]) == Share(AllRanks(list[..k], list), |list|)
  {
    if k > 0 {
      PercentilesAreShares(list, k - 1);
      PercentileWithin(list, k - 1);
      AllRanksAppend(list[..k - 1], list[k - 1], list);
      assert list[..k] == list[..k - 1] + [list[k - 1]];
      var p := AllPercentiles(list);
      assert p[..k][..k - 1] == p[..k - 1];
      assert p[..k][k - 1] == p[k - 1];
      AddShares(AllRanks(list[..k - 1], list), TwiceRank(list, Hundredths(list[k - 1])), |list|);
    }
  }

  lemma Cancel(x: real, r: real)
    requires r > 0.0
    ensures x * r / r == x
  {
  }

  lemma MeanShare(ranks: int, n: nat)
    requires n > 0 && ranks == n * n
    ensures Share(ranks, n) / n as real == 50.0
  {
    var r := n as real;
    calc {
      Share(ranks, n);
      r * r * 50.0 / r;
      { assert r * r * 50.0 == (r * 50.0) * r; }
      (r * 50.0) * r / r;
      { Cancel(r * 50.0, r); }
      r * 50.0;
      50.0 * r;
    }
    Cancel(50.0, r);
  }

  /** The mean percentile of a whole list is exactly 50. */
  lemma MeanPercentileIs50(list: seq<real>)
    requires list != []
    ensures RealSum(AllPercentiles(list)) / |list| as real == 50.0
  {
    PercentilesAreShares(list, |list|);
    assert list[..|list|] == list;
    assert AllPercentiles(list)[..|list|] == AllPercentiles(list);
    RanksSumToHalfSquare(list);
    MeanShare(AllRanks(list, list), |list|);
  }

  // ----- The computation -----

  /** An entry of the list of scores, which the current percentage joins. */
  datatype Score = Number(value: real) | Infinity

  function Numbers(s: seq<real>): seq<Score> { Map((x: real) => Number(x), s) }

  function OwnEntry(current: Percent): Score {
    if current.Finite? then Number(current.hundredths as real / 100.0) else Infinity
  }

  function WithOwn(percents: seq<real>, current: Percent): seq<Score> { Numbers(percents) + [OwnEntry(current)] }

  /** The list of the other scores, with the current one behind. */
  lemma OwnIsLast(percents: seq<real>, current: Percent)
    ensures var list, n := WithOwn(percents, current), |percents|;
      && |list| == n + 1 && (forall i | 0 <= i < n :: list[i] == Number(percents[i]))
      && list[n] == if current.Finite? then Number(current.hundredths as real / 100.0) else Infinity
  {
  }

  predicate Above(current: Percent, s: Score) {
    s.Number? && (current.Finite? ==> current.hundredths > Hundredths(s.value))
  }

  predicate Equals(current: Percent, s: Score) {
    if current.Finite? then s.Number? && current.hundredths == Hundredths(s.value) else s.Infinity?
  }

  function EntryWeight(current: Percent): Score -> int {
    (s: Score) => if Above(current, s) then 2 else if Equals(current, s) then 1 else 0
  }

  predicate AtMost(a: Score, b: Score) {
    b.Infinity? || (a.Number? && a.value <= b.value)
  }

  lemma {:induction false} NumbersWeigh(s: seq<real>, current: Percent)
    ensures SumBy(EntryWeight(current), Numbers(s)) ==
      if current.Finite? then TwiceRank(s, current.hundredths) else 2 * |s|
  {
    if s != [] {
      NumbersWeigh(s[1..], current);
      assert Numbers(s)[1..] == Numbers(s[1..]);
    }
  }

  lemma OwnWeight(percents: seq<real>, current: Percent)
    ensures SumBy(EntryWeight(current), WithOwn(percents, current)) ==
      1 + if current.Finite? then TwiceRank(percents, current.hundredths) else 2 * |percents|
  {
    NumbersWeigh(percents, current);
    SumBySnoc(EntryWeight(current), Numbers(percents), OwnEntry(current));
    if current.Finite? {
      HundredthsExact(current.hundredths);
    }
  }

  /** The counting loop: how many scores are below the current one, and how many equal it. */
  method CountRanks(scores: seq<Score>, current: Percent) returns (below: nat, same: nat)
    ensures 2 * below + same == SumBy(EntryWeight(current), scores)
  {
    below, same := 0, 0;
    for i := 0 to |scores|
      invariant 2 * below + same == SumBy(EntryWeight(current), scores[..i])
    {
      SumBySnoc(EntryWeight(current), scores[..i], scores[i]);
      assert scores[..i + 1] == scores[..i] + [scores[i]];
      if Above(current, scores[i]) {
        below := below + 1;
      }
      if Equals(current, scores[i]) {
        same := same + 1;
      }
    }
    assert scores[..|scores|] == scores;
  }

  /** The quotient the code computes from the two counts. */
  function FromCounts(below: nat, same: nat, n: nat): real
    requires n > 0
  {
    (below as real + 0.5 * same as real) / n as real * 100.0
  }

  lemma FiniteCounts(others: seq<real>, c: int, below: nat, same: nat)
    requires 2 * below + same == TwiceRank(others, c) + 1
    ensures FromCounts(below, same, |others| + 1) == Percentile(others, c)
  {
    OwnScore(others, c);
    assert below as real + 0.5 * same as real == (2 * below + same) as real / 2.0;
  }

  /** An infinite percentage reaches the upper bound. */
  lemma InfiniteCounts(n: nat, below: nat, same: nat)
    requires 2 * below + same == 2 * n + 1
    ensures FromCounts(below, same, n + 1) == 100.0 - 50.0 / (n as real + 1.0)
  {
    var r := n as real + 1.0;
    assert below as real + 0.5 * same as real == r - 0.5;
    assert (r - 0.5) / r == 1.0 - 0.5 / r;
  }

  lemma CountsGivePercentile(percents: seq<real>, current: Percent, below: nat, same: nat)
    requires 2 * below + same == SumBy(EntryWeight(current), WithOwn(percents, current))
    ensures var p := FromCounts(below, same, |percents| + 1);
      if current.Finite? then p == Percentile(percents, current.hundredths)
      else p == 100.0 - 50.0 / (|percents| as real + 1.0)
  {
    OwnWeight(percents, current);
    if current.Finite? {
      FiniteCounts(percents, current.hundredths, below, same);
    } else {
      InfiniteCounts(|percents|, below, same);
    }
  }

  lemma SortedScores(list: seq<Score>, current: Percent)
    ensures var s := Sort(AtMost, list);
      && multiset(s) == multiset(list) && |s| == |list| && Sorted(AtMost, s)
      && SumBy(EntryWeight(current), s) == SumBy(EntryWeight(current), list)
  {
    SortElements(AtMost, list);
    SortSorts(AtMost, list);
    SameElements(Sort(AtMost, list), list);
    SumByPermutation(EntryWeight(current), Sort(AtMost, list), list);
  }

  /** The rank counts the scores below, and half of those that are equal. */
  lemma {:induction false} RankCounts(scores: seq<real>, c: int)
    ensures TwiceRank(scores, c) ==
      2 * |Places((y: real) => Hundredths(y) < c, scores)| + |Places((y: real) => Hundredths(y) == c, scores)|
  {
    var below, same := (y: real) => Hundredths(y) < c, (y: real) => Hundredths(y) == c;
    if scores == [] {
      assert Places(below, scores) == {} == Places(same, scores);
    } else {
      var front, y := scores[..|scores| - 1], scores[|scores| - 1];
      assert scores == front + [y];
      RankCounts(front, c);
      SumBySnoc(Weight(c), front, y);
      PlacesSnoc(below, front, y);
      PlacesSnoc(same, front, y);
    }
  }

  lemma PercentileCounts(others: seq<real>, c: int)
    ensures var below, same := |set i | 0 <= i < |others| && Hundredths(others[i]) < c|,
                               |set i | 0 <= i < |others| && Hundredths(others[i]) == c|;
      Percentile(others, c) == (below as real + 0.5 * (same + 1) as real) / (|others| + 1) as real * 100.0
  {
    RankCounts(others, c);
    assert Places((y: real) => Hundredths(y) < c, others) == set i | 0 <= i < |others| && Hundredths(others[i]) < c;
    assert Places((y: real) => Hundredths(y) == c, others) == set i | 0 <= i < |others| && Hundredths(others[i]) == c;
    var below: nat := |Places((y: real) => Hundredths(y) < c, others)|;
    var same: nat := |Places((y: real) => Hundredths(y) == c, others)|;
    FiniteCounts(others, c, below, same + 1);
  }

  /** `calculatePercentile`: the percentile, with the sorted scores it was counted in. */
  method CalculatePercentile(percents: seq<real>, totalMark: real, maximumMarks: real)
    returns (percentlite: real, accuracys: seq<Score>, current: Percent)
    ensures current == CurrentPercent(totalMark, maximumMarks)
    ensures current.Finite? ==> percentlite == Percentile(percents, current.hundredths)
    ensures current.Infinite? ==> percentlite == 100.0 - 50.0 / (|percents| as real + 1.0)
    ensures multiset(accuracys) == multiset(WithOwn(percents, current))
    ensures forall i, j | 0 <= i < j < |accuracys| ::
      accuracys[j].Infinity? || (accuracys[i].Number? && accuracys[i].value <= accuracys[j].value)
  {
    current := CurrentPercent(totalMark, maximumMarks);
    var list := WithOwn(percents, current);
    accuracys := Sort(AtMost, list);
    SortedScores(list, current);
    var below, same := CountRanks(accuracys, current);
    percentlite := FromCounts(below, same, |accuracys|);
    CountsGivePercentile(percents, current, below, same);
  }
}
