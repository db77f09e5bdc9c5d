/** Aggregation pipelines on lists: matching, joining and grouping. */
module Pipelines {
  import opened Lists

  function Map<D, R>(f: D -> R, s: seq<D>): (r: seq<R>)
    ensures |r| == |s| && forall i | 0 <= i < |s| :: r[i] == f(s[i])
  {
    seq(|s|, i requires 0 <= i < |s| => f(s[i]))
  }

  /** The lists `f` makes of the elements, one after the other. */
  function FlatMap<A, R>(f: A -> seq<R>, s: seq<A>): seq<R> {
    if s == [] then [] else f(s[0]) + FlatMap(f, s[1..])
  }

  /** What `$lookup` with `$unwind` makes of one record: one joined record per linked element of `right`. */
  function Joined<A, D, R>(right: seq<D>, linked: A -> D -> bool, merge: A -> D -> R): A -> seq<R> {
    (a: A) => Map(merge(a), Filter(linked(a), right))
  }

  function Filtered<A, R>(p: R -> bool, f: A -> seq<R>): A -> seq<R> {
    (a: A) => Filter(p, f(a))
  }

  function Chained<A, B, R>(f: A -> seq<B>, g: B -> seq<R>): A -> seq<R> {
    (a: A) => FlatMap(g, f(a))
  }

  function Composed<A, B, R>(f: A -> B, g: B -> R): A -> R {
    (a: A) => g(f(a))
  }

  lemma {:induction false} FlatMapAppend<A, R>(f: A -> seq<R>, s: seq<A>, t: seq<A>)
    ensures FlatMap(f, s + t) == FlatMap(f, s) + FlatMap(f, t)
  {
    if s == [] {
      assert s + t == t;
    } else {
      FlatMapAppend(f, s[1..], t);
      assert (s + t)[1..] == s[1..] + t;
      assert f(s[0]) + (FlatMap(f, s[1..]) + FlatMap(f, t)) == f(s[0]) + FlatMap(f, s[1..]) + FlatMap(f, t);
    }
  }

  lemma FlatMapSnoc<A, R>(f: A -> seq<R>, s: seq<A>, x: A)
    ensures FlatMap(f, s + [x]) == FlatMap(f, s) + f(x)
  {
    FlatMapAppend(f, s, [x]);
    assert FlatMap(f, [x][1..]) == [];
  }

  /** A filter after a join can be applied to what each record contributes. */
  lemma {:induction false} FilterFlatMap<A, R>(p: R -> bool, f: A -> seq<R>, s: seq<A>)
    ensures Filter(p, FlatMap(f, s)) == FlatMap(Filtered(p, f), s)
  {
    if s != [] {
      FilterAppend(p, f(s[0]), FlatMap(f, s[1..]));
      FilterFlatMap(p, f, s[1..]);
    }
  }

  lemma {:induction false} FlatMapFlatMap<A, B, R>(f: A -> seq<B>, g: B -> seq<R>, s: seq<A>)
    ensures FlatMap(g, FlatMap(f, s)) == FlatMap(Chained(f, g), s)
  {
    if s != [] {
      FlatMapAppend(g, f(s[0]), FlatMap(f, s[1..]));
      FlatMapFlatMap(f, g, s[1..]);
    }
  }

  lemma {:induction false} SumByMap<A, R>(f: A -> R, v: R -> int, s: seq<A>)
    ensures SumBy(v, Map(f, s)) == SumBy(Composed(f, v), s)
  {
    if s != [] {
      assert Map(f, s)[1..] == Map(f, s[1..]);
      SumByMap(f, v, s[1..]);
    }
  }

  lemma MapElement<A, R>(f: A -> R, s: seq<A>, y: R)
    ensures y in Map(f, s) <==> exists x :: x in s && f(x) == y
  {
    if y in Map(f, s) {
      var i :| 0 <= i < |s| && Map(f, s)[i] == y;
      assert s[i] in s;
    }
    if x :| x in s && f(x) == y {
      var i :| 0 <= i < |s| && s[i] == x;
      assert Map(f, s)[i] == y;
    }
  }

  lemma {:induction false} SumBySame<A>(v: A -> int, w: A -> int, s: seq<A>)
    requires forall a <- s :: v(a) == w(a)
    ensures SumBy(v, s) == SumBy(w, s)
  {
    if s != [] {
      SumBySame(v, w, s[1..]);
    }
  }

  lemma MapCons<A, R>(f: A -> R, s: seq<A>)
    requires s != []
    ensures Map(f, s) == [f(s[0])] + Map(f, s[1..])
  {
  }

  lemma MapSnoc<A, R>(f: A -> R, s: seq<A>, x: A)
    ensures Map(f, s + [x]) == Map(f, s) + [f(x)]
  {
  }

  lemma {:induction false} FilterMap<A, R>(f: A -> R, p: R -> bool, s: seq<A>)
    ensures Filter(p, Map(f, s)) == Map(f, Filter(Composed(f, p), s))
  {
    if s != [] {
      MapCons(f, s);
      FilterCons(p, f(s[0]), Map(f, s[1..]));
      FilterMap(f, p, s[1..]);
      if p(f(s[0])) {
        MapCons(f, Filter(Composed(f, p), s));
        assert Filter(Composed(f, p), s)[1..] == Filter(Composed(f, p), s[1..]);
      }
    }
  }

  lemma {:induction false} FilterSame<A>(p: A -> bool, q: A -> bool, s: seq<A>)
    requires forall a <- s :: p(a) == q(a)
    ensures Filter(p, s) == Filter(q, s)
  {
    if s != [] {
      FilterSame(p, q, s[1..]);
    }
  }

  // ----- $group -----

  /** The keys of `rows`, each once, in the order of first occurrence. */
  function Keys<R, K(==)>(key: R -> K, rows: seq<R>): seq<K> {
    if rows == [] then []
    else
      var front := Keys(key, rows[..|rows| - 1]);
      var k := key(rows[|rows| - 1]);
      if k in front then front else front + [k]
  }

  function HasKey<R, K(==)>(key: R -> K, k: K): R -> bool {
    (r: R) => key(r) == k
  }

  datatype Group<K, R> = Group(key: K, rows: seq<R>)

  function GroupsFor<R, K(==)>(key: R -> K, rows: seq<R>, keys: seq<K>): seq<Group<K, R>> {
    if keys == [] then []
    else [Group(keys[0], Filter(HasKey(key, keys[0]), rows))] + GroupsFor(key, rows, keys[1..])
  }

  /** `$group` by `key`: each group holds its rows in their order. */
  function GroupBy<R, K(==)>(key: R -> K, rows: seq<R>): seq<Group<K, R>> {
    GroupsFor(key, rows, Keys(key, rows))
  }

  lemma {:induction false} KeysAreDistinct<R, K>(key: R -> K, rows: seq<R>)
    ensures Distinct(Keys(key, rows))
  {
    if rows != [] {
      KeysAreDistinct(key, rows[..|rows| - 1]);
    }
  }

  lemma {:induction false} KeysOccur<R, K>(key: R -> K, rows: seq<R>, k: K)
    ensures k in Keys(key, rows) <==> exists r :: r in rows && key(r) == k
  {
    if rows != [] {
      var front, last := rows[..|rows| - 1], rows[|rows| - 1];
      KeysOccur(key, front, k);
      KeysOccur(key, front, key(last));
      assert rows == front + [last];
    }
  }

  /** The groups are those of the keys, with exactly the rows of each key; none is empty. */
  lemma {:induction false} GroupsForAt<R, K>(key: R -> K, rows: seq<R>, keys: seq<K>, i: nat)
    requires i < |keys|
    ensures |GroupsFor(key, rows, keys)| == |keys|
    ensures GroupsFor(key, rows, keys)[i] == Group(keys[i], Filter(HasKey(key, keys[i]), rows))
  {
    if i > 0 {
      GroupsForAt(key, rows, keys[1..], i - 1);
    } else if |keys| > 1 {
      GroupsForAt(key, rows, keys[1..], 0);
    }
  }

  // ----- Grouping what a join spread -----

  function HasRows<A, R(==)>(f: A -> seq<R>): A -> bool {
    (a: A) => f(a) != []
  }

  function GroupOf<A, K, R>(id: A -> K, f: A -> seq<R>): A -> Group<K, R> {
    (a: A) => Group(id(a), f(a))
  }

  lemma {:induction false} KeysOfOne<R, K>(key: R -> K, rows: seq<R>, k: K, more: seq<R>)
    requires forall r <- more :: key(r) == k
    requires k !in Keys(key, rows)
    ensures Keys(key, rows + more) == if more == [] then Keys(key, rows) else Keys(key, rows) + [k]
  {
    if more == [] {
      assert rows + more == rows;
    } else {
      var n := |more| - 1;
      KeysOfOne(key, rows, k, more[..n]);
      assert (rows + more)[..|rows + more| - 1] == rows + more[..n];
      assert key(more[n]) == k;
    }
  }

  lemma {:induction false} FlatMapElement<A, R>(f: A -> seq<R>, s: seq<A>, r: R) returns (a: A)
    requires r in FlatMap(f, s)
    ensures a in s && r in f(a)
  {
    if r in f(s[0]) {
      a := s[0];
    } else {
      a := FlatMapElement(f, s[1..], r);
    }
  }

  lemma {:induction false} FlatMapHas<A, R>(f: A -> seq<R>, s: seq<A>, a: A, r: R)
    requires a in s && r in f(a)
    ensures r in FlatMap(f, s)
  {
    if a != s[0] {
      FlatMapHas(f, s[1..], a, r);
    }
  }

  lemma {:induction false} FilterTwice<T>(p: T -> bool, q: T -> bool, both: T -> bool, s: seq<T>)
    requires forall x <- s :: both(x) <==> p(x) && q(x)
    ensures Filter(q, Filter(p, s)) == Filter(both, s)
  {
    if s != [] {
      FilterTwice(p, q, both, s[1..]);
      if p(s[0]) {
        FilterCons(q, s[0], Filter(p, s[1..]));
      }
    }
  }

  lemma {:induction false} FilterCount<T>(p: T -> bool, s: seq<T>)
    ensures |Filter(p, s)| == |Places(p, s)|
  {
    if s == [] {
      assert Places(p, s) == {};
    } else {
      var front, x := s[..|s| - 1], s[|s| - 1];
      assert s == front + [x];
      FilterCount(p, front);
      FilterSnoc(p, front, x);
      PlacesSnoc(p, front, x);
    }
  }

  /** What passes a filter adds up as if the rest were nothing. */
  lemma {:induction false} SumOfFiltered<T>(v: T -> int, p: T -> bool, w: T -> int, s: seq<T>)
    requires forall x <- s :: w(x) == if p(x) then v(x) else 0
    ensures SumBy(v, Filter(p, s)) == SumBy(w, s)
  {
    if s != [] {
      SumOfFiltered(v, p, w, s[1..]);
    }
  }

  /** `f` gives each element of `s` rows that bear its own identifier. */
  ghost predicate Identifies<A(!new), R(!new), K>(id: A -> K, key: R -> K, f: A -> seq<R>, s: seq<A>) {
    && (forall a, r | a in s && r in f(a) :: key(r) == id(a))
    && (forall i, j | 0 <= i < j < |s| :: id(s[i]) != id(s[j]))
  }

  lemma FreshKey<A(!new), R(!new), K>(id: A -> K, key: R -> K, f: A -> seq<R>, s: seq<A>)
    requires s != [] && Identifies(id, key, f, s)
    ensures id(s[|s| - 1]) !in Keys(key, FlatMap(f, s[..|s| - 1]))
  {
    var front, k := s[..|s| - 1], id(s[|s| - 1]);
    KeysOccur(key, FlatMap(f, front), k);
    forall r | r in FlatMap(f, front) ensures key(r) != k {
      var a := FlatMapElement(f, front, r);
      assert key(r) == id(a);
    }
  }

  lemma {:induction false} KeysOfFlatMap<A(!new), R(!new), K>(id: A -> K, key: R -> K, f: A -> seq<R>, s: seq<A>)
    requires Identifies(id, key, f, s)
    ensures Keys(key, FlatMap(f, s)) == Map(id, Filter(HasRows(f), s))
  {
    if s != [] {
      var front, x := s[..|s| - 1], s[|s| - 1];
      assert s == front + [x];
      KeysOfFlatMap(id, key, f, front);
      FlatMapSnoc(f, front, x);
      FilterSnoc(HasRows(f), front, x);
      FreshKey(id, key, f, s);
      KeysOfOne(key, FlatMap(f, front), id(x), f(x));
      MapSnoc(id, Filter(HasRows(f), front), x);
    }
  }

  lemma {:induction false} FilterNone<T>(p: T -> bool, s: seq<T>)
    requires forall x <- s :: !p(x)
    ensures Filter(p, s) == []
  {
    if s != [] {
      FilterNone(p, s[1..]);
    }
  }

  lemma {:induction false} FilterAll<T>(p: T -> bool, s: seq<T>)
    requires forall x <- s :: p(x)
    ensures Filter(p, s) == s
  {
    if s != [] {
      FilterAll(p, s[1..]);
    }
  }

  lemma {:induction false} RowsOfOne<A(!new), R(!new), K>(id: A -> K, key: R -> K, f: A -> seq<R>, s: seq<A>, i: nat)
    requires Identifies(id, key, f, s) && i < |s|
    ensures Filter(HasKey(key, id(s[i])), FlatMap(f, s)) == f(s[i])
  {
    var p := HasKey(key, id(s[i]));
    FilterAppend(p, f(s[0]), FlatMap(f, s[1..]));
    if i == 0 {
      FilterAll(p, f(s[0]));
      forall r | r in FlatMap(f, s[1..]) ensures !p(r) {
        var a := FlatMapElement(f, s[1..], r);
        assert key(r) == id(a);
      }
      FilterNone(p, FlatMap(f, s[1..]));
    } else {
      RowsOfOne(id, key, f, s[1..], i - 1);
      assert id(s[0]) != id(s[i]);
      FilterNone(p, f(s[0]));
    }
  }

  /** Grouping by the identifier of the joined records undoes the join: one group per record that had
      rows, in the order of the records, holding exactly its rows. */
  lemma GroupingUndoesFlatMap<A(!new), R(!new), K>(id: A -> K, key: R -> K, f: A -> seq<R>, s: seq<A>)
    requires Identifies(id, key, f, s)
    ensures GroupBy(key, FlatMap(f, s)) == Map(GroupOf(id, f), Filter(HasRows(f), s))
  {
    KeysOfFlatMap(id, key, f, s);
    var rows, kept := FlatMap(f, s), Filter(HasRows(f), s);
    var keys := Keys(key, rows);
    GroupsAreAsMany(key, rows, keys);
    forall i | 0 <= i < |kept| ensures GroupBy(key, rows)[i] == GroupOf(id, f)(kept[i]) {
      GroupsForAt(key, rows, keys, i);
      FilterElement(HasRows(f), s, kept[i]);
      var j :| 0 <= j < |s| && s[j] == kept[i];
      RowsOfOne(id, key, f, s, j);
    }
  }

  lemma {:induction false} GroupsAreAsMany<R, K>(key: R -> K, rows: seq<R>, keys: seq<K>)
    ensures |GroupsFor(key, rows, keys)| == |keys|
  {
    if keys != [] {
      GroupsAreAsMany(key, rows, keys[1..]);
    }
  }

  // ----- Sums over groups -----

  function RowsSum<R, K>(v: R -> int): Group<K, R> -> int {
    (g: Group<K, R>) => SumBy(v, g.rows)
  }

  function KeyPasses<R, K>(p: K -> bool): Group<K, R> -> bool {
    (g: Group<K, R>) => p(g.key)
  }

  function RowPasses<R, K>(key: R -> K, p: K -> bool): R -> bool {
    (r: R) => p(key(r))
  }

  function PassingSum<R, K(==)>(key: R -> K, v: R -> int, rows: seq<R>, keys: seq<K>, p: K -> bool): int {
    SumBy(RowsSum(v), Filter(KeyPasses(p), GroupsFor(key, rows, keys)))
  }

  lemma FirstKey<R, K>(key: R -> K, v: R -> int, rows: seq<R>, keys: seq<K>, p: K -> bool)
    requires keys != []
    ensures PassingSum(key, v, rows, keys, p) ==
      (if p(keys[0]) then SumBy(v, Filter(HasKey(key, keys[0]), rows)) else 0) + PassingSum(key, v, rows, keys[1..], p)
  {
    var g := Group(keys[0], Filter(HasKey(key, keys[0]), rows));
    var rest := GroupsFor(key, rows, keys[1..]);
    FilterCons(KeyPasses(p), g, rest);
    if p(keys[0]) {
      assert ([g] + Filter(KeyPasses<R, K>(p), rest))[1..] == Filter(KeyPasses<R, K>(p), rest);
    }
  }

  /** One more row adds its value to the one group of its key. */
  lemma {:induction false} OneMoreRow<R, K>(key: R -> K, v: R -> int, rows: seq<R>, r: R, keys: seq<K>, p: K -> bool)
    requires Distinct(keys)
    ensures PassingSum(key, v, rows + [r], keys, p) ==
      PassingSum(key, v, rows, keys, p) + if key(r) in keys && p(key(r)) then v(r) else 0
  {
    if keys != [] {
      FirstKey(key, v, rows, keys, p);
      FirstKey(key, v, rows + [r], keys, p);
      OneMoreRow(key, v, rows, r, keys[1..], p);
      FilterSnoc(HasKey(key, keys[0]), rows, r);
      SumBySnoc(v, Filter(HasKey(key, keys[0]), rows), r);
      assert forall i | 0 < i < |keys| :: keys[i] != keys[0];
    }
  }

  lemma {:induction false} SumOverKeys<R, K>(key: R -> K, v: R -> int, rows: seq<R>, keys: seq<K>, p: K -> bool)
    requires Distinct(keys) && forall r | r in rows :: key(r) in keys
    ensures PassingSum(key, v, rows, keys, p) == SumBy(v, Filter(RowPasses(key, p), rows))
  {
    if rows == [] {
      NoRows(key, v, keys, p);
    } else {
      var front, r := rows[..|rows| - 1], rows[|rows| - 1];
      assert rows == front + [r];
      SumOverKeys(key, v, front, keys, p);
      OneMoreRow(key, v, front, r, keys, p);
      FilterSnoc(RowPasses(key, p), front, r);
      SumBySnoc(v, Filter(RowPasses(key, p), front), r);
    }
  }

  lemma {:induction false} NoRows<R, K>(key: R -> K, v: R -> int, keys: seq<K>, p: K -> bool)
    ensures PassingSum(key, v, [], keys, p) == 0
  {
    if keys != [] {
      FirstKey(key, v, [], keys, p);
      NoRows(key, v, keys[1..], p);
    }
  }

  /** Grouping conserves sums: over the groups whose key passes, the sums of the groups add up to the
      sum over the rows whose key passes. */
  lemma GroupingConservesSums<R, K>(key: R -> K, v: R -> int, rows: seq<R>, p: K -> bool)
    ensures SumBy(RowsSum(v), Filter(KeyPasses(p), GroupBy(key, rows))) == SumBy(v, Filter(RowPasses(key, p), rows))
  {
    KeysAreDistinct(key, rows);
    forall r | r in rows ensures key(r) in Keys(key, rows) {
      KeysOccur(key, rows, key(r));
    }
    SumOverKeys(key, v, rows, Keys(key, rows), p);
  }

  // ----- Counting -----

  function One<T>(): T -> int { (x: T) => 1 }

  lemma {:induction false} SumOfOnes<T>(s: seq<T>)
    ensures SumBy(One<T>(), s) == |s|
  {
    if s != [] {
      SumOfOnes(s[1..]);
    }
  }

  function SetOf<T(==)>(s: seq<T>): set<T> { set x | x in s }

  lemma {:induction false} DistinctCardinality<T>(s: seq<T>)
    requires Distinct(s)
    ensures |SetOf(s)| == |s|
  {
    if s != [] {
      DistinctCardinality(s[1..]);
      assert SetOf(s) == {s[0]} + SetOf(s[1..]);
      assert s[0] !in s[1..] by {
        assert forall i | 0 < i < |s| :: s[i] != s[0];
      }
    }
  }

  lemma {:induction false} FilterDistinct<T>(p: T -> bool, s: seq<T>)
    requires Distinct(s)
    ensures Distinct(Filter(p, s))
  {
    if s != [] {
      FilterDistinct(p, s[1..]);
      FilterElements(p, s[1..]);
      assert forall x <- s[1..] :: x != s[0] by {
        assert forall i | 0 < i < |s| :: s[i] != s[0];
      }
    }
  }

  lemma DistinctPermutation<T>(s: seq<T>, t: seq<T>)
    requires multiset(s) == multiset(t) && Distinct(s)
    ensures Distinct(t)
  {
    DistinctCounts(s);
    DistinctCounts(t);
    SameElements(s, t);
  }

  lemma MapAt<A, R>(f: A -> R, t: seq<A>, i: nat)
    requires i < |t|
    ensures multiset(Map(f, t)) == multiset(Map(f, t[..i] + t[i + 1..])) + multiset{f(t[i])}
  {
    var m := Map(f, t);
    assert m == m[..i] + [f(t[i])] + m[i + 1..];
    assert Map(f, t[..i] + t[i + 1..]) == m[..i] + m[i + 1..];
  }

  lemma MapHead<A, R>(f: A -> R, s: seq<A>)
    requires s != []
    ensures multiset(Map(f, s)) == multiset(Map(f, s[1..])) + multiset{f(s[0])}
  {
    MapCons(f, s);
  }

  lemma PermutedRest<A>(s: seq<A>, t: seq<A>) returns (i: nat)
    requires s != [] && multiset(s) == multiset(t)
    ensures i < |t| && t[i] == s[0] && multiset(s[1..]) == multiset(t[..i] + t[i + 1..])
  {
    SameElements(s, t);
    assert s[0] in t;
    i :| 0 <= i < |t| && t[i] == s[0];
    RemoveHead(s);
    RemoveAt(t, i);
  }

  lemma {:induction false} MapPermutation<A, R>(f: A -> R, s: seq<A>, t: seq<A>)
    requires multiset(s) == multiset(t)
    ensures multiset(Map(f, s)) == multiset(Map(f, t))
  {
    if s == [] {
      SameElements(s, t);
    } else {
      var i := PermutedRest(s, t);
      MapPermutation(f, s[1..], t[..i] + t[i + 1..]);
      MapHead(f, s);
      MapAt(f, t, i);
    }
  }
}
