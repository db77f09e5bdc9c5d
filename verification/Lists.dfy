/** List operations shared by the models: filtering, sums, counting and a stable sort. */
module Lists {

  /** The elements of `s` that satisfy `p`, in their order. */
  function Filter<T>(p: T -> bool, s: seq<T>): seq<T> {
    if s == [] then []
    else if p(s[0]) then [s[0]] + Filter(p, s[1..])
    else Filter(p, s[1..])
  }

  lemma {:induction false} FilterElement<T>(p: T -> bool, s: seq<T>, x: T)
    ensures x in Filter(p, s) <==> x in s && p(x)
  {
    if s != [] {
      FilterElement(p, s[1..], x);
    }
  }

  lemma FilterElements<T>(p: T -> bool, s: seq<T>)
    ensures forall x | x in Filter(p, s) :: x in s && p(x)
  {
    forall x | x in Filter(p, s) ensures x in s && p(x) {
      FilterElement(p, s, x);
    }
  }

  lemma FilterCons<T>(p: T -> bool, x: T, s: seq<T>)
    ensures Filter(p, [x] + s) == if p(x) then [x] + Filter(p, s) else Filter(p, s)
  {
    assert ([x] + s)[1..] == s;
  }

  lemma {:induction false} FilterAppend<T>(p: T -> bool, s: seq<T>, t: seq<T>)
    ensures Filter(p, s + t) == Filter(p, s) + Filter(p, t)
  {
    if s == [] {
      assert s + t == t;
    } else {
      FilterAppend(p, s[1..], t);
      assert (s + t)[1..] == s[1..] + t;
    }
  }

  lemma FilterSnoc<T>(p: T -> bool, s: seq<T>, x: T)
    ensures Filter(p, s + [x]) == if p(x) then Filter(p, s) + [x] else Filter(p, s)
  {
    FilterAppend(p, s, [x]);
    assert Filter(p, [x][1..]) == [];
  }

  /** The sum of `f` over `s`. */
  function SumBy<T>(f: T -> int, s: seq<T>): int {
    if s == [] then 0 else f(s[0]) + SumBy(f, s[1..])
  }

  lemma {:induction false} SumByAppend<T>(f: T -> int, s: seq<T>, t: seq<T>)
    ensures SumBy(f, s + t) == SumBy(f, s) + SumBy(f, t)
  {
    if s == [] {
      assert s + t == t;
    } else {
      SumByAppend(f, s[1..], t);
      assert (s + t)[1..] == s[1..] + t;
    }
  }

  lemma SumBySnoc<T>(f: T -> int, s: seq<T>, x: T)
    ensures SumBy(f, s + [x]) == SumBy(f, s) + f(x)
  {
    SumByAppend(f, s, [x]);
    assert SumBy(f, [x][1..]) == 0;
  }

  /** Replacing one element changes the sum by the difference of the two contributions. */
  lemma {:induction false} SumByUpdate<T>(f: T -> int, s: seq<T>, i: nat, x: T)
    requires i < |s|
    ensures SumBy(f, s[i := x]) == SumBy(f, s) - f(s[i]) + f(x)
  {
    if i == 0 {
      assert s[0 := x][1..] == s[1..];
    } else {
      SumByUpdate(f, s[1..], i - 1, x);
      assert s[i := x][1..] == s[1..][i - 1 := x];
    }
  }

  // ----- Counting -----

  /** The positions of the elements that satisfy `p`. */
  ghost function Places<T>(p: T -> bool, s: seq<T>): set<int> {
    set i | 0 <= i < |s| && p(s[i])
  }

  lemma PlacesSnoc<T>(p: T -> bool, s: seq<T>, x: T)
    ensures |Places(p, s + [x])| == |Places(p, s)| + if p(x) then 1 else 0
  {
    assert forall i | 0 <= i < |s| :: (s + [x])[i] == s[i];
    if p(x) {
      assert Places(p, s + [x]) == Places(p, s) + {|s|};
    } else {
      assert Places(p, s + [x]) == Places(p, s);
    }
  }

  /** A sum of ones is the number of the positions they stand for. */
  lemma {:induction false} SumOfPlaces<T>(f: T -> int, p: T -> bool, s: seq<T>)
    requires forall x <- s :: f(x) == if p(x) then 1 else 0
    ensures SumBy(f, s) == |Places(p, s)|
  {
    if s == [] {
      assert Places(p, s) == {};
    } else {
      var front, x := s[..|s| - 1], s[|s| - 1];
      assert s == front + [x];
      SumOfPlaces(f, p, front);
      SumBySnoc(f, front, x);
      PlacesSnoc(p, front, x);
    }
  }

  /** No element occurs twice. */
  ghost predicate Distinct<T>(s: seq<T>) {
    forall i, j | 0 <= i < j < |s| :: s[i] != s[j]
  }

  lemma {:induction false} DistinctCounts<T>(s: seq<T>)
    ensures Distinct(s) <==> forall x <- s :: multiset(s)[x] == 1
  {
    if s != [] {
      var x, t := s[0], s[1..];
      assert s == [x] + t;
      DistinctCounts(t);
      assert x in t ==> multiset(t)[x] >= 1;
      if x !in t {
        assert forall y <- t :: multiset(s)[y] == multiset(t)[y];
        assert forall i | 0 < i < |s| :: s[i] == t[i - 1];
      } else {
        var i :| 0 <= i < |t| && t[i] == x;
        assert s[0] == s[i + 1];
        assert multiset(s)[x] >= 2;
      }
    }
  }

  // ----- A stable sort -----

  function Insert<T>(le: (T, T) -> bool, x: T, s: seq<T>): seq<T> {
    if s == [] then [x]
    else if le(x, s[0]) then [x] + s
    else [s[0]] + Insert(le, x, s[1..])
  }

  /** `s` sorted by `le`; elements that `le` does not tell apart keep their order. */
  function Sort<T>(le: (T, T) -> bool, s: seq<T>): seq<T> {
    if s == [] then [] else Insert(le, s[0], Sort(le, s[1..]))
  }

  lemma {:induction false} InsertElements<T>(le: (T, T) -> bool, x: T, s: seq<T>)
    ensures multiset(Insert(le, x, s)) == multiset{x} + multiset(s)
  {
    if s != [] && !le(x, s[0]) {
      InsertElements(le, x, s[1..]);
      assert s == [s[0]] + s[1..];
    }
  }

  lemma {:induction false} SortElements<T>(le: (T, T) -> bool, s: seq<T>)
    ensures multiset(Sort(le, s)) == multiset(s)
  {
    if s != [] {
      SortElements(le, s[1..]);
      InsertElements(le, s[0], Sort(le, s[1..]));
      assert s == [s[0]] + s[1..];
    }
  }

  ghost predicate Ordering<T(!new)>(le: (T, T) -> bool) {
    && (forall a, b :: le(a, b) || le(b, a))
    && (forall a, b, c :: le(a, b) && le(b, c) ==> le(a, c))
  }

  ghost predicate Sorted<T>(le: (T, T) -> bool, s: seq<T>) {
    forall i, j | 0 <= i < j < |s| :: le(s[i], s[j])
  }

  lemma {:induction false} InsertSorts<T(!new)>(le: (T, T) -> bool, x: T, s: seq<T>)
    requires Ordering(le) && Sorted(le, s)
    ensures Sorted(le, Insert(le, x, s))
  {
    if s != [] && !le(x, s[0]) {
      var r := Insert(le, x, s[1..]);
      InsertSorts(le, x, s[1..]);
      InsertElements(le, x, s[1..]);
      forall y <- r ensures le(s[0], y) {
        assert y in multiset(r);
      }
    }
  }

  lemma {:induction false} SortSorts<T(!new)>(le: (T, T) -> bool, s: seq<T>)
    requires Ordering(le)
    ensures Sorted(le, Sort(le, s))
  {
    if s != [] {
      SortSorts(le, s[1..]);
      InsertSorts(le, s[0], Sort(le, s[1..]));
    }
  }

  lemma {:induction false} SortOfSorted<T>(le: (T, T) -> bool, s: seq<T>)
    requires Sorted(le, s)
    ensures Sort(le, s) == s
  {
    if s != [] {
      SortOfSorted(le, s[1..]);
    }
  }

  /** `x` goes in front of any part of a list that it precedes. */
  lemma InsertInFront<T>(p: T -> bool, le: (T, T) -> bool, x: T, s: seq<T>)
    requires forall y <- s :: le(x, y)
    ensures Insert(le, x, Filter(p, s)) == [x] + Filter(p, s)
  {
    var f := Filter(p, s);
    if f != [] {
      FilterElement(p, s, f[0]);
    }
  }

  lemma InsertFilteredLater<T>(p: T -> bool, le: (T, T) -> bool, x: T, y: T, s: seq<T>)
    requires !le(x, y)
    requires Filter(p, Insert(le, x, s)) == if p(x) then Insert(le, x, Filter(p, s)) else Filter(p, s)
    ensures Filter(p, [y] + Insert(le, x, s)) ==
      if p(x) then Insert(le, x, Filter(p, [y] + s)) else Filter(p, [y] + s)
  {
    FilterCons(p, y, s);
    FilterCons(p, y, Insert(le, x, s));
    if p(x) && p(y) {
      assert ([y] + Filter(p, s))[1..] == Filter(p, s);
    }
  }

  lemma {:induction false} InsertFiltered<T(!new)>(p: T -> bool, le: (T, T) -> bool, x: T, s: seq<T>)
    requires Ordering(le) && Sorted(le, s)
    ensures Filter(p, Insert(le, x, s)) == if p(x) then Insert(le, x, Filter(p, s)) else Filter(p, s)
  {
    if s == [] {
    } else if le(x, s[0]) {
      forall y | y in s ensures le(x, y) {
        var i :| 0 <= i < |s| && s[i] == y;
        assert i > 0 ==> le(s[0], s[i]);
      }
      FilterCons(p, x, s);
      InsertInFront(p, le, x, s);
    } else {
      InsertFiltered(p, le, x, s[1..]);
      InsertFilteredLater(p, le, x, s[0], s[1..]);
      assert s == [s[0]] + s[1..];
    }
  }

  /** Sorting what passes a filter is filtering what was sorted. */
  lemma {:induction false} SortFiltered<T(!new)>(p: T -> bool, le: (T, T) -> bool, s: seq<T>)
    requires Ordering(le)
    ensures Sort(le, Filter(p, s)) == Filter(p, Sort(le, s))
  {
    if s != [] {
      SortFiltered(p, le, s[1..]);
      SortSorts(le, s[1..]);
      InsertFiltered(p, le, s[0], Sort(le, s[1..]));
      SortCons(le, s[0], Filter(p, s[1..]));
    }
  }

  lemma SortCons<T>(le: (T, T) -> bool, x: T, s: seq<T>)
    ensures Sort(le, [x] + s) == Insert(le, x, Sort(le, s))
  {
    assert ([x] + s)[1..] == s;
  }

  lemma SameElements<T>(s: seq<T>, t: seq<T>)
    requires multiset(s) == multiset(t)
    ensures |s| == |t| && forall x :: x in s <==> x in t
  {
    assert |multiset(s)| == |s| && |multiset(t)| == |t|;
    forall x ensures x in s <==> x in t {
      assert x in s <==> x in multiset(s);
      assert x in t <==> x in multiset(t);
    }
  }

  lemma RemoveHead<T>(s: seq<T>)
    requires s != []
    ensures multiset(s[1..]) == multiset(s) - multiset{s[0]}
  {
    assert s == [s[0]] + s[1..];
  }

  /** A sorted list is determined by its elements when `le` tells them apart. */
  lemma {:induction false} SortedUnique<T>(le: (T, T) -> bool, s: seq<T>, t: seq<T>)
    requires Sorted(le, s) && Sorted(le, t) && multiset(s) == multiset(t)
    requires forall a, b | a in s && b in s && le(a, b) && le(b, a) :: a == b
    ensures s == t
  {
    SameElements(s, t);
    if s != [] {
      assert s[0] in t && t[0] in s;
      assert s[0] == t[0];
      RemoveHead(s);
      RemoveHead(t);
      SortedUnique(le, s[1..], t[1..]);
    }
  }

  lemma {:induction false} SumByWithout<T>(f: T -> int, t: seq<T>, i: nat)
    requires i < |t|
    ensures SumBy(f, t) == SumBy(f, t[..i] + t[i + 1..]) + f(t[i])
  {
    var rest := t[..i] + t[i + 1..];
    if i == 0 {
      assert rest == t[1..];
    } else {
      SumByWithout(f, t[1..], i - 1);
      assert rest[1..] == t[1..][..i - 1] + t[1..][i..];
    }
  }

  lemma RemoveAt<T>(s: seq<T>, i: nat)
    requires i < |s|
    ensures multiset(s[..i] + s[i + 1..]) == multiset(s) - multiset{s[i]}
  {
    assert s == s[..i] + [s[i]] + s[i + 1..];
  }

  /** A sum does not depend on the order of the elements. */
  lemma {:induction false} SumByPermutation<T>(f: T -> int, s: seq<T>, t: seq<T>)
    requires multiset(s) == multiset(t)
    ensures SumBy(f, s) == SumBy(f, t)
  {
    SameElements(s, t);
    if s != [] {
      assert s[0] in t;
      var i :| 0 <= i < |t| && t[i] == s[0];
      RemoveHead(s);
      RemoveAt(t, i);
      SumByPermutation(f, s[1..], t[..i] + t[i + 1..]);
      SumByWithout(f, t, i);
    }
  }
}
