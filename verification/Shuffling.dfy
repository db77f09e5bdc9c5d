/** The shuffle of a game's units (lines 5657-5666): Fisher-Yates, driven by the random choices. */
module Shuffling {
  import opened Lists

  /** `js[i]` is the position drawn from 0..i; the loop draws none for position 0. */
  ghost predicate Choices(js: seq<nat>, n: nat) {
    |js| == n && forall i | 0 <= i < n :: js[i] <= i
  }

  function Swap<T>(s: seq<T>, i: nat, j: nat): (r: seq<T>)
    requires i < |s| && j < |s|
    ensures |r| == |s|
  {
    s[i := s[j]][j := s[i]]
  }

  lemma SwapElements<T>(s: seq<T>, i: nat, j: nat)
    requires i < |s| && j < |s|
    ensures multiset(Swap(s, i, j)) == multiset(s)
  {
  }

  function Shuffled<T>(s: seq<T>, js: seq<nat>): (r: seq<T>)
    requires Choices(js, |s|)
    ensures |r| == |s|
    decreases |s|
  {
    if |s| <= 1 then s
    else
      var n := |s| - 1;
      var t := Swap(s, n, js[n]);
      Shuffled(t[..n], js[..n]) + [t[n]]
  }

  lemma AppendElements<T>(s: seq<T>, x: T)
    ensures multiset(s + [x]) == multiset(s) + multiset{x}
  {
  }

  lemma SplitLast<T>(s: seq<T>)
    requires s != []
    ensures multiset(s) == multiset(s[..|s| - 1]) + multiset{s[|s| - 1]}
  {
    assert s == s[..|s| - 1] + [s[|s| - 1]];
  }

  /** The last element is the one drawn for it. */
  lemma LastIsDrawn<T>(s: seq<T>, js: seq<nat>)
    requires Choices(js, |s|) && s != []
    ensures Shuffled(s, js)[|s| - 1] == s[js[|s| - 1]]
  {
    if |s| > 1 {
      var t := Swap(s, |s| - 1, js[|s| - 1]);
      assert |Shuffled(t[..|s| - 1], js[..|s| - 1])| == |s| - 1;
    }
  }

  /** Whatever the choices, the result is a permutation. */
  lemma {:induction false} ShuffleIsPermutation<T>(s: seq<T>, js: seq<nat>)
    requires Choices(js, |s|)
    ensures multiset(Shuffled(s, js)) == multiset(s)
    decreases |s|
  {
    if |s| > 1 {
      var n := |s| - 1;
      var t := Swap(s, n, js[n]);
      ShuffleIsPermutation(t[..n], js[..n]);
      SwapElements(s, n, js[n]);
      SplitLast(t);
      AppendElements(Shuffled(t[..n], js[..n]), t[n]);
    }
  }

  lemma DistinctSwap<T>(s: seq<T>, j: nat)
    requires Distinct(s) && j < |s|
    ensures var t := Swap(s, |s| - 1, j); Distinct(t[..|s| - 1]) && t[|s| - 1] == s[j]
  {
  }

  /** On distinct elements different choices give different results. */
  lemma {:induction false} ShuffleIsInjective<T>(s: seq<T>, js: seq<nat>, ks: seq<nat>)
    requires Distinct(s) && Choices(js, |s|) && Choices(ks, |s|)
    requires Shuffled(s, js) == Shuffled(s, ks)
    ensures js == ks
    decreases |s|
  {
    if |s| > 1 {
      var n := |s| - 1;
      DistinctSwap(s, js[n]);
      DistinctSwap(s, ks[n]);
      assert Shuffled(s, js)[n] == s[js[n]] && Shuffled(s, ks)[n] == s[ks[n]];
      assert js[n] == ks[n];
      var t := Swap(s, n, js[n]);
      assert Shuffled(s, js)[..n] == Shuffled(t[..n], js[..n]);
      assert Shuffled(s, ks)[..n] == Shuffled(t[..n], ks[..n]);
      ShuffleIsInjective(t[..n], js[..n], ks[..n]);
      assert js == js[..n] + [js[n]] && ks == ks[..n] + [ks[n]];
    }
  }

  lemma LastRemoved<T>(s: seq<T>, t: seq<T>)
    requires s != [] && t != [] && multiset(s) == multiset(t) && s[|s| - 1] == t[|t| - 1]
    ensures multiset(s[..|s| - 1]) == multiset(t[..|t| - 1])
  {
    SplitLast(s);
    SplitLast(t);
    assert multiset(s[..|s| - 1]) == multiset(s) - multiset{s[|s| - 1]};
    assert multiset(t[..|t| - 1]) == multiset(t) - multiset{t[|t| - 1]};
  }

  lemma OneMoreChoice<T>(s: seq<T>, js: seq<nat>, j: nat)
    requires |s| > 1 && Choices(js, |s| - 1) && j < |s|
    ensures Choices(js + [j], |s|)
    ensures Shuffled(s, js + [j]) == Shuffled(Swap(s, |s| - 1, j)[..|s| - 1], js) + [s[j]]
  {
    assert (js + [j])[..|s| - 1] == js;
  }

  lemma SwapBringsToEnd<T>(s: seq<T>, j: nat, t: seq<T>)
    requires |s| > 1 && |t| == |s| && multiset(s) == multiset(t) && j < |s| && s[j] == t[|s| - 1]
    ensures multiset(Swap(s, |s| - 1, j)[..|s| - 1]) == multiset(t[..|s| - 1])
  {
    SwapElements(s, |s| - 1, j);
    SwapLast(s, j);
    LastRemoved(Swap(s, |s| - 1, j), t);
  }

  lemma SwapLast<T>(s: seq<T>, j: nat)
    requires j < |s|
    ensures Swap(s, |s| - 1, j)[|s| - 1] == s[j]
  {
  }

  lemma BringToEnd<T>(s: seq<T>, t: seq<T>) returns (j: nat)
    requires |s| > 1 && multiset(s) == multiset(t)
    ensures |t| == |s| && j < |s| && s[j] == t[|s| - 1]
    ensures multiset(Swap(s, |s| - 1, j)[..|s| - 1]) == multiset(t[..|s| - 1])
  {
    SameElements(s, t);
    assert t[|s| - 1] in s;
    j :| 0 <= j < |s| && s[j] == t[|s| - 1];
    SwapBringsToEnd(s, j, t);
  }

  /** Every permutation is the result of some choices. */
  lemma {:induction false} ShuffleIsSurjective<T>(s: seq<T>, t: seq<T>) returns (js: seq<nat>)
    requires multiset(s) == multiset(t)
    ensures Choices(js, |s|) && Shuffled(s, js) == t
    decreases |s|
  {
    if |s| > 1 {
      var n := |s| - 1;
      var j := BringToEnd(s, t);
      var rest := ShuffleIsSurjective(Swap(s, n, j)[..n], t[..n]);
      OneMoreChoice(s, rest, j);
      js := rest + [j];
      assert t == t[..n] + [t[n]];
    } else {
      SameElements(s, t);
      js := seq(|s|, _ => 0);
      assert s != [] ==> t[0] in s;
    }
  }

  /** On distinct elements the choices correspond one to one to the permutations, so that equally
      likely choices make every permutation equally likely. */
  lemma ShuffleIsBijection<T>(s: seq<T>, t: seq<T>) returns (js: seq<nat>)
    requires Distinct(s) && multiset(s) == multiset(t)
    ensures Choices(js, |s|) && Shuffled(s, js) == t
    ensures forall ks | Choices(ks, |s|) && Shuffled(s, ks) == t :: ks == js
  {
    js := ShuffleIsSurjective(s, t);
    forall ks | Choices(ks, |s|) && Shuffled(s, ks) == t ensures ks == js {
      ShuffleIsInjective(s, ks, js);
    }
  }

  /** `u` is `s` with the positions above `i` in their final state. */
  ghost predicate DoneAbove<T>(s: seq<T>, js: seq<nat>, u: seq<T>, i: nat)
    requires Choices(js, |s|)
  {
    |u| == |s| && i < |s| && Shuffled(s, js) == Shuffled(u[..i + 1], js[..i + 1]) + u[i + 1..]
  }

  lemma SwapOne<T>(s: seq<T>, js: seq<nat>, u: seq<T>, i: nat)
    requires Choices(js, |s|) && DoneAbove(s, js, u, i) && i > 0
    ensures DoneAbove(s, js, Swap(u, i, js[i]), i - 1)
  {
    var head := u[..i + 1];
    var t := Swap(head, i, js[i]);
    var v := Swap(u, i, js[i]);
    assert js[..i + 1][..i] == js[..i];
    assert Shuffled(head, js[..i + 1]) == Shuffled(t[..i], js[..i]) + [t[i]];
    assert v[..i] == t[..i] && v[i..] == [t[i]] + u[i + 1..];
  }

  lemma NothingDone<T>(s: seq<T>, js: seq<nat>)
    requires Choices(js, |s|) && s != []
    ensures DoneAbove(s, js, s, |s| - 1)
  {
    assert s[..|s|] == s && js[..|s|] == js;
  }

  lemma AllDone<T>(s: seq<T>, js: seq<nat>, u: seq<T>)
    requires Choices(js, |s|) && DoneAbove(s, js, u, 0)
    ensures u == Shuffled(s, js)
  {
    assert u == u[..1] + u[1..];
  }

  /** The loop, in place. */
  method Shuffle<T>(a: array<T>, js: seq<nat>)
    requires Choices(js, a.Length)
    modifies a
    ensures a[..] == Shuffled(old(a[..]), js)
  {
    ghost var s := a[..];
    if a.Length == 0 {
      return;
    }
    var i := a.Length - 1;
    NothingDone(s, js);
    while i > 0
      invariant 0 <= i < a.Length
      invariant DoneAbove(s, js, a[..], i)
    {
      SwapOne(s, js, a[..], i);
      ghost var u := a[..];
      var j := js[i];
      var x := a[i];
      a[i] := a[j];
      a[j] := x;
      assert a[..] == Swap(u, i, j);
      i := i - 1;
    }
    AllDone(s, js, a[..]);
  }
}
