// The library operations the code relies on: sort.Slice, rand.Shuffle and filtering loops.
module Sorting {
  // The comparison of sort.Slice must be a strict weak order.
  ghost predicate StrictWeak<T(!new)>(less: (T, T) -> bool) {
    && (forall x, y :: less(x, y) ==> !less(y, x))
    && (forall x, y, z :: !less(y, x) && !less(z, y) ==> !less(z, x))
  }

  ghost predicate Sorted<T(!new)>(s: seq<T>, less: (T, T) -> bool) {
    forall i, j :: 0 <= i < j < |s| ==> !less(s[j], s[i])
  }

  // r is s put in order; equal elements may come in any order.
  ghost predicate Ranking<T(!new)>(s: seq<T>, r: seq<T>, less: (T, T) -> bool) {
    multiset(r) == multiset(s) && Sorted(r, less)
  }

  lemma SameElements<T(!new)>(s: seq<T>, r: seq<T>)
    requires multiset(r) == multiset(s)
    ensures |r| == |s| && forall x :: x in r <==> x in s
  {
    assert |multiset(r)| == |multiset(s)|;
    forall x
      ensures x in r <==> x in s
    {
      assert x in r <==> x in multiset(r);
      assert x in s <==> x in multiset(s);
    }
  }

  // Positions in a permutation correspond: two equal elements at different places of r are two
  // equal elements at different places of es.
  lemma TwiceInPermutation<T>(es: seq<T>, r: seq<T>, i: nat, j: nat) returns (k: nat, l: nat)
    requires multiset(r) == multiset(es) && i < j < |r| && r[i] == r[j]
    ensures k < l < |es| && es[k] == es[l] == r[i]
  {
    assert r == r[..i] + [r[i]] + r[i + 1..j] + [r[j]] + r[j + 1..];
    k, l := TwiceInSequence(es, r[i]);
  }

  lemma {:induction false} TwiceInSequence<T>(es: seq<T>, x: T) returns (k: nat, l: nat)
    requires multiset(es)[x] >= 2
    ensures k < l < |es| && es[k] == es[l] == x
  {
    var n := |es| - 1;
    assert es == es[..n] + [es[n]];
    if es[n] == x {
      assert x in multiset(es[..n]);
      k :| 0 <= k < n && es[..n][k] == x;
      l := n;
    } else {
      k, l := TwiceInSequence(es[..n], x);
    }
  }

  method SortBy<T(!new)>(s: seq<T>, less: (T, T) -> bool) returns (r: seq<T>)
    requires StrictWeak(less)
    ensures Ranking(s, r, less)
  {
    r := [];
    for n := 0 to |s|
      invariant Sorted(r, less) && multiset(r) == multiset(s[..n])
    {
      var k := |r|;
      while k > 0 && less(s[n], r[k - 1])
        invariant 0 <= k <= |r|
        invariant forall i :: k <= i < |r| ==> less(s[n], r[i])
      {
        k := k - 1;
      }
      InsertSorted(r, k, s[n], less);
      assert s[..n + 1] == s[..n] + [s[n]];
      assert r == r[..k] + r[k..];
      r := r[..k] + [s[n]] + r[k..];
    }
    assert s[..|s|] == s;
  }

  lemma InsertSorted<T(!new)>(r: seq<T>, k: nat, x: T, less: (T, T) -> bool)
    requires StrictWeak(less) && Sorted(r, less) && k <= |r|
    requires k > 0 ==> !less(x, r[k - 1])
    requires forall i :: k <= i < |r| ==> less(x, r[i])
    ensures Sorted(r[..k] + [x] + r[k..], less)
  {
    var q := r[..k] + [x] + r[k..];
    forall i, j | 0 <= i < j < |q|
      ensures !less(q[j], q[i])
    {
      if j == k && i < k - 1 {
        assert !less(r[k - 1], r[i]) && !less(x, r[k - 1]);
      } else if i == k {
        assert less(x, r[j - 1]);
      } else {
        var i', j' := if i < k then i else i - 1, if j < k then j else j - 1;
        assert j != k ==> q[i] == r[i'] && q[j] == r[j'];
      }
    }
  }

  method Shuffle<T>(s: seq<T>) returns (r: seq<T>)
    ensures multiset(r) == multiset(s)
  {
    r := s;
    var i := |s| - 1;
    while i > 0
      invariant -1 <= i < |s| == |r| && multiset(r) == multiset(s)
    {
      var j :| 0 <= j <= i;
      r := r[i := r[j]][j := r[i]];
      i := i - 1;
    }
  }

  // The elements a filtering loop keeps, in order.
  function Keep<T(!new)>(s: seq<T>, p: T -> bool): (r: seq<T>)
    ensures forall x :: x in r <==> x in s && p(x)
  {
    if s == [] then []
    else
      var n := |s| - 1;
      assert s == s[..n] + [s[n]];
      Keep(s[..n], p) + (if p(s[n]) then [s[n]] else [])
  }

  // The positions at which p holds.
  function Positions<T>(s: seq<T>, p: T -> bool): (r: set<int>) {
    set i | 0 <= i < |s| && p(s[i])
  }

  lemma PositionsSnoc<T>(s: seq<T>, x: T, p: T -> bool)
    ensures |Positions(s + [x], p)| == |Positions(s, p)| + (if p(x) then 1 else 0)
  {
    var all, n := s + [x], |s|;
    forall i | 0 <= i < n
      ensures all[i] == s[i]
    {
    }
    assert all[n] == x;
    assert Positions(all, p) == Positions(s, p) + (if p(x) then {n} else {});
  }

  // A filtering loop keeps as many elements as there are positions at which p holds.
  lemma {:induction false} KeepCounts<T(!new)>(s: seq<T>, p: T -> bool)
    ensures |Keep(s, p)| == |Positions(s, p)|
  {
    if s != [] {
      var n := |s| - 1;
      assert s == s[..n] + [s[n]];
      KeepCounts(s[..n], p);
      PositionsSnoc(s[..n], s[n], p);
    }
  }

  method Filter<T(!new)>(s: seq<T>, p: T -> bool) returns (r: seq<T>)
    ensures r == Keep(s, p)
  {
    r := [];
    for i := 0 to |s|
      invariant r == Keep(s[..i], p)
    {
      assert s[..i + 1][..i] == s[..i];
      if p(s[i]) {
        r := r + [s[i]];
      }
    }
    assert s[..|s|] == s;
  }

  // Two positions of a permutation come from two positions of the original.
  lemma PositionsIn<T(!new)>(s: seq<T>, r: seq<T>, i: nat, j: nat) returns (k: nat, l: nat)
    requires multiset(r) == multiset(s) && i < j < |r|
    ensures k < |s| && l < |s| && k != l && s[k] == r[i] && s[l] == r[j]
  {
    if r[i] == r[j] {
      k, l := TwiceInPermutation(s, r, i, j);
    } else {
      SameElements(s, r);
      assert r[i] in s && r[j] in s;
      k :| 0 <= k < |s| && s[k] == r[i];
      l :| 0 <= l < |s| && s[l] == r[j];
    }
  }
}
