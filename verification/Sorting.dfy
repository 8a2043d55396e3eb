/** Sorting by a caller's order, as the analytics and the wiki do; only sortedness and content are promised. */
module Sorting {
  ghost predicate TotalPreorder<T(!new)>(leq: (T, T) -> bool) {
    && (forall a, b :: leq(a, b) || leq(b, a))
    && (forall a, b, c :: leq(a, b) && leq(b, c) ==> leq(a, c))
  }

  /** No two different elements tie. */
  ghost predicate NoTies<T>(xs: seq<T>, leq: (T, T) -> bool) {
    forall i, j :: 0 <= i < |xs| && 0 <= j < |xs| && leq(xs[i], xs[j]) && leq(xs[j], xs[i]) ==> xs[i] == xs[j]
  }

  ghost predicate SortedBy<T>(xs: seq<T>, leq: (T, T) -> bool) {
    forall i, j :: 0 <= i < j < |xs| ==> leq(xs[i], xs[j])
  }

  lemma InsertionKeepsSorted<T(!new)>(xs: seq<T>, k: nat, x: T, leq: (T, T) -> bool)
    requires TotalPreorder(leq) && SortedBy(xs, leq) && k <= |xs|
    requires k > 0 ==> leq(xs[k - 1], x)
    requires forall j :: k <= j < |xs| ==> leq(x, xs[j])
    ensures SortedBy(xs[..k] + [x] + xs[k..], leq)
  {
    var ys := xs[..k] + [x] + xs[k..];
    forall i, j | 0 <= i < j < |ys| ensures leq(ys[i], ys[j]) {
      if i < k && j == k {
        assert leq(xs[i], xs[k - 1]) || i == k - 1;
      }
    }
  }

  lemma InsertionBag<T>(xs: seq<T>, k: nat, x: T)
    requires k <= |xs|
    ensures multiset(xs[..k] + [x] + xs[k..]) == multiset(xs) + multiset{x}
  {
    assert xs == xs[..k] + xs[k..];
  }

  method Insert<T(!new)>(xs: seq<T>, x: T, leq: (T, T) -> bool) returns (ys: seq<T>)
    requires TotalPreorder(leq) && SortedBy(xs, leq)
    ensures SortedBy(ys, leq) && multiset(ys) == multiset(xs) + multiset{x}
  {
    hide SortedBy;
    var k := |xs|;
    while k > 0 && !leq(xs[k - 1], x)
      invariant 0 <= k <= |xs|
      invariant forall j :: k <= j < |xs| ==> leq(x, xs[j])
    {
      k := k - 1;
    }
    ys := xs[..k] + [x] + xs[k..];
    InsertionKeepsSorted(xs, k, x, leq);
    InsertionBag(xs, k, x);
  }

  method Sort<T(!new)>(xs: seq<T>, leq: (T, T) -> bool) returns (ys: seq<T>)
    requires TotalPreorder(leq)
    ensures SortedBy(ys, leq) && multiset(ys) == multiset(xs)
  {
    hide TotalPreorder;
    ys := [];
    for i := 0 to |xs|
      invariant SortedBy(ys, leq) && multiset(ys) == multiset(xs[..i])
    {
      ys := Insert(ys, xs[i], leq);
      assert xs[..i + 1] == xs[..i] + [xs[i]];
    }
    assert xs[..|xs|] == xs;
  }

  /** Where no two elements tie, the sorted arrangement does not depend on the order they came in. */
  lemma {:induction false} SortedIsUnique<T(!new)>(xs: seq<T>, ys: seq<T>, leq: (T, T) -> bool)
    requires TotalPreorder(leq) && NoTies(xs, leq)
    requires SortedBy(xs, leq) && SortedBy(ys, leq) && multiset(xs) == multiset(ys)
    ensures xs == ys
  {
    hide TotalPreorder, NoTies, SortedBy;
    SameLength(xs, ys);
    if xs != [] {
      FirstsAgree(xs, ys, leq);
      var xs', ys' := xs[1..], ys[1..];
      assert xs == [xs[0]] + xs' && ys == [ys[0]] + ys';
      TailBag(xs);
      TailBag(ys);
      TailSorted(xs, leq);
      TailSorted(ys, leq);
      SortedIsUnique(xs', ys', leq);
    }
  }

  lemma SameLength<T>(xs: seq<T>, ys: seq<T>)
    requires multiset(xs) == multiset(ys)
    ensures |xs| == |ys|
  {
    assert |multiset(xs)| == |xs| && |multiset(ys)| == |ys|;
  }

  lemma TailBag<T>(xs: seq<T>)
    requires xs != []
    ensures multiset(xs[1..]) == multiset(xs) - multiset{xs[0]}
  {
    assert xs == [xs[0]] + xs[1..];
  }

  lemma TailSorted<T(!new)>(xs: seq<T>, leq: (T, T) -> bool)
    requires xs != [] && SortedBy(xs, leq)
    ensures SortedBy(xs[1..], leq)
    ensures NoTies(xs, leq) ==> NoTies(xs[1..], leq)
  {
  }

  /** The least element of both arrangements. */
  lemma FirstsAgree<T(!new)>(xs: seq<T>, ys: seq<T>, leq: (T, T) -> bool)
    requires TotalPreorder(leq) && NoTies(xs, leq) && xs != [] && ys != []
    requires SortedBy(xs, leq) && SortedBy(ys, leq) && multiset(xs) == multiset(ys)
    ensures xs[0] == ys[0]
  {
    assert xs[0] in multiset(ys) && ys[0] in multiset(xs);
    var i :| 0 <= i < |ys| && ys[i] == xs[0];
    var j :| 0 <= j < |xs| && xs[j] == ys[0];
    assert i > 0 ==> leq(ys[0], ys[i]);
    assert j > 0 ==> leq(xs[0], xs[j]);
  }

  /** Every finite set can be listed in order. */
  lemma {:induction false} ListingExists<T(!new)>(s: set<T>, leq: (T, T) -> bool) returns (xs: seq<T>)
    requires TotalPreorder(leq)
    ensures multiset(xs) == multiset(s) && SortedBy(xs, leq)
  {
    if s == {} {
      xs := [];
    } else {
      hide TotalPreorder, SortedBy;
      var x :| x in s;
      var ys := ListingExists(s - {x}, leq);
      xs := InsertSorted(ys, x, leq);
      assert multiset(s) == multiset(s - {x}) + multiset{x};
    }
  }

  lemma InsertSorted<T(!new)>(ys: seq<T>, x: T, leq: (T, T) -> bool) returns (xs: seq<T>)
    requires TotalPreorder(leq) && SortedBy(ys, leq)
    ensures SortedBy(xs, leq) && multiset(xs) == multiset(ys) + multiset{x}
  {
    hide SortedBy;
    var k := |ys|;
    while k > 0 && !leq(ys[k - 1], x)
      invariant 0 <= k <= |ys|
      invariant forall j :: k <= j < |ys| ==> leq(x, ys[j])
    {
      k := k - 1;
    }
    xs := ys[..k] + [x] + ys[k..];
    InsertionKeepsSorted(ys, k, x, leq);
    InsertionBag(ys, k, x);
  }
}
