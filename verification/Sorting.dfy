/** Sorting as the program's libraries provide it: a permutation in the given order. */
module Sorting {
  ghost predicate TotalPreorder<T(!new)>(leq: (T, T) -> bool) {
    && (forall a, b :: leq(a, b) || leq(b, a))
    && forall a, b, c :: leq(a, b) && leq(b, c) ==> leq(a, c)
  }

  ghost predicate Ordered<T>(xs: seq<T>, leq: (T, T) -> bool) {
    forall i, j :: 0 <= i < j < |xs| ==> leq(xs[i], xs[j])
  }

  function InsertBy<T>(x: T, xs: seq<T>, leq: (T, T) -> bool): seq<T> {
    if xs == [] || leq(x, xs[0]) then [x] + xs else [xs[0]] + InsertBy(x, xs[1..], leq)
  }

  function SortBy<T>(xs: seq<T>, leq: (T, T) -> bool): seq<T> {
    if xs == [] then [] else InsertBy(xs[0], SortBy(xs[1..], leq), leq)
  }

  lemma {:induction false} InsertPermutes<T>(x: T, xs: seq<T>, leq: (T, T) -> bool)
    ensures multiset(InsertBy(x, xs, leq)) == multiset(xs) + multiset{x}
    ensures |InsertBy(x, xs, leq)| == |xs| + 1
  {
    if xs != [] && !leq(x, xs[0]) {
      InsertPermutes(x, xs[1..], leq);
      assert xs == [xs[0]] + xs[1..];
    }
  }

  lemma {:induction false} SortPermutes<T>(xs: seq<T>, leq: (T, T) -> bool)
    ensures multiset(SortBy(xs, leq)) == multiset(xs) && |SortBy(xs, leq)| == |xs|
  {
    if xs != [] {
      SortPermutes(xs[1..], leq);
      InsertPermutes(xs[0], SortBy(xs[1..], leq), leq);
      assert xs == [xs[0]] + xs[1..];
    }
  }

  /** A head that precedes the first element precedes them all. */
  lemma OrderedCons<T(!new)>(head: T, xs: seq<T>, leq: (T, T) -> bool)
    requires TotalPreorder(leq) && Ordered(xs, leq) && (xs != [] ==> leq(head, xs[0]))
    ensures Ordered([head] + xs, leq)
  {
    var all := [head] + xs;
    forall i, j | 0 <= i < j < |all|
      ensures leq(all[i], all[j])
    {
      if i == 0 {
        assert j == 1 || leq(xs[0], xs[j - 1]);
      } else {
        assert leq(xs[i - 1], xs[j - 1]);
      }
    }
  }

  lemma {:induction false} InsertOrders<T(!new)>(x: T, xs: seq<T>, leq: (T, T) -> bool)
    requires TotalPreorder(leq) && Ordered(xs, leq)
    ensures Ordered(InsertBy(x, xs, leq), leq)
    ensures InsertBy(x, xs, leq)[0] == x || (xs != [] && InsertBy(x, xs, leq)[0] == xs[0])
  {
    hide TotalPreorder;
    if xs == [] || leq(x, xs[0]) {
      OrderedCons(x, xs, leq);
    } else {
      HeadBefore(xs, leq);
      InsertOrders(x, xs[1..], leq);
      Comparable(x, xs[0], leq);
      OrderedCons(xs[0], InsertBy(x, xs[1..], leq), leq);
    }
  }

  lemma HeadBefore<T>(xs: seq<T>, leq: (T, T) -> bool)
    requires Ordered(xs, leq) && xs != []
    ensures Ordered(xs[1..], leq) && (|xs| > 1 ==> leq(xs[0], xs[1..][0]))
  {
  }

  lemma Comparable<T(!new)>(a: T, b: T, leq: (T, T) -> bool)
    requires TotalPreorder(leq)
    ensures leq(a, b) || leq(b, a)
  {
  }

  lemma {:induction false} SortOrders<T(!new)>(xs: seq<T>, leq: (T, T) -> bool)
    requires TotalPreorder(leq)
    ensures Ordered(SortBy(xs, leq), leq)
  {
    if xs != [] {
      SortOrders(xs[1..], leq);
      InsertOrders(xs[0], SortBy(xs[1..], leq), leq);
    }
  }

  // ----- integers in ascending order -----

  predicate AtMost(a: int, b: int) {
    a <= b
  }

  function Sort(xs: seq<int>): (r: seq<int>)
    ensures |r| == |xs| && multiset(r) == multiset(xs)
    ensures forall i, j :: 0 <= i < j < |r| ==> r[i] <= r[j]
  {
    SortPermutes(xs, AtMost);
    SortOrders(xs, AtMost);
    SortBy(xs, AtMost)
  }

  // ----- ranks -----

  ghost function Count(xs: seq<int>, p: int -> bool): nat {
    if xs == [] then 0 else (if p(xs[0]) then 1 else 0) + Count(xs[1..], p)
  }

  ghost function UpTo(v: int): int -> bool {
    x => x <= v
  }

  ghost function From(v: int): int -> bool {
    x => x >= v
  }

  lemma {:induction false} CountAppend(xs: seq<int>, ys: seq<int>, p: int -> bool)
    ensures Count(xs + ys, p) == Count(xs, p) + Count(ys, p)
  {
    if xs == [] {
      assert xs + ys == ys;
    } else {
      CountAppend(xs[1..], ys, p);
      assert (xs + ys)[1..] == xs[1..] + ys;
    }
  }

  /** Taking one element out. */
  lemma CountRemove(ys: seq<int>, k: nat, p: int -> bool)
    requires k < |ys|
    ensures
      var rest := ys[..k] + ys[k + 1..];
      && multiset(ys) == multiset(rest) + multiset{ys[k]}
      && Count(ys, p) == Count(rest, p) + (if p(ys[k]) then 1 else 0)
  {
    var last := [ys[k]] + ys[k + 1..];
    assert ys == ys[..k] + last && last[1..] == ys[k + 1..];
    CountAppend(ys[..k], ys[k + 1..], p);
    CountAppend(ys[..k], last, p);
  }

  lemma {:induction false} CountPermuted(xs: seq<int>, ys: seq<int>, p: int -> bool)
    requires multiset(xs) == multiset(ys)
    ensures Count(xs, p) == Count(ys, p)
    decreases |xs|
  {
    if xs == [] {
      assert |multiset(ys)| == 0;
    } else {
      assert xs == [xs[0]] + xs[1..];
      assert xs[0] in multiset(ys);
      var k :| 0 <= k < |ys| && ys[k] == xs[0];
      CountRemove(ys, k, p);
      SamePart(multiset(xs[1..]), multiset(ys[..k] + ys[k + 1..]), xs[0]);
      CountPermuted(xs[1..], ys[..k] + ys[k + 1..], p);
    }
  }

  lemma SamePart(a: multiset<int>, b: multiset<int>, x: int)
    requires a + multiset{x} == b + multiset{x}
    ensures a == b
  {
    assert a == (a + multiset{x}) - multiset{x};
    assert b == (b + multiset{x}) - multiset{x};
  }

  lemma {:induction false} CountAll(xs: seq<int>, p: int -> bool)
    requires forall i :: 0 <= i < |xs| ==> p(xs[i])
    ensures Count(xs, p) == |xs|
  {
    if xs != [] {
      CountAll(xs[1..], p);
    }
  }

  /** Position `k` of the sorted list: a listed value with `k` others at most it and the rest at least it. */
  ghost predicate HasRank(xs: seq<int>, k: nat, v: int) {
    && v in xs && k < |xs|
    && Count(xs, UpTo(v)) >= k + 1
    && Count(xs, From(v)) >= |xs| - k
  }

  lemma SortRanks(xs: seq<int>, k: nat)
    requires k < |xs|
    ensures HasRank(xs, k, Sort(xs)[k])
  {
    hide Sort;
    var r := Sort(xs);
    var v := r[k];
    assert v in multiset(r);
    CountPermuted(r, xs, UpTo(v));
    CountPermuted(r, xs, From(v));
    assert r == r[..k + 1] + r[k + 1..] && r == r[..k] + r[k..];
    CountAppend(r[..k + 1], r[k + 1..], UpTo(v));
    CountAppend(r[..k], r[k..], From(v));
    CountAll(r[..k + 1], UpTo(v));
    CountAll(r[k..], From(v));
  }

  lemma {:induction false} CountDisjoint(xs: seq<int>, low: int, high: int)
    requires low < high
    ensures Count(xs, UpTo(low)) + Count(xs, From(high)) <= |xs|
  {
    if xs != [] {
      CountDisjoint(xs[1..], low, high);
    }
  }

  /** A rank belongs to one value only. */
  lemma RankUnique(xs: seq<int>, k: nat, v: int, w: int)
    requires HasRank(xs, k, v) && HasRank(xs, k, w)
    ensures v == w
  {
    if v < w {
      CountDisjoint(xs, v, w);
    } else if w < v {
      CountDisjoint(xs, w, v);
    }
  }
}
