/**
 The interval arithmetic of the Metal trace summary: a sort-and-sweep union of
 half-open intervals, the drawable-wait overlap of an encoding, and the
 resolution of document-local XML references.
 */
module MetalTrace {
  import opened Common
  import opened Sorting

  /** Half-open interval of nanosecond instants. */
  type Interval = (int, int)

  predicate Malformed(v: Interval) {
    v.0 < 0 || v.1 < v.0
  }

  /** Everything else is a span of non-negative instants, possibly empty. */
  lemma WellFormedIff(v: Interval)
    ensures !Malformed(v) <==> 0 <= v.0 <= v.1
  {
  }

  /** Tuple order: by start, then by end. */
  predicate NoLater(a: Interval, b: Interval) {
    a.0 < b.0 || (a.0 == b.0 && a.1 <= b.1)
  }

  // ----- the instants an interval list covers -----

  ghost function Span(low: int, high: int): (s: set<int>)
    ensures forall t :: t in s <==> low <= t < high
    decreases high - low
  {
    if low < high then Span(low, high - 1) + {high - 1} else {}
  }

  lemma {:induction false} SpanSize(low: int, high: int)
    ensures |Span(low, high)| == Max(0, high - low)
    decreases high - low
  {
    if low < high {
      SpanSize(low, high - 1);
    }
  }

  ghost function Covered(intervals: seq<Interval>): set<int> {
    if intervals == [] then {}
    else Covered(intervals[..|intervals| - 1]) + Span(intervals[|intervals| - 1].0, intervals[|intervals| - 1].1)
  }

  ghost predicate Covers(v: Interval, t: int) {
    v.0 <= t < v.1
  }

  lemma {:induction false} CoveredIff(intervals: seq<Interval>, t: int)
    ensures t in Covered(intervals) <==> exists v :: v in intervals && Covers(v, t)
  {
    if intervals != [] {
      var front, last := intervals[..|intervals| - 1], intervals[|intervals| - 1];
      CoveredIff(front, t);
      assert intervals == front + [last];
      if t in Span(last.0, last.1) {
        assert Covers(last, t) && last in intervals;
      }
    }
  }

  lemma CoveredPermuted(a: seq<Interval>, b: seq<Interval>)
    requires multiset(a) == multiset(b)
    ensures Covered(a) == Covered(b)
  {
    assert forall v :: v in a <==> v in multiset(a);
    assert forall v :: v in b <==> v in multiset(b);
    forall t
      ensures t in Covered(a) <==> t in Covered(b)
    {
      CoveredIff(a, t);
      CoveredIff(b, t);
    }
  }

  // ----- the sweep -----

  /** Everything swept so far starts no later than `start` and ends no later than `end`, which it reaches. */
  ghost predicate Swept(done: seq<Interval>, start: int, end: int) {
    && (forall v :: v in done ==> 0 <= v.0 <= start && v.0 <= v.1 <= end)
    && (end == 0 || exists v :: v in done && v.1 == end)
  }

  /** One more interval adds exactly the instants past the previous end. */
  lemma SweepStep(done: seq<Interval>, v: Interval, end: int)
    requires !Malformed(v) && Swept(done, v.0, end) && end >= 0
    ensures |Covered(done + [v])| == |Covered(done)| + Max(0, v.1 - Max(v.0, end))
    ensures Swept(done + [v], v.0, Max(end, v.1))
  {
    SweepCount(done, v, end);
    forall w | w in done + [v]
      ensures 0 <= w.0 <= v.0 && w.0 <= w.1 <= Max(end, v.1)
    {
      assert w in done || w == v;
    }
    if v.1 >= end {
      assert (done + [v])[|done|] == v;
    } else {
      var w :| w in done && w.1 == end;
      assert w in done + [v];
    }
  }

  /** Past the newest start, the instants covered so far are those before the latest end. */
  lemma SweptCovers(done: seq<Interval>, start: int, end: int, t: int)
    requires Swept(done, start, end) && 0 <= start <= t
    ensures t in Covered(done) <==> t < end
  {
    CoveredIff(done, t);
    if t < end {
      var w :| w in done && w.1 == end;
      assert Covers(w, t);
    }
  }

  lemma SweepCount(done: seq<Interval>, v: Interval, end: int)
    requires !Malformed(v) && Swept(done, v.0, end) && end >= 0
    ensures |Covered(done + [v])| == |Covered(done)| + Max(0, v.1 - Max(v.0, end))
  {
    hide Swept, Span;
    var added := Span(Max(v.0, end), v.1);
    assert (done + [v])[..|done|] == done;
    forall t | v.0 <= t
      ensures t in Covered(done) <==> t < end
    {
      SweptCovers(done, v.0, end, t);
    }
    assert Covered(done + [v]) == Covered(done) + added;
    assert Covered(done) !! added;
    SpanSize(Max(v.0, end), v.1);
  }

  lemma SweptLater(done: seq<Interval>, start: int, later: int, end: int)
    requires Swept(done, start, end) && start <= later
    ensures Swept(done, later, end)
  {
  }

  lemma IntervalOrder()
    ensures TotalPreorder(NoLater)
  {
  }

  /**
   The union of the intervals, in any order and with any overlaps, is the
   number of instants they cover; `None` when an interval is malformed.
   */
  method UnionNs(intervals: seq<Interval>) returns (r: Option<nat>)
    ensures r.None? <==> exists v :: v in intervals && Malformed(v)
    ensures r.Some? ==> r.value == |Covered(intervals)|
  {
    hide Covered, Swept, Ordered, TotalPreorder, SortBy, NoLater;
    var sorted := SortBy(intervals, NoLater);
    IntervalOrder();
    SortPermutes(intervals, NoLater);
    SortOrders(intervals, NoLater);
    SameMembers(sorted, intervals);
    var total, previousEnd := 0, 0;
    NothingSwept();
    for i := 0 to |sorted|
      invariant previousEnd >= 0 && total >= 0
      invariant forall j :: 0 <= j < i ==> !Malformed(sorted[j])
      invariant Swept(sorted[..i], if i == 0 then 0 else sorted[i - 1].0, previousEnd)
      invariant total == |Covered(sorted[..i])|
    {
      var v := sorted[i];
      if v.0 < 0 || v.1 < v.0 {
        assert v in sorted;
        return None;
      }
      if i > 0 {
        InOrder(sorted, i);
      }
      SweptLater(sorted[..i], if i == 0 then 0 else sorted[i - 1].0, v.0, previousEnd);
      SweepStep(sorted[..i], v, previousEnd);
      assert sorted[..i + 1] == sorted[..i] + [v];
      total := total + Max(0, v.1 - Max(v.0, previousEnd));
      previousEnd := Max(previousEnd, v.1);
    }
    assert sorted[..|sorted|] == sorted;
    CoveredPermuted(sorted, intervals);
    return Some(total);
  }

  lemma InOrder(sorted: seq<Interval>, i: nat)
    requires Ordered(sorted, NoLater) && 0 < i < |sorted|
    ensures sorted[i - 1].0 <= sorted[i].0
  {
    assert NoLater(sorted[i - 1], sorted[i]);
  }

  lemma NothingSwept()
    ensures Swept([], 0, 0) && Covered([]) == {}
  {
  }

  lemma SameMembers(a: seq<Interval>, b: seq<Interval>)
    requires multiset(a) == multiset(b)
    ensures forall v :: v in a <==> v in b
  {
    assert forall v :: v in a <==> v in multiset(a);
    assert forall v :: v in b <==> v in multiset(b);
  }

  // ----- drawable waits inside an encoding -----

  datatype Wait = Wait(thread: nat, start: nat, end: nat)
  datatype Encoding = Encoding(thread: nat, start: nat, end: nat)

  predicate Touches(w: Wait, e: Encoding) {
    w.thread == e.thread && w.start < e.end && w.end > e.start
  }

  /** Same-thread waits that touch the encoding, cut to it. */
  function Clipped(waits: seq<Wait>, e: Encoding): seq<Interval> {
    if waits == [] then []
    else
      var w := waits[|waits| - 1];
      Clipped(waits[..|waits| - 1], e)
      + if Touches(w, e) then [(Max(e.start, w.start), Min(e.end, w.end))] else []
  }

  ghost predicate WellTimed(waits: seq<Wait>, e: Encoding) {
    e.start <= e.end && forall w :: w in waits ==> w.start <= w.end
  }

  /** No clipped wait is malformed, and together they cover the instants spent waiting inside the encoding. */
  lemma {:induction false} ClippedInside(waits: seq<Wait>, e: Encoding)
    requires WellTimed(waits, e)
    ensures forall v :: v in Clipped(waits, e) ==> !Malformed(v)
    ensures forall t :: t in Covered(Clipped(waits, e)) <==>
      e.start <= t < e.end && exists w :: w in waits && w.thread == e.thread && w.start <= t < w.end
  {
    if waits != [] {
      var front, w := waits[..|waits| - 1], waits[|waits| - 1];
      ClippedInside(front, e);
      assert waits == front + [w];
      var cut := Clipped(front, e);
      if Touches(w, e) {
        var v := (Max(e.start, w.start), Min(e.end, w.end));
        assert (cut + [v])[..|cut|] == cut;
        assert Covered(cut + [v]) == Covered(cut) + Span(v.0, v.1);
      } else {
        assert Clipped(waits, e) == cut;
      }
    }
  }

  /**
   The wall time of an encoding splits exactly into the instants its thread
   waited for a drawable and a nonnegative remainder; the union never raises.
   */
  method SplitWallTime(waits: seq<Wait>, e: Encoding) returns (overlap: nat, remainder: nat)
    requires WellTimed(waits, e)
    ensures overlap + remainder == e.end - e.start
    ensures overlap == |Waiting(waits, e)|
  {
    ClippedInside(waits, e);
    var union := UnionNs(Clipped(waits, e));
    ghost var covered := Covered(Clipped(waits, e));
    assert covered == Waiting(waits, e);
    assert covered <= Span(e.start, e.end);
    SpanSize(e.start, e.end);
    SubsetSize(covered, Span(e.start, e.end));
    overlap := union.value;
    remainder := e.end - e.start - overlap;
  }

  /** The instants of the encoding during which its thread waited. */
  ghost function Waiting(waits: seq<Wait>, e: Encoding): set<int> {
    set t | t in Span(e.start, e.end) && exists w :: w in waits && w.thread == e.thread && w.start <= t < w.end
  }

  lemma SubsetSize(a: set<int>, b: set<int>)
    requires a <= b
    ensures |a| <= |b|
  {
    assert |b| == |a| + |b - a| by {
      assert b == a + (b - a);
    }
  }

  // ----- XML references -----

  datatype Element = Element(token: nat, reference: Option<nat>)

  type Table = map<nat, Element>

  /** The element reached by following exactly `n` references, if that many lead anywhere. */
  ghost function Follow(ids: Table, e: Element, n: nat): Option<Element> {
    if n == 0 then Some(e)
    else
      var before := Follow(ids, e, n - 1);
      if before.None? || before.value.reference.None? || before.value.reference.value !in ids then None
      else Some(ids[before.value.reference.value])
  }

  ghost predicate ResolvesAt(ids: Table, e: Element, n: nat) {
    Follow(ids, e, n).Some? && Follow(ids, e, n).value.reference.None?
  }

  lemma {:induction false} FollowStops(ids: Table, e: Element, n: nat, more: nat)
    requires Follow(ids, e, n).None? && n <= more
    ensures Follow(ids, e, more).None?
    decreases more
  {
    if n < more {
      FollowStops(ids, e, n, more - 1);
    }
  }

  /** Two equal positions make the chain periodic from there on. */
  lemma {:induction false} FollowRepeats(ids: Table, e: Element, i: nat, j: nat, more: nat)
    requires Follow(ids, e, i) == Follow(ids, e, j)
    ensures Follow(ids, e, i + more) == Follow(ids, e, j + more)
  {
    if more > 0 {
      FollowRepeats(ids, e, i, j, more - 1);
    }
  }

  /** A chain that repeats before resolving never resolves. */
  lemma {:induction false} CycleNeverResolves(ids: Table, e: Element, i: nat, j: nat, n: nat)
    requires i < j && Follow(ids, e, i) == Follow(ids, e, j) && Follow(ids, e, j).Some?
    requires forall k :: 0 <= k <= j ==> !ResolvesAt(ids, e, k)
    ensures !ResolvesAt(ids, e, n)
    decreases n
  {
    if n > j {
      FollowRepeats(ids, e, i, j, n - j);
      CycleNeverResolves(ids, e, i, j, i + (n - j));
    }
  }

  lemma DeadEndNeverResolves(ids: Table, e: Element, last: nat, n: nat)
    requires Follow(ids, e, last + 1).None?
    requires forall k :: 0 <= k <= last ==> !ResolvesAt(ids, e, k)
    ensures !ResolvesAt(ids, e, n)
  {
    if n > last {
      FollowStops(ids, e, last + 1, n);
    }
  }

  /**
   Follows references to an element that has none. It always terminates, and
   raises exactly when the value is missing or the references never resolve.
   */
  method Resolve(ids: Table, element: Option<Element>) returns (r: Option<Element>)
    ensures r.Some? ==>
      element.Some? && exists n :: ResolvesAt(ids, element.value, n) && Follow(ids, element.value, n) == r
    ensures r.None? ==> element.None? || forall n :: !ResolvesAt(ids, element.value, n)
  {
    hide Follow;
    if element.None? {
      return None;
    }
    var current, seen := element.value, {};
    ghost var n := 0;
    FollowStart(ids, current);
    while current.reference.Some?
      invariant Follow(ids, element.value, n) == Some(current)
      invariant seen <= ids.Keys
      invariant forall k: nat :: k < n ==> !ResolvesAt(ids, element.value, k)
      invariant forall key :: key in seen ==> exists i :: 0 < i <= n && Follow(ids, element.value, i) == Some(ids[key])
      decreases |ids.Keys - seen|
    {
      var key := current.reference.value;
      FollowOne(ids, element.value, n);
      assert !ResolvesAt(ids, element.value, n);
      if key in seen || key !in ids {
        if key !in ids {
          forall k {
            DeadEndNeverResolves(ids, element.value, n, k);
          }
        } else {
          ghost var i :| 0 < i <= n && Follow(ids, element.value, i) == Some(ids[key]);
          forall k {
            CycleBack(ids, element.value, i, n, k);
          }
        }
        return None;
      }
      seen := seen + {key};
      current := ids[key];
      n := n + 1;
    }
    assert ResolvesAt(ids, element.value, n);
    return Some(current);
  }

  lemma FollowStart(ids: Table, e: Element)
    ensures Follow(ids, e, 0) == Some(e)
  {
  }

  lemma FollowOne(ids: Table, e: Element, n: nat)
    requires Follow(ids, e, n).Some? && Follow(ids, e, n).value.reference.Some?
    ensures
      var key := Follow(ids, e, n).value.reference.value;
      Follow(ids, e, n + 1) == if key in ids then Some(ids[key]) else None
  {
  }

  /** The reference at position `n` leads back to position `i`. */
  lemma CycleBack(ids: Table, e: Element, i: nat, n: nat, k: nat)
    requires 0 < i <= n && Follow(ids, e, i).Some? && Follow(ids, e, i) == Follow(ids, e, n + 1)
    requires forall p: nat :: p <= n ==> !ResolvesAt(ids, e, p)
    ensures !ResolvesAt(ids, e, k)
  {
    assert !ResolvesAt(ids, e, i);
    CycleNeverResolves(ids, e, i, n + 1, k);
  }
}
