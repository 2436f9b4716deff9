/**
 The isolated-impulse corrector: interior pixels that stand far out from eight
 agreeing neighbours are replaced by the neighbours' median, worst first, up to
 one percent of the plane.
 */
module Impulse {
  import opened Common
  import opened Arithmetic
  import opened Sorting

  const MAXIMUM_NEIGHBOR_SPAN: int := 4096
  const MINIMUM_DEVIATION: int := 2048
  const MAD_MULTIPLIER: int := 8

  // ----- one pixel -----

  /** Interior positions of a plane. */
  predicate Interior(width: nat, height: nat, i: nat)
    requires width > 0
  {
    1 <= i / width < height - 1 && 1 <= i % width < width - 1
  }

  /** The eight neighbours of an interior pixel lie inside the plane. */
  lemma NeighborsInside(width: nat, height: nat, i: nat)
    requires width >= 3 && Interior(width, height, i)
    ensures width + 1 <= i && i + width + 1 < width * height
  {
    var row, column := i / width, i % width;
    assert i == row * width + column;
    MulMonotone(1, row, width);
    MulMonotone(row + 2, height, width);
    assert (row + 2) * width == row * width + 2 * width;
    assert height * width == width * height;
  }

  function Neighbors(plane: seq<U16>, width: nat, height: nat, i: nat): (r: seq<int>)
    requires width >= 3 && |plane| == width * height && Interior(width, height, i)
    ensures |r| == 8 && forall k :: 0 <= k < 8 ==> 0 <= r[k] <= 0xFFFF
  {
    NeighborsInside(width, height, i);
    [plane[i - width - 1], plane[i - width], plane[i - width + 1], plane[i - 1],
     plane[i + 1], plane[i + width - 1], plane[i + width], plane[i + width + 1]]
  }

  /** The mean of the two middle values of eight, rounded down. */
  function MedianOfEight(values: seq<int>): int
    requires |values| == 8
  {
    (Sort(values)[3] + Sort(values)[4]) / 2
  }

  lemma MedianInRange(values: seq<int>, low: int, high: int)
    requires |values| == 8 && forall k :: 0 <= k < 8 ==> low <= values[k] <= high
    ensures low <= MedianOfEight(values) <= high
    ensures forall k :: 0 <= k < 8 ==> low <= Sort(values)[k] <= high
  {
    forall k | 0 <= k < 8
      ensures low <= Sort(values)[k] <= high
    {
      assert Sort(values)[k] in multiset(Sort(values));
      assert Sort(values)[k] in values;
    }
  }

  function Deviations(values: seq<int>, median: int): seq<int> {
    seq(|values|, k requires 0 <= k < |values| => Abs(values[k] - median))
  }

  function Threshold(values: seq<int>, median: int): (t: int)
    requires |values| == 8
    ensures MINIMUM_DEVIATION <= t <= 0xFFFF
  {
    Min(Max(MedianOfEight(Deviations(values, median)) * MAD_MULTIPLIER, MINIMUM_DEVIATION), 0xFFFF)
  }

  datatype Candidate = Candidate(excess: nat, index: nat, median: U16)

  /** The median of the eight original neighbours. */
  function NeighborMedian(plane: seq<U16>, width: nat, height: nat, i: nat): U16
    requires width >= 3 && |plane| == width * height && Interior(width, height, i)
  {
    MedianInRange(Neighbors(plane, width, height, i), 0, 0xFFFF);
    MedianOfEight(Neighbors(plane, width, height, i))
  }

  /** An outlier among neighbours that agree; its excess is how far it passes the threshold. */
  function CandidateAt(plane: seq<U16>, width: nat, height: nat, i: nat): (c: Option<Candidate>)
    requires width >= 3 && |plane| == width * height && Interior(width, height, i)
    ensures c.Some? ==> c.value.index == i
  {
    NeighborsInside(width, height, i);
    var neighbors := Neighbors(plane, width, height, i);
    var median := NeighborMedian(plane, width, height, i);
    if Sort(neighbors)[7] - Sort(neighbors)[0] > MAXIMUM_NEIGHBOR_SPAN then None
    else
      var threshold, deviation := Threshold(neighbors, median), Abs(plane[i] - median);
      if deviation >= threshold then Some(Candidate(deviation - threshold, i, median)) else None
  }

  /** A candidate carries the neighbours' median, which differs from the pixel itself. */
  lemma CandidateMedian(plane: seq<U16>, width: nat, height: nat, i: nat)
    requires width >= 3 && |plane| == width * height && Interior(width, height, i)
    requires CandidateAt(plane, width, height, i).Some?
    ensures i < |plane|
    ensures CandidateAt(plane, width, height, i).value.median == NeighborMedian(plane, width, height, i) != plane[i]
  {
    NeighborsInside(width, height, i);
  }

  // ----- what the median, the threshold and a candidate are -----

  /** `a` and `b` are the two middle values of eight, by rank alone. */
  ghost predicate Middle(values: seq<int>, a: int, b: int) {
    |values| == 8 && HasRank(values, 3, a) && HasRank(values, 4, b)
  }

  lemma MedianIsMiddle(values: seq<int>, a: int, b: int)
    requires Middle(values, a, b)
    ensures MedianOfEight(values) == (a + b) / 2
  {
    hide Sort;
    SortRanks(values, 3);
    SortRanks(values, 4);
    RankUnique(values, 3, a, Sort(values)[3]);
    RankUnique(values, 4, b, Sort(values)[4]);
  }

  lemma MiddleExists(values: seq<int>) returns (a: int, b: int)
    requires |values| == 8
    ensures Middle(values, a, b) && a <= b
  {
    a, b := Sort(values)[3], Sort(values)[4];
    SortRanks(values, 3);
    SortRanks(values, 4);
  }

  /** At least four neighbours are at most the median and at least four are at least it. */
  lemma MedianBalances(values: seq<int>)
    requires |values| == 8
    ensures Count(values, UpTo(MedianOfEight(values))) >= 4 && Count(values, From(MedianOfEight(values))) >= 4
  {
    hide MedianOfEight;
    var a, b := MiddleExists(values);
    MedianIsMiddle(values, a, b);
    var m := MedianOfEight(values);
    CountWeakens(values, UpTo(a), UpTo(m));
    CountWeakens(values, From(b), From(m));
  }

  lemma {:induction false} CountWeakens(values: seq<int>, p: int -> bool, q: int -> bool)
    requires forall x :: p(x) ==> q(x)
    ensures Count(values, p) <= Count(values, q)
  {
    if values != [] {
      CountWeakens(values[1..], p, q);
    }
  }

  /** The neighbours are the plane's values one row and one column away at most, the pixel itself left out. */
  lemma NeighborsAre(plane: seq<U16>, width: nat, height: nat, i: nat, k: nat)
    requires width >= 3 && |plane| == width * height && Interior(width, height, i) && k < 8
    ensures
      var place := if k < 4 then k else k + 1;
      var at := i + (place / 3 - 1) * width + (place % 3 - 1);
      0 <= at < |plane| && at != i && Neighbors(plane, width, height, i)[k] == plane[at]
  {
    NeighborsInside(width, height, i);
    var place: int := if k < 4 then k else k + 1;
    if k < 3 {
      assert place / 3 == 0 && (place / 3 - 1) * width + width == 0;
    } else if k < 5 {
      assert place / 3 == 1 && (place / 3 - 1) * width == 0;
    } else {
      assert place / 3 == 2 && (place / 3 - 1) * width == width;
    }
  }

  ghost predicate Distances(ds: seq<int>, values: seq<int>, from: int) {
    && |ds| == |values|
    && forall k :: 0 <= k < |ds| ==> ds[k] >= 0 && (ds[k] == values[k] - from || ds[k] == from - values[k])
  }

  /** Eight times the middle of the distances from the median, rounded down and clamped, from ranks alone. */
  ghost predicate ThresholdIs(values: seq<int>, median: int, t: int) {
    exists ds, d, e {:trigger Middle(ds, d, e), Distances(ds, values, median)} ::
      Distances(ds, values, median) && Middle(ds, d, e) && t == Clamp(8 * ((d + e) / 2), 2048, 65535)
  }

  lemma ThresholdRanks(values: seq<int>, median: int)
    requires |values| == 8
    ensures ThresholdIs(values, median, Threshold(values, median))
  {
    hide MedianOfEight;
    var ds := Deviations(values, median);
    var d, e := MiddleExists(ds);
    MedianIsMiddle(ds, d, e);
    assert Distances(ds, values, median);
  }

  /** No two neighbours are further apart than the allowed span. */
  ghost predicate Agree(values: seq<int>) {
    forall j, k :: 0 <= j < |values| && 0 <= k < |values| ==> values[j] - values[k] <= 4096
  }

  /** What a candidate at `i` must be, given a threshold. */
  ghost predicate CandidateMeans(value: U16, values: seq<int>, median: U16, i: nat, t: int, c: Option<Candidate>) {
    && ThresholdIs(values, median, t)
    && (c.Some? <==> Agree(values) && Abs(value - median) >= t)
    && (c.Some? ==> c.value.excess == Abs(value - median) - t && c.value.index == i && c.value.median == median)
  }

  /**
   A pixel is a candidate exactly when its neighbours agree and it lies at
   least the threshold away from their median; its excess is the difference.
   */
  lemma CandidateIff(plane: seq<U16>, width: nat, height: nat, i: nat) returns (t: int)
    requires width >= 3 && |plane| == width * height && Interior(width, height, i)
    ensures i < |plane|
    ensures CandidateMeans(plane[i], Neighbors(plane, width, height, i), NeighborMedian(plane, width, height, i), i, t,
                           CandidateAt(plane, width, height, i))
  {
    hide Neighbors, Threshold, NeighborMedian, Interior, ThresholdIs, Agree, Sort;
    NeighborsInside(width, height, i);
    var values, median := Neighbors(plane, width, height, i), NeighborMedian(plane, width, height, i);
    t := Threshold(values, median);
    ThresholdRanks(values, median);
    SpanIff(values);
  }

  lemma SpanIff(values: seq<int>)
    requires |values| == 8
    ensures Sort(values)[7] - Sort(values)[0] <= 4096 <==> Agree(values)
  {
    hide Sort;
    var r := Sort(values);
    assert r[7] in multiset(r) && r[0] in multiset(r);
    assert r[7] in values && r[0] in values;
    forall j | 0 <= j < 8
      ensures r[0] <= values[j] <= r[7]
    {
      assert values[j] in multiset(values);
      assert values[j] in r;
    }
  }

  // ----- the candidates of a plane -----

  ghost predicate Genuine(plane: seq<U16>, width: nat, height: nat, c: Candidate)
    requires width >= 3 && |plane| == width * height
  {
    Interior(width, height, c.index) && CandidateAt(plane, width, height, c.index) == Some(c)
  }

  /** In scan order, exactly the candidates below `end`. */
  ghost predicate Collected(plane: seq<U16>, width: nat, height: nat, end: nat, cs: seq<Candidate>)
    requires width >= 3 && |plane| == width * height
  {
    && (forall k :: 0 <= k < |cs| ==> Genuine(plane, width, height, cs[k]) && cs[k].index < end)
    && (forall j, k :: 0 <= j < k < |cs| ==> cs[j].index < cs[k].index)
    && forall c :: Genuine(plane, width, height, c) && c.index < end ==> c in cs
  }

  /** Extending the scan over positions that are not interior. */
  lemma CollectedSkip(plane: seq<U16>, width: nat, height: nat, end: nat, next: nat, cs: seq<Candidate>)
    requires width >= 3 && |plane| == width * height && end <= next
    requires Collected(plane, width, height, end, cs)
    requires forall i: nat :: end <= i < next ==> !Interior(width, height, i)
    ensures Collected(plane, width, height, next, cs)
  {
    hide CandidateAt, Interior;
  }

  lemma CollectedStep(plane: seq<U16>, width: nat, height: nat, i: nat, cs: seq<Candidate>)
    requires width >= 3 && |plane| == width * height && Interior(width, height, i)
    requires Collected(plane, width, height, i, cs)
    ensures
      var c := CandidateAt(plane, width, height, i);
      Collected(plane, width, height, i + 1, if c.Some? then cs + [c.value] else cs)
  {
    hide CandidateAt, Interior, Genuine;
    var c := CandidateAt(plane, width, height, i);
    var grown := if c.Some? then cs + [c.value] else cs;
    forall d | Genuine(plane, width, height, d) && d.index < i + 1
      ensures d in grown
    {
      if d.index == i {
        GenuineAt(plane, width, height, d);
        assert grown[|cs|] == d;
      } else {
        assert d in cs;
      }
    }
    if c.Some? {
      GenuineAt(plane, width, height, c.value);
    }
  }

  lemma GenuineAt(plane: seq<U16>, width: nat, height: nat, c: Candidate)
    requires width >= 3 && |plane| == width * height && Interior(width, height, c.index)
    ensures Genuine(plane, width, height, c) <==> CandidateAt(plane, width, height, c.index) == Some(c)
  {
    hide CandidateAt, Interior;
  }

  /** Positions between two interior stretches. */
  lemma RowGap(width: nat, height: nat, y: nat, i: nat)
    requires width >= 3 && 1 <= y && y * width - 1 <= i <= y * width
    ensures !Interior(width, height, i)
  {
    if i == y * width {
      QuotientIs(i, width, y, 0);
    } else {
      QuotientIs(i, width, y - 1, width - 1);
    }
  }

  lemma RowInterior(width: nat, height: nat, y: nat, x: nat)
    requires width >= 3 && 1 <= y < height - 1 && 1 <= x < width - 1
    ensures Interior(width, height, y * width + x)
  {
    QuotientIs(y * width + x, width, y, x);
  }

  lemma FirstRow(width: nat, height: nat, i: nat)
    requires width >= 3 && i <= width
    ensures !Interior(width, height, i)
  {
    if i == width {
      QuotientIs(i, width, 1, 0);
    } else {
      QuotientIs(i, width, 0, i);
    }
  }

  lemma LastRow(width: nat, height: nat, i: nat)
    requires width >= 3 && height >= 1 && (height - 1) * width <= i
    ensures !Interior(width, height, i)
  {
    DivMonotone((height - 1) * width, i, width);
    QuotientIs((height - 1) * width, width, height - 1, 0);
  }

  method CollectRow(plane: seq<U16>, width: nat, height: nat, y: nat, found: seq<Candidate>)
    returns (cs: seq<Candidate>)
    requires width >= 3 && height >= 3 && |plane| == width * height && 1 <= y < height - 1
    requires Collected(plane, width, height, y * width + 1, found)
    ensures Collected(plane, width, height, (y + 1) * width + 1, cs)
  {
    hide Collected, CandidateAt, Interior;
    cs := found;
    for x := 1 to width - 1
      invariant Collected(plane, width, height, y * width + x, cs)
    {
      var index := y * width + x;
      RowInterior(width, height, y, x);
      CollectedStep(plane, width, height, index, cs);
      var c := CandidateAt(plane, width, height, index);
      if c.Some? {
        cs := cs + [c.value];
      }
    }
    assert (y + 1) * width == y * width + width;
    forall i: nat | y * width + (width - 1) <= i < (y + 1) * width + 1
      ensures !Interior(width, height, i)
    {
      RowGap(width, height, y + 1, i);
    }
    CollectedSkip(plane, width, height, y * width + (width - 1), (y + 1) * width + 1, cs);
  }

  method Collect(plane: seq<U16>, width: nat, height: nat) returns (cs: seq<Candidate>)
    requires width >= 3 && height >= 3 && |plane| == width * height
    ensures Collected(plane, width, height, |plane|, cs)
  {
    hide Collected, CandidateAt, Interior;
    cs := [];
    CollectedNone(plane, width, height);
    forall i: nat | 0 <= i < width + 1
      ensures !Interior(width, height, i)
    {
      FirstRow(width, height, i);
    }
    CollectedSkip(plane, width, height, 0, 1 * width + 1, cs);
    for y := 1 to height - 1
      invariant Collected(plane, width, height, y * width + 1, cs)
    {
      cs := CollectRow(plane, width, height, y, cs);
    }
    forall i: nat | (height - 1) * width + 1 <= i < |plane|
      ensures !Interior(width, height, i)
    {
      LastRow(width, height, i);
    }
    PlaneEnd(width, height);
    CollectedSkip(plane, width, height, (height - 1) * width + 1, |plane|, cs);
  }

  lemma PlaneEnd(width: nat, height: nat)
    requires width >= 3 && height >= 3
    ensures (height - 1) * width + 1 <= width * height
  {
    assert width * height == (height - 1) * width + width;
  }

  lemma CollectedNone(plane: seq<U16>, width: nat, height: nat)
    requires width >= 3 && |plane| == width * height
    ensures Collected(plane, width, height, 0, [])
  {
  }

  // ----- worst first -----

  predicate WorseFirst(a: Candidate, b: Candidate) {
    a.excess >= b.excess
  }

  lemma WorseFirstOrder()
    ensures TotalPreorder(WorseFirst)
  {
  }

  lemma RepeatedCount<T>(xs: seq<T>, a: nat, b: nat)
    requires a < b < |xs| && xs[a] == xs[b]
    ensures multiset(xs)[xs[a]] >= 2
  {
    assert xs == xs[..b] + xs[b..];
    assert xs[..b][a] == xs[a] && xs[b..][0] == xs[a];
    assert xs[a] in multiset(xs[..b]) && xs[a] in multiset(xs[b..]);
  }

  lemma {:induction false} ScanCountedOnce(cs: seq<Candidate>, c: Candidate)
    requires forall j, k :: 0 <= j < k < |cs| ==> cs[j].index < cs[k].index
    ensures multiset(cs)[c] <= 1
  {
    if cs != [] {
      var front, last := cs[..|cs| - 1], cs[|cs| - 1];
      ScanCountedOnce(front, c);
      assert cs == front + [last];
      if c == last {
        assert c !in front;
        assert c !in multiset(front);
      }
    }
  }

  /** The chosen candidates, worst first: which ones they may be. */
  ghost predicate Worst(cs: seq<Candidate>, chosen: seq<Candidate>, limit: nat) {
    && |chosen| == Min(limit, |cs|)
    && (forall k :: 0 <= k < |chosen| ==> chosen[k] in cs)
    && (forall j, k :: 0 <= j < k < |chosen| ==> chosen[j] != chosen[k])
    && forall k, c :: 0 <= k < |chosen| && c in cs && c !in chosen ==> c.excess <= chosen[k].excess
  }

  lemma ChosenMembers(cs: seq<Candidate>, sorted: seq<Candidate>)
    requires multiset(sorted) == multiset(cs)
    requires forall j, k :: 0 <= j < k < |cs| ==> cs[j].index < cs[k].index
    ensures forall c :: c in sorted <==> c in cs
    ensures forall j, k :: 0 <= j < k < |sorted| ==> sorted[j] != sorted[k]
  {
    assert forall c :: c in sorted <==> c in multiset(sorted);
    assert forall c :: c in cs <==> c in multiset(cs);
    forall j, k | 0 <= j < k < |sorted|
      ensures sorted[j] != sorted[k]
    {
      ScanCountedOnce(cs, sorted[j]);
      if sorted[j] == sorted[k] {
        RepeatedCount(sorted, j, k);
      }
    }
  }

  lemma TruncatedSortIsWorst(cs: seq<Candidate>, limit: nat)
    requires forall j, k :: 0 <= j < k < |cs| ==> cs[j].index < cs[k].index
    ensures
      var sorted := SortBy(cs, WorseFirst);
      |sorted| == |cs| && Worst(cs, sorted[..Min(limit, |cs|)], limit)
  {
    hide SortBy, TotalPreorder;
    var sorted := SortBy(cs, WorseFirst);
    WorseFirstOrder();
    SortPermutes(cs, WorseFirst);
    SortOrders(cs, WorseFirst);
    ChosenMembers(cs, sorted);
    var n := Min(limit, |cs|);
    var chosen := sorted[..n];
    assert forall k :: 0 <= k < |chosen| ==> chosen[k] in sorted;
    forall k, c | 0 <= k < |chosen| && c in cs && c !in chosen
      ensures c.excess <= chosen[k].excess
    {
      assert sorted == chosen + sorted[n..];
      var q :| 0 <= q < |sorted[n..]| && sorted[n..][q] == c;
      assert WorseFirst(sorted[k], sorted[n + q]);
    }
  }

  // ----- applying them -----

  /** Chosen positions hold their medians, the others their original values. */
  ghost predicate Applied(plane: seq<U16>, chosen: seq<Candidate>, output: seq<U16>) {
    && |output| == |plane|
    && (forall k :: 0 <= k < |chosen| ==> chosen[k].index < |plane| && output[chosen[k].index] == chosen[k].median)
    && forall i :: 0 <= i < |plane| && (forall k :: 0 <= k < |chosen| ==> chosen[k].index != i) ==>
      output[i] == plane[i]
  }

  method Apply(plane: seq<U16>, chosen: seq<Candidate>) returns (output: seq<U16>)
    requires forall k :: 0 <= k < |chosen| ==> chosen[k].index < |plane|
    requires forall j, k :: 0 <= j < k < |chosen| ==> chosen[j].index != chosen[k].index
    ensures Applied(plane, chosen, output)
  {
    output := plane;
    for k := 0 to |chosen|
      invariant |output| == |plane|
      invariant forall j :: 0 <= j < k ==> output[chosen[j].index] == chosen[j].median
      invariant forall i :: 0 <= i < |plane| && (forall j :: 0 <= j < k ==> chosen[j].index != i) ==>
        output[i] == plane[i]
    {
      output := output[chosen[k].index := chosen[k].median];
    }
  }

  /** Positions at which two planes differ. */
  ghost function Changed(plane: seq<U16>, output: seq<U16>): set<nat>
    requires |plane| == |output|
  {
    set i: nat | i < |plane| && output[i] != plane[i]
  }

  ghost function Indices(chosen: seq<Candidate>): set<nat> {
    set k | 0 <= k < |chosen| :: chosen[k].index
  }

  lemma {:induction false} IndicesSize(chosen: seq<Candidate>)
    requires forall j, k :: 0 <= j < k < |chosen| ==> chosen[j].index != chosen[k].index
    ensures |Indices(chosen)| == |chosen|
  {
    if chosen != [] {
      var n := |chosen| - 1;
      IndicesSize(chosen[..n]);
      assert Indices(chosen) == Indices(chosen[..n]) + {chosen[n].index};
      assert chosen[n].index !in Indices(chosen[..n]);
    }
  }

  /** Changed pixels are interior candidates, each set to the median of its original neighbours. */
  ghost predicate SetToMedians(plane: seq<U16>, width: nat, height: nat, output: seq<U16>)
    requires width >= 3 && |output| == |plane| == width * height
  {
    forall i :: i in Changed(plane, output) ==>
      && Interior(width, height, i) && CandidateAt(plane, width, height, i).Some?
      && output[i] == NeighborMedian(plane, width, height, i)
  }

  /** No candidate left alone passes its threshold by more than a corrected one. */
  ghost predicate WorstCorrected(plane: seq<U16>, width: nat, height: nat, output: seq<U16>)
    requires width >= 3 && |output| == |plane| == width * height
  {
    forall c, d ::
      Genuine(plane, width, height, c) && c.index in Changed(plane, output) ==>
      Genuine(plane, width, height, d) && d.index !in Changed(plane, output) ==>
      d.excess <= c.excess
  }

  /** What the corrector promises about one plane. */
  ghost predicate Corrected(plane: seq<U16>, width: nat, height: nat, output: seq<U16>, count: nat)
    requires width >= 3 && |plane| == width * height
  {
    && |output| == |plane|
    && |Changed(plane, output)| == count <= Max(1, width * height / 100)
    && SetToMedians(plane, width, height, output)
    && WorstCorrected(plane, width, height, output)
    && (count < Max(1, width * height / 100) ==>
          forall c :: Genuine(plane, width, height, c) ==> c.index in Changed(plane, output))
  }

  lemma AppliedIsCorrected(plane: seq<U16>, width: nat, height: nat, cs: seq<Candidate>, chosen: seq<Candidate>,
                           output: seq<U16>)
    requires width >= 3 && |output| == |plane| == width * height
    requires Collected(plane, width, height, |plane|, cs)
    requires Worst(cs, chosen, Max(1, width * height / 100)) && Applied(plane, chosen, output)
    ensures Corrected(plane, width, height, output, |chosen|)
  {
    hide CandidateAt, Interior, NeighborMedian, Genuine, Applied, SetToMedians, WorstCorrected;
    var limit := Max(1, width * height / 100);
    ChosenGenuine(plane, width, height, cs, chosen, limit);
    IndicesSize(chosen);
    ChangedAreIndices(plane, width, height, chosen, output);
    MediansSet(plane, width, height, chosen, output);
    WorstChosen(plane, width, height, cs, chosen, output, limit);
    if |chosen| < limit {
      AllChosen(cs, chosen);
      forall c | Genuine(plane, width, height, c)
        ensures c.index in Changed(plane, output)
      {
        GenuineInside(plane, width, height, c);
        assert c in cs && c in chosen;
      }
    }
  }

  lemma MediansSet(plane: seq<U16>, width: nat, height: nat, chosen: seq<Candidate>, output: seq<U16>)
    requires width >= 3 && |output| == |plane| == width * height && Applied(plane, chosen, output)
    requires forall k :: 0 <= k < |chosen| ==> Genuine(plane, width, height, chosen[k])
    requires Changed(plane, output) == Indices(chosen)
    ensures SetToMedians(plane, width, height, output)
  {
    hide CandidateAt, Interior, NeighborMedian, Genuine, Applied;
    forall i | i in Changed(plane, output)
      ensures Interior(width, height, i) && CandidateAt(plane, width, height, i).Some?
      ensures output[i] == NeighborMedian(plane, width, height, i)
    {
      var k :| 0 <= k < |chosen| && chosen[k].index == i;
      AppliedAt(plane, width, height, chosen, output, k);
    }
  }

  lemma WorstChosen(plane: seq<U16>, width: nat, height: nat, cs: seq<Candidate>, chosen: seq<Candidate>,
                    output: seq<U16>, limit: nat)
    requires width >= 3 && |output| == |plane| == width * height
    requires Collected(plane, width, height, |plane|, cs) && Worst(cs, chosen, limit)
    requires Changed(plane, output) == Indices(chosen)
    ensures WorstCorrected(plane, width, height, output)
  {
    hide Genuine;
    forall c, d | Genuine(plane, width, height, c) && Genuine(plane, width, height, d)
      && c.index in Changed(plane, output) && d.index !in Changed(plane, output)
      ensures d.excess <= c.excess
    {
      var k :| 0 <= k < |chosen| && chosen[k].index == c.index;
      GenuineUnique(plane, width, height, c, chosen[k]);
      GenuineInside(plane, width, height, d);
      assert d in cs && d !in chosen;
    }
  }

  lemma GenuineUnique(plane: seq<U16>, width: nat, height: nat, c: Candidate, d: Candidate)
    requires width >= 3 && |plane| == width * height && c.index == d.index
    requires Genuine(plane, width, height, c) && Genuine(plane, width, height, d)
    ensures c == d
  {
    hide CandidateAt, Interior;
  }

  /** What the output holds at a chosen position. */
  lemma AppliedAt(plane: seq<U16>, width: nat, height: nat, chosen: seq<Candidate>, output: seq<U16>, k: nat)
    requires width >= 3 && |plane| == width * height && Applied(plane, chosen, output)
    requires k < |chosen| && Genuine(plane, width, height, chosen[k])
    ensures
      var i := chosen[k].index;
      && i < |output| && Interior(width, height, i) && CandidateAt(plane, width, height, i) == Some(chosen[k])
      && output[i] == NeighborMedian(plane, width, height, i)
  {
    hide CandidateAt, Interior, NeighborMedian;
    CandidateMedian(plane, width, height, chosen[k].index);
  }

  lemma GenuineInside(plane: seq<U16>, width: nat, height: nat, c: Candidate)
    requires width >= 3 && |plane| == width * height && Genuine(plane, width, height, c)
    ensures c.index < |plane| && c.median != plane[c.index]
    ensures c.median == NeighborMedian(plane, width, height, c.index)
  {
    hide CandidateAt, Interior, NeighborMedian;
    CandidateMedian(plane, width, height, c.index);
  }

  /** Equal indices mean equal candidates, so chosen candidates have distinct positions. */
  lemma ChosenGenuine(plane: seq<U16>, width: nat, height: nat, cs: seq<Candidate>, chosen: seq<Candidate>, limit: nat)
    requires width >= 3 && |plane| == width * height
    requires Collected(plane, width, height, |plane|, cs) && Worst(cs, chosen, limit)
    ensures forall k :: 0 <= k < |chosen| ==> Genuine(plane, width, height, chosen[k]) && chosen[k].index < |plane|
    ensures forall j, k :: 0 <= j < k < |chosen| ==> chosen[j].index != chosen[k].index
  {
    hide CandidateAt, Interior;
    forall k | 0 <= k < |chosen|
      ensures Genuine(plane, width, height, chosen[k]) && chosen[k].index < |plane|
    {
      assert chosen[k] in cs;
    }
  }

  lemma ChangedAreIndices(plane: seq<U16>, width: nat, height: nat, chosen: seq<Candidate>, output: seq<U16>)
    requires width >= 3 && |plane| == width * height && Applied(plane, chosen, output)
    requires forall k :: 0 <= k < |chosen| ==> Genuine(plane, width, height, chosen[k])
    ensures Changed(plane, output) == Indices(chosen)
  {
    hide Genuine;
    forall k | 0 <= k < |chosen|
      ensures chosen[k].index in Changed(plane, output)
    {
      GenuineInside(plane, width, height, chosen[k]);
    }
    forall i | i in Changed(plane, output)
      ensures i in Indices(chosen)
    {
      assert exists k :: 0 <= k < |chosen| && chosen[k].index == i;
    }
  }

  lemma AllChosen(cs: seq<Candidate>, chosen: seq<Candidate>)
    requires |chosen| == |cs| && (forall k :: 0 <= k < |chosen| ==> chosen[k] in cs)
    requires forall j, k :: 0 <= j < k < |chosen| ==> chosen[j] != chosen[k]
    requires forall j, k :: 0 <= j < k < |cs| ==> cs[j].index < cs[k].index
    ensures forall c :: c in cs ==> c in chosen
  {
    var a, b := (set c | c in chosen), (set c | c in cs);
    DistinctSize(chosen);
    DistinctSize(cs);
    assert a <= b;
    SameSize(a, b);
    assert forall c :: c in cs ==> c in b;
  }

  lemma {:induction false} DistinctSize(xs: seq<Candidate>)
    requires forall j, k :: 0 <= j < k < |xs| ==> xs[j] != xs[k]
    ensures |(set c | c in xs)| == |xs|
  {
    if xs != [] {
      var front, last := xs[..|xs| - 1], xs[|xs| - 1];
      DistinctSize(front);
      assert (set c | c in xs) == (set c | c in front) + {last};
    }
  }

  lemma SameSize(a: set<Candidate>, b: set<Candidate>)
    requires a <= b && |a| == |b|
    ensures a == b
  {
    assert |b - a| == |b| - |a|;
    assert b - a == {};
  }

  // ----- the corrector -----

  method CorrectPlane(plane: seq<U16>, width: nat, height: nat) returns (output: seq<U16>, count: nat)
    requires |plane| == width * height
    ensures width < 3 || height < 3 ==> output == plane && count == 0
    ensures width >= 3 && height >= 3 ==> Corrected(plane, width, height, output, count)
  {
    hide Corrected, CandidateAt, Interior, SortBy;
    output, count := plane, 0;
    var maximum := Max(1, width * height / 100);
    if width < 3 || height < 3 {
      return;
    }
    var candidates := Collect(plane, width, height);
    TruncatedSortIsWorst(candidates, maximum);
    var sorted := SortBy(candidates, WorseFirst);
    var chosen := sorted[..Min(maximum, |sorted|)];
    ChosenGenuine(plane, width, height, candidates, chosen, maximum);
    output := Apply(plane, chosen);
    count := |chosen|;
    AppliedIsCorrected(plane, width, height, candidates, chosen, output);
  }

  method CorrectIsolatedImpulses(planes: seq<seq<U16>>, width: nat, height: nat)
    returns (corrected: seq<seq<U16>>, counts: seq<nat>)
    requires forall p :: 0 <= p < |planes| ==> |planes[p]| == width * height
    ensures |corrected| == |counts| == |planes|
    ensures width < 3 || height < 3 ==> corrected == planes && forall p :: 0 <= p < |planes| ==> counts[p] == 0
    ensures width >= 3 && height >= 3 ==>
      forall p :: 0 <= p < |planes| ==> Corrected(planes[p], width, height, corrected[p], counts[p])
  {
    hide Corrected;
    corrected, counts := [], [];
    for p := 0 to |planes|
      invariant |corrected| == |counts| == p
      invariant width < 3 || height < 3 ==> corrected == planes[..p] && forall q :: 0 <= q < p ==> counts[q] == 0
      invariant width >= 3 && height >= 3 ==>
        forall q :: 0 <= q < p ==> Corrected(planes[q], width, height, corrected[q], counts[q])
    {
      var output, count := CorrectPlane(planes[p], width, height);
      corrected, counts := corrected + [output], counts + [count];
    }
  }
}
