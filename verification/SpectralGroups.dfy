/**
 The candidates of the search for three spectral groups of equal size: every
 unordered partition of the lanes is examined exactly once.
 */
module SpectralGroups {
  import opened Combinations

  // ----- increasing lists and the sets they list -----

  ghost function SetOf(xs: seq<nat>): set<nat> {
    set x | x in xs
  }

  /** The members of `xs` that satisfy the set, in order. */
  function Keep(xs: seq<nat>, kept: set<nat>): (r: seq<nat>)
    ensures forall x :: x in r <==> x in xs && x in kept
  {
    if xs == [] then []
    else if xs[0] in kept then [xs[0]] + Keep(xs[1..], kept)
    else Keep(xs[1..], kept)
  }

  lemma {:induction false} KeepIncreasing(xs: seq<nat>, kept: set<nat>)
    requires Increasing(xs)
    ensures Increasing(Keep(xs, kept))
  {
    if xs != [] {
      KeepIncreasing(xs[1..], kept);
      var rest := Keep(xs[1..], kept);
      forall i | 0 <= i < |rest|
        ensures xs[0] < rest[i]
      {
        assert rest[i] in rest;
        var j :| 0 <= j < |xs[1..]| && xs[1..][j] == rest[i];
        assert xs[j + 1] == rest[i];
      }
    }
  }

  lemma {:induction false} IncreasingSize(xs: seq<nat>)
    requires Increasing(xs)
    ensures |SetOf(xs)| == |xs|
  {
    if xs != [] {
      var front, last := xs[..|xs| - 1], xs[|xs| - 1];
      IncreasingSize(front);
      assert SetOf(xs) == SetOf(front) + {last};
      assert last !in front;
    }
  }

  /** An increasing list is determined by its members. */
  lemma {:induction false} IncreasingUnique(xs: seq<nat>, ys: seq<nat>)
    requires Increasing(xs) && Increasing(ys) && SetOf(xs) == SetOf(ys)
    ensures xs == ys
  {
    IncreasingSize(xs);
    IncreasingSize(ys);
    if xs != [] {
      var n := |xs| - 1;
      var x, y := xs[n], ys[n];
      assert x in SetOf(ys) && y in SetOf(xs);
      assert x == y;
      assert SetOf(xs[..n]) == SetOf(xs) - {x} by {
        assert forall v :: v in xs <==> v in xs[..n] || v == x;
        assert x !in xs[..n];
      }
      assert SetOf(ys[..n]) == SetOf(ys) - {y} by {
        assert forall v :: v in ys <==> v in ys[..n] || v == y;
        assert y !in ys[..n];
      }
      IncreasingUnique(xs[..n], ys[..n]);
    }
  }

  /** An increasing list drawn from an increasing pool is one of the pool's selections. */
  lemma DrawnIsPicked(pool: seq<nat>, t: seq<nat>) returns (c: seq<nat>)
    requires Increasing(pool) && Increasing(t) && forall x :: x in t ==> x in pool
    ensures Selection(c, |pool|, |t|, 0) && Pick(pool, c) == t
  {
    c := [];
    for i := 0 to |t|
      invariant |c| == i && forall j :: 0 <= j < i ==> c[j] < |pool| && pool[c[j]] == t[j]
    {
      assert t[i] in t;
      var p :| 0 <= p < |pool| && pool[p] == t[i];
      c := c + [p];
    }
    forall i, j | 0 <= i < j < |c|
      ensures c[i] < c[j]
    {
      assert pool[c[i]] < pool[c[j]];
    }
  }

  lemma PickedIncreasing(pool: seq<nat>, c: seq<nat>, k: nat)
    requires Increasing(pool) && Selection(c, |pool|, k, 0)
    ensures Increasing(Pick(pool, c)) && forall x :: x in Pick(pool, c) ==> x in pool
  {
  }

  function Upto(low: nat, high: nat): (r: seq<nat>)
    requires low <= high
    ensures |r| == high - low && forall i :: 0 <= i < |r| ==> r[i] == low + i
  {
    seq(high - low, i => low + i)
  }

  ghost function Lanes(n: nat): set<nat> {
    SetOf(Upto(0, n))
  }

  // ----- partitions -----

  type Triple = seq<seq<nat>>

  /** The unordered partition a triple stands for. */
  ghost function Blocks(t: Triple): set<set<nat>>
    requires |t| == 3
  {
    {SetOf(t[0]), SetOf(t[1]), SetOf(t[2])}
  }

  /** Three disjoint groups of `m + 1` lanes that together are all lanes. */
  ghost predicate Partition(n: nat, m: nat, a: set<nat>, b: set<nat>, c: set<nat>) {
    n == 3 * (m + 1) && |a| == |b| == |c| == m + 1 && a !! b && a !! c && b !! c && a + b + c == Lanes(n)
  }

  /** Sorted groups, the first holding lane 0 and the second the least lane left. */
  ghost predicate Canonical(n: nat, m: nat, t: Triple) {
    && |t| == 3 && (forall g :: 0 <= g < 3 ==> |t[g]| == m + 1 && Increasing(t[g]))
    && Partition(n, m, SetOf(t[0]), SetOf(t[1]), SetOf(t[2]))
    && t[0][0] == 0 && t[1][0] < t[2][0]
  }

  function Remaining(n: nat, first: seq<nat>): seq<nat> {
    Keep(Upto(0, n), (set x: nat | x < n && x !in first))
  }

  function TripleOf(n: nat, first: seq<nat>, tail: seq<nat>): Triple
    requires Remaining(n, first) != []
  {
    var remaining := Remaining(n, first);
    var second := [remaining[0]] + tail;
    [first, second, Keep(remaining, (set x | x in remaining && x !in second))]
  }

  ghost function TriplesOn(n: nat, m: nat, first: seq<nat>): (r: seq<Triple>)
  {
    var remaining := Remaining(n, first);
    if remaining == [] then []
    else
      var tails := Visits(remaining[1..], [], |remaining| - 1, m, 0);
      seq(|tails|, i requires 0 <= i < |tails| => TripleOf(n, first, tails[i]))
  }

  ghost function Examined(n: nat, m: nat, tails: seq<seq<nat>>): seq<Triple> {
    if tails == [] then []
    else Examined(n, m, tails[..|tails| - 1]) + TriplesOn(n, m, [0] + tails[|tails| - 1])
  }

  ghost function FirstTails(n: nat, m: nat): seq<seq<nat>>
    requires n > 0
  {
    Visits(Upto(1, n), [], n - 1, m, 0)
  }

  /** Every triple the search looks at, in order. */
  ghost function AllExamined(n: nat, m: nat): seq<Triple>
    requires n > 0
  {
    Examined(n, m, FirstTails(n, m))
  }

  // ----- the examined triples are exactly the canonical ones -----

  lemma {:induction false} InExamined(n: nat, m: nat, tails: seq<seq<nat>>, i: nat, t: Triple)
    requires i < |tails| && t in TriplesOn(n, m, [0] + tails[i])
    ensures t in Examined(n, m, tails)
  {
    hide TriplesOn;
    if i < |tails| - 1 {
      InExamined(n, m, tails[..|tails| - 1], i, t);
    }
  }

  /** Which first group and which choice on top of it an examined triple comes from. */
  lemma {:induction false} ExaminedFrom(n: nat, m: nat, tails: seq<seq<nat>>, k: nat) returns (i: nat, j: nat)
    requires k < |Examined(n, m, tails)|
    ensures i < |tails| && j < |TriplesOn(n, m, [0] + tails[i])|
    ensures Examined(n, m, tails)[k] == TriplesOn(n, m, [0] + tails[i])[j]
  {
    hide TriplesOn;
    var front := tails[..|tails| - 1];
    if k < |Examined(n, m, front)| {
      i, j := ExaminedFrom(n, m, front, k);
    } else {
      i, j := |tails| - 1, k - |Examined(n, m, front)|;
    }
  }

  lemma TriplesOnAt(n: nat, m: nat, first: seq<nat>, j: nat)
    requires j < |TriplesOn(n, m, first)|
    ensures Remaining(n, first) != []
    ensures
      var pool := Remaining(n, first)[1..];
      j < |Visits(pool, [], |pool|, m, 0)|
      && TriplesOn(n, m, first)[j] == TripleOf(n, first, Visits(pool, [], |pool|, m, 0)[j])
  {
    hide Visits, Remaining, TripleOf;
  }

  lemma TripleIsOn(n: nat, m: nat, first: seq<nat>, tail: seq<nat>)
    requires Remaining(n, first) != []
    requires var pool := Remaining(n, first)[1..]; tail in Visits(pool, [], |pool|, m, 0)
    ensures TripleOf(n, first, tail) in TriplesOn(n, m, first)
  {
    hide Visits, Remaining, TripleOf;
    var pool := Remaining(n, first)[1..];
    var tails := Visits(pool, [], |pool|, m, 0);
    var j :| 0 <= j < |tails| && tails[j] == tail;
    assert TriplesOn(n, m, first)[j] == TripleOf(n, first, tail);
  }

  /** What a visited choice from an increasing pool looks like. */
  lemma VisitedChoice(m: nat, pool: seq<nat>, j: nat)
    requires Increasing(pool) && j < |Visits(pool, [], |pool|, m, 0)|
    ensures
      var tail := Visits(pool, [], |pool|, m, 0)[j];
      |tail| == m && Increasing(tail) && forall x :: x in tail ==> x in pool
  {
    hide Combos, Increasing;
    CombosSound(|pool|, m, 0, j);
    var c := Combos(|pool|, m, 0)[j];
    PickedIncreasing(pool, c, m);
    assert [] + Pick(pool, c) == Pick(pool, c);
  }

  lemma ChoiceVisited(m: nat, pool: seq<nat>, tail: seq<nat>)
    requires Increasing(pool) && |tail| == m && Increasing(tail) && forall x :: x in tail ==> x in pool
    ensures tail in Visits(pool, [], |pool|, m, 0)
  {
    hide Combos, Increasing;
    var c := DrawnIsPicked(pool, tail);
    CombosComplete(|pool|, m, 0, c);
    var j :| 0 <= j < |Combos(|pool|, m, 0)| && Combos(|pool|, m, 0)[j] == c;
    assert [] + Pick(pool, c) == tail;
    assert Visits(pool, [], |pool|, m, 0)[j] == tail;
  }

  lemma RemainingMembers(n: nat, first: seq<nat>)
    ensures Increasing(Remaining(n, first)) && SetOf(Remaining(n, first)) == Lanes(n) - SetOf(first)
  {
    KeepIncreasing(Upto(0, n), (set x: nat | x < n && x !in first));
  }

  lemma LanesSize(n: nat)
    ensures |Lanes(n)| == n
  {
    IncreasingSize(Upto(0, n));
  }

  lemma ConsIncreasing(head: nat, tail: seq<nat>)
    requires Increasing(tail) && forall x :: x in tail ==> head < x
    ensures Increasing([head] + tail) && SetOf([head] + tail) == {head} + SetOf(tail)
  {
    forall i, j | 0 <= i < j < |tail| + 1
      ensures ([head] + tail)[i] < ([head] + tail)[j]
    {
      assert ([head] + tail)[j] in tail;
    }
  }

  lemma TailMembers(xs: seq<nat>)
    requires Increasing(xs) && xs != []
    ensures Increasing(xs[1..]) && forall x :: x in xs[1..] <==> x in xs && xs[0] < x
  {
    forall x | x in xs && xs[0] < x
      ensures x in xs[1..]
    {
      var i :| 0 <= i < |xs| && xs[i] == x;
      assert xs[1..][i - 1] == x;
    }
    forall x | x in xs[1..]
      ensures x in xs && xs[0] < x
    {
      var i :| 0 <= i < |xs[1..]| && xs[1..][i] == x;
      assert xs[i + 1] == x;
    }
  }

  lemma SecondGroup(remaining: seq<nat>, tail: seq<nat>)
    requires Increasing(remaining) && remaining != []
    requires Increasing(tail) && forall x :: x in tail ==> x in remaining[1..]
    ensures Increasing([remaining[0]] + tail) && SetOf([remaining[0]] + tail) <= SetOf(remaining)
  {
    TailMembers(remaining);
    ConsIncreasing(remaining[0], tail);
  }

  lemma ThirdGroup(remaining: seq<nat>, second: seq<nat>)
    requires Increasing(remaining) && remaining != [] && second != [] && second[0] == remaining[0]
    ensures
      var third := Keep(remaining, (set x | x in remaining && x !in second));
      && Increasing(third) && SetOf(third) == SetOf(remaining) - SetOf(second)
      && (third != [] ==> second[0] < third[0])
  {
    var kept := set x | x in remaining && x !in second;
    KeepIncreasing(remaining, kept);
    TailMembers(remaining);
    var third := Keep(remaining, kept);
    if third != [] {
      assert third[0] in third;
    }
  }

  lemma ThirdSize(n: nat, m: nat, lanes: set<nat>, a: set<nat>, b: set<nat>, c: set<nat>)
    requires n == 3 * (m + 1) && |lanes| == n && |a| == |b| == m + 1
    requires a <= lanes && b <= lanes - a && c == (lanes - a) - b
    ensures |c| == m + 1 && a !! b && a !! c && b !! c && a + b + c == lanes
  {
    assert |lanes - a| == n - |a|;
    assert |(lanes - a) - b| == |lanes - a| - |b|;
  }

  /** A triple built on a sorted first group that starts at lane 0 is canonical. */
  lemma TripleCanonical(n: nat, m: nat, first: seq<nat>, tail: seq<nat>)
    requires n == 3 * (m + 1) && |first| == m + 1 && Increasing(first) && first[0] == 0 && SetOf(first) <= Lanes(n)
    requires Remaining(n, first) != []
    requires |tail| == m && Increasing(tail) && forall x :: x in tail ==> x in Remaining(n, first)[1..]
    ensures Canonical(n, m, TripleOf(n, first, tail))
  {
    hide Increasing, SetOf, Lanes, Keep, Remaining;
    var remaining := Remaining(n, first);
    var second, third := TripleOf(n, first, tail)[1], TripleOf(n, first, tail)[2];
    RemainingMembers(n, first);
    SecondGroup(remaining, tail);
    ThirdGroup(remaining, second);
    IncreasingSize(first);
    IncreasingSize(second);
    IncreasingSize(third);
    LanesSize(n);
    ThirdSize(n, m, Lanes(n), SetOf(first), SetOf(second), SetOf(third));
  }

  /** The first group of an examined triple. */
  lemma FirstGroup(n: nat, m: nat, i: nat)
    requires n == 3 * (m + 1) && i < |FirstTails(n, m)|
    ensures
      var first := [0] + FirstTails(n, m)[i];
      |first| == m + 1 && Increasing(first) && first[0] == 0 && SetOf(first) <= Lanes(n)
  {
    var pool, tail := Upto(1, n), FirstTails(n, m)[i];
    VisitedChoice(m, pool, i);
    ConsIncreasing(0, tail);
    forall x | x in [0] + tail
      ensures x in Upto(0, n)
    {
      assert x < n;
      assert Upto(0, n)[x] == x;
    }
  }

  lemma ExaminedSound(n: nat, m: nat, k: nat)
    requires n == 3 * (m + 1) && k < |AllExamined(n, m)|
    ensures Canonical(n, m, AllExamined(n, m)[k])
  {
    hide Increasing, SetOf, Lanes, FirstTails, Visits, TriplesOn, Remaining, TripleOf, Examined, Canonical;
    var i, j := ExaminedFrom(n, m, FirstTails(n, m), k);
    var first := [0] + FirstTails(n, m)[i];
    FirstGroup(n, m, i);
    TriplesOnAt(n, m, first, j);
    var remaining := Remaining(n, first);
    RemainingMembers(n, first);
    TailMembers(remaining);
    var pool := remaining[1..];
    VisitedChoice(m, pool, j);
    TripleCanonical(n, m, first, Visits(pool, [], |pool|, m, 0)[j]);
  }

  lemma FirstVisited(n: nat, m: nat, first: seq<nat>)
    requires n == 3 * (m + 1) && |first| == m + 1 && Increasing(first) && first[0] == 0 && SetOf(first) <= Lanes(n)
    ensures first == [0] + first[1..] && first[1..] in FirstTails(n, m)
  {
    hide Visits;
    var pool := Upto(1, n);
    TailMembers(first);
    forall x | x in first[1..]
      ensures x in pool
    {
      assert x in SetOf(first) && x in Lanes(n);
      assert pool[x - 1] == x;
    }
    ChoiceVisited(m, pool, first[1..]);
  }

  lemma ExaminedComplete(n: nat, m: nat, t: Triple)
    requires n > 0 && Canonical(n, m, t)
    ensures t in AllExamined(n, m)
  {
    hide Increasing, Lanes, FirstTails, Visits, TriplesOn, Examined, SetOf;
    FirstVisited(n, m, t[0]);
    var i :| 0 <= i < |FirstTails(n, m)| && FirstTails(n, m)[i] == t[0][1..];
    SecondVisited(n, m, t);
    InExamined(n, m, FirstTails(n, m), i, t);
  }

  lemma LeastOfUnion(xs: seq<nat>, ys: seq<nat>, zs: seq<nat>)
    requires Increasing(xs) && Increasing(ys) && Increasing(zs) && ys != [] && zs != []
    requires SetOf(xs) == SetOf(ys) + SetOf(zs) && ys[0] < zs[0]
    ensures xs != [] && xs[0] == ys[0]
  {
    assert ys[0] in SetOf(xs);
    assert xs[0] in SetOf(ys) + SetOf(zs);
  }

  lemma TailsWithin(xs: seq<nat>, ys: seq<nat>)
    requires Increasing(xs) && Increasing(ys) && xs != [] && ys != [] && xs[0] == ys[0] && SetOf(ys) <= SetOf(xs)
    ensures Increasing(ys[1..]) && ys == [xs[0]] + ys[1..]
    ensures Increasing(xs[1..]) && forall x :: x in ys[1..] ==> x in xs[1..]
  {
    TailMembers(xs);
    TailMembers(ys);
    forall x | x in ys[1..]
      ensures x in xs[1..]
    {
      assert x in SetOf(ys) && x in SetOf(xs);
    }
  }

  lemma SecondVisited(n: nat, m: nat, t: Triple)
    requires Canonical(n, m, t)
    ensures t in TriplesOn(n, m, t[0])
  {
    hide Increasing, Lanes, Visits, TriplesOn, SetOf, Keep, Remaining;
    var remaining, second := Remaining(n, t[0]), t[1];
    RemainingMembers(n, t[0]);
    assert SetOf(remaining) == SetOf(second) + SetOf(t[2]);
    LeastOfUnion(remaining, second, t[2]);
    TailsWithin(remaining, second);
    ChoiceVisited(m, remaining[1..], second[1..]);
    TripleIsOn(n, m, t[0], second[1..]);
    var built := TripleOf(n, t[0], second[1..]);
    ThirdGroup(remaining, second);
    assert SetOf(built[2]) == SetOf(t[2]);
    IncreasingUnique(built[2], t[2]);
    assert built == t;
  }

  // ----- every unordered partition is examined exactly once -----

  lemma SortedGroup(n: nat, a: set<nat>) returns (xs: seq<nat>)
    requires a <= Lanes(n)
    ensures Increasing(xs) && SetOf(xs) == a && |xs| == |a|
  {
    xs := Keep(Upto(0, n), a);
    KeepIncreasing(Upto(0, n), a);
    assert SetOf(xs) == a;
    IncreasingSize(xs);
  }

  lemma HeadIs(xs: seq<nat>, ys: seq<nat>)
    requires xs != [] && ys != [] && Increasing(xs) && SetOf(xs) !! SetOf(ys)
    ensures xs[0] != ys[0] && (0 in SetOf(xs) ==> xs[0] == 0)
  {
    assert xs[0] in SetOf(xs) && ys[0] in SetOf(ys);
  }

  lemma CanonicalForm(n: nat, m: nat, a: set<nat>, b: set<nat>, c: set<nat>) returns (t: Triple)
    requires Partition(n, m, a, b, c) && 0 in a
    ensures Canonical(n, m, t) && Blocks(t) == {a, b, c}
  {
    hide Increasing, Lanes, SetOf;
    var x := SortedGroup(n, a);
    var y := SortedGroup(n, b);
    var z := SortedGroup(n, c);
    HeadIs(x, y);
    HeadIs(y, z);
    if y[0] < z[0] {
      t := [x, y, z];
    } else {
      assert a + c + b == a + b + c;
      t := [x, z, y];
    }
  }

  /** Every unordered partition of the lanes into three equal groups is examined. */
  lemma EveryPartitionExamined(n: nat, m: nat, a: set<nat>, b: set<nat>, c: set<nat>)
    requires n > 0 && Partition(n, m, a, b, c)
    ensures exists t :: t in AllExamined(n, m) && |t| == 3 && Blocks(t) == {a, b, c}
  {
    hide Increasing, SetOf, Examined, FirstTails, AllExamined;
    LanesHaveZero(n);
    var t: Triple;
    if 0 in a {
      t := CanonicalForm(n, m, a, b, c);
    } else if 0 in b {
      assert b + a + c == a + b + c;
      t := CanonicalForm(n, m, b, a, c);
      assert {b, a, c} == {a, b, c};
    } else {
      assert c + a + b == a + b + c;
      t := CanonicalForm(n, m, c, a, b);
      assert {c, a, b} == {a, b, c};
    }
    ExaminedComplete(n, m, t);
  }

  lemma LanesHaveZero(n: nat)
    requires n > 0
    ensures 0 in Lanes(n)
  {
    assert Upto(0, n)[0] == 0;
  }

  /** The unordered partition determines the canonical triple. */
  lemma BlocksDetermine(n: nat, m: nat, t: Triple, u: Triple)
    requires Canonical(n, m, t) && Canonical(n, m, u) && Blocks(t) == Blocks(u)
    ensures t == u
  {
    hide Increasing, Lanes, SetOf;
    var a, b, c := SetOf(t[0]), SetOf(t[1]), SetOf(t[2]);
    var x, y, z := SetOf(u[0]), SetOf(u[1]), SetOf(u[2]);
    HeadMember(t[0]);
    HeadMember(u[0]);
    assert x in {a, b, c} && y in {a, b, c} && z in {a, b, c};
    assert x == a;
    IncreasingUnique(t[0], u[0]);
    if y == b {
      assert z == c;
    } else {
      assert y == c && z == b;
      IncreasingUnique(u[1], t[2]);
      IncreasingUnique(u[2], t[1]);
    }
    IncreasingUnique(t[1], u[1]);
    IncreasingUnique(t[2], u[2]);
  }

  lemma HeadMember(xs: seq<nat>)
    requires xs != []
    ensures xs[0] in SetOf(xs)
  {
  }

  lemma PickInjective(pool: seq<nat>, c: seq<nat>, d: seq<nat>, k: nat)
    requires Increasing(pool) && Selection(c, |pool|, k, 0) && Selection(d, |pool|, k, 0)
    requires Pick(pool, c) == Pick(pool, d)
    ensures c == d
  {
    forall i | 0 <= i < k
      ensures c[i] == d[i]
    {
      assert pool[c[i]] == Pick(pool, c)[i] == pool[d[i]];
    }
  }

  lemma VisitsDistinct(m: nat, pool: seq<nat>, i: nat, j: nat)
    requires Increasing(pool) && i < j < |Visits(pool, [], |pool|, m, 0)|
    ensures Visits(pool, [], |pool|, m, 0)[i] != Visits(pool, [], |pool|, m, 0)[j]
  {
    var n := |pool|;
    CombosSorted(n, m, 0);
    SortedHasNoDuplicates(Combos(n, m, 0), i, j);
    CombosSound(n, m, 0, i);
    CombosSound(n, m, 0, j);
    var c, d := Combos(n, m, 0)[i], Combos(n, m, 0)[j];
    assert [] + Pick(pool, c) == Pick(pool, c) && [] + Pick(pool, d) == Pick(pool, d);
    if Pick(pool, c) == Pick(pool, d) {
      PickInjective(pool, c, d, m);
    }
  }

  lemma TriplesOnDistinct(n: nat, m: nat, first: seq<nat>, i: nat, j: nat)
    requires i < j < |TriplesOn(n, m, first)|
    ensures TriplesOn(n, m, first)[i] != TriplesOn(n, m, first)[j]
  {
    hide TriplesOn, Visits, Remaining, Keep, Increasing;
    TriplesOnAt(n, m, first, i);
    TriplesOnAt(n, m, first, j);
    RemainingMembers(n, first);
    var pool := Remaining(n, first)[1..];
    TailMembers(Remaining(n, first));
    VisitsDistinct(m, pool, i, j);
    assert TriplesOn(n, m, first)[i][1][1..] == Visits(pool, [], |pool|, m, 0)[i];
    assert TriplesOn(n, m, first)[j][1][1..] == Visits(pool, [], |pool|, m, 0)[j];
  }

  lemma TriplesOnFirst(n: nat, m: nat, first: seq<nat>, j: nat)
    requires j < |TriplesOn(n, m, first)|
    ensures |TriplesOn(n, m, first)[j]| == 3 && TriplesOn(n, m, first)[j][0] == first
  {
    hide Visits, Remaining, Keep;
  }

  lemma {:induction false} ExaminedDistinct(n: nat, m: nat, tails: seq<seq<nat>>, i: nat, j: nat)
    requires forall p, q :: 0 <= p < q < |tails| ==> tails[p] != tails[q]
    requires i < j < |Examined(n, m, tails)|
    ensures Examined(n, m, tails)[i] != Examined(n, m, tails)[j]
  {
    hide TriplesOn;
    var e := |tails| - 1;
    var front, last := Examined(n, m, tails[..e]), TriplesOn(n, m, [0] + tails[e]);
    if j < |front| {
      ExaminedDistinct(n, m, tails[..e], i, j);
    } else if i < |front| {
      var p, k := ExaminedFrom(n, m, tails[..e], i);
      TriplesOnFirst(n, m, [0] + tails[e], j - |front|);
      TriplesOnFirst(n, m, [0] + tails[p], k);
      assert ([0] + tails[e])[1..] == tails[e] && ([0] + tails[p])[1..] == tails[p];
    } else {
      TriplesOnDistinct(n, m, [0] + tails[e], i - |front|, j - |front|);
    }
  }

  /** No unordered partition is examined twice. */
  lemma NoPartitionTwice(n: nat, m: nat, i: nat, j: nat)
    requires n == 3 * (m + 1) && i < j < |AllExamined(n, m)|
    ensures |AllExamined(n, m)[i]| == |AllExamined(n, m)[j]| == 3
    ensures Blocks(AllExamined(n, m)[i]) != Blocks(AllExamined(n, m)[j])
  {
    hide Examined, Visits, Increasing, SetOf, Lanes, Blocks;
    ExaminedSound(n, m, i);
    ExaminedSound(n, m, j);
    forall p, q | 0 <= p < q < |FirstTails(n, m)|
      ensures FirstTails(n, m)[p] != FirstTails(n, m)[q]
    {
      UptoIncreasing(1, n);
      VisitsDistinct(m, Upto(1, n), p, q);
    }
    ExaminedDistinct(n, m, FirstTails(n, m), i, j);
    if Blocks(AllExamined(n, m)[i]) == Blocks(AllExamined(n, m)[j]) {
      BlocksDetermine(n, m, AllExamined(n, m)[i], AllExamined(n, m)[j]);
    }
  }

  lemma UptoIncreasing(low: nat, high: nat)
    requires low <= high
    ensures Increasing(Upto(low, high))
  {
  }
}
