/** The argmax over all examined partitions, with its runner-up. */
module GroupSearch {
  import opened Common
  import opened Combinations
  import opened SpectralGroups

  // ----- scores -----

  ghost predicate Scored(scores: seq<seq<real>>, n: nat) {
    |scores| == n && forall i :: 0 <= i < n ==> |scores[i]| == n
  }

  ghost predicate InRange(g: seq<nat>, n: nat) {
    forall x :: x in g ==> x < n
  }

  ghost predicate TripleInRange(t: Triple, n: nat) {
    |t| == 3 && InRange(t[0], n) && InRange(t[1], n) && InRange(t[2], n)
  }

  ghost predicate AllInRange(ts: seq<Triple>, n: nat) {
    forall i :: 0 <= i < |ts| ==> TripleInRange(ts[i], n)
  }

  /** Scores of `left` against each later lane of its group. */
  function Against(scores: seq<seq<real>>, n: nat, left: nat, rights: seq<nat>): seq<real>
    requires Scored(scores, n) && left < n && InRange(rights, n)
  {
    seq(|rights|, i requires 0 <= i < |rights| => assert rights[i] in rights; scores[left][rights[i]])
  }

  /** Scores of all pairs of a group, earlier lane first. */
  function PairScores(scores: seq<seq<real>>, n: nat, g: seq<nat>): seq<real>
    requires Scored(scores, n) && InRange(g, n)
  {
    if g == [] then []
    else
      assert g[0] in g && forall x :: x in g[1..] ==> x in g;
      Against(scores, n, g[0], g[1..]) + PairScores(scores, n, g[1..])
  }

  function Sum(values: seq<real>): real {
    if values == [] then 0.0 else Sum(values[..|values| - 1]) + values[|values| - 1]
  }

  function Mean(values: seq<real>): real {
    if |values| == 0 then 0.0 else Sum(values) / |values| as real
  }

  function Score(scores: seq<seq<real>>, n: nat, t: Triple): real
    requires Scored(scores, n) && TripleInRange(t, n)
  {
    Mean(PairScores(scores, n, t[0]) + PairScores(scores, n, t[1]) + PairScores(scores, n, t[2]))
  }

  /** For groups of four the score is the plain mean over the eighteen in-group pairs. */
  lemma FourLaneScore(scores: seq<seq<real>>, n: nat, t: Triple)
    requires Scored(scores, n) && TripleInRange(t, n)
    requires |t[0]| == |t[1]| == |t[2]| == 4
    ensures 18.0 * Score(scores, n, t)
      == PairTotal(scores, n, t[0]) + PairTotal(scores, n, t[1]) + PairTotal(scores, n, t[2])
  {
    var a, b, c := PairScores(scores, n, t[0]), PairScores(scores, n, t[1]), PairScores(scores, n, t[2]);
    FourLanePairs(scores, n, t[0]);
    FourLanePairs(scores, n, t[1]);
    FourLanePairs(scores, n, t[2]);
    SumAppend(a + b, c);
    SumAppend(a, b);
  }

  /** The six pairs of a group of four, written out. */
  function PairTotal(scores: seq<seq<real>>, n: nat, g: seq<nat>): real
    requires Scored(scores, n) && InRange(g, n) && |g| == 4
  {
    assert g[0] in g && g[1] in g && g[2] in g && g[3] in g;
    scores[g[0]][g[1]] + scores[g[0]][g[2]] + scores[g[0]][g[3]]
    + scores[g[1]][g[2]] + scores[g[1]][g[3]] + scores[g[2]][g[3]]
  }

  lemma FourLanePairs(scores: seq<seq<real>>, n: nat, g: seq<nat>)
    requires Scored(scores, n) && InRange(g, n) && |g| == 4
    ensures |PairScores(scores, n, g)| == 6 && Sum(PairScores(scores, n, g)) == PairTotal(scores, n, g)
  {
    hide PairScores, Sum, Against;
    assert g[1..][1..] == g[2..] && g[2..][1..] == g[3..] && g[3..][1..] == [];
    PairsSplit(scores, n, g);
    PairsSplit(scores, n, g[1..]);
    PairsSplit(scores, n, g[2..]);
    PairsSplit(scores, n, g[3..]);
    NoPairs(scores, n);
    AgainstTotal(scores, n, g[0], g[1..]);
    AgainstTotal(scores, n, g[1], g[2..]);
    AgainstTotal(scores, n, g[2], g[3..]);
    AgainstTotal(scores, n, g[3], []);
  }

  lemma NoPairs(scores: seq<seq<real>>, n: nat)
    requires Scored(scores, n)
    ensures PairScores(scores, n, []) == [] && Sum([]) == 0.0
  {
  }

  /** The first lane pairs with all later ones, which pair among themselves. */
  lemma PairsSplit(scores: seq<seq<real>>, n: nat, g: seq<nat>)
    requires Scored(scores, n) && InRange(g, n) && g != []
    ensures InRange(g[1..], n) && g[0] < n
    ensures |PairScores(scores, n, g)| == |g| - 1 + |PairScores(scores, n, g[1..])|
    ensures Sum(PairScores(scores, n, g)) == Sum(Against(scores, n, g[0], g[1..])) + Sum(PairScores(scores, n, g[1..]))
  {
    assert g[0] in g && forall x :: x in g[1..] ==> x in g;
    SumAppend(Against(scores, n, g[0], g[1..]), PairScores(scores, n, g[1..]));
  }

  lemma AgainstTotal(scores: seq<seq<real>>, n: nat, left: nat, rest: seq<nat>)
    requires Scored(scores, n) && left < n && InRange(rest, n) && |rest| <= 3
    ensures forall k :: 0 <= k < |rest| ==> rest[k] < n
    ensures Sum(Against(scores, n, left, rest))
      == (if |rest| > 0 then scores[left][rest[0]] else 0.0) + (if |rest| > 1 then scores[left][rest[1]] else 0.0)
         + (if |rest| > 2 then scores[left][rest[2]] else 0.0)
  {
    assert forall k :: 0 <= k < |rest| ==> rest[k] in rest;
    SumSmall(Against(scores, n, left, rest));
  }

  lemma SumSmall(v: seq<real>)
    requires |v| <= 3
    ensures Sum(v) ==
      (if |v| > 0 then v[0] else 0.0) + (if |v| > 1 then v[1] else 0.0) + (if |v| > 2 then v[2] else 0.0)
  {
    if |v| > 1 {
      assert v[..|v| - 1][..|v| - 2] == v[..|v| - 2];
      SumSmall(v[..|v| - 1]);
    }
  }

  lemma {:induction false} SumAppend(a: seq<real>, b: seq<real>)
    ensures Sum(a + b) == Sum(a) + Sum(b)
  {
    if b == [] {
      assert a + b == a;
    } else {
      var front := b[..|b| - 1];
      SumAppend(a, front);
      assert (a + b)[..|a + b| - 1] == a + front;
    }
  }

  ghost function ScoresOf(scores: seq<seq<real>>, n: nat, ts: seq<Triple>): (r: seq<real>)
    requires Scored(scores, n) && AllInRange(ts, n)
    ensures |r| == |ts| && forall i :: 0 <= i < |ts| ==> r[i] == Score(scores, n, ts[i])
  {
    seq(|ts|, i requires 0 <= i < |ts| => Score(scores, n, ts[i]))
  }

  // ----- the two largest scores of a list -----

  /** `b` is the first best position and `r` a best among the others; `None` stands for minus infinity. */
  ghost predicate Ranked(ss: seq<real>, b: nat, r: nat, best: Option<real>, runnerUp: Option<real>) {
    && (ss == [] ==> best == None && runnerUp == None)
    && (ss != [] ==> b < |ss| && best == Some(ss[b]) && forall j :: 0 <= j < |ss| ==> ss[j] <= ss[b])
    && (forall j :: 0 <= j < b < |ss| ==> ss[j] < ss[b])
    && (|ss| == 1 ==> runnerUp == None)
    && (|ss| > 1 ==>
          r < |ss| && r != b && runnerUp == Some(ss[r]) && forall j :: 0 <= j < |ss| && j != b ==> ss[j] <= ss[r])
  }

  predicate Exceeds(score: real, bound: Option<real>) {
    bound.None? || score > bound.value
  }

  lemma RankStep(ss: seq<real>, b: nat, r: nat, best: Option<real>, runnerUp: Option<real>, score: real)
    requires Ranked(ss, b, r, best, runnerUp)
    ensures Exceeds(score, best) ==> Ranked(ss + [score], |ss|, b, Some(score), best)
    ensures !Exceeds(score, best) && Exceeds(score, runnerUp) ==> Ranked(ss + [score], b, |ss|, best, Some(score))
    ensures !Exceeds(score, best) && !Exceeds(score, runnerUp) ==> Ranked(ss + [score], b, r, best, runnerUp)
  {
  }

  lemma WithinLanes(n: nat, g: seq<nat>)
    requires SetOf(g) <= Lanes(n)
    ensures InRange(g, n)
  {
    forall x | x in g
      ensures x < n
    {
      assert x in SetOf(g) && x in Lanes(n);
    }
  }

  lemma CanonicalInRange(n: nat, m: nat, t: Triple)
    requires Canonical(n, m, t)
    ensures TripleInRange(t, n)
  {
    hide SetOf, Lanes, InRange, Increasing;
    WithinLanes(n, t[0]);
    WithinLanes(n, t[1]);
    WithinLanes(n, t[2]);
  }

  lemma {:induction false} ExaminedPrefix(n: nat, m: nat, tails: seq<seq<nat>>, k: nat)
    requires k <= |tails|
    ensures Examined(n, m, tails[..k]) <= Examined(n, m, tails)
  {
    hide TriplesOn;
    if k == |tails| {
      assert tails[..k] == tails;
    } else {
      ExaminedPrefix(n, m, tails[..|tails| - 1], k);
      assert tails[..|tails| - 1][..k] == tails[..k];
    }
  }

  /** Triples on the first `i` tails are a prefix of all examined ones, hence canonical and in range. */
  lemma ExaminedRange(n: nat, m: nat, ts: seq<Triple>)
    requires n == 3 * (m + 1) && ts <= AllExamined(n, m)
    ensures AllInRange(ts, n)
  {
    hide AllExamined, Canonical, TripleInRange;
    forall k | 0 <= k < |ts|
      ensures TripleInRange(ts[k], n)
    {
      ExaminedSound(n, m, k);
      CanonicalInRange(n, m, AllExamined(n, m)[k]);
      assert ts[k] == AllExamined(n, m)[k];
    }
  }

  lemma NextPrefix(n: nat, m: nat, i: nat, j: nat)
    requires n == 3 * (m + 1) && i < |FirstTails(n, m)|
    requires j <= |TriplesOn(n, m, [0] + FirstTails(n, m)[i])|
    ensures
      var tails := FirstTails(n, m);
      Examined(n, m, tails[..i]) + TriplesOn(n, m, [0] + tails[i])[..j] <= AllExamined(n, m)
  {
    hide TriplesOn, FirstTails;
    var tails := FirstTails(n, m);
    ExaminedPrefix(n, m, tails, i + 1);
    assert tails[..i + 1][..i] == tails[..i];
    assert Examined(n, m, tails[..i + 1]) == Examined(n, m, tails[..i]) + TriplesOn(n, m, [0] + tails[i]);
  }

  lemma PoolSize(n: nat, m: nat, i: nat)
    requires n == 3 * (m + 1) && i < |FirstTails(n, m)|
    ensures |Remaining(n, [0] + FirstTails(n, m)[i])| == 2 * (m + 1)
  {
    hide FirstTails, Remaining, Increasing, SetOf, Lanes;
    var first := [0] + FirstTails(n, m)[i];
    FirstGroup(n, m, i);
    RemainingMembers(n, first);
    IncreasingSize(first);
    IncreasingSize(Remaining(n, first));
    LanesSize(n);
    assert |Lanes(n) - SetOf(first)| == |Lanes(n)| - |SetOf(first)|;
  }

  lemma TriplesOnLength(n: nat, m: nat, first: seq<nat>)
    requires Remaining(n, first) != []
    ensures
      var pool := Remaining(n, first)[1..];
      |TriplesOn(n, m, first)| == |Visits(pool, [], |pool|, m, 0)|
  {
  }

  // ----- there are always at least two candidates -----

  lemma {:induction false} CombosExist(n: nat, k: nat, low: nat)
    requires low + k <= n
    ensures |Combos(n, k, low)| >= 1 && (0 < k && low + k < n ==> |Combos(n, k, low)| >= 2)
    decreases n - low
  {
    if k > 0 {
      CombosExist(n, k - 1, low + 1);
      if low + k < n {
        CombosExist(n, k, low + 1);
      }
    }
  }

  lemma {:induction false} ExaminedAtLeast(n: nat, m: nat, k: nat)
    requires n == 3 * (m + 1) && k <= |FirstTails(n, m)|
    ensures |Examined(n, m, FirstTails(n, m)[..k])| >= k
  {
    hide TriplesOn, FirstTails, Remaining, Visits, Combos;
    if k > 0 {
      var tails := FirstTails(n, m);
      ExaminedAtLeast(n, m, k - 1);
      assert tails[..k][..k - 1] == tails[..k - 1];
      PoolSize(n, m, k - 1);
      var first := [0] + tails[k - 1];
      TriplesOnLength(n, m, first);
      CombosExist(|Remaining(n, first)[1..]|, m, 0);
    }
  }

  lemma AtLeastTwoExamined(n: nat, m: nat)
    requires n == 3 * (m + 1) && m > 0
    ensures |AllExamined(n, m)| >= 2
  {
    hide Examined, Combos;
    CombosExist(n - 1, m, 0);
    ExaminedAtLeast(n, m, |FirstTails(n, m)|);
    assert FirstTails(n, m)[..|FirstTails(n, m)|] == FirstTails(n, m);
  }

  // ----- the search -----

  datatype Found = Found(groups: Triple, best: Option<real>, runnerUp: Option<real>)

  /** Positions that witness a ranking of the examined list. */
  ghost predicate Leads(scores: seq<seq<real>>, n: nat, ts: seq<Triple>, found: Found, b: nat, r: nat)
    requires Scored(scores, n) && AllInRange(ts, n)
  {
    && Ranked(ScoresOf(scores, n, ts), b, r, found.best, found.runnerUp)
    && (ts != [] ==> b < |ts| && ts[b] == found.groups)
  }

  /** One candidate is compared with the best and the runner-up so far. */
  method Consider(scores: seq<seq<real>>, n: nat, ghost ts: seq<Triple>, t: Triple,
                  found: Found, ghost b: nat, ghost r: nat)
    returns (next: Found, ghost b': nat, ghost r': nat)
    requires Scored(scores, n) && TripleInRange(t, n)
    requires AllInRange(ts, n)
    requires Leads(scores, n, ts, found, b, r)
    ensures Leads(scores, n, ts + [t], next, b', r')
  {
    hide Score, TripleInRange;
    var score := Score(scores, n, t);
    ghost var ss := ScoresOf(scores, n, ts);
    RankStep(ss, b, r, found.best, found.runnerUp, score);
    assert ScoresOf(scores, n, ts + [t]) == ss + [score];
    next, b', r' := found, b, r;
    if Exceeds(score, found.best) {
      next, b', r' := Found(t, Some(score), found.best), |ts|, b;
    } else if Exceeds(score, found.runnerUp) {
      next, r' := found.(runnerUp := Some(score)), |ts|;
    }
  }

  /** All candidates on one first group. */
  method SearchOn(scores: seq<seq<real>>, n: nat, m: nat, i: nat, first: seq<nat>,
                  found: Found, ghost b: nat, ghost r: nat)
    returns (next: Found, ghost b': nat, ghost r': nat)
    requires Scored(scores, n) && n == 3 * (m + 1) && i < |FirstTails(n, m)| && first == [0] + FirstTails(n, m)[i]
    requires AllInRange(Examined(n, m, FirstTails(n, m)[..i]), n)
    requires Leads(scores, n, Examined(n, m, FirstTails(n, m)[..i]), found, b, r)
    ensures AllInRange(Examined(n, m, FirstTails(n, m)[..i + 1]), n)
    ensures Leads(scores, n, Examined(n, m, FirstTails(n, m)[..i + 1]), next, b', r')
  {
    hide Leads, TripleInRange, FirstTails, Remaining, Visits, TriplesOn, TripleOf, AllExamined;
    ghost var base, here := Examined(n, m, FirstTails(n, m)[..i]), TriplesOn(n, m, first);
    PoolSize(n, m, i);
    var remaining := Remaining(n, first);
    var tails := ForEachCombination(remaining[1..], m);
    TriplesOnLength(n, m, first);
    next, b', r' := found, b, r;
    assert base + here[..0] == base;
    for j := 0 to |tails|
      invariant AllInRange(base + here[..j], n)
      invariant Leads(scores, n, base + here[..j], next, b', r')
    {
      TriplesOnAt(n, m, first, j);
      var t := TripleOf(n, first, tails[j]);
      assert base + here[..j + 1] == (base + here[..j]) + [t];
      NextPrefix(n, m, i, j + 1);
      ExaminedRange(n, m, base + here[..j + 1]);
      assert (base + here[..j + 1])[|base| + j] == t;
      next, b', r' := Consider(scores, n, base + here[..j], t, next, b', r');
    }
    assert FirstTails(n, m)[..i + 1][..i] == FirstTails(n, m)[..i];
    assert base + here[..|tails|] == base + here == Examined(n, m, FirstTails(n, m)[..i + 1]);
  }

  /**
   The search over three groups of `m + 1` lanes each: it returns the first
   best partition and the two largest scores of the whole list of partitions.
   */
  method BestThreeGroups(scores: seq<seq<real>>, n: nat, m: nat) returns (found: Found, ghost b: nat, ghost r: nat)
    requires Scored(scores, n) && n == 3 * (m + 1)
    ensures AllInRange(AllExamined(n, m), n)
    ensures Leads(scores, n, AllExamined(n, m), found, b, r)
  {
    hide Leads, TripleInRange, TriplesOn, TripleOf;
    var tails := ForEachCombination(Upto(1, n), m);
    found, b, r := Found([], None, None), 0, 0;
    LeadsNothing(scores, n, found);
    for i := 0 to |tails|
      invariant tails == FirstTails(n, m)
      invariant AllInRange(Examined(n, m, tails[..i]), n)
      invariant Leads(scores, n, Examined(n, m, tails[..i]), found, b, r)
    {
      found, b, r := SearchOn(scores, n, m, i, [0] + tails[i], found, b, r);
    }
    assert tails[..|tails|] == tails;
  }

  lemma LeadsNothing(scores: seq<seq<real>>, n: nat, found: Found)
    requires Scored(scores, n) && found == Found([], None, None)
    ensures Leads(scores, n, [], found, 0, 0)
  {
  }

  /** `t` scores `best`, and everything examined before it scores less. */
  ghost predicate FirstBest(scores: seq<seq<real>>, n: nat, m: nat, t: Triple, best: real)
    requires Scored(scores, n) && n > 0
  {
    var ts := AllExamined(n, m);
    && AllInRange(ts, n)
    && exists b ::
      0 <= b < |ts| && ts[b] == t && Score(scores, n, t) == best
      && forall j :: 0 <= j < b ==> Score(scores, n, ts[j]) < best
  }

  /** The result read as a statement about all unordered partitions of the lanes. */
  lemma LeaderIsMaximal(scores: seq<seq<real>>, n: nat, m: nat, found: Found, b: nat, r: nat, t: Triple)
    requires Scored(scores, n) && n == 3 * (m + 1) && m > 0
    requires AllInRange(AllExamined(n, m), n)
    requires Leads(scores, n, AllExamined(n, m), found, b, r)
    ensures Canonical(n, m, found.groups) && TripleInRange(found.groups, n)
    ensures found.best == Some(Score(scores, n, found.groups)) && found.runnerUp.Some?
    ensures FirstBest(scores, n, m, found.groups, found.best.value)
    ensures Canonical(n, m, t) ==> TripleInRange(t, n) && Score(scores, n, t) <= found.best.value
    ensures Canonical(n, m, t) && t != found.groups ==> Score(scores, n, t) <= found.runnerUp.value
  {
    hide AllExamined, Canonical, TripleInRange, Score;
    AtLeastTwoExamined(n, m);
    ExaminedSound(n, m, b);
    forall j | 0 <= j < b
      ensures Score(scores, n, AllExamined(n, m)[j]) < found.best.value
    {
      assert ScoresOf(scores, n, AllExamined(n, m))[j] < ScoresOf(scores, n, AllExamined(n, m))[b];
    }
    if Canonical(n, m, t) {
      CanonicalInRange(n, m, t);
      ExaminedComplete(n, m, t);
      var k :| 0 <= k < |AllExamined(n, m)| && AllExamined(n, m)[k] == t;
      assert ScoresOf(scores, n, AllExamined(n, m))[k] == Score(scores, n, t);
    }
  }

  /** The twelve-lane search of the analyzer. */
  method BestThreeGroupsOfFour(scores: seq<seq<real>>) returns (groups: Triple, best: real, runnerUp: real)
    requires Scored(scores, LANES)
    ensures Canonical(LANES, 3, groups) && TripleInRange(groups, LANES) && best == Score(scores, LANES, groups)
    ensures forall t: Triple :: Canonical(LANES, 3, t) ==> TripleInRange(t, LANES) && Score(scores, LANES, t) <= best
    ensures forall t: Triple :: Canonical(LANES, 3, t) && t != groups ==> Score(scores, LANES, t) <= runnerUp
    ensures exists t: Triple ::
      Canonical(LANES, 3, t) && t != groups && TripleInRange(t, LANES) && Score(scores, LANES, t) == runnerUp
    ensures FirstBest(scores, LANES, 3, groups, best)
  {
    hide AllExamined, Canonical, TripleInRange, Score, Leads, FirstBest;
    var n: nat, m: nat := LANES, 3;
    var found, b, r := BestThreeGroups(scores, n, m);
    LeaderIsMaximal(scores, n, m, found, b, r, []);
    forall t: Triple | Canonical(n, m, t)
      ensures TripleInRange(t, n) && Score(scores, n, t) <= found.best.value
      ensures t != found.groups ==> Score(scores, n, t) <= found.runnerUp.value
    {
      LeaderIsMaximal(scores, n, m, found, b, r, t);
    }
    RunnerUpExists(scores, n, m, found, b, r);
    groups, best, runnerUp := found.groups, found.best.value, found.runnerUp.value;
  }

  /** The runner-up score belongs to another partition than the best one. */
  lemma RunnerUpExists(scores: seq<seq<real>>, n: nat, m: nat, found: Found, b: nat, r: nat)
    requires Scored(scores, n) && n == 3 * (m + 1) && m > 0
    requires AllInRange(AllExamined(n, m), n)
    requires Leads(scores, n, AllExamined(n, m), found, b, r)
    ensures found.runnerUp.Some?
    ensures exists t: Triple ::
      Canonical(n, m, t) && t != found.groups && TripleInRange(t, n) && Score(scores, n, t) == found.runnerUp.value
  {
    hide AllExamined, Canonical, TripleInRange, Score, Blocks;
    AtLeastTwoExamined(n, m);
    ExaminedSound(n, m, r);
    if b < r {
      NoPartitionTwice(n, m, b, r);
    } else {
      NoPartitionTwice(n, m, r, b);
    }
    var t := AllExamined(n, m)[r];
    assert ScoresOf(scores, n, AllExamined(n, m))[r] == Score(scores, n, t);
  }
}
