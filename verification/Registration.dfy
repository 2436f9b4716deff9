/**
 Exhaustive registration searches over shift evidence: the joint three-phase
 search and the twelve-line offset model. Both return true optima, the first
 one in search order among equals, and look evidence up only inside its table.
 */
module Registration {
  import opened Common

  /** Evidence for one shift; correlations are exact reals. */
  datatype Evidence = Evidence(median: real, support: nat)

  /** Entries of an evidence table, one per shift from `-maximum` to `maximum`. */
  function TableSize(maximum: int): nat {
    if maximum < 0 then 0 else 2 * maximum + 1
  }

  function At(table: seq<Evidence>, shift: int, maximum: int): Evidence
    requires |table| == TableSize(maximum) && -maximum <= shift <= maximum
  {
    table[shift + maximum]
  }

  // ----- joint three-phase search -----

  datatype Tables = Tables(
    phase01: seq<Evidence>, phase02: seq<Evidence>, phase12: seq<Evidence>, minimum: int, maximum: int)
  {
    predicate Valid() {
      |phase01| == |phase02| == |phase12| == TableSize(maximum)
    }

    /** Every pair of phases is at least `minimum` rows apart and inside the searched range. */
    predicate Feasible(p: (int, int)) {
      && Abs(p.0) <= maximum && Abs(p.1) <= maximum
      && Abs(p.0) >= minimum && Abs(p.1) >= minimum
      && minimum <= Abs(p.1 - p.0) <= maximum
    }

    function Score(p: (int, int)): (real, nat)
      requires Valid() && Feasible(p)
    {
      var a, b, c := At(phase01, p.0, maximum), At(phase02, p.1, maximum), At(phase12, p.1 - p.0, maximum);
      (MinReal(MinReal(a.median, b.median), c.median), a.support + b.support + c.support)
    }
  }

  function MinReal(a: real, b: real): real {
    if b < a then b else a
  }

  predicate JointBetter(a: (real, nat), b: (real, nat)) {
    a.0 > b.0 || (a.0 == b.0 && a.1 > b.1)
  }

  /** Search order: first shift ascending, then second. */
  predicate Before(p: (int, int), q: (int, int)) {
    p.0 < q.0 || (p.0 == q.0 && p.1 < q.1)
  }

  /** `best` is the first maximum among the feasible pairs that come before `end`. */
  ghost predicate JointBest(t: Tables, end: (int, int), best: Option<(int, int)>)
    requires t.Valid()
  {
    && (best.Some? ==> t.Feasible(best.value) && Before(best.value, end))
    && (forall p: (int, int) :: t.Feasible(p) && Before(p, end) ==>
          best.Some? && !JointBetter(t.Score(p), t.Score(best.value)))
    && (best.Some? ==> forall p: (int, int) :: t.Feasible(p) && Before(p, best.value) ==>
          JointBetter(t.Score(best.value), t.Score(p)))
  }

  lemma JointStep(t: Tables, at: (int, int), best: Option<(int, int)>)
    requires t.Valid() && JointBest(t, at, best)
    ensures !t.Feasible(at) ==> JointBest(t, (at.0, at.1 + 1), best)
    ensures t.Feasible(at) && (best.None? || JointBetter(t.Score(at), t.Score(best.value)))
      ==> JointBest(t, (at.0, at.1 + 1), Some(at))
    ensures t.Feasible(at) && best.Some? && !JointBetter(t.Score(at), t.Score(best.value))
      ==> JointBest(t, (at.0, at.1 + 1), best)
  {
    hide Tables.Score, Tables.Feasible;
    forall p: (int, int) | Before(p, (at.0, at.1 + 1))
      ensures Before(p, at) || p == at
    {
    }
  }

  /** Skipping pairs that are all infeasible. */
  lemma JointSkip(t: Tables, at: (int, int), next: (int, int), best: Option<(int, int)>)
    requires t.Valid() && JointBest(t, at, best)
    requires forall p: (int, int) :: t.Feasible(p) ==> (Before(p, at) <==> Before(p, next))
    ensures JointBest(t, next, best)
  {
    hide Tables.Score, Tables.Feasible;
  }

  method BestJointPhaseShifts(t: Tables) returns (best: Option<(int, int)>)
    requires t.Valid()
    ensures best.None? <==> forall p: (int, int) :: !t.Feasible(p)
    ensures best.Some? ==> t.Feasible(best.value)
    ensures best.Some? ==> forall p: (int, int) :: t.Feasible(p) ==>
      !JointBetter(t.Score(p), t.Score(best.value))
      && (Before(p, best.value) ==> JointBetter(t.Score(best.value), t.Score(p)))
    ensures best.Some? ==> forall p: (int, int) :: t.Feasible(p) ==>
      && t.Score(p).0 <= t.Score(best.value).0
      && (t.Score(p).0 == t.Score(best.value).0 ==> t.Score(p).1 <= t.Score(best.value).1)
  {
    best := None;
    var first := -t.maximum;
    assert JointBest(t, (first, -t.maximum), best);
    while first <= t.maximum
      invariant JointBest(t, (first, -t.maximum), best)
      decreases t.maximum - first
    {
      if Abs(first) >= t.minimum {
        best := ScanSecond(t, first, best);
      }
      JointSkip(t, (first, if Abs(first) >= t.minimum then t.maximum + 1 else -t.maximum),
                (first + 1, -t.maximum), best);
      first := first + 1;
    }
    JointSkip(t, (first, -t.maximum), (t.maximum + 1, -t.maximum), best);
    assert forall p: (int, int) :: t.Feasible(p) ==> Before(p, (t.maximum + 1, -t.maximum));
  }

  /** The inner loop for one first shift. */
  method ScanSecond(t: Tables, first: int, start: Option<(int, int)>) returns (best: Option<(int, int)>)
    requires t.Valid() && -t.maximum <= first <= t.maximum && Abs(first) >= t.minimum
    requires JointBest(t, (first, -t.maximum), start) && (start.Some? ==> t.Feasible(start.value))
    ensures JointBest(t, (first, t.maximum + 1), best)
  {
    hide JointBest, Tables.Score;
    best := start;
    var second := -t.maximum;
    while second <= t.maximum
      invariant -t.maximum <= second <= t.maximum + 1
      invariant JointBest(t, (first, second), best)
      invariant best.Some? ==> t.Feasible(best.value)
    {
      var at := (first, second);
      JointStep(t, at, best);
      if t.Feasible(at) && (best.None? || JointBetter(t.Score(at), t.Score(best.value))) {
        best := Some(at);
      }
      second := second + 1;
    }
  }

  // ----- the twelve-line offset model -----

  /** Total correlation, total support and smallest correlation; `None` is the minimum of no values. */
  datatype Fit = Fit(total: real, support: nat, least: Option<real>)

  function FitOf(registrations: seq<Evidence>): Fit {
    if registrations == [] then Fit(0.0, 0, None)
    else
      var front, last := FitOf(registrations[..|registrations| - 1]), registrations[|registrations| - 1];
      Fit(front.total + last.median, front.support + last.support,
          Some(if front.least.Some? then MinReal(front.least.value, last.median) else last.median))
  }

  predicate LeastGreater(a: Option<real>, b: Option<real>) {
    b.Some? && (a.None? || a.value > b.value)
  }

  predicate FitBetter(a: Fit, b: Fit) {
    || a.total > b.total
    || (a.total == b.total && a.support > b.support)
    || (a.total == b.total && a.support == b.support && LeastGreater(a.least, b.least))
  }

  const MULTIPLIERS: seq<int> := [0, 2, -1, 1]

  /** Half of the maximum, rounded toward zero. */
  function HalfRange(maximum: int): int {
    if maximum >= 0 then maximum / 2 else -((-maximum) / 2)
  }

  datatype Model = Model(reference: seq<seq<Evidence>>, within: seq<seq<seq<Evidence>>>, maximum: int) {
    /** Twelve reference tables, and at most four taps per colour, all of the searched size. */
    ghost predicate Valid() {
      && |reference| == 12 && (forall i :: 0 <= i < 12 ==> |reference[i]| == TableSize(maximum))
      && forall c :: 0 <= c < |within| ==>
        |within[c]| <= 4 && forall tap :: 0 <= tap < |within[c]| ==> |within[c][tap]| == TableSize(maximum)
    }

    predicate Pitch(pitch: int) {
      pitch != 0 && -HalfRange(maximum) <= pitch <= HalfRange(maximum)
    }

    /** Evidence of one colour's taps after the first. */
    function TapEvidence(taps: seq<seq<Evidence>>, pitch: int): seq<Evidence>
      requires Pitch(pitch) && |taps| <= 4 && forall tap :: 0 <= tap < |taps| ==> |taps[tap]| == TableSize(maximum)
    {
      if |taps| <= 1 then []
      else
        var tap := |taps| - 1;
        TapEvidence(taps[..tap], pitch) + [At(taps[tap], MULTIPLIERS[tap] * pitch, maximum)]
    }

    function WithinEvidence(colors: seq<seq<seq<Evidence>>>, pitch: int): seq<Evidence>
      requires Pitch(pitch)
      requires forall c :: 0 <= c < |colors| ==>
        |colors[c]| <= 4 && forall tap :: 0 <= tap < |colors[c]| ==> |colors[c][tap]| == TableSize(maximum)
    {
      if colors == [] then []
      else WithinEvidence(colors[..|colors| - 1], pitch) + TapEvidence(colors[|colors| - 1], pitch)
    }

    function PitchFit(pitch: int): Fit
      requires Valid() && Pitch(pitch)
    {
      FitOf(WithinEvidence(within, pitch))
    }

    /** All four lines of a colour stay inside the searched range. */
    predicate Offset(pitch: int, offset: int) {
      && Abs(offset) <= maximum
      && Abs(offset + 2 * pitch) <= maximum && Abs(offset - pitch) <= maximum && Abs(offset + pitch) <= maximum
    }

    function OffsetFit(color: nat, pitch: int, offset: int): Fit
      requires Valid() && color < 3 && Offset(pitch, offset)
    {
      FitOf([At(reference[color], offset, maximum), At(reference[color + 3], offset + 2 * pitch, maximum),
             At(reference[color + 6], offset - pitch, maximum), At(reference[color + 9], offset + pitch, maximum)])
    }
  }

  /** `best` is the first best pitch among the candidates below `end`. */
  ghost predicate PitchBest(m: Model, end: int, best: Option<int>)
    requires m.Valid()
  {
    && (best.Some? ==> m.Pitch(best.value) && best.value < end)
    && (forall p :: m.Pitch(p) && p < end ==> best.Some? && !FitBetter(m.PitchFit(p), m.PitchFit(best.value)))
    && (best.Some? ==> forall p :: m.Pitch(p) && p < best.value ==> FitBetter(m.PitchFit(best.value), m.PitchFit(p)))
  }

  ghost predicate OffsetBest(m: Model, color: nat, pitch: int, end: int, best: Option<int>)
    requires m.Valid() && color < 3
  {
    && (best.Some? ==> m.Offset(pitch, best.value) && best.value < end)
    && (forall o :: m.Offset(pitch, o) && o < end ==>
          best.Some? && !FitBetter(m.OffsetFit(color, pitch, o), m.OffsetFit(color, pitch, best.value)))
    && (best.Some? ==> forall o :: m.Offset(pitch, o) && o < best.value ==>
          FitBetter(m.OffsetFit(color, pitch, best.value), m.OffsetFit(color, pitch, o)))
  }

  lemma FitOrder(a: Fit, b: Fit, c: Fit)
    ensures !FitBetter(a, a)
    ensures FitBetter(a, b) && FitBetter(b, c) ==> FitBetter(a, c)
    ensures FitBetter(a, b) && !FitBetter(c, b) ==> FitBetter(a, c)
    ensures !FitBetter(b, a) && FitBetter(b, c) ==> FitBetter(a, c)
  {
  }

  lemma PitchStep(m: Model, at: int, best: Option<int>)
    requires m.Valid() && PitchBest(m, at, best)
    ensures !m.Pitch(at) ==> PitchBest(m, at + 1, best)
    ensures m.Pitch(at) && (best.None? || FitBetter(m.PitchFit(at), m.PitchFit(best.value)))
      ==> PitchBest(m, at + 1, Some(at))
    ensures m.Pitch(at) && best.Some? && !FitBetter(m.PitchFit(at), m.PitchFit(best.value))
      ==> PitchBest(m, at + 1, best)
  {
    hide Model.PitchFit, Model.Pitch, FitBetter, Model.Valid;
    if m.Pitch(at) {
      FitOrder(m.PitchFit(at), m.PitchFit(at), m.PitchFit(at));
      if best.Some? {
        forall p | m.Pitch(p) && p < at
          ensures FitBetter(m.PitchFit(at), m.PitchFit(best.value)) ==>
            FitBetter(m.PitchFit(at), m.PitchFit(p)) && !FitBetter(m.PitchFit(p), m.PitchFit(at))
        {
          FitOrder(m.PitchFit(at), m.PitchFit(best.value), m.PitchFit(p));
          FitOrder(m.PitchFit(p), m.PitchFit(at), m.PitchFit(p));
        }
      }
    }
  }

  lemma OffsetStep(m: Model, color: nat, pitch: int, at: int, best: Option<int>)
    requires m.Valid() && color < 3 && OffsetBest(m, color, pitch, at, best)
    ensures !m.Offset(pitch, at) ==> OffsetBest(m, color, pitch, at + 1, best)
    ensures m.Offset(pitch, at)
      && (best.None? || FitBetter(m.OffsetFit(color, pitch, at), m.OffsetFit(color, pitch, best.value)))
      ==> OffsetBest(m, color, pitch, at + 1, Some(at))
    ensures m.Offset(pitch, at) && best.Some?
      && !FitBetter(m.OffsetFit(color, pitch, at), m.OffsetFit(color, pitch, best.value))
      ==> OffsetBest(m, color, pitch, at + 1, best)
  {
    hide Model.OffsetFit, Model.Offset, FitBetter, Model.Valid;
    if m.Offset(pitch, at) {
      var fit := m.OffsetFit(color, pitch, at);
      FitOrder(fit, fit, fit);
      if best.Some? {
        forall o | m.Offset(pitch, o) && o < at
          ensures FitBetter(fit, m.OffsetFit(color, pitch, best.value)) ==>
            FitBetter(fit, m.OffsetFit(color, pitch, o)) && !FitBetter(m.OffsetFit(color, pitch, o), fit)
        {
          FitOrder(fit, m.OffsetFit(color, pitch, best.value), m.OffsetFit(color, pitch, o));
          FitOrder(m.OffsetFit(color, pitch, o), fit, m.OffsetFit(color, pitch, o));
        }
      }
    }
  }

  method FitPitch(m: Model) returns (best: Option<int>)
    requires m.Valid()
    ensures PitchBest(m, HalfRange(m.maximum) + 1, best)
  {
    hide PitchBest, Model.PitchFit, FitBetter, Model.Valid;
    best := None;
    var half := HalfRange(m.maximum);
    var pitch := -half;
    PitchNone(m, pitch);
    if half < 0 {
      PitchNone(m, half + 1);
      return;
    }
    while pitch <= half
      invariant -half <= pitch <= half + 1
      invariant best.Some? ==> m.Pitch(best.value)
      invariant PitchBest(m, pitch, best)
    {
      PitchStep(m, pitch, best);
      if pitch != 0 && (best.None? || FitBetter(m.PitchFit(pitch), m.PitchFit(best.value))) {
        best := Some(pitch);
      }
      pitch := pitch + 1;
    }
  }

  lemma PitchNone(m: Model, end: int)
    requires m.Valid() && (end <= -HalfRange(m.maximum) || HalfRange(m.maximum) < 0)
    ensures PitchBest(m, end, None)
  {
  }

  lemma OffsetNone(m: Model, color: nat, pitch: int, end: int)
    requires m.Valid() && color < 3 && end <= -m.maximum
    ensures OffsetBest(m, color, pitch, end, None)
  {
  }

  method FitOffset(m: Model, color: nat, pitch: int) returns (best: Option<int>)
    requires m.Valid() && color < 3 && m.maximum >= 0
    ensures OffsetBest(m, color, pitch, m.maximum + 1, best)
  {
    hide OffsetBest, Model.OffsetFit, FitBetter, Model.Valid;
    best := None;
    var offset := -m.maximum;
    OffsetNone(m, color, pitch, offset);
    while offset <= m.maximum
      invariant -m.maximum <= offset <= m.maximum + 1
      invariant best.Some? ==> m.Offset(pitch, best.value)
      invariant OffsetBest(m, color, pitch, offset, best)
    {
      OffsetStep(m, color, pitch, offset, best);
      if m.Offset(pitch, offset) {
        if best.None? || FitBetter(m.OffsetFit(color, pitch, offset), m.OffsetFit(color, pitch, best.value)) {
          best := Some(offset);
        }
      }
      offset := offset + 1;
    }
  }

  /**
   The best pitch, then the best offset of each further colour at that pitch.
   It fails exactly when the range is too narrow for any nonzero pitch.
   */
  method FitTwelveLineOffsets(m: Model) returns (r: Option<(int, seq<int>)>)
    requires m.Valid()
    ensures r.None? <==> m.maximum < 2
    ensures r.Some? ==>
      var (pitch, offsets) := r.value;
      && PitchBest(m, HalfRange(m.maximum) + 1, Some(pitch))
      && |offsets| == 3 && offsets[0] == 0
      && OffsetBest(m, 1, pitch, m.maximum + 1, Some(offsets[1]))
      && OffsetBest(m, 2, pitch, m.maximum + 1, Some(offsets[2]))
  {
    hide Model.PitchFit, Model.OffsetFit, FitBetter, Model.Valid;
    var best := FitPitch(m);
    if best.None? {
      assert m.Pitch(1) ==> m.maximum < 2;
      return None;
    }
    var pitch := best.value;
    var offsets := [0];
    for color := 1 to 3
      invariant |offsets| == color && offsets[0] == 0
      invariant forall c :: 1 <= c < color ==> OffsetBest(m, c, pitch, m.maximum + 1, Some(offsets[c]))
    {
      var offset := FitOffset(m, color, pitch);
      assert m.Offset(pitch, 0);
      offsets := offsets + [offset.value];
    }
    return Some((pitch, offsets));
  }

  // ----- which shifts are searched -----

  /** A pair of shifts is feasible exactly when the three lines are pairwise separated within the limits. */
  lemma FeasibleIff(t: Tables, p: (int, int))
    ensures
      var lines := [0, p.0, p.1];
      t.Feasible(p) <==>
        forall i, j :: 0 <= i < j < 3 ==> t.minimum <= Abs(lines[j] - lines[i]) <= t.maximum
  {
    var lines := [0, p.0, p.1];
    if forall i, j :: 0 <= i < j < 3 ==> t.minimum <= Abs(lines[j] - lines[i]) <= t.maximum {
      assert t.minimum <= Abs(lines[1] - lines[0]) <= t.maximum;
      assert t.minimum <= Abs(lines[2] - lines[0]) <= t.maximum;
      assert t.minimum <= Abs(lines[2] - lines[1]) <= t.maximum;
    }
  }

  /** A pitch is searched exactly when it is not zero and twice it stays in range. */
  lemma PitchIff(m: Model, pitch: int)
    ensures m.Pitch(pitch) <==> pitch != 0 && 2 * Abs(pitch) <= m.maximum
  {
  }

  /** An offset is searched exactly when every line of the colour stays in range. */
  lemma OffsetIff(m: Model, pitch: int, offset: int)
    ensures m.Offset(pitch, offset) <==>
      forall k :: k in [0, 2, -1, 1] ==> Abs(offset + k * pitch) <= m.maximum
  {
    var spacings := [0, 2, -1, 1];
    assert 0 in spacings && 2 in spacings && -1 in spacings && 1 in spacings;
  }

  /** Nothing better: a smaller total, or the same with less support, or the same with no larger least correlation. */
  lemma NotBetterMeans(a: Fit, b: Fit)
    ensures !FitBetter(a, b) <==>
      || a.total < b.total
      || (a.total == b.total && a.support < b.support)
      || (a.total == b.total && a.support == b.support
          && (b.least.None? || (a.least.Some? && a.least.value <= b.least.value)))
  {
  }

  // ----- what the scores are -----

  /** A table of evidence by shift, lowest shift first. */
  ghost function Tabulate(evidence: int -> Evidence, maximum: int): (table: seq<Evidence>)
    ensures |table| == TableSize(maximum)
  {
    seq(TableSize(maximum), i requires 0 <= i < TableSize(maximum) => evidence(i - maximum))
  }

  /** A shift is looked up where its evidence was put. */
  lemma LookupFinds(evidence: int -> Evidence, shift: int, maximum: int)
    requires -maximum <= shift <= maximum
    ensures At(Tabulate(evidence, maximum), shift, maximum) == evidence(shift)
  {
  }

  /** The joint score of two shifts: the least correlation of the three phase pairs, and their total support. */
  lemma JointScoreIs(e01: int -> Evidence, e02: int -> Evidence, e12: int -> Evidence,
                     minimum: int, maximum: int, p: (int, int))
    requires
      var t := Tables(Tabulate(e01, maximum), Tabulate(e02, maximum), Tabulate(e12, maximum), minimum, maximum);
      t.Feasible(p)
    ensures
      var t := Tables(Tabulate(e01, maximum), Tabulate(e02, maximum), Tabulate(e12, maximum), minimum, maximum);
      var a, b, c := e01(p.0), e02(p.1), e12(p.1 - p.0);
      var (least, support) := t.Score(p);
      && least <= a.median && least <= b.median && least <= c.median
      && (least == a.median || least == b.median || least == c.median)
      && support == a.support + b.support + c.support
  {
    LookupFinds(e01, p.0, maximum);
    LookupFinds(e02, p.1, maximum);
    LookupFinds(e12, p.1 - p.0, maximum);
  }

  /** A fit adds up correlations and support and keeps the least correlation. */
  ghost predicate FitIs(fit: Fit, es: seq<Evidence>) {
    && fit.total == TotalMedian(es) && fit.support == TotalSupport(es)
    && (fit.least.None? <==> es == [])
    && (fit.least.Some? ==>
          && (forall i :: 0 <= i < |es| ==> fit.least.value <= es[i].median)
          && exists i :: 0 <= i < |es| && fit.least.value == es[i].median)
  }

  ghost function TotalMedian(es: seq<Evidence>): real {
    if es == [] then 0.0 else es[0].median + TotalMedian(es[1..])
  }

  ghost function TotalSupport(es: seq<Evidence>): nat {
    if es == [] then 0 else es[0].support + TotalSupport(es[1..])
  }

  lemma {:induction false} TotalsSnoc(es: seq<Evidence>, e: Evidence)
    ensures TotalMedian(es + [e]) == TotalMedian(es) + e.median
    ensures TotalSupport(es + [e]) == TotalSupport(es) + e.support
  {
    if es == [] {
      assert es + [e] == [e] && [e][1..] == [];
    } else {
      TotalsSnoc(es[1..], e);
      assert (es + [e])[1..] == es[1..] + [e];
    }
  }

  lemma {:induction false} FitOfIs(es: seq<Evidence>)
    ensures FitIs(FitOf(es), es)
  {
    if es != [] {
      var n := |es| - 1;
      var front, last := es[..n], es[n];
      FitOfIs(front);
      TotalsSnoc(front, last);
      assert es == front + [last];
      var least := FitOf(es).least.value;
      if front != [] && FitOf(front).least.value <= last.median {
        var i :| 0 <= i < |front| && FitOf(front).least.value == front[i].median;
        assert least == es[i].median;
      } else {
        assert least == es[n].median;
      }
    }
  }

  /** Evidence of one lane at one shift. */
  type LaneEvidence = (nat, int) -> Evidence

  /** The offset fit of a colour collects its four lanes at the line spacings 0, 2, -1 and 1. */
  lemma OffsetFitIs(m: Model, evidence: LaneEvidence, color: nat, pitch: int, offset: int)
    requires m.Valid() && color < 3 && m.Offset(pitch, offset)
    requires forall lane :: 0 <= lane < 12 ==> m.reference[lane] == Tabulate(s => evidence(lane, s), m.maximum)
    ensures FitIs(m.OffsetFit(color, pitch, offset),
                  [evidence(color, offset), evidence(color + 3, offset + 2 * pitch),
                   evidence(color + 6, offset - pitch), evidence(color + 9, offset + pitch)])
  {
    hide FitIs;
    LookupFinds(s => evidence(color, s), offset, m.maximum);
    LookupFinds(s => evidence(color + 3, s), offset + 2 * pitch, m.maximum);
    LookupFinds(s => evidence(color + 6, s), offset - pitch, m.maximum);
    LookupFinds(s => evidence(color + 9, s), offset + pitch, m.maximum);
    FitOfIs([evidence(color, offset), evidence(color + 3, offset + 2 * pitch),
             evidence(color + 6, offset - pitch), evidence(color + 9, offset + pitch)]);
  }

  /** The table of a colour's tap. */
  ghost predicate Holds(table: seq<Evidence>, evidence: (nat, nat, int) -> Evidence,
                        color: nat, tap: nat, maximum: int)
  {
    && |table| == TableSize(maximum)
    && forall i :: 0 <= i < |table| ==> table[i] == evidence(color, tap, i - maximum)
  }

  ghost predicate Measured(m: Model, evidence: (nat, nat, int) -> Evidence, colors: nat) {
    forall c: nat :: c < colors ==>
      && c < |m.within| && |m.within[c]| == 4
      && forall tap: nat :: tap < 4 ==> Holds(m.within[c][tap], evidence, c, tap, m.maximum)
  }

  /** The pitch fit collects the later taps of each colour at the line spacings 2, -1 and 1. */
  lemma PitchFitIs(m: Model, evidence: (nat, nat, int) -> Evidence, pitch: int)
    requires m.Valid() && m.Pitch(pitch) && Measured(m, evidence, |m.within|)
    ensures FitIs(m.PitchFit(pitch), WithinOf(evidence, |m.within|, pitch))
  {
    hide FitIs, Holds;
    WithinIs(m, evidence, |m.within|, pitch);
    FitOfIs(WithinOf(evidence, |m.within|, pitch));
    assert m.within[..|m.within|] == m.within;
  }

  ghost function WithinOf(evidence: (nat, nat, int) -> Evidence, colors: nat, pitch: int): seq<Evidence> {
    if colors == 0 then []
    else
      var c: nat := colors - 1;
      WithinOf(evidence, c, pitch) + [evidence(c, 1, 2 * pitch), evidence(c, 2, -pitch), evidence(c, 3, pitch)]
  }

  lemma {:induction false} WithinIs(m: Model, evidence: (nat, nat, int) -> Evidence, colors: nat, pitch: int)
    requires m.Valid() && m.Pitch(pitch) && colors <= |m.within| && Measured(m, evidence, colors)
    ensures m.WithinEvidence(m.within[..colors], pitch) == WithinOf(evidence, colors, pitch)
  {
    hide Holds;
    if colors > 0 {
      var c: nat := colors - 1;
      WithinIs(m, evidence, c, pitch);
      assert m.within[..colors][..c] == m.within[..c];
      TapsAre(m, m.within[c], evidence, c, pitch);
    }
  }

  lemma TapsAre(m: Model, taps: seq<seq<Evidence>>, evidence: (nat, nat, int) -> Evidence, color: nat, pitch: int)
    requires m.Pitch(pitch) && |taps| == 4
    requires forall tap :: 0 <= tap < 4 ==> |taps[tap]| == TableSize(m.maximum)
    requires forall tap: nat :: tap < 4 ==> Holds(taps[tap], evidence, color, tap, m.maximum)
    ensures m.TapEvidence(taps, pitch)
      == [evidence(color, 1, 2 * pitch), evidence(color, 2, -pitch), evidence(color, 3, pitch)]
  {
    assert Holds(taps[1], evidence, color, 1, m.maximum) && Holds(taps[2], evidence, color, 2, m.maximum);
    assert Holds(taps[3], evidence, color, 3, m.maximum);
    assert taps[..3][..2] == taps[..2] && taps[..2][..1] == taps[..1];
    assert m.TapEvidence(taps[..1], pitch) == [];
    assert m.TapEvidence(taps[..2], pitch) == [evidence(color, 1, 2 * pitch)];
    assert m.TapEvidence(taps[..3], pitch) == [evidence(color, 1, 2 * pitch), evidence(color, 2, -pitch)];
  }
}
