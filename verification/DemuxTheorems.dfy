/**
 What the demultiplexer's output means, for every accepted run: it is a
 function of the bit stream alone, its blocks unpack to the samples, and each
 edge stream is the exact run-length form of its channel.
 */
module AcquisitionTheorems {
  import opened Common
  import opened Arithmetic
  import opened Acquisition

  // ----- the split of a stream into frames is unique -----

  lemma CarryUnique(x: Carry, y: Carry, channels: nat)
    requires CarryValid(x, channels) && CarryValid(y, channels)
    requires StreamOf(x) == StreamOf(y)
    ensures x == y
  {
    var n := |x.frames|;
    FlattenLength(x.frames, channels);
    FlattenLength(y.frames, channels);
    QuotientUnique(n, |y.frames|, |x.pending|, |y.pending|, channels);
    assert x.pending == StreamOf(x)[n * channels..] == y.pending;
    forall i | 0 <= i < n
      ensures x.frames[i] == y.frames[i]
    {
      forall c: nat | c < channels
        ensures x.frames[i][c] == y.frames[i][c]
      {
        FlattenIndex(x.frames, channels, i, c);
        FlattenIndex(y.frames, channels, i, c);
        assert StreamOf(x)[i * channels + c] == StreamOf(y)[i * channels + c];
      }
    }
  }

  // ----- theorems about a demultiplexer in any reachable state -----

  /** Every consumed bit is accounted for, and sample `i` of channel `c` is bit `i * channels + c`. */
  lemma SamplesAreStreamBits(demux: Demux, i: nat, c: nat)
    requires demux.Valid() && c < demux.channels && i < demux.position
    ensures demux.position * demux.channels + |demux.pending| == |demux.Stream()|
    ensures 0 <= i * demux.channels + c < |demux.Stream()|
    ensures demux.Samples(c)[i] == demux.Stream()[i * demux.channels + c]
  {
    FlattenLength(demux.frames, demux.channels);
    FlattenIndex(demux.frames, demux.channels, i, c);
  }

  /** The blocks of a connected channel unpack to its samples, and all channels share one block shape. */
  lemma BlocksUnpackToSamples(demux: Demux, c: nat, d: nat)
    requires demux.Valid() && c < demux.channels && d < demux.channels
    requires demux.blockPorts[c] && demux.blockPorts[d]
    ensures forall b <- demux.blockLog[c] :: b.count <= 8 * |b.data|
    ensures UnpackAll(demux.blockLog[c]) == demux.Samples(c)
    ensures Shape(demux.blockLog[c]) == Shape(demux.blockLog[d])
  {
    TilesUnpack(demux.blockLog[c], demux.Samples(c), demux.PeriodNs());
  }

  /**
   Chunking independence: two demultiplexers that consumed the same bits, cut
   in any two ways, agree on their whole state, on every edge stream and on
   what their blocks unpack to.
   */
  lemma ChunkingIndependence(a: Demux, b: Demux)
    requires a.Valid() && b.Valid()
    requires a.channels == b.channels && a.sampleRateHz == b.sampleRateHz && a.edgePorts == b.edgePorts
    requires a.Stream() == b.Stream()
    ensures a.position == b.position && a.pending == b.pending && a.values == b.values
    ensures a.edgeLog == b.edgeLog
    ensures a.origin == b.origin && a.nextBit.Some? && b.nextBit.Some? ==> a.nextBit == b.nextBit
    ensures forall c: nat :: c < a.channels && a.blockPorts[c] && b.blockPorts[c] ==>
      && (forall k <- a.blockLog[c] :: k.count <= 8 * |k.data|)
      && (forall k <- b.blockLog[c] :: k.count <= 8 * |k.data|)
      && UnpackAll(a.blockLog[c]) == UnpackAll(b.blockLog[c])
  {
    CarryUnique(a.Progress(), b.Progress(), a.channels);
    forall c: nat | c < a.channels
      ensures a.values[c] == b.values[c] && a.edgeLog[c] == b.edgeLog[c]
    {
      assert a.Samples(c) == b.Samples(c);
      assert Reports(a.Samples(c), a.edgePorts[c], a.sampleRateHz, a.values[c], a.edgeLog[c]);
      assert Reports(b.Samples(c), b.edgePorts[c], b.sampleRateHz, b.values[c], b.edgeLog[c]);
    }
    forall c: nat | c < a.channels && a.blockPorts[c] && b.blockPorts[c]
      ensures forall k <- a.blockLog[c] :: k.count <= 8 * |k.data|
      ensures forall k <- b.blockLog[c] :: k.count <= 8 * |k.data|
      ensures UnpackAll(a.blockLog[c]) == UnpackAll(b.blockLog[c])
    {
      BlocksUnpackToSamples(a, c, c);
      BlocksUnpackToSamples(b, c, c);
    }
  }

  // ----- edge streams are run-length codes -----

  /** Holding each edge's value until the next edge. */
  function ValueAt(edges: seq<Sample>, time: nat): Option<bool> {
    if edges == [] then None
    else if edges[|edges| - 1].timestamp <= time then Some(edges[|edges| - 1].value)
    else ValueAt(edges[..|edges| - 1], time)
  }

  /** The edge stream under any clock that gives each position a time. */
  ghost function Stamped(samples: seq<bool>, clock: nat -> nat): (edges: seq<Sample>)
    ensures |edges| == |Changes(samples)|
  {
    var positions := Changes(samples);
    seq(|positions|, j requires 0 <= j < |positions| => Sample(samples[positions[j]], clock(positions[j])))
  }

  ghost predicate Ticks(clock: nat -> nat, n: nat) {
    forall p: nat, q: nat :: p < q < n ==> clock(p) < clock(q)
  }

  ghost predicate Steady(clock: nat -> nat, n: nat) {
    forall p: nat, q: nat :: p <= q < n ==> clock(p) <= clock(q)
  }

  lemma {:induction false} LastEdge(samples: seq<bool>)
    requires samples != []
    ensures Changes(samples) != []
    ensures var p := Changes(samples)[|Changes(samples)| - 1]; samples[p] == samples[|samples| - 1]
  {
    var n := |samples|;
    if n > 1 && samples[n - 1] == samples[n - 2] {
      LastEdge(samples[..n - 1]);
    }
  }

  /** The last sample adds an edge exactly when it differs from the one before it. */
  lemma StampedSnoc(samples: seq<bool>, clock: nat -> nat)
    requires samples != []
    ensures
      var n := |samples|;
      var front := Stamped(samples[..n - 1], clock);
      Stamped(samples, clock) ==
        if n == 1 || samples[n - 1] != samples[n - 2] then front + [Sample(samples[n - 1], clock(n - 1))] else front
  {
  }

  /** The last edge holds the value of the last sample and is no later than it. */
  lemma LastStamp(samples: seq<bool>, clock: nat -> nat)
    requires samples != [] && Steady(clock, |samples|)
    ensures
      var edges := Stamped(samples, clock);
      && edges != [] && edges[|edges| - 1].value == samples[|samples| - 1]
      && edges[|edges| - 1].timestamp <= clock(|samples| - 1)
  {
    LastEdge(samples);
    var p := Changes(samples)[|Changes(samples)| - 1];
    assert clock(p) <= clock(|samples| - 1);
  }

  /** Reading the edges back by time gives every sample. */
  ghost predicate Recovers(edges: seq<Sample>, samples: seq<bool>, clock: nat -> nat) {
    forall i :: 0 <= i < |samples| ==> ValueAt(edges, clock(i)) == Some(samples[i])
  }

  /** No sample changes value within one tick of the clock. */
  ghost predicate ChangesTick(samples: seq<bool>, clock: nat -> nat) {
    forall i :: 0 <= i < |samples| - 1 && samples[i] != samples[i + 1] ==> clock(i) < clock(i + 1)
  }

  lemma {:induction false} HoldingRecovers(samples: seq<bool>, clock: nat -> nat)
    requires Steady(clock, |samples|) && ChangesTick(samples, clock)
    ensures Recovers(Stamped(samples, clock), samples, clock)
  {
    hide Stamped;
    if samples != [] {
      var n := |samples|;
      var front := samples[..n - 1];
      var edges := Stamped(samples, clock);
      HoldingRecovers(front, clock);
      StampedSnoc(samples, clock);
      forall i | 0 <= i < n
        ensures ValueAt(edges, clock(i)) == Some(samples[i])
      {
        if i == n - 1 {
          LastStamp(samples, clock);
        } else {
          assert clock(i) <= clock(n - 2);
          assert ValueAt(Stamped(front, clock), clock(i)) == Some(front[i]);
          assert edges == Stamped(front, clock) || edges[..|edges| - 1] == Stamped(front, clock);
        }
      }
    }
  }

  /** Two samples with one timestamp read back as one value, whatever the edges are. */
  lemma RecoveredTicks(edges: seq<Sample>, samples: seq<bool>, clock: nat -> nat)
    requires Steady(clock, |samples|) && Recovers(edges, samples, clock)
    ensures ChangesTick(samples, clock)
  {
    forall i | 0 <= i < |samples| - 1 && samples[i] != samples[i + 1]
      ensures clock(i) < clock(i + 1)
    {
      assert ValueAt(edges, clock(i)) == Some(samples[i]);
      assert ValueAt(edges, clock(i + 1)) == Some(samples[i + 1]);
      assert clock(i) <= clock(i + 1);
    }
  }

  /** Holding recovers the samples exactly when no change falls within one tick. */
  lemma RecoversIff(samples: seq<bool>, clock: nat -> nat)
    requires Steady(clock, |samples|)
    ensures Recovers(Stamped(samples, clock), samples, clock) <==> ChangesTick(samples, clock)
  {
    if ChangesTick(samples, clock) {
      HoldingRecovers(samples, clock);
    }
    if Recovers(Stamped(samples, clock), samples, clock) {
      RecoveredTicks(Stamped(samples, clock), samples, clock);
    }
  }

  /** Samples between two equal times are all alike. */
  lemma {:induction false} SameTickSameValue(samples: seq<bool>, clock: nat -> nat, i: nat)
    requires Steady(clock, |samples|) && ChangesTick(samples, clock)
    requires i < |samples| && clock(i) == clock(|samples| - 1)
    ensures samples[i] == samples[|samples| - 1]
    decreases |samples| - i
  {
    if i + 1 < |samples| {
      assert clock(i) <= clock(i + 1) <= clock(|samples| - 1);
      SameTickSameValue(samples, clock, i + 1);
    }
  }

  /** A sample that repeats the last value at the end position leaves this as it is. */
  lemma ClosedRecoversIff(samples: seq<bool>, clock: nat -> nat)
    requires samples != [] && Steady(clock, |samples| + 1)
    ensures
      var closed := Stamped(samples, clock) + [Sample(samples[|samples| - 1], clock(|samples|))];
      Recovers(closed, samples, clock) <==> ChangesTick(samples, clock)
  {
    hide Stamped;
    var n := |samples|;
    var closed := Stamped(samples, clock) + [Sample(samples[n - 1], clock(n))];
    if ChangesTick(samples, clock) {
      HoldingRecovers(samples, clock);
      assert closed[..|closed| - 1] == Stamped(samples, clock);
      forall i | 0 <= i < n
        ensures ValueAt(closed, clock(i)) == Some(samples[i])
      {
        assert ValueAt(Stamped(samples, clock), clock(i)) == Some(samples[i]);
        if clock(n) <= clock(i) {
          assert clock(i) <= clock(n - 1) <= clock(n);
          SameTickSameValue(samples, clock, i);
        }
      }
    }
    if Recovers(closed, samples, clock) {
      RecoveredTicks(closed, samples, clock);
    }
  }

  /** Every list of `n` samples can be read back exactly when the clock moves at every position. */
  lemma AllRecoverIff(clock: nat -> nat, n: nat)
    requires Steady(clock, n)
    ensures Ticks(clock, n) <==>
      forall samples: seq<bool> :: |samples| == n ==> Recovers(Stamped(samples, clock), samples, clock)
  {
    forall samples: seq<bool> | |samples| == n && Ticks(clock, n)
      ensures Recovers(Stamped(samples, clock), samples, clock)
    {
      RecoversIff(samples, clock);
    }
    if !Ticks(clock, n) {
      var p := RepeatedTick(clock, n);
      var samples := seq(n, i => i > p);
      assert samples[p] != samples[p + 1];
      RecoversIff(samples, clock);
    }
  }

  lemma RepeatedTick(clock: nat -> nat, n: nat) returns (p: nat)
    requires Steady(clock, n) && !Ticks(clock, n)
    ensures p + 1 < n && clock(p) == clock(p + 1)
  {
    var i: nat, j: nat :| i < j < n && !(clock(i) < clock(j));
    assert clock(i) <= clock(i + 1) <= clock(j);
    p := i;
  }

  /** Values strictly alternate, positions strictly increase, and the first sample opens the stream. */
  lemma {:induction false} EdgesAlternate(samples: seq<bool>)
    ensures samples != [] ==> Changes(samples) != [] && Changes(samples)[0] == 0
    ensures forall j :: 0 <= j < |Changes(samples)| - 1 ==>
      Changes(samples)[j] < Changes(samples)[j + 1]
      && samples[Changes(samples)[j]] != samples[Changes(samples)[j + 1]]
  {
    if samples != [] {
      var n := |samples|;
      var front := samples[..n - 1];
      EdgesAlternate(front);
      if n > 1 {
        LastEdge(front);
        var before, after := Changes(front), Changes(samples);
        forall j | 0 <= j < |after| - 1
          ensures after[j] < after[j + 1] && samples[after[j]] != samples[after[j + 1]]
        {
          if j + 1 < |before| {
            assert front[before[j]] != front[before[j + 1]];
          } else {
            assert after[j] == before[|before| - 1];
          }
        }
      }
    }
  }

  // ----- timestamps -----

  /** Timestamps never decrease, saturated or not, and never leave the 64-bit range. */
  lemma TimestampMonotone(p: nat, q: nat, rate: nat)
    requires rate > 0 && p <= q
    ensures Timestamp(p, rate) <= Timestamp(q, rate) <= U64_MAX
  {
    DivMonotone(Min(q * NANOS_PER_SECOND, U64_MAX), U64_MAX, rate);
    DivAtMost(U64_MAX, rate);
    DivMonotone(Min(p * NANOS_PER_SECOND, U64_MAX), Min(q * NANOS_PER_SECOND, U64_MAX), rate);
  }

  lemma DivAtMost(a: nat, d: nat)
    requires d > 0
    ensures a / d <= a
  {
    assert a == (a / d) * d + a % d;
    MulMonotone(1, d, a / d);
  }

  /** Below saturation and at no more than one sample per nanosecond, they strictly increase. */
  lemma TimestampStrict(p: nat, q: nat, rate: nat)
    requires 0 < rate <= NANOS_PER_SECOND && p < q
    requires q * NANOS_PER_SECOND <= U64_MAX
    ensures Timestamp(p, rate) < Timestamp(q, rate)
  {
    var a, b := p * NANOS_PER_SECOND, q * NANOS_PER_SECOND;
    assert a + rate <= b;
    DivStep(a, rate);
    DivMonotone(a + rate, b, rate);
  }

  /** Faster than that, the first two samples already share a timestamp. */
  lemma TimestampCollides(rate: nat)
    requires rate > NANOS_PER_SECOND
    ensures Timestamp(0, rate) == Timestamp(1, rate)
  {
  }

  /** Once the product saturates, time stands still. */
  lemma TimestampSaturates(p: nat, q: nat, rate: nat)
    requires rate > 0 && p <= q && p * NANOS_PER_SECOND >= U64_MAX
    ensures Timestamp(p, rate) == Timestamp(q, rate) == U64_MAX / rate
  {
    MulMonotone(p, q, NANOS_PER_SECOND);
  }

  ghost function Clock(rate: nat): nat -> nat
    requires rate > 0
  {
    (p: nat) => Timestamp(p, rate)
  }

  lemma ClockSteady(rate: nat, n: nat)
    requires rate > 0
    ensures Steady(Clock(rate), n)
  {
    forall p: nat, q: nat | p <= q < n
      ensures Clock(rate)(p) <= Clock(rate)(q)
    {
      TimestampMonotone(p, q, rate);
    }
  }

  /**
   When `n` positions have distinct timestamps: at most one sample per
   nanosecond, and no saturated product but possibly the last one, which must
   still reach a later nanosecond than its predecessor.
   */
  predicate Distinguishes(rate: nat, n: nat)
    requires rate > 0
  {
    n <= 1
    || (rate <= NANOS_PER_SECOND
        && ((n - 1) * NANOS_PER_SECOND <= U64_MAX
            || ((n - 2) * NANOS_PER_SECOND <= U64_MAX && (n - 2) * NANOS_PER_SECOND / rate < U64_MAX / rate)))
  }

  /** That condition is exact. */
  lemma TicksIff(rate: nat, n: nat)
    requires rate > 0
    ensures Ticks(Clock(rate), n) <==> Distinguishes(rate, n)
  {
    if Distinguishes(rate, n) {
      forall p: nat, q: nat | p < q < n
        ensures Clock(rate)(p) < Clock(rate)(q)
      {
        DistinctStamps(p, q, rate, n);
      }
    } else if rate > NANOS_PER_SECOND {
      TimestampCollides(rate);
      assert !(Clock(rate)(0) < Clock(rate)(1));
    } else {
      LateCollision(rate, n);
      assert !(Clock(rate)(n - 2) < Clock(rate)(n - 1));
    }
  }

  lemma DistinctStamps(p: nat, q: nat, rate: nat, n: nat)
    requires rate > 0 && p < q < n && Distinguishes(rate, n)
    ensures Timestamp(p, rate) < Timestamp(q, rate)
  {
    if q * NANOS_PER_SECOND <= U64_MAX {
      TimestampStrict(p, q, rate);
    } else {
      assert q == n - 1;
      TimestampMonotone(p, n - 2, rate);
    }
  }

  lemma LateCollision(rate: nat, n: nat)
    requires 0 < rate <= NANOS_PER_SECOND && !Distinguishes(rate, n)
    ensures n >= 2 && Timestamp(n - 2, rate) == Timestamp(n - 1, rate)
  {
    if (n - 2) * NANOS_PER_SECOND > U64_MAX {
      TimestampSaturates(n - 2, n - 1, rate);
    } else {
      DivMonotone((n - 2) * NANOS_PER_SECOND, U64_MAX, rate);
    }
  }

  /** Captures of `n` samples can all be read back by time exactly under that condition. */
  lemma TimeRecoversIff(rate: nat, n: nat)
    requires rate > 0
    ensures Distinguishes(rate, n) <==>
      forall samples: seq<bool> :: |samples| == n ==> Recovers(EdgeStream(samples, rate), samples, Clock(rate))
  {
    ClockSteady(rate, n);
    TicksIff(rate, n);
    AllRecoverIff(Clock(rate), n);
    forall samples: seq<bool>
      ensures Stamped(samples, Clock(rate)) == EdgeStream(samples, rate)
    {
      StampedEdges(samples, rate);
    }
  }

  lemma StampedEdges(samples: seq<bool>, rate: nat)
    requires rate > 0
    ensures Stamped(samples, Clock(rate)) == EdgeStream(samples, rate)
  {
  }

  /** A saturated example: at 100 MHz every later sample shares the last timestamp. */
  lemma SaturatedExample(q: nat)
    requires q >= 18_446_744_074
    ensures Timestamp(q, 100_000_000) == Timestamp(18_446_744_074, 100_000_000)
    ensures !Distinguishes(100_000_000, 18_446_744_076)
  {
    TimestampSaturates(18_446_744_074, q, 100_000_000);
  }

  /**
   A connected channel's edge stream, open or closed, read back by time, gives
   every sample of the channel exactly when no change falls within one timestamp.
   */
  lemma EdgeStreamRecoversSamples(demux: Demux, c: nat)
    requires demux.Valid() && c < demux.channels && demux.edgePorts[c]
    ensures
      var samples, clock := demux.Samples(c), Clock(demux.sampleRateHz);
      && (Recovers(demux.edgeLog[c], samples, clock) <==> ChangesTick(samples, clock))
      && (Recovers(ClosedStream(samples, demux.sampleRateHz), samples, clock) <==> ChangesTick(samples, clock))
  {
    var rate, samples := demux.sampleRateHz, demux.Samples(c);
    assert Reports(samples, true, rate, demux.values[c], demux.edgeLog[c]);
    StampedEdges(samples, rate);
    ClockSteady(rate, |samples| + 1);
    assert Steady(Clock(rate), |samples|);
    RecoversIff(samples, Clock(rate));
    if samples != [] {
      ClosedRecoversIff(samples, Clock(rate));
    }
  }

  // ----- the emitted logs -----

  ghost predicate Alternates(edges: seq<Sample>) {
    forall j :: 0 <= j < |edges| - 1 ==> edges[j].value != edges[j + 1].value
  }

  ghost predicate InTimeOrder(edges: seq<Sample>) {
    forall j, k :: 0 <= j <= k < |edges| ==> edges[j].timestamp <= edges[k].timestamp
  }

  lemma EdgeStreamOrdered(samples: seq<bool>, rate: nat)
    requires rate > 0
    ensures Alternates(EdgeStream(samples, rate)) && InTimeOrder(EdgeStream(samples, rate))
    ensures samples != [] ==> EdgeStream(samples, rate) != [] && EdgeStream(samples, rate)[0] == Sample(samples[0], 0)
  {
    EdgesAlternate(samples);
    var positions := Changes(samples);
    forall j, k | 0 <= j <= k < |positions|
      ensures Timestamp(positions[j], rate) <= Timestamp(positions[k], rate)
    {
      PositionsIncrease(positions, j, k);
      TimestampMonotone(positions[j], positions[k], rate);
    }
  }

  lemma {:induction false} PositionsIncrease(positions: seq<nat>, j: nat, k: nat)
    requires j <= k < |positions|
    requires forall i :: 0 <= i < |positions| - 1 ==> positions[i] < positions[i + 1]
    ensures positions[j] <= positions[k]
    decreases k
  {
    if j < k {
      PositionsIncrease(positions, j, k - 1);
    }
  }

  /** The closing sample repeats the last value, no earlier than any edge. */
  lemma ClosedStreamOrdered(samples: seq<bool>, rate: nat)
    requires rate > 0
    ensures
      var closed := ClosedStream(samples, rate);
      && InTimeOrder(closed)
      && (samples == [] <==> closed == [])
      && (samples != [] ==>
            && |closed| >= 2 && Alternates(closed[..|closed| - 1])
            && closed[|closed| - 1].value == closed[|closed| - 2].value == samples[|samples| - 1]
            && closed[|closed| - 1].timestamp == Timestamp(|samples|, rate))
  {
    EdgeStreamOrdered(samples, rate);
    if samples != [] {
      var edges, closed := EdgeStream(samples, rate), ClosedStream(samples, rate);
      assert closed[..|closed| - 1] == edges;
      LastEdge(samples);
      forall j | 0 <= j < |edges|
        ensures edges[j].timestamp <= Timestamp(|samples|, rate)
      {
        TimestampMonotone(Changes(samples)[j], |samples|, rate);
      }
    }
  }

  /** What every connected channel has emitted at any point of a run. */
  lemma EmittedEdgesOrdered(demux: Demux, c: nat)
    requires demux.Valid() && c < demux.channels && demux.edgePorts[c]
    ensures Alternates(demux.edgeLog[c]) && InTimeOrder(demux.edgeLog[c])
    ensures demux.position > 0 ==> demux.edgeLog[c] != [] && demux.edgeLog[c][0] == Sample(demux.Samples(c)[0], 0)
  {
    assert Reports(demux.Samples(c), true, demux.sampleRateHz, demux.values[c], demux.edgeLog[c]);
    EdgeStreamOrdered(demux.Samples(c), demux.sampleRateHz);
  }

  // ----- any way of cutting a stream is accepted -----

  /** Usable chunks that follow one another without a gap, starting where expected. */
  ghost predicate Contiguous(chunks: seq<LogicChunk>, channels: nat, expected: Option<U64>) {
    chunks == [] ||
      var chunk := chunks[0];
      && chunk.InBounds() && chunk.bitLen > 0 && chunk.encoding.InterleavedLsbFirst?
      && chunk.channelCount == channels && (expected.Some? ==> chunk.startBit == expected.value)
      && chunk.startBit + chunk.bitLen <= U64_MAX
      && Contiguous(chunks[1..], channels, Some(chunk.startBit + chunk.bitLen))
  }

  ghost function Fetches(chunks: seq<LogicChunk>): seq<Fetch> {
    seq(|chunks|, i requires 0 <= i < |chunks| => Fetched(chunks[i]))
  }

  ghost function Joined(chunks: seq<LogicChunk>): seq<bool>
    requires forall c <- chunks :: c.InBounds()
  {
    if chunks == [] then [] else chunks[0].Bits() + Joined(chunks[1..])
  }

  /** The capture loop takes every bit of a gapless list of chunks, whatever their sizes and bit offsets. */
  lemma {:induction false} GaplessChunksAccepted(chunks: seq<LogicChunk>, channels: nat, expected: Option<U64>)
    requires Contiguous(chunks, channels, expected)
    ensures forall c <- chunks :: c.InBounds()
    ensures Intake(Fetches(chunks), channels, expected) == IntakeResult(Joined(chunks), chunks, None)
  {
    if chunks != [] {
      var chunk := chunks[0];
      GaplessChunksAccepted(chunks[1..], channels, Some(chunk.startBit + chunk.bitLen));
      assert Fetches(chunks)[1..] == Fetches(chunks[1..]);
      assert chunks == [chunk] + chunks[1..];
    }
  }

  // ----- what chunks hold, and which fetches count -----

  /** Bit `k` of a byte is the one of weight 2^k. */
  lemma BitWeights(b: bv8)
    ensures BitOf(b, 0) <==> b & 1 != 0
    ensures BitOf(b, 1) <==> b & 2 != 0
    ensures BitOf(b, 2) <==> b & 4 != 0
    ensures BitOf(b, 3) <==> b & 8 != 0
    ensures BitOf(b, 4) <==> b & 16 != 0
    ensures BitOf(b, 5) <==> b & 32 != 0
    ensures BitOf(b, 6) <==> b & 64 != 0
    ensures BitOf(b, 7) <==> b & 128 != 0
  {
  }

  /** A chunk whose bytes pack some padding as long as its bit offset, then samples, holds those samples. */
  lemma ChunkHoldsPacked(chunk: LogicChunk, pad: seq<bool>, samples: seq<bool>, rest: seq<bool>)
    requires Packs(chunk.data, pad + samples + rest)
    requires |pad| == chunk.bitOffset < 8 && |samples| == chunk.bitLen && chunk.bitOffset + chunk.bitLen <= U64_MAX
    ensures chunk.InBounds() && chunk.Bits() == samples
  {
    var whole := pad + samples + rest;
    forall i: nat | i < chunk.bitLen
      ensures chunk.Bits()[i] == samples[i]
    {
      var k := chunk.bitOffset + i;
      assert BitOf(chunk.data[k / 8], k % 8) <==> whole[k];
    }
  }

  /** The byte of bit `i` of the span exists. */
  predicate HasByte(chunk: LogicChunk, i: nat) {
    (chunk.bitOffset + i) / 8 < |chunk.data|
  }

  /** A span is in bounds exactly when its offset is inside a byte and every one of its bits is inside the data. */
  lemma InBoundsIff(chunk: LogicChunk)
    ensures chunk.InBounds() <==>
      && chunk.bitOffset < 8 && chunk.bitOffset + chunk.bitLen <= U64_MAX && chunk.bitOffset <= 8 * |chunk.data|
      && forall i: nat :: i < chunk.bitLen ==> HasByte(chunk, i)
  {
    if chunk.bitLen > 0 {
      var last: nat := chunk.bitLen - 1;
      assert HasByte(chunk, last) <==> chunk.bitOffset + last < 8 * |chunk.data|;
    }
  }

  /** A chunk is taken exactly when it is in bounds, of the right width, next in line and inside the position range. */
  lemma RefusalReasons(chunk: LogicChunk, channels: nat, expected: Option<U64>)
    ensures
      var refusal := RefusalOf(chunk, channels, expected);
      var follows := expected.Some? ==> chunk.startBit == expected.value;
      && (refusal == Some(OutsideBackingData) <==> !chunk.InBounds())
      && (refusal == Some(WrongChannelCount) <==> chunk.InBounds() && chunk.channelCount != channels)
      && (refusal == Some(NonContiguous) <==> chunk.InBounds() && chunk.channelCount == channels && !follows)
      && (refusal.None? <==>
            && chunk.InBounds() && chunk.channelCount == channels && follows
            && chunk.startBit + chunk.bitLen <= U64_MAX)
      && (refusal.Some? ==>
            refusal.value in [OutsideBackingData, WrongChannelCount, NonContiguous, BitPositionOverflow])
  {
  }

  predicate IsEmpty(fetch: Fetch) {
    fetch.Fetched? && fetch.chunk.bitLen == 0
  }

  predicate IsOpaque(fetch: Fetch) {
    fetch.Fetched? && fetch.chunk.encoding.Opaque?
  }

  ghost function Without(fetches: seq<Fetch>, skipped: Fetch -> bool): seq<Fetch> {
    if fetches == [] then []
    else (if skipped(fetches[0]) then [] else [fetches[0]]) + Without(fetches[1..], skipped)
  }

  /** What the first fetch adds to the rest. */
  lemma IntakeCons(fetch: Fetch, rest: seq<Fetch>, channels: nat, expected: Option<U64>)
    ensures
      var whole := Intake([fetch] + rest, channels, expected);
      && (fetch.EndOfCapture? ==> whole == IntakeResult([], [], None))
      && (fetch.DriverFailed? ==> whole == IntakeResult([], [], Some(Driver)))
      && (IsEmpty(fetch) ==> whole == Intake(rest, channels, expected))
      && (IsOpaque(fetch) && !IsEmpty(fetch) ==>
            var later := Intake(rest, channels, expected); whole == later.(raw := [fetch.chunk] + later.raw))
  {
    assert ([fetch] + rest)[1..] == rest;
  }

  lemma IntakeConsSampled(chunk: LogicChunk, rest: seq<Fetch>, channels: nat, expected: Option<U64>)
    requires chunk.bitLen > 0 && chunk.encoding.InterleavedLsbFirst?
    ensures
      var whole, refusal := Intake([Fetched(chunk)] + rest, channels, expected), RefusalOf(chunk, channels, expected);
      && (refusal.Some? ==> whole == IntakeResult([], [chunk], refusal))
      && (refusal.None? ==>
            && chunk.InBounds() && chunk.startBit + chunk.bitLen <= U64_MAX
            && var later := Intake(rest, channels, Some(chunk.startBit + chunk.bitLen));
               whole == IntakeResult(chunk.Bits() + later.bits, [chunk] + later.raw, later.failure))
  {
    assert ([Fetched(chunk)] + rest)[1..] == rest;
  }

  /** Empty chunks make no difference at all. */
  lemma {:induction false} EmptyChunksIgnored(fetches: seq<Fetch>, channels: nat, expected: Option<U64>)
    ensures Intake(Without(fetches, IsEmpty), channels, expected) == Intake(fetches, channels, expected)
  {
    hide Intake, RefusalOf, LogicChunk.Bits, LogicChunk.InBounds;
    if fetches != [] {
      var fetch, tail := fetches[0], fetches[1..];
      var rest := Without(tail, IsEmpty);
      assert fetches == [fetch] + tail;
      assert Without(fetches, IsEmpty) == if IsEmpty(fetch) then rest else [fetch] + rest;
      EmptyChunksIgnored(tail, channels, expected);
      IntakeCons(fetch, tail, channels, expected);
      IntakeCons(fetch, rest, channels, expected);
      if fetch.Fetched? && !IsEmpty(fetch) && !IsOpaque(fetch) {
        IntakeConsSampled(fetch.chunk, tail, channels, expected);
        IntakeConsSampled(fetch.chunk, rest, channels, expected);
        if RefusalOf(fetch.chunk, channels, expected).None? {
          EmptyChunksIgnored(tail, channels, Some(fetch.chunk.startBit + fetch.chunk.bitLen));
        }
      }
    }
  }

  /** Opaque chunks add nothing to the stream and fail nothing. */
  lemma {:induction false} OpaqueChunksAside(fetches: seq<Fetch>, channels: nat, expected: Option<U64>)
    ensures
      var all, sampled := Intake(fetches, channels, expected), Intake(Without(fetches, IsOpaque), channels, expected);
      all.bits == sampled.bits && all.failure == sampled.failure
  {
    hide Intake, RefusalOf, LogicChunk.Bits, LogicChunk.InBounds;
    if fetches != [] {
      var fetch, tail := fetches[0], fetches[1..];
      var rest := Without(tail, IsOpaque);
      assert fetches == [fetch] + tail;
      assert Without(fetches, IsOpaque) == if IsOpaque(fetch) then rest else [fetch] + rest;
      OpaqueChunksAside(tail, channels, expected);
      IntakeCons(fetch, tail, channels, expected);
      IntakeCons(fetch, rest, channels, expected);
      if fetch.Fetched? && !IsEmpty(fetch) && !IsOpaque(fetch) {
        IntakeConsSampled(fetch.chunk, tail, channels, expected);
        IntakeConsSampled(fetch.chunk, rest, channels, expected);
        if RefusalOf(fetch.chunk, channels, expected).None? {
          OpaqueChunksAside(tail, channels, Some(fetch.chunk.startBit + fetch.chunk.bitLen));
        }
      }
    }
  }

  /** The nonempty chunks fetched before the source ends or the driver fails. */
  ghost function Arrived(fetches: seq<Fetch>): seq<LogicChunk> {
    if fetches == [] || !fetches[0].Fetched? then []
    else (if fetches[0].chunk.bitLen == 0 then [] else [fetches[0].chunk]) + Arrived(fetches[1..])
  }

  /** The raw port sees every nonempty chunk in order, opaque or not, up to and including a refused one. */
  lemma {:induction false} RawSeesArrivals(fetches: seq<Fetch>, channels: nat, expected: Option<U64>)
    ensures
      var intake := Intake(fetches, channels, expected);
      && intake.raw <= Arrived(fetches)
      && (intake.failure.None? || intake.failure == Some(Driver) ==> intake.raw == Arrived(fetches))
      && (intake.failure.Some? && intake.failure != Some(Driver) ==> intake.raw != [])
  {
    hide RefusalOf, LogicChunk.Bits, LogicChunk.InBounds;
    if fetches != [] && fetches[0].Fetched? {
      var chunk := fetches[0].chunk;
      RefusalReasons(chunk, channels, expected);
      RawSeesArrivals(fetches[1..], channels, expected);
      if chunk.bitLen > 0 && RefusalOf(chunk, channels, expected).None? {
        RawSeesArrivals(fetches[1..], channels, Some(chunk.startBit + chunk.bitLen));
      }
    }
  }

  /** Below saturation a timestamp is the exact time rounded down. */
  lemma TimestampExact(p: nat, rate: nat)
    requires rate > 0 && p * NANOS_PER_SECOND <= U64_MAX
    ensures Timestamp(p, rate) * rate <= p * 1_000_000_000 < (Timestamp(p, rate) + 1) * rate
  {
    var a := p * NANOS_PER_SECOND;
    assert a == (a / rate) * rate + a % rate;
    assert (a / rate + 1) * rate == (a / rate) * rate + rate;
  }

  lemma {:induction false} TilesPeriod(blocks: seq<SampleBlock>, samples: seq<bool>, period: nat, i: nat)
    requires Tiles(blocks, samples, period) && i < |blocks|
    ensures blocks[i].periodNs == period
  {
    if i < |blocks| - 1 {
      TilesPeriod(blocks[..|blocks| - 1], samples[..blocks[|blocks| - 1].start], period, i);
    }
  }

  /** Every emitted block carries the sample period in whole nanoseconds, rounded down. */
  lemma BlockPeriods(demux: Demux, c: nat, i: nat)
    requires demux.Valid() && c < demux.channels && demux.blockPorts[c] && i < |demux.blockLog[c]|
    ensures
      var period, rate := demux.blockLog[c][i].periodNs, demux.sampleRateHz;
      period * rate <= 1_000_000_000 < (period + 1) * rate
  {
    demux.SoundBlocks();
    TilesPeriod(demux.blockLog[c], demux.Samples(c), demux.PeriodNs(), i);
    var rate := demux.sampleRateHz;
    assert NANOS_PER_SECOND == (NANOS_PER_SECOND / rate) * rate + NANOS_PER_SECOND % rate;
    assert (NANOS_PER_SECOND / rate + 1) * rate == (NANOS_PER_SECOND / rate) * rate + rate;
  }

  // ----- two finished captures -----

  /** A demultiplexer after a run that did not fail: its edge streams are closed. */
  ghost predicate Finished(demux: Demux)
    reads demux
  {
    && demux.Static() && demux.Aligned() && demux.BlocksSound() && |demux.edgeLog| == demux.channels
    && forall c: nat :: c < demux.channels ==>
      demux.edgeLog[c] == if demux.edgePorts[c] then ClosedStream(demux.Samples(c), demux.sampleRateHz) else []
  }

  /** Finished captures of the same bits agree, however the bits were cut. */
  lemma FinishedAlike(a: Demux, b: Demux)
    requires Finished(a) && Finished(b) && a.Stream() == b.Stream()
    requires a.channels == b.channels && a.sampleRateHz == b.sampleRateHz && a.edgePorts == b.edgePorts
    ensures a.position == b.position && a.pending == b.pending && a.edgeLog == b.edgeLog
    ensures forall c: nat :: c < a.channels && a.blockPorts[c] && b.blockPorts[c] ==>
      && (forall k <- a.blockLog[c] :: k.count <= 8 * |k.data|)
      && (forall k <- b.blockLog[c] :: k.count <= 8 * |k.data|)
      && UnpackAll(a.blockLog[c]) == UnpackAll(b.blockLog[c])
  {
    CarryUnique(a.Progress(), b.Progress(), a.channels);
    forall c: nat | c < a.channels
      ensures a.edgeLog[c] == b.edgeLog[c]
    {
      assert a.Samples(c) == b.Samples(c);
    }
    forall c: nat | c < a.channels && a.blockPorts[c] && b.blockPorts[c]
      ensures forall k <- a.blockLog[c] :: k.count <= 8 * |k.data|
      ensures forall k <- b.blockLog[c] :: k.count <= 8 * |k.data|
      ensures UnpackAll(a.blockLog[c]) == UnpackAll(b.blockLog[c])
    {
      TilesUnpack(a.blockLog[c], a.Samples(c), a.PeriodNs());
      TilesUnpack(b.blockLog[c], b.Samples(c), b.PeriodNs());
    }
  }

  /** A whole capture of a gapless list of chunks by a fresh demultiplexer. */
  method Capture(chunks: seq<LogicChunk>, channels: nat, sampleRateHz: U64, edgePorts: seq<bool>, blockPorts: seq<bool>)
    returns (demux: Demux)
    requires 1 <= channels && 0 < sampleRateHz && |edgePorts| == channels && |blockPorts| == channels
    requires Contiguous(chunks, channels, None)
    ensures fresh(demux) && demux.channels == channels && demux.sampleRateHz == sampleRateHz
    ensures demux.edgePorts == edgePorts && demux.blockPorts == blockPorts
    ensures (forall c <- chunks :: c.InBounds()) && Finished(demux) && demux.Stream() == Joined(chunks)
  {
    hide StreamOf, Intake, Contiguous;
    GaplessChunksAccepted(chunks, channels, None);
    demux := new Demux(channels, sampleRateHz, edgePorts, blockPorts);
    var fetches := seq(|chunks|, i requires 0 <= i < |chunks| => Fetched(chunks[i]));
    assert fetches == Fetches(chunks);
    var failure := demux.Run(fetches, true);
    assert demux.Stream() == [] + Joined(chunks);
  }

  /** Two captures of the same bits end alike, whatever the chunks and their bit offsets were. */
  method CapturesAgree(xs: seq<LogicChunk>, ys: seq<LogicChunk>, channels: nat, sampleRateHz: U64,
                       edgePorts: seq<bool>, blockPorts: seq<bool>)
    returns (a: Demux, b: Demux)
    requires 1 <= channels && 0 < sampleRateHz && |edgePorts| == channels && |blockPorts| == channels
    requires Contiguous(xs, channels, None) && Contiguous(ys, channels, None)
    requires (forall c <- xs :: c.InBounds()) && (forall c <- ys :: c.InBounds()) && Joined(xs) == Joined(ys)
    ensures Finished(a) && Finished(b) && a.blockPorts == b.blockPorts == blockPorts && a.channels == channels
    ensures a.position == b.position && a.pending == b.pending && a.edgeLog == b.edgeLog
    ensures forall c: nat :: c < channels && blockPorts[c] ==>
      && (forall k <- a.blockLog[c] :: k.count <= 8 * |k.data|)
      && (forall k <- b.blockLog[c] :: k.count <= 8 * |k.data|)
      && UnpackAll(a.blockLog[c]) == UnpackAll(b.blockLog[c])
  {
    hide StreamOf, Contiguous, Joined, UnpackAll;
    a := Capture(xs, channels, sampleRateHz, edgePorts, blockPorts);
    b := Capture(ys, channels, sampleRateHz, edgePorts, blockPorts);
    FinishedAlike(a, b);
  }

  /** Frames packed behind any bit offset come out of the ports as they went in. */
  method CaptureFrames(chunk: LogicChunk, frames: seq<seq<bool>>, pad: seq<bool>, rest: seq<bool>,
                       channels: nat, sampleRateHz: U64, edgePorts: seq<bool>, blockPorts: seq<bool>)
    returns (demux: Demux)
    requires 1 <= channels && 0 < sampleRateHz && |edgePorts| == channels && |blockPorts| == channels
    requires Frames(frames, channels) && frames != [] && Packs(chunk.data, pad + Flatten(frames) + rest)
    requires |pad| == chunk.bitOffset < 8 && |Flatten(frames)| == chunk.bitLen && chunk.channelCount == channels
    requires chunk.bitOffset + chunk.bitLen <= U64_MAX && chunk.startBit + chunk.bitLen <= U64_MAX
    requires chunk.encoding.InterleavedLsbFirst?
    ensures demux.channels == channels && |demux.edgeLog| == |demux.blockLog| == channels
    ensures forall c: nat :: c < channels && blockPorts[c] ==>
      && (forall b <- demux.blockLog[c] :: b.count <= 8 * |b.data|)
      && UnpackAll(demux.blockLog[c]) == Channel(frames, c)
    ensures forall c: nat :: c < channels && edgePorts[c] ==>
      demux.edgeLog[c] == ClosedStream(Channel(frames, c), sampleRateHz)
  {
    hide UnpackAll, ClosedStream, StreamOf, Packs, Channel, Flatten, LogicChunk.InBounds;
    ChunkHoldsPacked(chunk, pad, Flatten(frames), rest);
    FramesFill(frames, channels);
    OneChunk(chunk, channels);
    demux := Capture([chunk], channels, sampleRateHz, edgePorts, blockPorts);
    FramesComplete(frames);
    CarryUnique(demux.Progress(), Carry(frames, []), channels);
    forall c: nat | c < channels && blockPorts[c]
      ensures forall b <- demux.blockLog[c] :: b.count <= 8 * |b.data|
      ensures UnpackAll(demux.blockLog[c]) == Channel(frames, c)
    {
      TilesUnpack(demux.blockLog[c], demux.Samples(c), demux.PeriodNs());
    }
  }

  lemma FramesFill(frames: seq<seq<bool>>, channels: nat)
    requires Frames(frames, channels) && frames != [] && channels > 0
    ensures |Flatten(frames)| > 0
  {
    FlattenIndex(frames, channels, 0, 0);
  }

  lemma FramesComplete(frames: seq<seq<bool>>)
    ensures StreamOf(Carry(frames, [])) == Flatten(frames)
  {
  }

  lemma OneChunk(chunk: LogicChunk, channels: nat)
    requires chunk.InBounds() && chunk.bitLen > 0 && chunk.encoding.InterleavedLsbFirst?
    requires chunk.channelCount == channels && chunk.startBit + chunk.bitLen <= U64_MAX
    ensures Contiguous([chunk], channels, None)
    ensures Joined([chunk]) == chunk.Bits()
  {
    assert [chunk][1..] == [];
    assert Joined([]) == [];
    assert Joined([chunk]) == chunk.Bits() + [];
  }
}
