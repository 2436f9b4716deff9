/**
 The streaming bit demultiplexer of the acquisition source.

 Chunks cut an interleaved, least-significant-bit-first stream at arbitrary bit
 positions. `Demux` turns them into one edge stream and one list of packed
 blocks per channel. Everything it produces is tied here to the whole bit
 stream consumed so far, never to the way that stream was cut.
 */
module Acquisition {
  import opened Common

  const NANOS_PER_SECOND: nat := 1_000_000_000

  // ----- bits of a byte -----

  /** Bit `k` of `b`, counted from the least significant one. */
  predicate BitOf(b: bv8, k: nat)
    requires k < 8
  {
    (b >> k) & 1 != 0
  }

  function WithBit(b: bv8, k: nat): bv8
    requires k < 8
  {
    b | ((1 as bv8) << k)
  }

  lemma WithBitSetsOneBit(b: bv8, k: nat)
    requires k < 8
    ensures forall j: nat :: j < 8 ==> (BitOf(WithBit(b, k), j) <==> BitOf(b, j) || j == k)
    ensures forall j: nat :: j < 8 ==> !BitOf(0, j)
  {
  }

  // ----- chunks -----

  datatype Encoding = InterleavedLsbFirst | Opaque

  datatype LogicChunk = LogicChunk(
    data: seq<bv8>,
    bitOffset: nat,
    bitLen: U64,
    channelCount: nat,
    startBit: U64,
    encoding: Encoding)
  {
    /** The valid span lies inside the backing bytes; its end is computed with a checked addition. */
    predicate InBounds() {
      && bitOffset < 8
      && bitOffset + bitLen <= U64_MAX
      && bitOffset + bitLen <= |data| * 8
    }

    predicate Bit(relative: nat)
      requires InBounds() && relative < bitLen
    {
      var absolute := bitOffset + relative;
      BitOf(data[absolute / 8], absolute % 8)
    }

    /** The chunk's contribution to the capture stream. */
    function Bits(): (bits: seq<bool>)
      requires InBounds()
      ensures |bits| == bitLen
    {
      seq(bitLen, i requires 0 <= i < bitLen => Bit(i))
    }
  }

  datatype Error =
    | ZeroSampleRate
    | OutsideBackingData
    | WrongChannelCount
    | NonContiguous
    | BitPositionOverflow
    | Driver

  /** Why a push refuses a chunk, given the bit position it expects next. */
  function RefusalOf(chunk: LogicChunk, channels: nat, expected: Option<U64>): Option<Error> {
    if !chunk.InBounds() then Some(OutsideBackingData)
    else if chunk.channelCount != channels then Some(WrongChannelCount)
    else if expected.Some? && chunk.startBit != expected.value then Some(NonContiguous)
    else if chunk.startBit + chunk.bitLen > U64_MAX then Some(BitPositionOverflow)
    else None
  }

  // ----- what one channel's samples are, and how they are reported -----

  /** A frame holds one sample of every channel. */
  ghost predicate Frames(frames: seq<seq<bool>>, channels: nat) {
    forall i :: 0 <= i < |frames| ==> |frames[i]| == channels
  }

  ghost function Flatten(frames: seq<seq<bool>>): seq<bool> {
    if frames == [] then [] else Flatten(frames[..|frames| - 1]) + frames[|frames| - 1]
  }

  lemma FlattenSnoc(frames: seq<seq<bool>>, frame: seq<bool>)
    ensures Flatten(frames + [frame]) == Flatten(frames) + frame
  {
    assert (frames + [frame])[..|frames|] == frames;
  }

  /** Sample `i` of channel `c` is bit `i * channels + c` of the flattened stream. */
  lemma {:induction false} FlattenIndex(frames: seq<seq<bool>>, channels: nat, i: nat, c: nat)
    requires Frames(frames, channels) && i < |frames| && c < channels
    ensures 0 <= i * channels + c < |Flatten(frames)|
    ensures Flatten(frames)[i * channels + c] == frames[i][c]
  {
    var n := |frames| - 1;
    FlattenLength(frames[..n], channels);
    if i < n {
      FlattenIndex(frames[..n], channels, i, c);
    }
  }

  lemma {:induction false} FlattenLength(frames: seq<seq<bool>>, channels: nat)
    requires Frames(frames, channels)
    ensures |Flatten(frames)| == |frames| * channels
  {
    if frames != [] {
      var n := |frames| - 1;
      FlattenLength(frames[..n], channels);
      assert (n + 1) * channels == n * channels + channels;
    }
  }

  /** The stream read so far, split into complete frames and the bits of an incomplete one. */
  datatype Carry = Carry(frames: seq<seq<bool>>, pending: seq<bool>)

  ghost function StreamOf(carry: Carry): seq<bool> {
    Flatten(carry.frames) + carry.pending
  }

  ghost predicate CarryValid(carry: Carry, channels: nat) {
    Frames(carry.frames, channels) && |carry.pending| < channels
  }

  /** One bit joins the incomplete frame, which moves on once it is full. */
  ghost function FeedBit(carry: Carry, bit: bool, channels: nat): Carry {
    var pending := carry.pending + [bit];
    if |pending| == channels then Carry(carry.frames + [pending], []) else Carry(carry.frames, pending)
  }

  ghost function Feed(carry: Carry, bits: seq<bool>, channels: nat): Carry {
    if bits == [] then carry
    else FeedBit(Feed(carry, bits[..|bits| - 1], channels), bits[|bits| - 1], channels)
  }

  lemma FeedSnoc(carry: Carry, bits: seq<bool>, bit: bool, channels: nat)
    ensures Feed(carry, bits + [bit], channels) == FeedBit(Feed(carry, bits, channels), bit, channels)
  {
    assert (bits + [bit])[..|bits|] == bits;
  }

  /** Feeding appends to the stream and never disturbs a complete frame. */
  lemma {:induction false} FeedAppends(carry: Carry, bits: seq<bool>, channels: nat)
    requires CarryValid(carry, channels)
    ensures CarryValid(Feed(carry, bits, channels), channels)
    ensures StreamOf(Feed(carry, bits, channels)) == StreamOf(carry) + bits
    ensures carry.frames <= Feed(carry, bits, channels).frames
  {
    if bits != [] {
      var front, bit := bits[..|bits| - 1], bits[|bits| - 1];
      FeedAppends(carry, front, channels);
      var fed := Feed(carry, front, channels);
      FlattenSnoc(fed.frames, fed.pending + [bit]);
      assert StreamOf(carry) + bits == (StreamOf(carry) + front) + [bit];
    }
  }

  lemma FramesBelowBits(carry: Carry, channels: nat)
    requires CarryValid(carry, channels)
    ensures |carry.frames| <= |StreamOf(carry)|
  {
    FlattenLength(carry.frames, channels);
    assert |carry.frames| * 1 <= |carry.frames| * channels;
  }

  lemma FedBefore(carry: Carry, bits: seq<bool>, channels: nat)
    ensures Feed(carry, bits[..0], channels) == carry && bits[..|bits|] == bits
  {
  }

  /** One more bit of `bits`; completed frames never outnumber the bits consumed. */
  lemma FedPrefix(carry: Carry, bits: seq<bool>, n: nat, channels: nat)
    requires CarryValid(carry, channels) && n < |bits|
    ensures Feed(carry, bits[..n + 1], channels) == FeedBit(Feed(carry, bits[..n], channels), bits[n], channels)
    ensures |Feed(carry, bits[..n], channels).frames| <= |StreamOf(carry)| + n
  {
    hide FeedBit, StreamOf;
    assert bits[..n + 1] == bits[..n] + [bits[n]];
    FeedSnoc(carry, bits[..n], bits[n], channels);
    FeedAppends(carry, bits[..n], channels);
    FramesBelowBits(Feed(carry, bits[..n], channels), channels);
  }

  /** The complete samples of channel `c`. */
  function Channel(frames: seq<seq<bool>>, c: nat): (samples: seq<bool>)
    requires forall i :: 0 <= i < |frames| ==> c < |frames[i]|
    ensures |samples| == |frames|
  {
    seq(|frames|, i requires 0 <= i < |frames| => frames[i][c])
  }

  lemma ChannelSnoc(frames: seq<seq<bool>>, frame: seq<bool>, c: nat)
    requires forall i :: 0 <= i < |frames| ==> c < |frames[i]|
    requires c < |frame|
    ensures Channel(frames + [frame], c) == Channel(frames, c) + [frame[c]]
  {
  }

  lemma ChannelPrefix(frames: seq<seq<bool>>, n: nat, c: nat)
    requires forall i :: 0 <= i < |frames| ==> c < |frames[i]|
    requires n <= |frames|
    ensures Channel(frames, c)[..n] == Channel(frames[..n], c)
  {
  }

  datatype Sample = Sample(value: bool, timestamp: nat)

  /** Nanosecond timestamp of a sample position; the product saturates at the top of `u64`. */
  function Timestamp(position: nat, rate: nat): nat
    requires rate > 0
  {
    Min(position * NANOS_PER_SECOND, U64_MAX) / rate
  }

  /** Positions at which a channel changes value; the first sample always counts. */
  function Changes(samples: seq<bool>): (positions: seq<nat>)
    ensures forall j :: 0 <= j < |positions| ==> positions[j] < |samples|
  {
    var n := |samples|;
    if n == 0 then []
    else if n == 1 || samples[n - 1] != samples[n - 2] then Changes(samples[..n - 1]) + [n - 1]
    else Changes(samples[..n - 1])
  }

  /** The edge stream: one sample per change. */
  function EdgeStream(samples: seq<bool>, rate: nat): (edges: seq<Sample>)
    requires rate > 0
    ensures |edges| == |Changes(samples)|
  {
    var positions := Changes(samples);
    seq(|positions|, j requires 0 <= j < |positions| =>
      Sample(samples[positions[j]], Timestamp(positions[j], rate)))
  }

  function Last(samples: seq<bool>): Option<bool> {
    if samples == [] then None else Some(samples[|samples| - 1])
  }

  lemma EdgeStreamSnoc(samples: seq<bool>, value: bool, rate: nat)
    requires rate > 0
    ensures EdgeStream(samples + [value], rate) ==
      if Last(samples) != Some(value) then EdgeStream(samples, rate) + [Sample(value, Timestamp(|samples|, rate))]
      else EdgeStream(samples, rate)
  {
    var grown := samples + [value];
    assert grown[..|samples|] == samples;
    assert Changes(grown) ==
      if Last(samples) != Some(value) then Changes(samples) + [|samples|] else Changes(samples);
  }

  /** What a channel's last value and edge log must be for the samples seen so far. */
  ghost predicate Reports(samples: seq<bool>, connected: bool, rate: nat, value: Option<bool>, edges: seq<Sample>)
    requires rate > 0
  {
    && value == Last(samples)
    && edges == if connected then EdgeStream(samples, rate) else []
  }

  // ----- packed blocks -----

  datatype SampleBlock = SampleBlock(data: seq<bv8>, start: nat, count: nat, periodNs: nat)

  /** `bytes` holds `samples` least significant bit first, in the fewest bytes, padded with zeros. */
  ghost predicate Packs(bytes: seq<bv8>, samples: seq<bool>) {
    && |bytes| == (|samples| + 7) / 8
    && forall k: nat :: k < 8 * |bytes| ==> (BitOf(bytes[k / 8], k % 8) <==> k < |samples| && samples[k])
  }

  function PackSnoc(bytes: seq<bv8>, count: nat, value: bool): (grown: seq<bv8>)
    requires |bytes| == (count + 7) / 8
    ensures |grown| == (count + 8) / 8
  {
    var room := if count % 8 == 0 then bytes + [0] else bytes;
    if value then room[|room| - 1 := WithBit(room[|room| - 1], count % 8)] else room
  }

  lemma PackSnocPacks(bytes: seq<bv8>, samples: seq<bool>, value: bool)
    requires Packs(bytes, samples)
    ensures Packs(PackSnoc(bytes, |samples|, value), samples + [value])
  {
    var n := |samples|;
    var grown := PackSnoc(bytes, n, value);
    var last := |grown| - 1;
    var room := if n % 8 == 0 then bytes + [0] else bytes;
    WithBitSetsOneBit(room[last], n % 8);
    forall k: nat | k < 8 * |grown|
      ensures BitOf(grown[k / 8], k % 8) <==> k < n + 1 && (samples + [value])[k]
    {
      if k / 8 < last {
        assert grown[k / 8] == bytes[k / 8] && k < n;
      } else {
        assert k / 8 == last;
        assert BitOf(room[last], k % 8) <==> k < n && samples[k];
        assert k % 8 == n % 8 <==> k == n;
      }
    }
  }

  function Unpack(block: SampleBlock): (samples: seq<bool>)
    requires block.count <= 8 * |block.data|
    ensures |samples| == block.count
  {
    seq(block.count, k requires 0 <= k < block.count => BitOf(block.data[k / 8], k % 8))
  }

  /** The blocks cover `samples` end to end, in order, each one packing its own nonempty stretch. */
  ghost predicate Tiles(blocks: seq<SampleBlock>, samples: seq<bool>, period: nat) {
    if blocks == [] then samples == []
    else
      var block := blocks[|blocks| - 1];
      && block.count > 0
      && block.start + block.count == |samples|
      && block.periodNs == period
      && Packs(block.data, samples[block.start..])
      && Tiles(blocks[..|blocks| - 1], samples[..block.start], period)
  }

  lemma TilesSnoc(blocks: seq<SampleBlock>, samples: seq<bool>, block: SampleBlock, period: nat)
    requires block.count > 0 && block.start + block.count == |samples| && block.periodNs == period
    requires Tiles(blocks, samples[..block.start], period) && Packs(block.data, samples[block.start..])
    ensures Tiles(blocks + [block], samples, period)
    ensures Shape(blocks + [block]) == Shape(blocks) + [(block.start, block.count)]
  {
    assert (blocks + [block])[..|blocks|] == blocks;
  }

  ghost function UnpackAll(blocks: seq<SampleBlock>): seq<bool>
    requires forall b <- blocks :: b.count <= 8 * |b.data|
  {
    if blocks == [] then [] else UnpackAll(blocks[..|blocks| - 1]) + Unpack(blocks[|blocks| - 1])
  }

  /** Concatenating the unpacked blocks gives back the channel's samples. */
  lemma {:induction false} TilesUnpack(blocks: seq<SampleBlock>, samples: seq<bool>, period: nat)
    requires Tiles(blocks, samples, period)
    ensures forall b <- blocks :: b.count <= 8 * |b.data|
    ensures UnpackAll(blocks) == samples
  {
    if blocks != [] {
      var front, block := blocks[..|blocks| - 1], blocks[|blocks| - 1];
      TilesUnpack(front, samples[..block.start], period);
      assert blocks == front + [block];
      assert Unpack(block) == samples[block.start..];
    }
  }

  /** Start and count of each block: the shape shared by every connected channel. */
  function Shape(blocks: seq<SampleBlock>): seq<(nat, nat)> {
    seq(|blocks|, i requires 0 <= i < |blocks| => (blocks[i].start, blocks[i].count))
  }

  // ----- the demultiplexer -----

  /** Everything a channel has reported is a function of its samples and of the shared block shape. */
  ghost predicate ChannelSound(samples: seq<bool>, edgePort: bool, blockPort: bool, rate: nat, period: nat,
                               shape: seq<(nat, nat)>, value: Option<bool>, edges: seq<Sample>,
                               blocks: seq<SampleBlock>)
    requires rate > 0
  {
    && Reports(samples, edgePort, rate, value, edges)
    && if blockPort then Tiles(blocks, samples, period) && Shape(blocks) == shape else blocks == []
  }

  /** A channel inside one push: reports up to date, and the samples since `start` packed. */
  ghost predicate ChannelProgress(samples: seq<bool>, start: nat, connected: bool, rate: nat,
                                  value: Option<bool>, edges: seq<Sample>, bytes: seq<bv8>)
    requires rate > 0 && start <= |samples|
  {
    Reports(samples, connected, rate, value, edges) && Packs(bytes, samples[start..])
  }

  lemma ChannelProgressBytes(samples: seq<bool>, start: nat, connected: bool, rate: nat,
                             value: Option<bool>, edges: seq<Sample>, bytes: seq<bv8>)
    requires rate > 0 && start <= |samples|
    requires ChannelProgress(samples, start, connected, rate, value, edges, bytes)
    ensures |bytes| == (|samples| - start + 7) / 8
  {
  }

  lemma ChannelProgressInit(samples: seq<bool>, connected: bool, rate: nat,
                            value: Option<bool>, edges: seq<Sample>)
    requires rate > 0
    requires Reports(samples, connected, rate, value, edges)
    ensures ChannelProgress(samples, |samples|, connected, rate, value, edges, [])
  {
  }

  lemma ChannelSoundReports(samples: seq<bool>, edgePort: bool, blockPort: bool, rate: nat, period: nat,
                            shape: seq<(nat, nat)>, value: Option<bool>, edges: seq<Sample>, blocks: seq<SampleBlock>)
    requires rate > 0
    requires ChannelSound(samples, edgePort, blockPort, rate, period, shape, value, edges, blocks)
    ensures Reports(samples, edgePort, rate, value, edges)
  {
  }

  lemma ChannelProgressSnoc(samples: seq<bool>, start: nat, connected: bool, rate: nat,
                            value: Option<bool>, edges: seq<Sample>, bytes: seq<bv8>, next: bool,
                            value': Option<bool>, edges': seq<Sample>, bytes': seq<bv8>)
    requires rate > 0 && start <= |samples|
    requires ChannelProgress(samples, start, connected, rate, value, edges, bytes)
    requires Advanced(value, edges, bytes, |samples| - start, next, connected, Timestamp(|samples|, rate),
                      value', edges', bytes')
    ensures ChannelProgress(samples + [next], start, connected, rate, value', edges', bytes')
  {
    EdgeStreamSnoc(samples, next, rate);
    PackSnocPacks(bytes, samples[start..], next);
    assert (samples + [next])[start..] == samples[start..] + [next];
  }

  /** At the end of a push the packed bytes become one more block, unless no sample completed. */
  lemma ChannelSoundAfterPush(samples: seq<bool>, start: nat, edgePort: bool, blockPort: bool, rate: nat,
                              period: nat, shape: seq<(nat, nat)>, value0: Option<bool>, edges0: seq<Sample>,
                              blocks: seq<SampleBlock>, value: Option<bool>, edges: seq<Sample>, bytes: seq<bv8>)
    requires rate > 0 && start <= |samples|
    requires ChannelSound(samples[..start], edgePort, blockPort, rate, period, shape, value0, edges0, blocks)
    requires ChannelProgress(samples, start, edgePort, rate, value, edges, bytes)
    ensures start == |samples| ==> ChannelSound(samples, edgePort, blockPort, rate, period, shape, value, edges, blocks)
    ensures start < |samples| ==>
      var block := SampleBlock(bytes, start, |samples| - start, period);
      ChannelSound(samples, edgePort, blockPort, rate, period, shape + [(start, |samples| - start)], value, edges,
                   if blockPort then blocks + [block] else blocks)
  {
    if start < |samples| {
      if blockPort {
        TilesSnoc(blocks, samples, SampleBlock(bytes, start, |samples| - start, period), period);
      }
    } else {
      assert samples[..start] == samples;
    }
  }

  /** What emitting one sample does to one channel's value, edge log and packed bytes. */
  ghost predicate Advanced(value: Option<bool>, edges: seq<Sample>, bytes: seq<bv8>, samples: nat,
                           next: bool, connected: bool, timestamp: nat,
                           value': Option<bool>, edges': seq<Sample>, bytes': seq<bv8>)
  {
    && value' == Some(next)
    && edges' == (if connected && value != Some(next) then edges + [Sample(next, timestamp)] else edges)
    && |bytes| == (samples + 7) / 8
    && bytes' == PackSnoc(bytes, samples, next)
  }

  class Demux {
    const channels: nat
    const sampleRateHz: U64
    /** Which channels have an edge consumer and a block consumer attached. */
    const edgePorts: seq<bool>
    const blockPorts: seq<bool>

    var pending: seq<bool>
    var position: U64
    var nextBit: Option<U64>
    var values: seq<Option<bool>>
    /** Everything sent so far on each channel's edge and block port, and on the raw port. */
    var edgeLog: seq<seq<Sample>>
    var blockLog: seq<seq<SampleBlock>>
    var rawLog: seq<LogicChunk>
    /** The complete samples consumed, where the stream began, and how they fell into blocks. */
    ghost var frames: seq<seq<bool>>
    ghost var origin: nat
    ghost var shape: seq<(nat, nat)>

    ghost function Progress(): Carry
      reads `frames, `pending
    {
      Carry(frames, pending)
    }

    /** Every bit consumed so far. */
    ghost function Stream(): seq<bool>
      reads `frames, `pending
    {
      StreamOf(Progress())
    }

    ghost function Samples(c: nat): seq<bool>
      requires c < channels && Frames(frames, channels)
      reads `frames
    {
      Channel(frames, c)
    }

    /** Whole nanoseconds per sample, as stamped on every block. */
    function PeriodNs(): nat
      requires sampleRateHz > 0
    {
      NANOS_PER_SECOND / sampleRateHz
    }

    ghost predicate Static() {
      1 <= channels && 0 < sampleRateHz && |edgePorts| == channels && |blockPorts| == channels
    }

    /** The carried partial sample and the position account for every consumed bit. */
    ghost predicate Aligned()
      reads `pending, `position, `frames
    {
      position == |frames| && CarryValid(Progress(), channels)
    }

    ghost predicate Valid()
      reads this
    {
      && Static() && Aligned()
      && |values| == |edgeLog| == |blockLog| == channels
      && (nextBit.None? ==> Stream() == [])
      && (nextBit.Some? ==> nextBit.value == origin + |Stream()|)
      && forall c: nat :: c < channels ==>
        ChannelSound(Samples(c), edgePorts[c], blockPorts[c], sampleRateHz, PeriodNs(), shape,
                     values[c], edgeLog[c], blockLog[c])
    }

    constructor (channels: nat, sampleRateHz: U64, edgePorts: seq<bool>, blockPorts: seq<bool>)
      requires 1 <= channels && 0 < sampleRateHz
      requires |edgePorts| == channels && |blockPorts| == channels
      ensures Valid()
      ensures this.channels == channels && this.sampleRateHz == sampleRateHz
      ensures this.edgePorts == edgePorts && this.blockPorts == blockPorts
      ensures Stream() == [] && nextBit == None && rawLog == []
    {
      this.channels, this.sampleRateHz := channels, sampleRateHz;
      this.edgePorts, this.blockPorts := edgePorts, blockPorts;
      pending, position, nextBit := [], 0, None;
      values := seq(channels, _ => None);
      edgeLog := seq(channels, _ => []);
      blockLog := seq(channels, _ => []);
      rawLog := [];
      frames, origin, shape := [], 0, [];
    }

    /** A driver that reports a zero sample rate is refused. */
    static method New(channels: nat, sampleRateHz: U64, edgePorts: seq<bool>, blockPorts: seq<bool>)
      returns (r: Outcome<Demux, Error>)
      requires 1 <= channels && |edgePorts| == channels && |blockPorts| == channels
      ensures sampleRateHz == 0 ==> r == Err(ZeroSampleRate)
      ensures sampleRateHz != 0 ==> r.Ok? && fresh(r.value) && r.value.Valid() && r.value.Stream() == []
    {
      if sampleRateHz == 0 {
        return Err(ZeroSampleRate);
      }
      var demux := new Demux(channels, sampleRateHz, edgePorts, blockPorts);
      return Ok(demux);
    }

    function Refusal(chunk: LogicChunk): Option<Error>
      reads `nextBit
    {
      RefusalOf(chunk, channels, nextBit)
    }

    /** One complete sample: report changes and pack the bit of every channel. */
    method EmitSample(samples: nat, packed: seq<seq<bv8>>) returns (grown: seq<seq<bv8>>)
      requires Static() && |pending| == |values| == |edgeLog| == |packed| == channels
      requires forall c :: 0 <= c < channels ==> |packed[c]| == (samples + 7) / 8
      modifies `values, `edgeLog
      ensures |values| == |edgeLog| == |grown| == channels
      ensures forall c :: 0 <= c < channels ==>
        Advanced(old(values)[c], old(edgeLog)[c], packed[c], samples, pending[c], edgePorts[c],
                 Timestamp(position, sampleRateHz), values[c], edgeLog[c], grown[c])
    {
      grown := packed;
      for channel := 0 to channels
        invariant |values| == |edgeLog| == |grown| == channels
        invariant forall c :: channel <= c < channels ==>
          values[c] == old(values)[c] && edgeLog[c] == old(edgeLog)[c] && grown[c] == packed[c]
        invariant forall c :: 0 <= c < channel ==>
          Advanced(old(values)[c], old(edgeLog)[c], packed[c], samples, pending[c], edgePorts[c],
                   Timestamp(position, sampleRateHz), values[c], edgeLog[c], grown[c])
      {
        var value := pending[channel];
        if values[channel] != Some(value) {
          if edgePorts[channel] {
            edgeLog := edgeLog[channel := edgeLog[channel] + [Sample(value, Timestamp(position, sampleRateHz))]];
          }
          values := values[channel := Some(value)];
        }
        var bytes := grown[channel];
        if samples % 8 == 0 {
          bytes := bytes + [0];
        }
        if value {
          bytes := bytes[|bytes| - 1 := WithBit(bytes[|bytes| - 1], samples % 8)];
        }
        grown := grown[channel := bytes];
        assert bytes == PackSnoc(packed[channel], samples, value);
      }
    }

    /** Sends one block per connected channel. */
    method EmitBlocks(start: nat, samples: nat, packed: seq<seq<bv8>>)
      requires Static() && |blockLog| == |packed| == channels
      modifies `blockLog
      ensures |blockLog| == channels
      ensures forall c :: 0 <= c < channels ==>
        blockLog[c] ==
          if blockPorts[c]
          then old(blockLog)[c] + [SampleBlock(packed[c], start, samples, PeriodNs())]
          else old(blockLog)[c]
    {
      for channel := 0 to channels
        invariant |blockLog| == channels
        invariant forall c :: channel <= c < channels ==> blockLog[c] == old(blockLog)[c]
        invariant forall c :: 0 <= c < channel ==>
          blockLog[c] ==
            if blockPorts[c]
            then old(blockLog)[c] + [SampleBlock(packed[c], start, samples, PeriodNs())]
            else old(blockLog)[c]
      {
        if blockPorts[channel] {
          blockLog := blockLog[channel :=
            blockLog[channel] + [SampleBlock(packed[channel], start, samples, PeriodNs())]];
        }
      }
    }

    /** What the bit loop of `Push` keeps: `start` is the position at which the push began. */
    ghost predicate LoopValid(start: nat, packed: seq<seq<bv8>>)
      reads `pending, `position, `frames, `values, `edgeLog
    {
      && Static() && Aligned()
      && |values| == |edgeLog| == |packed| == channels
      && start <= position
      && forall c: nat :: c < channels ==>
        ChannelProgress(Samples(c), start, edgePorts[c], sampleRateHz, values[c], edgeLog[c], packed[c])
    }

    /** Consumes one bit of the chunk. */
    method PushBit(ghost start: nat, bit: bool, samples: nat, packed: seq<seq<bv8>>)
      returns (samples': nat, packed': seq<seq<bv8>>)
      requires LoopValid(start, packed)
      requires samples == position - start
      requires position < U64_MAX
      modifies `pending, `position, `frames, `values, `edgeLog
      ensures LoopValid(start, packed')
      ensures samples' == position - start
      ensures Progress() == FeedBit(old(Progress()), bit, channels)
    {
      hide ChannelProgress, Advanced, Timestamp, Channel;
      pending := pending + [bit];
      samples', packed' := samples, packed;
      if |pending| == channels {
        forall c: nat | c < channels
          ensures |packed[c]| == (samples + 7) / 8
        {
          ChannelProgressBytes(Samples(c), start, edgePorts[c], sampleRateHz, values[c], edgeLog[c], packed[c]);
        }
        packed' := EmitSample(samples, packed);
        forall c: nat | c < channels
          ensures ChannelProgress(Channel(frames + [pending], c), start, edgePorts[c], sampleRateHz,
                                  values[c], edgeLog[c], packed'[c])
        {
          ChannelProgressSnoc(Samples(c), start, edgePorts[c], sampleRateHz,
                              old(values)[c], old(edgeLog)[c], packed[c], pending[c],
                              values[c], edgeLog[c], packed'[c]);
          ChannelSnoc(frames, pending, c);
        }
        frames := frames + [pending];
        pending := [];
        position := position + 1;
        samples' := samples + 1;
      }
    }

    /** The bit loop of a push. */
    method ConsumeBits(chunk: LogicChunk) returns (samples: nat, packed: seq<seq<bv8>>)
      requires chunk.InBounds() && |Stream()| + chunk.bitLen <= U64_MAX
      requires Static() && Aligned() && |values| == |edgeLog| == channels
      requires forall c: nat :: c < channels ==>
        Reports(Samples(c), edgePorts[c], sampleRateHz, values[c], edgeLog[c])
      modifies `pending, `position, `frames, `values, `edgeLog
      ensures LoopValid(old(position), packed)
      ensures samples == position - old(position)
      ensures Progress() == Feed(old(Progress()), chunk.Bits(), channels)
    {
      hide LoopValid, Reports, ChannelProgress, Feed, FeedBit, Channel, StreamOf, LogicChunk.Bit;
      ghost var start, bits := position, chunk.Bits();
      samples, packed := 0, seq(channels, _ => []);
      LoopStarts(packed);
      FedBefore(old(Progress()), bits, channels);
      for bit := 0 to chunk.bitLen
        invariant LoopValid(start, packed)
        invariant samples == position - start
        invariant Progress() == Feed(old(Progress()), bits[..bit], channels)
      {
        FedPrefix(old(Progress()), bits, bit, channels);
        LoopPosition(start, packed);
        samples, packed := PushBit(start, chunk.Bit(bit), samples, packed);
      }
    }

    lemma LoopStarts(packed: seq<seq<bv8>>)
      requires Static() && Aligned() && |values| == |edgeLog| == channels
      requires forall c: nat :: c < channels ==>
        Reports(Samples(c), edgePorts[c], sampleRateHz, values[c], edgeLog[c])
      requires packed == seq(channels, _ => [])
      ensures LoopValid(position, packed)
    {
      hide Reports, ChannelProgress, Channel, StreamOf;
      forall c: nat | c < channels
        ensures ChannelProgress(Samples(c), position, edgePorts[c], sampleRateHz, values[c], edgeLog[c], packed[c])
      {
        ChannelProgressInit(Samples(c), edgePorts[c], sampleRateHz, values[c], edgeLog[c]);
      }
    }

    lemma LoopPosition(start: nat, packed: seq<seq<bv8>>)
      requires LoopValid(start, packed)
      ensures position == |Progress().frames|
    {
      hide ChannelProgress, Channel, StreamOf;
    }

    /** The part of a push that follows its checks. */
    method Accept(chunk: LogicChunk)
      requires Valid() && Refusal(chunk).None?
      modifies `pending, `position, `nextBit, `values, `edgeLog, `blockLog, `frames, `origin, `shape
      ensures Valid()
      ensures Stream() == old(Stream()) + chunk.Bits()
      ensures nextBit == Some(chunk.startBit + chunk.bitLen)
      ensures origin == (if old(nextBit).None? then chunk.startBit else old(origin))
    {
      hide Reports, ChannelSound, ChannelProgress, StreamOf, Channel, Feed;
      FeedAppends(Progress(), chunk.Bits(), channels);
      if nextBit.None? {
        origin := chunk.startBit;
      }
      nextBit := Some(chunk.startBit + chunk.bitLen);
      var start := position;
      forall c: nat | c < channels
        ensures Reports(Samples(c), edgePorts[c], sampleRateHz, values[c], edgeLog[c])
      {
        ChannelSoundReports(Samples(c), edgePorts[c], blockPorts[c], sampleRateHz, PeriodNs(), shape,
                            values[c], edgeLog[c], blockLog[c]);
      }
      var samples, packed := ConsumeBits(chunk);
      assert frames[..start] == old(frames);
      if samples != 0 {
        EmitBlocks(start, samples, packed);
        shape := shape + [(start, samples)];
      }
      forall c: nat | c < channels
        ensures ChannelSound(Samples(c), edgePorts[c], blockPorts[c], sampleRateHz, PeriodNs(), shape,
                             values[c], edgeLog[c], blockLog[c])
      {
        ChannelPrefix(frames, start, c);
        ChannelSoundAfterPush(Samples(c), start, edgePorts[c], blockPorts[c], sampleRateHz, PeriodNs(), old(shape),
                              old(values)[c], old(edgeLog)[c], old(blockLog)[c],
                              values[c], edgeLog[c], packed[c]);
      }
    }

    /**
     A refused chunk changes nothing. An accepted one appends exactly its bits
     to the stream that determines the whole state.
     */
    method Push(chunk: LogicChunk) returns (refusal: Option<Error>)
      requires Valid()
      modifies `pending, `position, `nextBit, `values, `edgeLog, `blockLog, `frames, `origin, `shape
      ensures Valid()
      ensures refusal == old(Refusal(chunk))
      ensures refusal.Some? ==> unchanged(this)
      ensures refusal.None? ==>
        && chunk.InBounds() && Stream() == old(Stream()) + chunk.Bits()
        && nextBit == Some(chunk.startBit + chunk.bitLen)
        && origin == (if old(nextBit).None? then chunk.startBit else old(origin))
    {
      refusal := Refusal(chunk);
      if refusal.None? {
        Accept(chunk);
      }
    }

    /** Closes every connected edge stream whose channel has a value. */
    method Finish()
      requires Valid()
      modifies `edgeLog
      ensures |edgeLog| == channels
      ensures forall c: nat :: c < channels ==>
        edgeLog[c] == (if edgePorts[c] then ClosedStream(Samples(c), sampleRateHz) else [])
    {
      ghost var before := edgeLog;
      assert forall c: nat :: c < channels ==>
        Reports(Samples(c), edgePorts[c], sampleRateHz, values[c], before[c]);
      for channel := 0 to channels
        invariant |edgeLog| == channels
        invariant forall c: nat :: channel <= c < channels ==> edgeLog[c] == before[c]
        invariant forall c: nat :: c < channel ==>
          edgeLog[c] == before[c]
            + (if edgePorts[c] && values[c].Some?
               then [Sample(values[c].value, Timestamp(position, sampleRateHz))] else [])
      {
        if edgePorts[channel] && values[channel].Some? {
          edgeLog := edgeLog[channel :=
            edgeLog[channel] + [Sample(values[channel].value, Timestamp(position, sampleRateHz))]];
        }
      }
      forall c: nat | c < channels
        ensures edgeLog[c] == (if edgePorts[c] then ClosedStream(Samples(c), sampleRateHz) else [])
      {
        assert Reports(Samples(c), edgePorts[c], sampleRateHz, values[c], before[c]);
      }
    }

    ghost predicate BlocksSound()
      requires Static() && Aligned()
      reads `frames, `pending, `position, `blockLog, `shape
    {
      && |blockLog| == channels
      && forall c: nat :: c < channels ==>
        if blockPorts[c] then Tiles(blockLog[c], Samples(c), PeriodNs()) && Shape(blockLog[c]) == shape
        else blockLog[c] == []
    }

    /** Feeds fetched chunks until the source ends or something fails. */
    method Drain(fetches: seq<Fetch>) returns (failure: Option<Error>)
      requires Valid()
      modifies this
      ensures Valid()
      ensures Delivered(old(Stream()), Stream(), old(rawLog), rawLog, Intake(fetches, channels, old(nextBit)))
      ensures failure == Intake(fetches, channels, old(nextBit)).failure
    {
      hide StreamOf, ChannelSound, LogicChunk.Bits, RefusalOf;
      ghost var whole, before, raw := Intake(fetches, channels, nextBit), Stream(), rawLog;
      failure := None;
      for i := 0 to |fetches|
        invariant Valid() && failure.None?
        invariant Follows(before, Stream(), raw, rawLog, Intake(fetches[i..], channels, nextBit), whole)
      {
        assert fetches[i..][1..] == fetches[i + 1..];
        if !fetches[i].Fetched? {
          failure := if fetches[i].DriverFailed? then Some(Driver) else None;
          return;
        }
        var chunk := fetches[i].chunk;
        if chunk.bitLen != 0 {
          rawLog := rawLog + [chunk];
          if chunk.encoding.InterleavedLsbFirst? {
            ghost var consumed := Stream();
            failure := Push(chunk);
            if failure.Some? {
              return;
            }
            assert (consumed + chunk.Bits()) + Intake(fetches[i + 1..], channels, nextBit).bits
                == consumed + (chunk.Bits() + Intake(fetches[i + 1..], channels, nextBit).bits);
          }
        }
      }
    }

    /**
     The capture loop. Empty chunks are skipped, opaque ones reach only the raw
     port, the first refused chunk or driver failure ends the run, and the edge
     streams are closed only when the device also stops cleanly.
     */
    method Run(fetches: seq<Fetch>, stopSucceeds: bool) returns (failure: Option<Error>)
      requires Valid()
      modifies this
      ensures Static() && Aligned() && BlocksSound() && |edgeLog| == channels
      ensures
        var intake := Intake(fetches, channels, old(nextBit));
        && Delivered(old(Stream()), Stream(), old(rawLog), rawLog, intake)
        && failure == (if intake.failure.Some? then intake.failure else if stopSucceeds then None else Some(Driver))
      ensures failure.Some? ==> Valid()
      ensures failure.None? ==> forall c: nat :: c < channels ==>
        edgeLog[c] == (if edgePorts[c] then ClosedStream(Samples(c), sampleRateHz) else [])
    {
      hide StreamOf, Intake, Delivered;
      failure := Drain(fetches);
      SoundBlocks();
      if failure.None? {
        if stopSucceeds {
          Finish();
        } else {
          failure := Some(Driver);
        }
      }
    }

    lemma SoundBlocks()
      requires Valid()
      ensures BlocksSound()
    {
    }
  }

  /** What the driver hands to the capture loop. A list that just ends is a requested shutdown. */
  datatype Fetch = Fetched(chunk: LogicChunk) | EndOfCapture | DriverFailed

  datatype IntakeResult = IntakeResult(bits: seq<bool>, raw: seq<LogicChunk>, failure: Option<Error>)

  /** Which bits, raw chunks and failure a list of fetches amounts to. */
  ghost function Intake(fetches: seq<Fetch>, channels: nat, expected: Option<U64>): IntakeResult {
    if fetches == [] || fetches[0].EndOfCapture? then IntakeResult([], [], None)
    else if fetches[0].DriverFailed? then IntakeResult([], [], Some(Driver))
    else
      var chunk := fetches[0].chunk;
      if chunk.bitLen == 0 then Intake(fetches[1..], channels, expected)
      else if chunk.encoding.Opaque? then
        var rest := Intake(fetches[1..], channels, expected);
        rest.(raw := [chunk] + rest.raw)
      else if RefusalOf(chunk, channels, expected).Some? then
        IntakeResult([], [chunk], RefusalOf(chunk, channels, expected))
      else
        var rest := Intake(fetches[1..], channels, Some(chunk.startBit + chunk.bitLen));
        IntakeResult(chunk.Bits() + rest.bits, [chunk] + rest.raw, rest.failure)
  }

  /** The intake's bits and raw chunks follow what was there before. */
  ghost predicate Delivered(before: seq<bool>, stream: seq<bool>, rawBefore: seq<LogicChunk>, raw: seq<LogicChunk>,
                       intake: IntakeResult)
  {
    stream == before + intake.bits && raw == rawBefore + intake.raw
  }

  /** What has been consumed plus what the remaining fetches amount to is the whole intake. */
  ghost predicate Follows(before: seq<bool>, stream: seq<bool>, rawBefore: seq<LogicChunk>, raw: seq<LogicChunk>,
                          rest: IntakeResult, whole: IntakeResult)
  {
    && stream + rest.bits == before + whole.bits
    && raw + rest.raw == rawBefore + whole.raw
    && rest.failure == whole.failure
  }

  /** The edge stream followed by the closing sample at the end position. */
  function ClosedStream(samples: seq<bool>, rate: nat): seq<Sample>
    requires rate > 0
  {
    if samples == [] then [] else
      EdgeStream(samples, rate) + [Sample(samples[|samples| - 1], Timestamp(|samples|, rate))]
  }
}
