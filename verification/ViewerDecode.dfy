/**
 The viewer's decoded picture against the analyzer's full-resolution decode:
 for a registration the viewer can represent, the viewer covers the analyzer's
 area up to the last whole lane column, and each channel shows the analyzer's word.
 */
module ViewerDecode {
  import opened Common
  import opened CcdGeometry
  import opened CcdSampling
  import opened CcdViewer
  import opened ViewerImage

  /** Quarter rows, one row offset per colour group, no skew and no column shifts. */
  ghost predicate Matching(reg: LaneRegistration, p: Params)
    requires reg.Valid() && p.Valid()
  {
    && reg.units == ROW_OFFSET_UNITS
    && (forall lane :: 0 <= lane < LANES ==> reg.skews[lane] == 0 && reg.columnOffsets[lane] == 0)
    && (forall lane :: 0 <= lane < LANES ==> reg.offsets[lane] == reg.offsets[lane % GROUPS])
    && p.red.columnOffset == p.green.columnOffset == p.blue.columnOffset == 0
    && p.red.rowOffsetUnits == reg.offsets[p.red.group]
    && p.green.rowOffsetUnits == reg.offsets[p.green.group]
    && p.blue.rowOffsetUnits == reg.offsets[p.blue.group]
    && p.red.group != p.green.group && p.red.group != p.blue.group && p.green.group != p.blue.group
  }

  function LayoutOf(scene: Scene): Layout {
    Layout(Word, LANES, scene.nominalWords, scene.Rows())
  }

  ghost predicate InOverlap(length: nat, offsets: seq<int>, units: nat, r: int)
    requires units > 0
  {
    var (start, count) := SubrowOverlap(length, offsets, units);
    start <= r < start + count
  }

  /** Offset lists with the same members have the same overlap. */
  lemma SameMembersSameOverlap(length: nat, a: seq<int>, b: seq<int>, units: nat)
    requires units > 0 && length > 0 && a != [] && b != []
    requires forall x :: x in a <==> x in b
    ensures SubrowOverlap(length, a, units).1 == SubrowOverlap(length, b, units).1
    ensures SubrowOverlap(length, a, units).1 > 0 ==>
      SubrowOverlap(length, a, units).0 == SubrowOverlap(length, b, units).0
  {
    hide SubrowOverlap;
    var (startA, countA) := SubrowOverlap(length, a, units);
    var (startB, countB) := SubrowOverlap(length, b, units);
    forall r
      ensures InOverlap(length, a, units, r) <==> InOverlap(length, b, units, r)
    {
      SubrowOverlapPositive(length, a, units, r);
      SubrowOverlapPositive(length, b, units, r);
      SameMembersFit(length, a, b, units, r);
    }
    assert InOverlap(length, a, units, startA) <==> InOverlap(length, b, units, startA);
    assert InOverlap(length, a, units, startB) <==> InOverlap(length, b, units, startB);
    assert InOverlap(length, a, units, startA + countA) <==> InOverlap(length, b, units, startA + countA);
    assert InOverlap(length, a, units, startB + countB) <==> InOverlap(length, b, units, startB + countB);
    assert InOverlap(length, a, units, startA - 1) <==> InOverlap(length, b, units, startA - 1);
    assert InOverlap(length, a, units, startB - 1) <==> InOverlap(length, b, units, startB - 1);
  }

  lemma SameMembersFit(length: nat, a: seq<int>, b: seq<int>, units: nat, r: int)
    requires forall x :: x in a <==> x in b
    ensures AllFit(length, a, units, r) <==> AllFit(length, b, units, r)
  {
    if AllFit(length, a, units, r) {
      SubsetFits(length, a, b, units, r);
    }
    if AllFit(length, b, units, r) {
      SubsetFits(length, b, a, units, r);
    }
  }

  lemma SubsetFits(length: nat, a: seq<int>, b: seq<int>, units: nat, r: int)
    requires (forall x :: x in b ==> x in a) && AllFit(length, a, units, r)
    ensures AllFit(length, b, units, r)
  {
    forall i | 0 <= i < |b|
      ensures Fits(length, b[i], units, r)
    {
      var x := b[i];
      assert x in b;
      var j :| 0 <= j < |a| && a[j] == x;
      assert Fits(length, a[j], units, r);
    }
  }

  lemma GroupOffsetsListed(reg: LaneRegistration, p: Params)
    requires reg.Valid() && p.Valid() && Matching(reg, p)
    ensures
      var ends := Endpoints(reg.offsets, reg.skews);
      var three := [p.red.rowOffsetUnits, p.green.rowOffsetUnits, p.blue.rowOffsetUnits];
      ends != [] && forall x :: x in ends <==> x in three
  {
    var ends := Endpoints(reg.offsets, reg.skews);
    var three := [p.red.rowOffsetUnits, p.green.rowOffsetUnits, p.blue.rowOffsetUnits];
    forall x | x in ends
      ensures x in three
    {
      var i :| 0 <= i < |ends| && ends[i] == x;
      var lane := i / 2;
      assert i == 2 * lane || i == 2 * lane + 1;
      assert x == reg.offsets[lane] == reg.offsets[lane % GROUPS];
    }
    forall x | x in three
      ensures x in ends
    {
      var k :| 0 <= k < 3 && three[k] == x;
      var group := if k == 0 then p.red.group else if k == 1 then p.green.group else p.blue.group;
      assert ends[2 * group] == reg.offsets[group] == x;
    }
  }

  /**
   The viewer decodes the analyzer's rows, and its columns up to the last whole
   one: the viewer rounds the lane width down and the analyzer rounds it up.
   */
  lemma SameArea(scene: Scene, reg: LaneRegistration, p: Params)
    requires scene.Valid() && reg.Valid() && p.Valid() && Matching(reg, p)
    ensures
      var g := DecodedGeometry(scene, p);
      var (row, rows, column, columns) := ImageArea(LayoutOf(scene), reg);
      && g.rows == rows && (rows > 0 ==> g.rowOrigin == row) && g.columnOrigin == column == 0
      && g.width <= columns * TAPS && (g.width == columns * TAPS <==> scene.nominalWords % LANES == 0)
  {
    hide SubrowOverlap, CommonOverlap, Endpoints;
    GroupOffsetsListed(reg, p);
    SameMembersSameOverlap(
      scene.Rows(), [p.red.rowOffsetUnits, p.green.rowOffsetUnits, p.blue.rowOffsetUnits],
      Endpoints(reg.offsets, reg.skews), ROW_OFFSET_UNITS);
    UnshiftedColumns(scene.nominalWords / LANES, [p.red.columnOffset, p.green.columnOffset, p.blue.columnOffset]);
    UnshiftedColumns(LayoutOf(scene).Dimensions(0).0, reg.columnOffsets);
    LaneWidth(LayoutOf(scene));
  }

  lemma LaneWidth(layout: Layout)
    requires layout.axis.Word? && layout.modulus == LANES
    ensures layout.Dimensions(0).1 == layout.inputRows && layout.nominalWords / LANES <= layout.Dimensions(0).0
    ensures layout.nominalWords / LANES == layout.Dimensions(0).0 <==> layout.nominalWords % LANES == 0
  {
  }

  /** Where the viewer looks for the first source word of a channel's pixel. */
  ghost predicate FirstPresent(scene: Scene, p: Params, y: nat, x: nat, channel: ChannelMap) {
    var g := DecodedGeometry(scene, p);
    var n := (g.rowOrigin + y) * ROW_OFFSET_UNITS + channel.rowOffsetUnits;
    n >= 0
    && scene.CaptureAt(p.startByteOffset)
       .Word(RowOf(n, ROW_OFFSET_UNITS).0, DecodedWordIndex(x / TAPS, x % TAPS, channel.group)).Some?
  }

  /**
   A channel of the uncalibrated picture shows the analyzer's decoded word
   wherever the word's first source is present, and zero elsewhere.
   */
  lemma ChannelShowsAnalyzerWord(scene: Scene, reg: LaneRegistration, p: Params, y: nat, x: nat, channel: ChannelMap)
    requires scene.Valid() && reg.Valid() && p.Valid() && Matching(reg, p)
    requires channel in [p.red, p.green, p.blue]
    requires var g := DecodedGeometry(scene, p); y < g.rows && x < g.width
    ensures InArea(LayoutOf(scene), reg, y, x)
    ensures
      var capture := scene.CaptureAt(p.startByteOffset);
      var word := DecodedWord(capture, LayoutOf(scene), reg, (w, _, _) => w, y, x, channel.group);
      ChannelByte(scene, p, None, y, x, channel)
        == if FirstPresent(scene, p, y, x, channel) then scene.display(word, p.gainBits, p.gamma) else 0
  {
    hide DecodedGeometry, ImageArea, Matching, SampleSubrowWord, ChannelWord, RowUnits;
    SameArea(scene, reg, p);
    ChannelInside(scene, p, y, x, channel);
    MatchingChannel(reg, p, channel, x % TAPS);
    PixelReads(LayoutOf(scene), reg, y, x, channel.group);
    var g := DecodedGeometry(scene, p);
    ViewerAgreesWithAnalyzer(scene.CaptureAt(p.startByteOffset), LayoutOf(scene), g.rowOrigin + y, x / TAPS, x % TAPS,
                             channel, x, ImageArea(LayoutOf(scene), reg).3 * TAPS);
  }

  lemma MatchingChannel(reg: LaneRegistration, p: Params, channel: ChannelMap, tap: nat)
    requires reg.Valid() && p.Valid() && Matching(reg, p) && channel in [p.red, p.green, p.blue] && tap < TAPS
    ensures
      var lane := LaneOf(channel.group, tap);
      && reg.units == ROW_OFFSET_UNITS && channel.columnOffset == 0
      && reg.offsets[lane] == channel.rowOffsetUnits && reg.skews[lane] == 0 && reg.columnOffsets[lane] == 0
  {
    var lane := LaneOf(channel.group, tap);
    assert lane % GROUPS == channel.group;
  }
}
