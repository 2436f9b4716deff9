/**
 The preview planes of the layout analyzer: the full-resolution decode, sampled
 at proportional rows and columns. Calibration is applied to finished planes
 and does not take part.
 */
module CcdPreview {
  import opened Common
  import opened Arithmetic
  import opened CcdGeometry
  import opened CcdSampling

  /** The source index in the middle of a sample's share of `length`. */
  function ProportionalIndex(sample: nat, samples: nat, length: nat): (index: nat)
    requires samples > 0
    ensures if length > 0 then index < length else index == 0
  {
    if length == 0 then 0
    else
      QuotientNonnegative((2 * sample + 1) * length, 2 * samples);
      Min((2 * sample + 1) * length / (2 * samples), length - 1)
  }

  lemma QuotientNonnegative(a: nat, d: nat)
    requires d > 0
    ensures a / d >= 0
  {
  }

  /** `index` is where the sample's midpoint falls; the clamp never takes effect. */
  lemma ProportionalMidpoint(sample: nat, samples: nat, length: nat)
    requires sample < samples && length > 0
    ensures
      var index := ProportionalIndex(sample, samples, length);
      index * (2 * samples) <= (2 * sample + 1) * length < (index + 1) * (2 * samples)
  {
    var a, d := (2 * sample + 1) * length, 2 * samples;
    MulMonotone(2 * sample + 1, d - 1, length);
    assert (d - 1) * length == length * d - length;
    assert a == (a / d) * d + a % d;
    if a / d >= length {
      MulMonotone(length, a / d, d);
    }
    assert (a / d + 1) * d == (a / d) * d + d;
  }

  /** Later samples never pick earlier sources. */
  lemma ProportionalMonotone(sample: nat, later: nat, samples: nat, length: nat)
    requires samples > 0 && sample <= later
    ensures ProportionalIndex(sample, samples, length) <= ProportionalIndex(later, samples, length)
  {
    MulMonotone(2 * sample + 1, 2 * later + 1, length);
    DivMonotone((2 * sample + 1) * length, (2 * later + 1) * length, 2 * samples);
  }

  /** With as many samples as sources each one picks its own. */
  lemma ProportionalIdentity(sample: nat, length: nat)
    requires sample < length
    ensures ProportionalIndex(sample, length, length) == sample
  {
    assert (2 * sample + 1) * length == sample * (2 * length) + length;
    QuotientIs((2 * sample + 1) * length, 2 * length, sample, length);
  }

  /** With at least as many samples as sources, every source is picked. */
  lemma ProportionalCovers(samples: nat, length: nat, index: nat) returns (sample: nat)
    requires index < length <= samples
    ensures sample < samples && ProportionalIndex(sample, samples, length) == index
  {
    hide ProportionalIndex;
    sample := FirstReaching(samples, length, index);
    if sample > 0 {
      ProportionalStep(sample, samples, length);
    } else {
      StartsAtZero(samples, length);
    }
  }

  /** Neighbouring samples pick the same source or neighbouring ones. */
  lemma ProportionalStep(sample: nat, samples: nat, length: nat)
    requires 0 < sample < samples && 0 < length <= samples
    ensures ProportionalIndex(sample, samples, length) <= ProportionalIndex(sample - 1, samples, length) + 1
  {
    hide ProportionalIndex;
    ProportionalMidpoint(sample, samples, length);
    ProportionalMidpoint(sample - 1, samples, length);
    assert (2 * sample + 1) * length == (2 * sample - 1) * length + 2 * length;
    NextIndex(ProportionalIndex(sample - 1, samples, length), ProportionalIndex(sample, samples, length),
              (2 * sample - 1) * length, length, samples);
  }

  lemma StartsAtZero(samples: nat, length: nat)
    requires 0 < length <= samples
    ensures ProportionalIndex(0, samples, length) == 0
  {
    QuotientIs(length, 2 * samples, 0, length);
  }

  /** The first sample that picks `index` or a later source. */
  lemma FirstReaching(samples: nat, length: nat, index: nat) returns (sample: nat)
    requires index < length <= samples
    ensures sample < samples && ProportionalIndex(sample, samples, length) >= index
    ensures sample > 0 ==> ProportionalIndex(sample - 1, samples, length) < index
  {
    sample := 0;
    LastReaches(samples, length);
    while ProportionalIndex(sample, samples, length) < index
      invariant sample < samples
      invariant sample > 0 ==> ProportionalIndex(sample - 1, samples, length) < index
      decreases samples - sample
    {
      sample := sample + 1;
    }
  }

  lemma LastReaches(samples: nat, length: nat)
    requires 0 < length <= samples
    ensures ProportionalIndex(samples - 1, samples, length) == length - 1
  {
    var d := 2 * samples;
    assert (2 * (samples - 1) + 1) * length == (length - 1) * d + (d - length);
    QuotientIs((d - 1) * length, d, length - 1, d - length);
  }

  /** A step of at most one source length advances the index by at most one. */
  lemma NextIndex(before: nat, after: nat, position: nat, length: nat, samples: nat)
    requires length <= samples
    requires position < (before + 1) * (2 * samples)
    requires after * (2 * samples) <= position + 2 * length
    ensures after <= before + 1
  {
    if after >= before + 2 {
      MulMonotone(before + 2, after, 2 * samples);
    }
  }

  // ----- planes -----

  function Uncalibrated(): (U16, nat, nat) -> U16 {
    (word, _, _) => word
  }

  /** The site that a preview pixel picks; it has a column whatever the registration is. */
  function PickedSite(layout: Layout, reg: LaneRegistration, group: nat,
                      width: nat, height: nat, y: nat, x: nat): (s: Site)
    requires TwelveLanes(layout) && reg.Valid() && group < GROUPS && width > 0 && height > 0
    ensures s.column >= 0
  {
    var (_, rows, _, columns) := ImageArea(layout, reg);
    var column := ProportionalIndex(x, width, columns * TAPS);
    OverlapStarts(layout.Dimensions(0).0, reg.columnOffsets, LaneOf(group, column % TAPS));
    SiteOf(layout, reg, ProportionalIndex(y, height, rows), column, group)
  }

  /** The word of a preview pixel, read by the inlined sampler. */
  function PreviewWord(capture: Capture, layout: Layout, reg: LaneRegistration, group: nat,
                       width: nat, height: nat, y: nat, x: nat): U16
    requires TwelveLanes(layout) && reg.Valid() && group < GROUPS && width > 0 && height > 0
  {
    var site := PickedSite(layout, reg, group, width, height, y, x);
    RenderedWord(capture, layout, site.lane, site.baseRow, site.column,
                 site.offset, site.skew, site.fullColumn, site.width, reg.units)
  }

  /** On a common image area it is the uncalibrated full-resolution word at the picked row and column. */
  lemma PreviewIsDecoded(capture: Capture, layout: Layout, reg: LaneRegistration, group: nat,
                         width: nat, height: nat, y: nat, x: nat)
    requires TwelveLanes(layout) && reg.Valid() && group < GROUPS && InArea(layout, reg, 0, 0)
    requires width > 0 && height > 0
    ensures
      var (_, rows, _, columns) := ImageArea(layout, reg);
      var row, column := ProportionalIndex(y, height, rows), ProportionalIndex(x, width, columns * TAPS);
      && InArea(layout, reg, row, column)
      && PreviewWord(capture, layout, reg, group, width, height, y, x)
           == DecodedWord(capture, layout, reg, Uncalibrated(), row, column, group)
  {
    hide ImageArea, RowUnits, RenderedWord, SampleSubrowWord, PixelInside, ProportionalIndex;
    var (_, rows, _, columns) := ImageArea(layout, reg);
    var row, column := ProportionalIndex(y, height, rows), ProportionalIndex(x, width, columns * TAPS);
    PixelReads(layout, reg, row, column, group);
    var site := SiteOf(layout, reg, row, column, group);
    RenderedIsSampled(capture, layout, site.lane, site.baseRow, site.column,
                      site.offset, site.skew, site.fullColumn, site.width, reg.units);
  }

  /** Without common rows, a preview still starts at or below the first row unless an offset exceeds the height. */
  lemma PreviewRowsBelowTop(layout: Layout, reg: LaneRegistration, group: nat,
                            width: nat, height: nat, y: nat, x: nat)
    requires TwelveLanes(layout) && reg.Valid() && group < GROUPS && width > 0 && height > 0
    requires forall lane :: 0 <= lane < LANES ==>
      && layout.inputRows * reg.units + reg.offsets[lane] >= 0
      && layout.inputRows * reg.units + reg.offsets[lane] + reg.skews[lane] >= 0
    ensures
      var site := PickedSite(layout, reg, group, width, height, y, x);
      RowUnits(site.baseRow, site.offset, site.skew, site.fullColumn, site.width, reg.units) >= 0
  {
    hide RowUnits, SubrowOverlap, CommonOverlap, ProportionalIndex, HorizontalScale, Endpoints;
    var site := PickedSite(layout, reg, group, width, height, y, x);
    var ends, lane, units := Endpoints(reg.offsets, reg.skews), site.lane, reg.units;
    var start := SubrowOverlap(layout.inputRows, ends, units).0;
    forall k | 0 <= k < |ends|
      ensures layout.inputRows * units + ends[k] >= 0
    {
      assert k == 2 * (k / 2) || k == 2 * (k / 2) + 1;
      assert ends[2 * (k / 2)] == reg.offsets[k / 2];
    }
    SubrowStartFits(layout.inputRows, ends, units, 2 * lane, site.baseRow);
    SubrowStartFits(layout.inputRows, ends, units, 2 * lane + 1, site.baseRow);
    BlendNonnegative(site.baseRow, site.offset, site.skew, site.fullColumn, site.width, units);
  }

  /** Rows at or below the overlap's first one keep every offset position inside the image from above. */
  lemma SubrowStartFits(length: nat, offsets: seq<int>, units: nat, k: nat, r: nat)
    requires units > 0 && k < |offsets| && r >= SubrowOverlap(length, offsets, units).0
    requires forall i :: 0 <= i < |offsets| ==> length * units + offsets[i] >= 0
    ensures r * units + offsets[k] >= 0
  {
    var starts := SubrowStarts(offsets, units);
    var top := MaxOver(starts[1..], starts[0]);
    forall i | 0 <= i < |offsets|
      ensures starts[i] <= length
    {
      FloorStart(offsets[i], units, length);
    }
    MaxOverAtMost(starts[1..], starts[0], length);
    MaxOverAtMost(starts[1..], starts[0], r);
    assert starts[k] <= r by {
      assert k == 0 || starts[k] == starts[1..][k - 1];
    }
    FloorStart(offsets[k], units, r);
  }

  lemma BlendNonnegative(baseRow: nat, offset: int, skew: int, fullColumn: nat, width: nat, units: nat)
    requires units > 0 && (fullColumn < width || fullColumn == 0)
    requires baseRow * units + offset >= 0 && baseRow * units + (offset + skew) >= 0
    ensures RowUnits(baseRow, offset, skew, fullColumn, width, units) >= 0
  {
    var h := HorizontalScale(width);
    var left, right := baseRow * units + offset, baseRow * units + (offset + skew);
    RowUnitsBlend(baseRow, offset, skew, fullColumn, Max(width, 1), units);
    MulMonotone(0, left, h - fullColumn);
    MulMonotone(0, right, fullColumn);
  }

  /** Each picked pixel lies in the image area and reads existing cells of its lane, under the same condition. */
  lemma PreviewReadsInside(layout: Layout, reg: LaneRegistration, group: nat, width: nat, height: nat, y: nat, x: nat)
    requires TwelveLanes(layout) && reg.Valid() && group < GROUPS && InArea(layout, reg, 0, 0)
    requires width > 0 && height > 0
    ensures
      var (_, rows, _, columns) := ImageArea(layout, reg);
      var row, column := ProportionalIndex(y, height, rows), ProportionalIndex(x, width, columns * TAPS);
      InArea(layout, reg, row, column)
      && (ColumnsInside(layout, reg) ==> PixelInside(layout, reg, row, column, group))
  {
    hide ImageArea, PixelInside, ColumnsInside, ProportionalIndex;
    var (_, rows, _, columns) := ImageArea(layout, reg);
    if ColumnsInside(layout, reg) {
      PixelReadsInside(layout, reg, ProportionalIndex(y, height, rows),
                       ProportionalIndex(x, width, columns * TAPS), group);
    }
  }

  /** A preview of the image's own size is the image. */
  lemma NativePreview(capture: Capture, layout: Layout, reg: LaneRegistration, group: nat, y: nat, x: nat)
    requires TwelveLanes(layout) && reg.Valid() && group < GROUPS && InArea(layout, reg, y, x)
    ensures
      var (_, rows, _, columns) := ImageArea(layout, reg);
      PreviewWord(capture, layout, reg, group, columns * TAPS, rows, y, x)
        == DecodedWord(capture, layout, reg, Uncalibrated(), y, x, group)
  {
    hide ImageArea, DecodedWord, ProportionalIndex, PreviewWord;
    var (_, rows, _, columns) := ImageArea(layout, reg);
    PreviewIsDecoded(capture, layout, reg, group, columns * TAPS, rows, y, x);
    ProportionalIdentity(y, rows);
    ProportionalIdentity(x, columns * TAPS);
  }

  /** One colour group's plane, row by row. */
  method RenderPlane(capture: Capture, layout: Layout, reg: LaneRegistration, group: nat, width: nat, height: nat)
    returns (plane: seq<U16>)
    requires TwelveLanes(layout) && reg.Valid() && group < GROUPS
    ensures |plane| == height * width
    ensures width > 0 && height > 0 ==>
      forall i :: 0 <= i < |plane| ==>
        plane[i] == PreviewWord(capture, layout, reg, group, width, height, i / width, i % width)
  {
    hide PreviewWord;
    plane := [];
    for y := 0 to height
      invariant |plane| == y * width
      invariant width > 0 && height > 0 ==>
        forall i :: 0 <= i < |plane| ==>
          plane[i] == PreviewWord(capture, layout, reg, group, width, height, i / width, i % width)
    {
      for x := 0 to width
        invariant |plane| == y * width + x
        invariant width > 0 && height > 0 ==>
          forall i :: 0 <= i < |plane| ==>
            plane[i] == PreviewWord(capture, layout, reg, group, width, height, i / width, i % width)
      {
        var word := PreviewWord(capture, layout, reg, group, width, height, y, x);
        QuotientIs(y * width + x, width, y, x);
        plane := plane + [word];
      }
      assert y * width + width == (y + 1) * width;
    }
  }

  /** The planes of all colour groups. */
  method RenderPlanes(capture: Capture, layout: Layout, reg: LaneRegistration, width: nat, height: nat)
    returns (planes: seq<seq<U16>>)
    requires TwelveLanes(layout) && reg.Valid()
    ensures |planes| == GROUPS
    ensures forall g :: 0 <= g < GROUPS ==> |planes[g]| == height * width
    ensures width > 0 && height > 0 ==>
      forall g, i :: 0 <= g < GROUPS && 0 <= i < |planes[g]| ==>
        planes[g][i] == PreviewWord(capture, layout, reg, g, width, height, i / width, i % width)
  {
    hide PreviewWord;
    planes := [];
    for group := 0 to GROUPS
      invariant |planes| == group
      invariant forall g :: 0 <= g < group ==> |planes[g]| == height * width
      invariant width > 0 && height > 0 ==>
        forall g, i :: 0 <= g < group && 0 <= i < |planes[g]| ==>
          planes[g][i] == PreviewWord(capture, layout, reg, g, width, height, i / width, i % width)
    {
      var plane := RenderPlane(capture, layout, reg, group, width, height);
      planes := planes + [plane];
    }
  }
}
