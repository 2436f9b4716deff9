/**
 The affine sub-row sampler of the layout analyzer, in its separate and its
 inlined form, and the full-resolution decode built on it.
 */
module CcdSampling {
  import opened Common
  import opened Arithmetic
  import opened CcdGeometry

  const GROUPS: nat := 3
  const TAPS: nat := 4
  const ROW_OFFSET_UNITS: nat := 4

  // ----- interpolation -----

  function Weighted(first: nat, second: nat, fraction: nat, scale: nat): nat
    requires fraction < scale
  {
    var rest: nat := scale - fraction;
    first * rest + second * fraction
  }

  lemma WeightedBounds(first: nat, second: nat, fraction: nat, scale: nat)
    requires fraction < scale
    ensures Min(first, second) * scale <= Weighted(first, second, fraction, scale) <= Max(first, second) * scale
  {
    var low, high, rest := Min(first, second), Max(first, second), scale - fraction;
    MulMonotone(low, first, rest);
    MulMonotone(low, second, fraction);
    MulMonotone(first, high, rest);
    MulMonotone(second, high, fraction);
    assert low * rest + low * fraction == low * scale;
    assert high * rest + high * fraction == high * scale;
  }

  /** Rounded blend of two words; the result always lies between them. */
  function Interpolate(first: U16, second: U16, fraction: nat, scale: nat): (r: U16)
    requires fraction < scale
    ensures Min(first, second) <= r <= Max(first, second)
  {
    InterpolationBetween(first, second, fraction, scale);
    (Weighted(first, second, fraction, scale) + scale / 2) / scale
  }

  lemma InterpolationBetween(first: nat, second: nat, fraction: nat, scale: nat)
    requires fraction < scale
    ensures Min(first, second) <= (Weighted(first, second, fraction, scale) + scale / 2) / scale <= Max(first, second)
  {
    var low, high, n := Min(first, second), Max(first, second), Weighted(first, second, fraction, scale) + scale / 2;
    WeightedBounds(first, second, fraction, scale);
    DivMonotone(low * scale, n, scale);
    DivMonotone(n, high * scale + (scale - 1), scale);
    QuotientIs(low * scale, scale, low, 0);
    QuotientIs(high * scale + (scale - 1), scale, high, scale - 1);
  }

  /** It is a nearest value to the mean that gives the second word the fraction's share: off by at most half a step. */
  lemma InterpolationNearest(first: U16, second: U16, fraction: nat, scale: nat)
    requires fraction < scale
    ensures
      var r, exact := Interpolate(first, second, fraction, scale), first * (scale - fraction) + second * fraction;
      -(scale as int) <= 2 * (r * scale - exact) <= scale
  {
    var n := Weighted(first, second, fraction, scale) + scale / 2;
    assert n == (n / scale) * scale + n % scale;
  }

  // ----- where the affine sampler reads -----

  function HorizontalScale(width: nat): (h: nat)
    ensures h >= 1 && width <= h + 1
  {
    var last: nat := SaturatingSub(width, 1);
    if last == 0 then 1 else last
  }

  function RowScale(width: nat, units: nat): (s: nat)
    requires units > 0
    ensures s > 0
  {
    var h := HorizontalScale(width);
    ProductPositive(units, h);
    units * h
  }

  lemma ProductPositive(a: nat, b: nat)
    requires a > 0 && b > 0
    ensures a * b > 0
  {
  }

  /** Source row position in units of `RowScale`: a row offset plus a skew that grows across the width. */
  function RowUnits(baseRow: nat, offset: int, skew: int, fullColumn: nat, width: nat, units: nat): int
    requires units > 0
  {
    baseRow * RowScale(width, units) + offset * HorizontalScale(width) + skew * fullColumn
  }

  /** The skewed position is the blend of the two endpoint positions. */
  lemma RowUnitsBlend(baseRow: nat, offset: int, skew: int, fullColumn: nat, width: nat, units: nat)
    requires units > 0 && fullColumn < width
    ensures
      var h := HorizontalScale(width);
      var left, right := baseRow * units + offset, baseRow * units + (offset + skew);
      RowUnits(baseRow, offset, skew, fullColumn, width, units) == left * (h - fullColumn) + right * fullColumn
  {
    var h := HorizontalScale(width);
    var base := baseRow * units;
    assert baseRow * (units * h) == base * h;
    assert (base + offset) * (h - fullColumn) == base * h + offset * h - base * fullColumn - offset * fullColumn;
    assert (base + offset + skew) * fullColumn == base * fullColumn + offset * fullColumn + skew * fullColumn;
  }

  /**
   The position without the width factor: the skew is spread over the steps
   from the first column to the last, so the last column sits at the full skew.
   */
  lemma RowPosition(baseRow: nat, offset: int, skew: int, fullColumn: nat, width: nat, units: nat)
    requires units > 0 && fullColumn < width
    ensures
      var n, scale := RowUnits(baseRow, offset, skew, fullColumn, width, units), RowScale(width, units);
      && (width == 1 ==> n == baseRow * units + offset && scale == units)
      && (width >= 2 ==>
            n == (baseRow * units + offset) * (width - 1) + skew * fullColumn && scale == units * (width - 1))
      && (width >= 2 && fullColumn == width - 1 ==> n == (baseRow * units + offset + skew) * (width - 1))
  {
    var h := HorizontalScale(width);
    assert baseRow * (units * h) == (baseRow * units) * h;
    assert (baseRow * units + offset) * h == (baseRow * units) * h + offset * h;
  }

  /** If both skew endpoints fit, every column reads inside the image, and interpolation has a next row. */
  lemma SamplerInside(
    height: nat, baseRow: nat, offset: int, skew: int, fullColumn: nat, width: nat, units: nat)
    requires units > 0 && fullColumn < width && height > 0
    requires Fits(height, offset, units, baseRow) && Fits(height, offset + skew, units, baseRow)
    ensures
      var n, scale := RowUnits(baseRow, offset, skew, fullColumn, width, units), RowScale(width, units);
      && 0 <= n <= (height - 1) * scale
      && 0 <= n / scale < height
      && (n % scale != 0 ==> n / scale + 1 < height)
  {
    hide RowUnits, HorizontalScale;
    var h, scale := HorizontalScale(width), RowScale(width, units);
    var n := RowUnits(baseRow, offset, skew, fullColumn, width, units);
    var left, right := baseRow * units + offset, baseRow * units + (offset + skew);
    RowUnitsBlend(baseRow, offset, skew, fullColumn, width, units);
    BlendBounds(left, right, (height - 1) * units, h, fullColumn);
    ScaledTop(height - 1, units, h);
    RowInside(n, scale, height);
  }

  lemma BlendBounds(left: int, right: int, top: int, h: nat, column: nat)
    requires 0 <= left <= top && 0 <= right <= top && column <= h
    ensures 0 <= left * (h - column) + right * column <= top * h
  {
    MulMonotone(0, left, h - column);
    MulMonotone(0, right, column);
    MulMonotone(left, top, h - column);
    MulMonotone(right, top, column);
    assert top * (h - column) + top * column == top * h;
  }

  lemma ScaledTop(last: int, units: nat, h: nat)
    ensures (last * units) * h == last * (units * h)
  {
  }

  lemma RowInside(n: int, scale: nat, height: nat)
    requires scale > 0 && height > 0 && 0 <= n <= (height - 1) * scale
    ensures 0 <= n / scale < height
    ensures n % scale != 0 ==> n / scale + 1 < height
  {
    DivMonotone(0, n, scale);
    DivMonotone(n, (height - 1) * scale, scale);
    QuotientIs((height - 1) * scale, scale, height - 1, 0);
    assert n == (n / scale) * scale + n % scale;
  }

  // ----- sampling -----

  function LayoutWord(capture: Capture, layout: Layout, lane: nat, row: nat, column: nat): Option<U16>
    requires layout.modulus > 0
  {
    var (rawRow, rawWord) := layout.RawPosition(lane, row, column);
    capture.Word(rawRow, rawWord)
  }

  function OrElse(word: Option<U16>, fallback: U16): U16 {
    if word.Some? then word.value else fallback
  }

  /** The row and fraction parts of a nonnegative row position. */
  function RowOf(n: int, scale: nat): (r: (nat, nat))
    requires n >= 0 && scale > 0
    ensures r.1 < scale && n == r.0 * scale + r.1
  {
    DivMonotone(0, n, scale);
    QuotientIs(0, scale, 0, 0);
    (n / scale, n % scale)
  }

  function SampleSubrowWord(capture: Capture, layout: Layout, lane: nat, baseRow: nat, column: nat,
                            offset: int, skew: int, fullColumn: nat, width: nat, units: nat): U16
    requires layout.modulus > 0 && units > 0
    requires RowUnits(baseRow, offset, skew, fullColumn, width, units) >= 0
  {
    var scale := RowScale(width, units);
    var (row, fraction) := RowOf(RowUnits(baseRow, offset, skew, fullColumn, width, units), scale);
    var first := OrElse(LayoutWord(capture, layout, lane, row, column), 0);
    if fraction == 0 then first
    else Interpolate(first, OrElse(LayoutWord(capture, layout, lane, row + 1, column), first), fraction, scale)
  }

  /** Between two present rows the sample is nearest to their mean, weighted by how far the position has moved on. */
  lemma SampleBlends(capture: Capture, layout: Layout, lane: nat, baseRow: nat, column: nat, offset: int, skew: int,
                     fullColumn: nat, width: nat, units: nat, row: nat, fraction: nat, a: U16, b: U16)
    requires layout.axis.Word? && layout.modulus > 0 && units > 0 && fraction < RowScale(width, units)
    requires RowUnits(baseRow, offset, skew, fullColumn, width, units) == row * RowScale(width, units) + fraction >= 0
    requires capture.Word(row, column * layout.modulus + lane) == Some(a)
    requires capture.Word(row + 1, column * layout.modulus + lane) == Some(b)
    ensures
      var scale := RowScale(width, units);
      var r := SampleSubrowWord(capture, layout, lane, baseRow, column, offset, skew, fullColumn, width, units);
      -(scale as int) <= 2 * (r * scale - (a * (scale - fraction) + b * fraction)) <= scale
  {
    hide Interpolate, RowUnits, RowScale, Capture.Word;
    var scale := RowScale(width, units);
    QuotientIs(row * scale + fraction, scale, row, fraction);
    InterpolationNearest(a, b, fraction, scale);
    if fraction == 0 {
      assert a * (scale - fraction) + b * fraction == a * scale;
    }
  }

  /** A signed index after its conversion to an unsigned 64-bit one. */
  function AsIndex(k: int): nat {
    if k >= 0 then k else k % 0x1_0000_0000_0000_0000
  }

  /** The preview renderer's inline form, which always interpolates and takes any row position. */
  function RenderedWord(capture: Capture, layout: Layout, lane: nat, baseRow: nat, column: nat,
                        offset: int, skew: int, fullColumn: nat, width: nat, units: nat): U16
    requires layout.modulus > 0 && units > 0
  {
    var n, scale := RowUnits(baseRow, offset, skew, fullColumn, width, units), RowScale(width, units);
    var row, fraction: nat := n / scale, n % scale;
    var first := OrElse(LayoutWord(capture, layout, lane, AsIndex(row), column), 0);
    var second := if fraction == 0 then first
                  else OrElse(LayoutWord(capture, layout, lane, AsIndex(row + 1), column), first);
    Interpolate(first, second, fraction, scale)
  }

  /** Both forms of the sampler give the same word. */
  lemma RenderedIsSampled(capture: Capture, layout: Layout, lane: nat, baseRow: nat, column: nat,
                          offset: int, skew: int, fullColumn: nat, width: nat, units: nat)
    requires layout.modulus > 0 && units > 0
    requires RowUnits(baseRow, offset, skew, fullColumn, width, units) >= 0
    ensures RenderedWord(capture, layout, lane, baseRow, column, offset, skew, fullColumn, width, units)
      == SampleSubrowWord(capture, layout, lane, baseRow, column, offset, skew, fullColumn, width, units)
  {
  }

  /** A row above the image is a huge index after conversion, where no row is. */
  lemma RowAboveIsAbsent(capture: Capture, layout: Layout, lane: nat, row: int, column: nat)
    requires layout.axis.Word? && layout.modulus > 0
    requires -0x8000_0000_0000_0000 <= row < 0 && |capture.lineStarts| <= 0x8000_0000_0000_0000
    ensures LayoutWord(capture, layout, lane, AsIndex(row), column) == None
  {
    assert AsIndex(row) == row + 0x1_0000_0000_0000_0000;
  }

  // ----- full-resolution decode -----

  /** Both skew endpoints of every lane, in lane order. */
  function Endpoints(offsets: seq<int>, skews: seq<int>): (e: seq<int>)
    requires |offsets| == |skews|
    ensures |e| == 2 * |offsets|
    ensures forall i :: 0 <= i < |offsets| ==> e[2 * i] == offsets[i] && e[2 * i + 1] == offsets[i] + skews[i]
  {
    if offsets == [] then []
    else
      var n := |offsets| - 1;
      Endpoints(offsets[..n], skews[..n]) + [offsets[n], offsets[n] + skews[n]]
  }

  /** Lane of a colour group's tap: group `g` owns lanes `g, g + 3, g + 6, g + 9`. */
  function LaneOf(group: nat, tap: nat): (lane: nat)
    requires group < GROUPS && tap < TAPS
    ensures lane < LANES
  {
    group + tap * GROUPS
  }

  datatype LaneRegistration = LaneRegistration(
    offsets: seq<int>, skews: seq<int>, columnOffsets: seq<int>, units: nat)
  {
    predicate Valid() {
      |offsets| == |skews| == |columnOffsets| == LANES && units > 0
    }
  }

  /** First row, height, first lane column and lane columns of the common image area. */
  function ImageArea(layout: Layout, reg: LaneRegistration): (nat, nat, nat, nat)
    requires layout.modulus > 0 && reg.Valid()
  {
    var (laneWidth, height) := layout.Dimensions(0);
    var (row, rows) := SubrowOverlap(height, Endpoints(reg.offsets, reg.skews), reg.units);
    var (column, columns) := CommonOverlap(laneWidth, reg.columnOffsets);
    (row, rows, column, columns)
  }

  predicate TwelveLanes(layout: Layout) {
    layout.axis.Word? && layout.modulus == LANES && layout.inputRows > 0
  }

  predicate InArea(layout: Layout, reg: LaneRegistration, y: nat, x: nat)
    requires layout.modulus > 0 && reg.Valid()
  {
    var (_, rows, _, columns) := ImageArea(layout, reg);
    y < rows && x < columns * TAPS
  }

  /** Where one output pixel of one colour group is read. */
  datatype Site = Site(lane: nat, baseRow: nat, column: int, offset: int, skew: int, fullColumn: nat, width: nat)

  function SiteOf(layout: Layout, reg: LaneRegistration, y: nat, x: nat, group: nat): Site
    requires layout.modulus > 0 && reg.Valid() && group < GROUPS
  {
    var (row, _, column, columns) := ImageArea(layout, reg);
    var lane := LaneOf(group, x % TAPS);
    Site(lane, row + y, column + x / TAPS + reg.columnOffsets[lane],
         reg.offsets[lane], reg.skews[lane], x, columns * TAPS)
  }

  /** A pixel reads a cell of its lane, and the row below it exists whenever the sampler interpolates. */
  ghost predicate PixelInside(layout: Layout, reg: LaneRegistration, y: nat, x: nat, group: nat)
    requires TwelveLanes(layout) && reg.Valid() && group < GROUPS
  {
    var site := SiteOf(layout, reg, y, x, group);
    var n := RowUnits(site.baseRow, site.offset, site.skew, site.fullColumn, site.width, reg.units);
    && site.column >= 0 && n >= 0
    && var (r, fraction) := RowOf(n, RowScale(site.width, reg.units));
       && layout.Cell(site.lane, r, site.column)
       && (fraction != 0 ==> layout.Cell(site.lane, r + 1, site.column))
  }

  /** Every lane has the last column of the image area, which is computed from lane 0's width alone. */
  predicate ColumnsInside(layout: Layout, reg: LaneRegistration)
    requires TwelveLanes(layout) && reg.Valid()
  {
    var (_, _, column, columns) := ImageArea(layout, reg);
    forall lane :: 0 <= lane < LANES ==> column + columns - 1 + reg.columnOffsets[lane] < layout.Dimensions(lane).0
  }

  /** Rows are never left, and columns never to the left; what remains is the width of the pixel's own lane. */
  lemma PixelReads(layout: Layout, reg: LaneRegistration, y: nat, x: nat, group: nat)
    requires TwelveLanes(layout) && reg.Valid() && group < GROUPS && InArea(layout, reg, y, x)
    ensures
      var site := SiteOf(layout, reg, y, x, group);
      && RowUnits(site.baseRow, site.offset, site.skew, site.fullColumn, site.width, reg.units) >= 0
      && site.column >= 0
      && (PixelInside(layout, reg, y, x, group) <==> site.column < layout.Dimensions(site.lane).0)
  {
    var (row, rows, column, columns) := ImageArea(layout, reg);
    var site := SiteOf(layout, reg, y, x, group);
    var lane, height := site.lane, layout.inputRows;
    var ends := Endpoints(reg.offsets, reg.skews);
    SubrowOverlapPositive(height, ends, reg.units, row + y);
    assert OverlapRight(height, ends, reg.units, row + y);
    assert Fits(height, ends[2 * lane], reg.units, row + y);
    assert Fits(height, ends[2 * lane + 1], reg.units, row + y);
    SamplerInside(height, site.baseRow, site.offset, site.skew, site.fullColumn, site.width, reg.units);
    CommonOverlapExact(layout.Dimensions(0).0, reg.columnOffsets, column + x / TAPS);
  }

  /** The same without naming the site. */
  lemma PixelInsideIff(layout: Layout, reg: LaneRegistration, y: nat, x: nat, group: nat)
    requires TwelveLanes(layout) && reg.Valid() && group < GROUPS && InArea(layout, reg, y, x)
    ensures
      var lane := LaneOf(group, x % TAPS);
      PixelInside(layout, reg, y, x, group) <==>
        ImageArea(layout, reg).2 + x / TAPS + reg.columnOffsets[lane] < layout.Dimensions(lane).0
  {
    hide ImageArea, PixelInside, RowUnits, Layout.Dimensions;
    PixelReads(layout, reg, y, x, group);
  }

  lemma PixelReadsInside(layout: Layout, reg: LaneRegistration, y: nat, x: nat, group: nat)
    requires TwelveLanes(layout) && reg.Valid() && group < GROUPS && InArea(layout, reg, y, x)
    requires ColumnsInside(layout, reg)
    ensures PixelInside(layout, reg, y, x, group)
  {
    hide ImageArea, PixelInside, Layout.Dimensions;
    PixelInsideIff(layout, reg, y, x, group);
    var (_, _, column, columns) := ImageArea(layout, reg);
    var lane := LaneOf(group, x % TAPS);
    assert column + columns - 1 + reg.columnOffsets[lane] < layout.Dimensions(lane).0;
  }

  /** The pixel that reads a lane's last column of the area. */
  lemma LastColumnPixel(layout: Layout, reg: LaneRegistration, lane: nat) returns (x: nat, group: nat)
    requires TwelveLanes(layout) && reg.Valid() && InArea(layout, reg, 0, 0) && lane < LANES
    ensures group < GROUPS && InArea(layout, reg, 0, x)
    ensures
      var (_, _, column, columns) := ImageArea(layout, reg);
      PixelInside(layout, reg, 0, x, group) <==>
        column + columns - 1 + reg.columnOffsets[lane] < layout.Dimensions(lane).0
  {
    hide ImageArea, PixelInside, Layout.Dimensions;
    var (_, _, column, columns) := ImageArea(layout, reg);
    x, group := (columns - 1) * TAPS + lane / GROUPS, lane % GROUPS;
    PixelInsideIff(layout, reg, 0, x, group);
    assert x / TAPS == columns - 1 && LaneOf(group, x % TAPS) == lane;
  }

  /** On a nonempty area, every pixel of every group reads existing cells exactly when every lane is wide enough. */
  lemma PixelsInsideIff(layout: Layout, reg: LaneRegistration)
    requires TwelveLanes(layout) && reg.Valid() && InArea(layout, reg, 0, 0)
    ensures ColumnsInside(layout, reg) <==>
      forall y: nat, x: nat, group: nat :: group < GROUPS && InArea(layout, reg, y, x) ==>
        PixelInside(layout, reg, y, x, group)
  {
    hide ImageArea, PixelInside, InArea, Layout.Dimensions;
    var (_, _, column, columns) := ImageArea(layout, reg);
    if ColumnsInside(layout, reg) {
      forall y: nat, x: nat, group: nat | group < GROUPS && InArea(layout, reg, y, x)
        ensures PixelInside(layout, reg, y, x, group)
      {
        PixelReadsInside(layout, reg, y, x, group);
      }
    } else {
      var lane :| 0 <= lane < LANES && column + columns - 1 + reg.columnOffsets[lane] >= layout.Dimensions(lane).0;
      var x, group := LastColumnPixel(layout, reg, lane);
      assert !PixelInside(layout, reg, 0, x, group);
    }
  }

  /** Whole twelve-word columns make every lane wide enough; without column shifts nothing else does. */
  lemma WholeColumnsInside(layout: Layout, reg: LaneRegistration)
    requires TwelveLanes(layout) && reg.Valid() && InArea(layout, reg, 0, 0)
    ensures layout.nominalWords % LANES == 0 ==> ColumnsInside(layout, reg)
    ensures (forall lane :: 0 <= lane < LANES ==> reg.columnOffsets[lane] == 0) ==>
      (ColumnsInside(layout, reg) <==> layout.nominalWords % LANES == 0)
  {
    var (_, _, column, columns) := ImageArea(layout, reg);
    var width := layout.Dimensions(0).0;
    CommonOverlapExact(width, reg.columnOffsets, column + columns - 1);
    if layout.nominalWords % LANES == 0 {
      forall lane | 0 <= lane < LANES
        ensures column + columns - 1 + reg.columnOffsets[lane] < layout.Dimensions(lane).0
      {
        EvenLanes(layout, lane);
      }
    } else if forall lane :: 0 <= lane < LANES ==> reg.columnOffsets[lane] == 0 {
      UnshiftedColumns(width, reg.columnOffsets);
      assert layout.Dimensions(LANES - 1).0 < width;
    }
  }

  /** Thirteen words: lane 0 has two columns and lane 1 has one, so pixel 4 of group 1 reads past its lane. */
  lemma ThirteenWords(zeros: seq<int>)
    requires |zeros| == LANES && forall i :: 0 <= i < LANES ==> zeros[i] == 0
    ensures
      var layout, reg := Layout(Word, LANES, 13, 1), LaneRegistration(zeros, zeros, zeros, 1);
      && TwelveLanes(layout) && reg.Valid() && InArea(layout, reg, 0, 4)
      && layout.Dimensions(0).0 == 2 && layout.Dimensions(1).0 == 1
      && !ColumnsInside(layout, reg) && !PixelInside(layout, reg, 0, 4, 1)
  {
    var layout, reg := Layout(Word, LANES, 13, 1), LaneRegistration(zeros, zeros, zeros, 1);
    UnshiftedColumns(2, zeros);
    ZeroEndpoints(zeros);
    UnshiftedRows(Endpoints(zeros, zeros));
    WholeColumnsInside(layout, reg);
    PixelInsideIff(layout, reg, 0, 4, 1);
  }

  lemma ZeroEndpoints(zeros: seq<int>)
    requires zeros != [] && forall i :: 0 <= i < |zeros| ==> zeros[i] == 0
    ensures Endpoints(zeros, zeros) != []
    ensures forall i :: 0 <= i < |Endpoints(zeros, zeros)| ==> Endpoints(zeros, zeros)[i] == 0
  {
    var ends := Endpoints(zeros, zeros);
    forall i | 0 <= i < |ends|
      ensures ends[i] == 0
    {
      var lane := i / 2;
      assert ends[2 * lane] == zeros[lane] && ends[2 * lane + 1] == zeros[lane] + zeros[lane];
      assert i == 2 * lane || i == 2 * lane + 1;
    }
  }

  lemma UnshiftedRows(offsets: seq<int>)
    requires offsets != [] && forall i :: 0 <= i < |offsets| ==> offsets[i] == 0
    ensures SubrowOverlap(1, offsets, 1) == (0, 1)
  {
    SubrowOverlapPositive(1, offsets, 1, 0);
    SubrowOverlapPositive(1, offsets, 1, 1);
  }

  /** A decoded word, optionally mapped through a per-lane, per-column calibration. */
  function DecodedWord(capture: Capture, layout: Layout, reg: LaneRegistration,
                       calibrate: (U16, nat, nat) -> U16, y: nat, x: nat, group: nat): U16
    requires TwelveLanes(layout) && reg.Valid() && group < GROUPS
    requires InArea(layout, reg, y, x)
  {
    PixelReads(layout, reg, y, x, group);
    var site := SiteOf(layout, reg, y, x, group);
    calibrate(
      SampleSubrowWord(capture, layout, site.lane, site.baseRow, site.column,
                       site.offset, site.skew, site.fullColumn, site.width, reg.units),
      site.lane, site.column)
  }

  datatype Image = Image(width: nat, height: nat, rows: seq<seq<seq<U16>>>)

  /** The native-resolution decode: refused exactly when the lanes share no image area. */
  method DecodeFullResolution(capture: Capture, layout: Layout, reg: LaneRegistration,
                              calibrate: (U16, nat, nat) -> U16, rgbGroups: seq<nat>)
    returns (image: Option<Image>)
    requires TwelveLanes(layout) && reg.Valid()
    requires |rgbGroups| == GROUPS && forall i :: 0 <= i < GROUPS ==> rgbGroups[i] < GROUPS
    ensures
      var (_, rows, _, columns) := ImageArea(layout, reg);
      && (image.None? <==> rows == 0 || columns == 0)
      && (image.Some? ==>
        && image.value.width == columns * TAPS && image.value.height == rows == |image.value.rows|
        && forall y :: 0 <= y < rows ==> |image.value.rows[y]| == columns * TAPS)
    ensures image.Some? ==>
      forall y, x :: 0 <= y < image.value.height && 0 <= x < image.value.width ==>
        image.value.rows[y][x] == Pixel(capture, layout, reg, calibrate, rgbGroups, y, x)
  {
    var (_, height, _, columns) := ImageArea(layout, reg);
    var width := columns * TAPS;
    if width == 0 || height == 0 {
      return None;
    }
    var rows := [];
    for y := 0 to height
      invariant |rows| == y
      invariant forall j :: 0 <= j < y ==> |rows[j]| == width
      invariant forall j, x :: 0 <= j < y && 0 <= x < width ==>
        rows[j][x] == Pixel(capture, layout, reg, calibrate, rgbGroups, j, x)
    {
      var row := [];
      for x := 0 to width
        invariant |row| == x
        invariant forall i :: 0 <= i < x ==> row[i] == Pixel(capture, layout, reg, calibrate, rgbGroups, y, i)
      {
        row := row + [Pixel(capture, layout, reg, calibrate, rgbGroups, y, x)];
      }
      rows := rows + [row];
    }
    return Some(Image(width, height, rows));
  }

  function Pixel(capture: Capture, layout: Layout, reg: LaneRegistration, calibrate: (U16, nat, nat) -> U16,
                 rgbGroups: seq<nat>, y: nat, x: nat): seq<U16>
    requires TwelveLanes(layout) && reg.Valid()
    requires |rgbGroups| == GROUPS && forall i :: 0 <= i < GROUPS ==> rgbGroups[i] < GROUPS
    requires InArea(layout, reg, y, x)
  {
    seq(GROUPS, i requires 0 <= i < GROUPS => DecodedWord(capture, layout, reg, calibrate, y, x, rgbGroups[i]))
  }

  /**
   The colours of a pixel whose lanes are shifted by whole rows: the group
   assigned to red, green or blue gives that channel, and lane `g + 3t` of
   column `x / 4` and tap `t = x % 4` gives its word.
   */
  lemma PixelShowsWords(capture: Capture, layout: Layout, reg: LaneRegistration, calibrate: (U16, nat, nat) -> U16,
                        rgbGroups: seq<nat>, y: nat, x: nat, i: nat, shift: int)
    requires TwelveLanes(layout) && reg.Valid() && InArea(layout, reg, y, x)
    requires |rgbGroups| == GROUPS && (forall j :: 0 <= j < GROUPS ==> rgbGroups[j] < GROUPS) && i < GROUPS
    requires
      var lane := rgbGroups[i] + 3 * (x % 4);
      reg.skews[lane] == 0 && reg.offsets[lane] == shift * reg.units
    ensures
      var (row, _, column, _) := ImageArea(layout, reg);
      var lane := rgbGroups[i] + 3 * (x % 4);
      var at := column + x / 4 + reg.columnOffsets[lane];
      && at >= 0 && row + y + shift >= 0
      && Pixel(capture, layout, reg, calibrate, rgbGroups, y, x)[i]
           == calibrate(OrElse(capture.Word(row + y + shift, 12 * at + lane), 0), lane, at)
  {
    hide ImageArea, RowUnits, PixelInside, Capture.Word, InArea;
    PixelReads(layout, reg, y, x, rgbGroups[i]);
    var site := SiteOf(layout, reg, y, x, rgbGroups[i]);
    WholeRows(site.baseRow, shift, site.fullColumn, site.width, reg.units);
  }

  lemma WholeRows(baseRow: nat, shift: int, fullColumn: nat, width: nat, units: nat)
    requires units > 0 && RowUnits(baseRow, shift * units, 0, fullColumn, width, units) >= 0
    ensures baseRow + shift >= 0
    ensures RowOf(RowUnits(baseRow, shift * units, 0, fullColumn, width, units), RowScale(width, units))
      == (baseRow + shift, 0)
  {
    var h, n := HorizontalScale(width), RowUnits(baseRow, shift * units, 0, fullColumn, width, units);
    var scale := RowScale(width, units);
    assert (shift * units) * h == shift * (units * h);
    assert n == (baseRow + shift) * scale;
    QuotientIs(n, scale, baseRow + shift, 0);
    if baseRow + shift < 0 {
      MulMonotone(baseRow + shift, -1, scale);
    }
  }
}
