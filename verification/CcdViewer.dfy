/**
 The viewer's side of the CCD decode: which analyzer reports it accepts, and
 its quarter-row sampler, which must agree with the analyzer's affine one.
 */
module CcdViewer {
  import opened Common
  import opened Arithmetic
  import opened CcdGeometry
  import opened CcdSampling

  // ----- the saved analyzer report -----

  datatype Subrow = Subrow(unitsPerRow: int, laneOffsets: seq<int>, laneSkews: seq<int>)
  datatype OffsetModel = OffsetModel(fittedLinePitch: int, colorOffsets: seq<int>)

  datatype Analysis = Analysis(
    accepted: bool,
    model: Option<OffsetModel>,
    /** Groups shown as red, green and blue. */
    rgbAssignment: Option<seq<nat>>,
    horizontalAdopted: bool,
    subrow: Option<Subrow>)

  datatype Report = Report(matchesScene: bool, nominalWords: nat, startByteOffset: int, analysis: Option<Analysis>)
  {
    /** Fixed array lengths of the saved form. */
    predicate WellFormed() {
      analysis.Some? ==>
        && (analysis.value.model.Some? ==> |analysis.value.model.value.colorOffsets| == GROUPS)
        && (analysis.value.rgbAssignment.Some? ==> |analysis.value.rgbAssignment.value| == GROUPS)
        && (analysis.value.subrow.Some? ==>
              |analysis.value.subrow.value.laneOffsets| == |analysis.value.subrow.value.laneSkews| == LANES)
    }
  }

  datatype Geometry = Geometry(rgbGroups: seq<nat>, offsetUnits: seq<int>)

  datatype Rejection =
    | OtherScene | OtherFraming | NoAnalysis | NotAccepted | NoModel | NoAssignment
    | BadAssignment | LinePitch | HorizontalShift | OtherUnits | Skewed | PerTapOffsets(group: nat)

  ghost predicate ValidAssignment(groups: seq<nat>) {
    && |groups| == GROUPS && (forall i :: 0 <= i < GROUPS ==> groups[i] < GROUPS)
    && forall i, j :: 0 <= i < j < GROUPS ==> groups[i] != groups[j]
  }

  /** Sub-row data the viewer can represent: quarter rows, no skew, one offset per colour group. */
  ghost predicate Representable(subrow: Subrow)
    requires |subrow.laneOffsets| == |subrow.laneSkews| == LANES
  {
    && subrow.unitsPerRow == ROW_OFFSET_UNITS
    && (forall lane :: 0 <= lane < LANES ==> subrow.laneSkews[lane] == 0)
    && forall lane :: 0 <= lane < LANES ==> subrow.laneOffsets[lane] == subrow.laneOffsets[lane % GROUPS]
  }

  ghost predicate Acceptable(report: Report, nominalWords: nat, startByteOffset: int)
    requires report.WellFormed()
  {
    && report.matchesScene && report.nominalWords == nominalWords && report.startByteOffset == startByteOffset
    && report.analysis.Some?
    && var a := report.analysis.value;
       && a.accepted && a.model.Some? && a.rgbAssignment.Some? && ValidAssignment(a.rgbAssignment.value)
       && a.model.value.fittedLinePitch == 0 && !a.horizontalAdopted
       && (a.subrow.Some? ==> Representable(a.subrow.value))
  }

  /** Whether the report breaks the rule that a rejection names. */
  ghost predicate Breaks(report: Report, nominalWords: nat, startByteOffset: int, reason: Rejection)
    requires report.WellFormed()
  {
    match reason
    case OtherScene => !report.matchesScene
    case OtherFraming => report.nominalWords != nominalWords || report.startByteOffset != startByteOffset
    case NoAnalysis => report.analysis.None?
    case _ => report.analysis.Some? && AnalysisBreaks(report.analysis.value, reason)
  }

  ghost predicate AnalysisBreaks(a: Analysis, reason: Rejection)
    requires Report(true, 0, 0, Some(a)).WellFormed()
  {
    match reason
    case NotAccepted => !a.accepted
    case NoModel => a.model.None?
    case NoAssignment => a.rgbAssignment.None?
    case BadAssignment => a.rgbAssignment.Some? && !ValidAssignment(a.rgbAssignment.value)
    case LinePitch => a.model.Some? && a.model.value.fittedLinePitch != 0
    case HorizontalShift => a.horizontalAdopted
    case OtherUnits => a.subrow.Some? && a.subrow.value.unitsPerRow != ROW_OFFSET_UNITS
    case Skewed => a.subrow.Some? && exists lane :: 0 <= lane < LANES && a.subrow.value.laneSkews[lane] != 0
    case PerTapOffsets(group) => a.subrow.Some? && SplitGroup(a.subrow.value.laneOffsets, group)
    case _ => false
  }

  /** Two lanes of the group have different offsets. */
  ghost predicate SplitGroup(laneOffsets: seq<int>, group: nat)
    requires |laneOffsets| == LANES
  {
    group < GROUPS
    && exists lane :: 0 <= lane < LANES && lane % GROUPS == group && laneOffsets[lane] != laneOffsets[group]
  }

  /** A report is acceptable exactly when it breaks no rule. */
  lemma AcceptableIff(report: Report, nominalWords: nat, startByteOffset: int)
    requires report.WellFormed()
    ensures Acceptable(report, nominalWords, startByteOffset) <==>
      forall reason: Rejection :: !Breaks(report, nominalWords, startByteOffset, reason)
  {
    if Acceptable(report, nominalWords, startByteOffset) {
      forall reason: Rejection
        ensures !Breaks(report, nominalWords, startByteOffset, reason)
      {
        AcceptedBreaksNothing(report, nominalWords, startByteOffset, reason);
      }
    } else {
      var reason := BrokenRule(report, nominalWords, startByteOffset);
    }
  }

  lemma AcceptedBreaksNothing(report: Report, nominalWords: nat, startByteOffset: int, reason: Rejection)
    requires report.WellFormed() && Acceptable(report, nominalWords, startByteOffset)
    ensures !Breaks(report, nominalWords, startByteOffset, reason)
  {
  }

  lemma BrokenRule(report: Report, nominalWords: nat, startByteOffset: int) returns (reason: Rejection)
    requires report.WellFormed() && !Acceptable(report, nominalWords, startByteOffset)
    ensures Breaks(report, nominalWords, startByteOffset, reason)
  {
    if !report.matchesScene {
      return OtherScene;
    }
    if report.nominalWords != nominalWords || report.startByteOffset != startByteOffset {
      return OtherFraming;
    }
    if report.analysis.None? {
      return NoAnalysis;
    }
    var a := report.analysis.value;
    reason :=
      if !a.accepted then NotAccepted
      else if a.model.None? then NoModel
      else if a.rgbAssignment.None? then NoAssignment
      else if !ValidAssignment(a.rgbAssignment.value) then BadAssignment
      else if a.model.value.fittedLinePitch != 0 then LinePitch
      else if a.horizontalAdopted then HorizontalShift
      else BrokenSubrow(a.subrow.value);
  }

  ghost function BrokenSubrow(subrow: Subrow): (reason: Rejection)
    requires |subrow.laneOffsets| == |subrow.laneSkews| == LANES && !Representable(subrow)
    ensures reason.OtherUnits? ==> subrow.unitsPerRow != ROW_OFFSET_UNITS
    ensures reason.Skewed? ==> exists lane :: 0 <= lane < LANES && subrow.laneSkews[lane] != 0
    ensures reason.PerTapOffsets? ==> SplitGroup(subrow.laneOffsets, reason.group)
    ensures reason.OtherUnits? || reason.Skewed? || reason.PerTapOffsets?
  {
    if subrow.unitsPerRow != ROW_OFFSET_UNITS then OtherUnits
    else if exists lane :: 0 <= lane < LANES && subrow.laneSkews[lane] != 0 then Skewed
    else
      var lane :| 0 <= lane < LANES && subrow.laneOffsets[lane] != subrow.laneOffsets[lane % GROUPS];
      PerTapOffsets(lane % GROUPS)
  }

  /** Whether the three groups are distinct and in range, with a table of those already seen. */
  method CheckAssignment(groups: seq<nat>) returns (valid: bool)
    requires |groups| == GROUPS
    ensures valid <==> ValidAssignment(groups)
  {
    var seen := seq(GROUPS, _ => false);
    for i := 0 to GROUPS
      invariant |seen| == GROUPS
      invariant forall j :: 0 <= j < i ==> groups[j] < GROUPS
      invariant forall j, k :: 0 <= j < k < i ==> groups[j] != groups[k]
      invariant forall g :: 0 <= g < GROUPS ==> (seen[g] <==> exists j :: 0 <= j < i && groups[j] == g)
    {
      if groups[i] >= GROUPS || seen[groups[i]] {
        return false;
      }
      seen := seen[groups[i] := true];
    }
    return true;
  }

  predicate Uniform(laneOffsets: seq<int>, group: nat)
    requires |laneOffsets| == LANES && group < GROUPS
  {
    && laneOffsets[group + 3] == laneOffsets[group]
    && laneOffsets[group + 6] == laneOffsets[group]
    && laneOffsets[group + 9] == laneOffsets[group]
  }

  /** Collects one offset per group, refusing lanes of a group that disagree. */
  method GroupOffsets(laneOffsets: seq<int>) returns (r: Outcome<seq<int>, Rejection>)
    requires |laneOffsets| == LANES
    ensures r.Ok? <==> forall lane :: 0 <= lane < LANES ==> laneOffsets[lane] == laneOffsets[lane % GROUPS]
    ensures r.Ok? ==>
      |r.value| == GROUPS && forall lane :: 0 <= lane < LANES ==> r.value[lane % GROUPS] == laneOffsets[lane]
    ensures r.Err? ==> r.error.PerTapOffsets? && SplitGroup(laneOffsets, r.error.group)
  {
    var units: seq<int> := [];
    for group := 0 to GROUPS
      invariant |units| == group
      invariant forall g :: 0 <= g < group ==> Uniform(laneOffsets, g) && units[g] == laneOffsets[g]
    {
      var offset := laneOffsets[group];
      for tap := 1 to TAPS
        invariant forall t :: 1 <= t < tap ==> laneOffsets[group + t * GROUPS] == offset
      {
        if laneOffsets[group + tap * GROUPS] != offset {
          var lane := group + tap * GROUPS;
          assert lane % GROUPS == group && laneOffsets[lane] != laneOffsets[lane % GROUPS];
          return Err(PerTapOffsets(group));
        }
      }
      assert laneOffsets[group + 1 * GROUPS] == offset && laneOffsets[group + 2 * GROUPS] == offset;
      assert laneOffsets[group + 3 * GROUPS] == offset;
      units := units + [offset];
    }
    assert Uniform(laneOffsets, 0) && Uniform(laneOffsets, 1) && Uniform(laneOffsets, 2);
    return Ok(units);
  }

  method AnySkew(skews: seq<int>) returns (found: bool)
    ensures found <==> exists i :: 0 <= i < |skews| && skews[i] != 0
  {
    for i := 0 to |skews|
      invariant forall j :: 0 <= j < i ==> skews[j] == 0
    {
      if skews[i] != 0 {
        return true;
      }
    }
    return false;
  }

  /** The acceptance rules, and what an accepted report tells the viewer. */
  method LoadGeometry(report: Report, nominalWords: nat, startByteOffset: int)
    returns (r: Outcome<Geometry, Rejection>)
    requires report.WellFormed()
    ensures r.Ok? <==> Acceptable(report, nominalWords, startByteOffset)
    ensures r.Err? ==> Breaks(report, nominalWords, startByteOffset, r.error)
    ensures r.Ok? ==>
      var a := report.analysis.value;
      && r.value.rgbGroups == a.rgbAssignment.value && |r.value.offsetUnits| == GROUPS
      && (if a.subrow.Some?
          then forall lane :: 0 <= lane < LANES ==>
            a.subrow.value.laneOffsets[lane] == r.value.offsetUnits[lane % GROUPS]
          else forall g :: 0 <= g < GROUPS ==>
            r.value.offsetUnits[g] == a.model.value.colorOffsets[g] * ROW_OFFSET_UNITS)
  {
    if !report.matchesScene { return Err(OtherScene); }
    if report.nominalWords != nominalWords || report.startByteOffset != startByteOffset { return Err(OtherFraming); }
    if report.analysis.None? { return Err(NoAnalysis); }
    var a := report.analysis.value;
    if !a.accepted { return Err(NotAccepted); }
    if a.model.None? { return Err(NoModel); }
    if a.rgbAssignment.None? { return Err(NoAssignment); }
    var valid := CheckAssignment(a.rgbAssignment.value);
    if !valid { return Err(BadAssignment); }
    if a.model.value.fittedLinePitch != 0 { return Err(LinePitch); }
    if a.horizontalAdopted { return Err(HorizontalShift); }
    var colors := a.model.value.colorOffsets;
    var units := seq(GROUPS, i requires 0 <= i < GROUPS => colors[i] * ROW_OFFSET_UNITS);
    if a.subrow.Some? {
      var subrow := a.subrow.value;
      if subrow.unitsPerRow != ROW_OFFSET_UNITS { return Err(OtherUnits); }
      var skewed := AnySkew(subrow.laneSkews);
      if skewed { return Err(Skewed); }
      var grouped := GroupOffsets(subrow.laneOffsets);
      if grouped.Err? { return Err(grouped.error); }
      units := grouped.value;
    }
    return Ok(Geometry(a.rgbAssignment.value, units));
  }

  // ----- the viewer's sampler -----

  datatype ChannelMap = ChannelMap(group: nat, rowOffsetUnits: int, columnOffset: int)

  function DecodedWordIndex(column: nat, tap: nat, group: nat): nat {
    column * LANES + tap * GROUPS + group
  }

  /** Dark and white reference levels per lane and lane column. */
  datatype Calibration = Calibration(dark: seq<seq<U16>>, white: seq<seq<U16>>) {
    predicate Covers(lane: nat, column: nat) {
      lane < |dark| && column < |dark[lane]| && lane < |white| && column < |white[lane]|
    }
  }

  const MINIMUM_WHITE_DARK_SPAN: nat := 512

  function CalibrateWord(value: U16, dark: U16, white: U16): U16 {
    var span := SaturatingSub(white, dark);
    if span < MINIMUM_WHITE_DARK_SPAN then value
    else
      var scaled := SaturatingSub(value, dark) * 0xFFFF / span;
      Clamp(scaled, 0, 0xFFFF)
  }

  /** With a usable span the references map to the ends of the range and order is kept. */
  lemma CalibrationKeepsOrder(a: U16, b: U16, dark: U16, white: U16)
    requires a <= b
    ensures CalibrateWord(a, dark, white) <= CalibrateWord(b, dark, white)
    ensures white >= dark + MINIMUM_WHITE_DARK_SPAN ==>
      CalibrateWord(dark, dark, white) == 0 && CalibrateWord(white, dark, white) == 0xFFFF
  {
    var span := SaturatingSub(white, dark);
    if span >= MINIMUM_WHITE_DARK_SPAN {
      DivMonotone(SaturatingSub(a, dark) * 0xFFFF, SaturatingSub(b, dark) * 0xFFFF, span);
      QuotientIs(span * 0xFFFF, span, 0xFFFF, 0);
    }
  }

  /** Calibration in exact terms: linear between the references, rounded down, and clamped outside them. */
  lemma CalibrationExact(value: U16, dark: U16, white: U16)
    ensures
      var r := CalibrateWord(value, dark, white);
      && (white < dark + 512 ==> r == value)
      && (white >= dark + 512 ==>
            && (value <= dark ==> r == 0) && (value >= white ==> r == 65535)
            && (dark <= value <= white ==>
                  r * (white - dark) <= (value - dark) * 65535 < (r + 1) * (white - dark)))
  {
    var span := SaturatingSub(white, dark);
    if span >= MINIMUM_WHITE_DARK_SPAN {
      var n := SaturatingSub(value, dark) * 0xFFFF;
      assert n == (n / span) * span + n % span;
      assert (n / span + 1) * span == (n / span) * span + span;
      QuotientIs(0, span, 0, 0);
      QuotientIs(span * 0xFFFF, span, 0xFFFF, 0);
      DivMonotone(0, n, span);
      if value >= white {
        DivMonotone(span * 0xFFFF, n, span);
      } else if value >= dark {
        DivMonotone(n, span * 0xFFFF, span);
      }
    }
  }

  /** One source word of a lane, calibrated when references are in use. */
  function SourceWord(capture: Capture, row: nat, column: nat, tap: nat, group: nat, calibration: Option<Calibration>)
    : Option<U16>
    requires calibration.Some? ==> calibration.value.Covers(group + tap * GROUPS, column)
  {
    var word := capture.Word(row, DecodedWordIndex(column, tap, group));
    if word.None? || calibration.None? then word
    else
      var lane := group + tap * GROUPS;
      Some(CalibrateWord(word.value, calibration.value.dark[lane][column], calibration.value.white[lane][column]))
  }

  /** The word a channel shows; `None` when the first source word is absent. */
  function ChannelWord(capture: Capture, outputRow: nat, outputColumn: nat, tap: nat, channel: ChannelMap,
                       calibration: Option<Calibration>): Option<U16>
    requires outputColumn + channel.columnOffset >= 0
    requires outputRow * ROW_OFFSET_UNITS + channel.rowOffsetUnits >= 0
    requires calibration.Some? ==>
      calibration.value.Covers(channel.group + tap * GROUPS, outputColumn + channel.columnOffset)
  {
    var column := outputColumn + channel.columnOffset;
    var (row, fraction) := RowOf(outputRow * ROW_OFFSET_UNITS + channel.rowOffsetUnits, ROW_OFFSET_UNITS);
    var first := SourceWord(capture, row, column, tap, channel.group, calibration);
    if first.None? then None
    else if fraction == 0 then first
    else
      var second := OrElse(SourceWord(capture, row + 1, column, tap, channel.group, calibration), first.value);
      Some(Interpolate(first.value, second, fraction, ROW_OFFSET_UNITS))
  }

  /** A word of lane `group + 3 * tap`, mapped through that lane's references for its column. */
  ghost predicate IsSource(capture: Capture, row: nat, column: nat, tap: nat, group: nat,
                           calibration: Option<Calibration>, shown: U16)
    requires calibration.Some? ==> calibration.value.Covers(group + tap * GROUPS, column)
  {
    var word := capture.Word(row, 12 * column + 3 * tap + group);
    && word.Some?
    && if calibration.None? then shown == word.value
       else
         var lane := group + tap * GROUPS;
         shown == CalibrateWord(word.value, calibration.value.dark[lane][column], calibration.value.white[lane][column])
  }

  /** What a channel shows: its lane's own calibrated word on a whole row, the nearest blend of two between rows. */
  lemma ChannelWordMeans(capture: Capture, outputRow: nat, outputColumn: nat, tap: nat, channel: ChannelMap,
                         calibration: Option<Calibration>, row: nat, fraction: nat, a: U16, b: U16)
    requires outputColumn + channel.columnOffset >= 0 && fraction < 4
    requires outputRow * 4 + channel.rowOffsetUnits == row * 4 + fraction
    requires calibration.Some? ==>
      calibration.value.Covers(channel.group + tap * GROUPS, outputColumn + channel.columnOffset)
    requires IsSource(capture, row, outputColumn + channel.columnOffset, tap, channel.group, calibration, a)
    requires fraction != 0 ==>
      IsSource(capture, row + 1, outputColumn + channel.columnOffset, tap, channel.group, calibration, b)
    ensures
      var shown := ChannelWord(capture, outputRow, outputColumn, tap, channel, calibration);
      && shown.Some? && (fraction == 0 ==> shown.value == a)
      && (fraction != 0 ==> -4 <= 2 * (shown.value * 4 - (a * (4 - fraction) + b * fraction)) <= 4)
  {
    hide Interpolate, CalibrateWord, Capture.Word;
    assert RowOf(outputRow * ROW_OFFSET_UNITS + channel.rowOffsetUnits, ROW_OFFSET_UNITS) == (row, fraction);
    InterpolationNearest(a, b, fraction, 4);
  }

  /** Scaling every weight by the same factor does not change the blend. */
  lemma InterpolateScales(first: U16, second: U16, fraction: nat, h: nat)
    requires fraction < ROW_OFFSET_UNITS && h > 0
    ensures h * fraction < ROW_OFFSET_UNITS * h
    ensures Interpolate(first, second, h * fraction, ROW_OFFSET_UNITS * h)
      == Interpolate(first, second, fraction, ROW_OFFSET_UNITS)
  {
    hide Weighted;
    var narrow := Weighted(first, second, fraction, 4) + 2;
    WeightedScales(first, second, fraction, h);
    assert 4 * h / 2 == h * 2;
    assert h * (narrow - 2) + h * 2 == h * narrow;
    QuotientScales(narrow, h);
  }

  lemma QuotientScales(n: nat, h: nat)
    requires h > 0
    ensures 4 * h > 0 && (h * n) / (4 * h) == n / 4
  {
    var q, r := n / 4, n % 4;
    assert n == 4 * q + r;
    assert h * n == h * (4 * q) + h * r;
    assert h * (4 * q) == q * (4 * h);
    MulMonotone(r + 1, 4, h);
    QuotientIs(h * n, 4 * h, q, h * r);
  }

  lemma WeightedScales(first: nat, second: nat, fraction: nat, h: nat)
    requires fraction < 4 && h > 0
    ensures h * fraction < 4 * h
    ensures Weighted(first, second, h * fraction, 4 * h) == h * Weighted(first, second, fraction, 4)
  {
    var rest := 4 - fraction;
    assert 4 * h - h * fraction == h * rest;
    assert first * (h * rest) == h * (first * rest);
    assert second * (h * fraction) == h * (second * fraction);
  }

  lemma FactorOut(outputRow: int, offset: int, row: int, fraction: int, h: int)
    requires outputRow * 4 + offset == row * 4 + fraction
    ensures outputRow * (4 * h) + offset * h == row * (4 * h) + h * fraction
  {
    assert outputRow * (4 * h) + offset * h == (outputRow * 4 + offset) * h;
    assert (row * 4 + fraction) * h == row * (4 * h) + h * fraction;
  }

  /** Without skew, the affine row position is the quarter-row position scaled by the width factor. */
  lemma UnskewedRow(outputRow: nat, offset: int, fullColumn: nat, width: nat)
    requires outputRow * ROW_OFFSET_UNITS + offset >= 0
    ensures
      var h, q := HorizontalScale(width), outputRow * ROW_OFFSET_UNITS + offset;
      var n := RowUnits(outputRow, offset, 0, fullColumn, width, ROW_OFFSET_UNITS);
      && n >= 0 && RowScale(width, ROW_OFFSET_UNITS) == ROW_OFFSET_UNITS * h
      && RowOf(n, RowScale(width, ROW_OFFSET_UNITS)) == (RowOf(q, ROW_OFFSET_UNITS).0, h * RowOf(q, ROW_OFFSET_UNITS).1)
  {
    hide HorizontalScale;
    var h, q := HorizontalScale(width), outputRow * 4 + offset;
    var n := RowUnits(outputRow, offset, 0, fullColumn, width, 4);
    var (row, fraction) := RowOf(q, 4);
    FactorOut(outputRow, offset, row, fraction, h);
    MulMonotone(fraction + 1, 4, h);
    QuotientIs(n, 4 * h, row, h * fraction);
  }

  /**
   The viewer shows a word exactly when the first source word is present, and
   that word is the analyzer's affine sample at every width. Otherwise it shows
   zero, which differs from the analyzer's sample exactly when the row below is
   present and bright enough to survive the blend.
   */
  lemma ViewerAgreesWithAnalyzer(capture: Capture, layout: Layout, outputRow: nat, outputColumn: nat, tap: nat,
                                 channel: ChannelMap, fullColumn: nat, width: nat)
    requires TwelveLanes(layout) && channel.group < GROUPS && tap < TAPS
    requires outputColumn + channel.columnOffset >= 0
    requires outputRow * ROW_OFFSET_UNITS + channel.rowOffsetUnits >= 0
    ensures RowUnits(outputRow, channel.rowOffsetUnits, 0, fullColumn, width, ROW_OFFSET_UNITS) >= 0
    ensures
      var column := outputColumn + channel.columnOffset;
      var (row, fraction) := RowOf(outputRow * ROW_OFFSET_UNITS + channel.rowOffsetUnits, ROW_OFFSET_UNITS);
      var index := DecodedWordIndex(column, tap, channel.group);
      var shown := ChannelWord(capture, outputRow, outputColumn, tap, channel, None);
      var sampled := SampleSubrowWord(capture, layout, LaneOf(channel.group, tap), outputRow, column,
                                      channel.rowOffsetUnits, 0, fullColumn, width, ROW_OFFSET_UNITS);
      && (shown.Some? <==> capture.Word(row, index).Some?)
      && (shown.Some? ==> shown.value == sampled)
      && (shown.None? ==>
            (sampled == 0 <==>
              !(fraction != 0 && capture.Word(row + 1, index).Some?
                && capture.Word(row + 1, index).value * fraction >= 2)))
  {
    hide Interpolate, RowOf, RowUnits, RowScale, HorizontalScale, LaneOf, DecodedWordIndex, TwelveLanes,
      Layout.RawPosition, Capture.Word;
    var column := outputColumn + channel.columnOffset;
    var q := outputRow * ROW_OFFSET_UNITS + channel.rowOffsetUnits;
    var (row, fraction) := RowOf(q, ROW_OFFSET_UNITS);
    var index, h := DecodedWordIndex(column, tap, channel.group), HorizontalScale(width);
    UnskewedRow(outputRow, channel.rowOffsetUnits, fullColumn, width);
    LanePosition(layout, channel.group, tap, row, column);
    LanePosition(layout, channel.group, tap, row + 1, column);
    if fraction != 0 {
      ProductPositive(h, fraction);
      var first := OrElse(capture.Word(row, index), 0);
      var second := OrElse(capture.Word(row + 1, index), first);
      InterpolateScales(first, second, fraction, h);
      if capture.Word(row, index).None? {
        BlendFromZero(second, fraction);
      }
    }
  }

  /**
   The two can differ: the first row is too short for word 2 and the second row
   has it, so the viewer shows nothing where the analyzer blends from zero.
   */
  lemma ShortRowDiffers()
    ensures
      var capture := Capture([0, 0, 0, 0, 0, 0, 0, 255], [0, 2, 8], 0);
      var layout, channel := Layout(Word, LANES, 12, 2), ChannelMap(2, 2, 0);
      && RowUnits(0, 2, 0, 0, 4, ROW_OFFSET_UNITS) >= 0
      && ChannelWord(capture, 0, 0, 0, channel, None) == None
      && SampleSubrowWord(capture, layout, LaneOf(2, 0), 0, 0, 2, 0, 0, 4, ROW_OFFSET_UNITS) != 0
  {
    hide RowOf, RowUnits, ChannelWord, SampleSubrowWord, Capture.Word;
    var capture := Capture([0, 0, 0, 0, 0, 0, 0, 255], [0, 2, 8], 0);
    ShortRowWords(capture);
    assert RowOf(2, ROW_OFFSET_UNITS) == (0, 2) && DecodedWordIndex(0, 0, 2) == 2;
    ViewerAgreesWithAnalyzer(capture, Layout(Word, LANES, 12, 2), 0, 0, 0, ChannelMap(2, 2, 0), 0, 4);
  }

  lemma ShortRowWords(capture: Capture)
    requires capture == Capture([0, 0, 0, 0, 0, 0, 0, 255], [0, 2, 8], 0)
    ensures capture.Word(0, 2) == None && capture.Word(1, 2) == Some(255 * 256)
  {
  }

  /** Both programs number a lane's words alike. */
  lemma LanePosition(layout: Layout, group: nat, tap: nat, row: nat, column: nat)
    requires TwelveLanes(layout) && group < GROUPS && tap < TAPS
    ensures layout.RawPosition(LaneOf(group, tap), row, column) == (row, DecodedWordIndex(column, tap, group))
  {
  }

  lemma BlendFromZero(second: U16, fraction: nat)
    requires 0 < fraction < ROW_OFFSET_UNITS
    ensures Interpolate(0, second, fraction, ROW_OFFSET_UNITS) == 0 <==> second * fraction < 2
  {
    assert Weighted(0, second, fraction, 4) == second * fraction;
  }

  /**
   Whenever a report with sub-row data is acceptable, the viewer's group offset
   is every lane's offset, so its words are the analyzer's at every width.
   */
  lemma AcceptedReportsAgree(report: Report, nominalWords: nat, startByteOffset: int, offsetUnits: seq<int>,
                             capture: Capture, layout: Layout, outputRow: nat, column: nat, tap: nat, group: nat,
                             fullColumn: nat, width: nat)
    requires report.WellFormed() && Acceptable(report, nominalWords, startByteOffset)
    requires report.analysis.value.subrow.Some? && |offsetUnits| == GROUPS
    requires forall lane :: 0 <= lane < LANES ==>
      report.analysis.value.subrow.value.laneOffsets[lane] == offsetUnits[lane % GROUPS]
    requires TwelveLanes(layout) && group < GROUPS && tap < TAPS
    requires outputRow * ROW_OFFSET_UNITS + offsetUnits[group] >= 0
    ensures
      var subrow := report.analysis.value.subrow.value;
      var lane := LaneOf(group, tap);
      var shown := ChannelWord(capture, outputRow, column, tap, ChannelMap(group, offsetUnits[group], 0), None);
      && subrow.unitsPerRow == ROW_OFFSET_UNITS
      && RowUnits(outputRow, subrow.laneOffsets[lane], subrow.laneSkews[lane], fullColumn, width, ROW_OFFSET_UNITS) >= 0
      && (shown.Some? ==>
            shown.value == SampleSubrowWord(capture, layout, lane, outputRow, column, subrow.laneOffsets[lane],
                                            subrow.laneSkews[lane], fullColumn, width, ROW_OFFSET_UNITS))
  {
    var lane := LaneOf(group, tap);
    assert lane % GROUPS == group;
    ViewerAgreesWithAnalyzer(capture, layout, outputRow, column, tap, ChannelMap(group, offsetUnits[group], 0),
                             fullColumn, width);
  }
}
