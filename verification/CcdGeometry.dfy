/**
 Geometry of the interleaved CCD capture: how words are spread over lanes,
 where a word's bytes are, and which rows and columns all shifted lanes share.
 */
module CcdGeometry {
  import opened Common
  import opened Arithmetic

  // ----- lane layouts -----

  datatype Axis = Word | WordBlock | TgckRow

  datatype Layout = Layout(axis: Axis, modulus: nat, nominalWords: nat, inputRows: nat) {
    /** Columns and rows of one lane. */
    function Dimensions(lane: nat): (nat, nat)
      requires modulus > 0
    {
      match axis
      case Word => (DivCeil(SaturatingSub(nominalWords, lane), modulus), inputRows)
      case WordBlock =>
        var blockWidth := nominalWords / modulus;
        var start := lane * blockWidth;
        var end := if lane + 1 == modulus then nominalWords else start + blockWidth;
        (SaturatingSub(end, start), inputRows)
      case TgckRow => (nominalWords, DivCeil(SaturatingSub(inputRows, lane), modulus))
    }

    /** Raw row and word index of a lane's cell. */
    function RawPosition(lane: nat, row: nat, column: nat): (nat, nat)
      requires modulus > 0
    {
      match axis
      case Word => (row, column * modulus + lane)
      case WordBlock => (row, lane * (nominalWords / modulus) + column)
      case TgckRow => (row * modulus + lane, column)
    }

    ghost predicate Cell(lane: nat, row: nat, column: nat)
      requires modulus > 0
    {
      lane < modulus && column < Dimensions(lane).0 && row < Dimensions(lane).1
    }

    ghost predicate RawCell(row: nat, word: nat) {
      row < inputRows && word < nominalWords
    }

    /** The lane, row and column that a raw cell belongs to. */
    ghost function Locate(row: nat, word: nat): (nat, nat, nat)
      requires modulus > 0
    {
      match axis
      case Word => var (k, lane) := Split(word, modulus); (lane, row, k)
      case WordBlock =>
        var lane := BlockLane(nominalWords, modulus, word);
        (lane, row, SaturatingSub(word, BlockStart(nominalWords, modulus, lane)))
      case TgckRow => var (k, lane) := Split(row, modulus); (lane, k, word)
    }
  }

  function SaturatingSub(a: nat, b: nat): nat {
    if a >= b then a - b else 0
  }

  function DivCeil(a: nat, b: nat): nat
    requires b > 0
  {
    (a + b - 1) / b
  }

  /** Quotient and remainder of a position by the stride. */
  ghost function Split(position: nat, m: nat): (s: (nat, nat))
    requires m > 0
    ensures position == s.0 * m + s.1 && s.1 < m
  {
    (position / m, position % m)
  }

  function BlockStart(words: nat, m: nat, lane: nat): nat
    requires m > 0
  {
    var b: nat := words / m;
    lane * b
  }

  /** The contiguous block that holds a word; the last block also takes the remainder. */
  ghost function BlockLane(words: nat, m: nat, word: nat): nat
    requires m > 0
  {
    var b := words / m;
    if b == 0 || word / b >= m then m - 1 else word / b
  }

  /** `k` lies below the number of positions `lane, lane + m, ...` under `total` exactly when its own position does. */
  lemma StrideCount(total: nat, lane: nat, m: nat, k: nat)
    requires lane < m
    ensures k < DivCeil(SaturatingSub(total, lane), m) <==> k * m + lane < total
  {
    hide DivCeil;
    var left := SaturatingSub(total, lane);
    var n := DivCeil(left, m);
    DivCeilBracket(left, m);
    if k < n {
      MulMonotone(k + 1, n, m);
      assert (k + 1) * m == k * m + m;
    } else {
      MulMonotone(n, k, m);
    }
  }

  lemma DivCeilBracket(a: nat, b: nat)
    requires b > 0
    ensures a <= DivCeil(a, b) * b < a + b
  {
    var n := a + b - 1;
    assert n == (n / b) * b + n % b;
  }

  lemma StrideLocate(position: nat, lane: nat, m: nat, k: nat)
    requires lane < m && position == k * m + lane
    ensures Split(position, m) == (k, lane)
  {
    QuotientIs(position, m, k, lane);
  }

  /** Positions of a layout are inside the raw grid, and `Locate` finds the cell again. */
  lemma RawPositionLocates(layout: Layout, lane: nat, row: nat, column: nat)
    requires layout.modulus > 0 && layout.Cell(lane, row, column)
    ensures
      var (r, w) := layout.RawPosition(lane, row, column);
      layout.RawCell(r, w) && layout.Locate(r, w) == (lane, row, column)
  {
    var m := layout.modulus;
    match layout.axis
    case Word =>
      StrideCount(layout.nominalWords, lane, m, column);
      StrideLocate(column * m + lane, lane, m, column);
    case TgckRow =>
      StrideCount(layout.inputRows, lane, m, row);
      StrideLocate(row * m + lane, lane, m, row);
    case WordBlock =>
      BlockPosition(layout.nominalWords, m, lane, column);
  }

  lemma BlockBase(words: nat, m: nat, lane: nat)
    requires lane < m
    ensures lane * (words / m) <= (m - 1) * (words / m) <= m * (words / m) <= words
    ensures (m - 1) * (words / m) + words / m == m * (words / m)
    ensures lane + 1 < m ==> lane * (words / m) + words / m <= (m - 1) * (words / m)
  {
    var b := words / m;
    MulMonotone(lane, m - 1, b);
    if lane + 1 < m {
      MulMonotone(lane + 1, m - 1, b);
    }
  }

  lemma BlockPosition(words: nat, m: nat, lane: nat, column: nat)
    requires m > 0
    requires var layout := Layout(WordBlock, m, words, 1); layout.Cell(lane, 0, column)
    ensures
      var b := words / m;
      var w := lane * b + column;
      && w < words
      && BlockLane(words, m, w) == lane
      && SaturatingSub(w, BlockStart(words, m, lane)) == column
  {
    var b := words / m;
    var w := lane * b + column;
    BlockBase(words, m, lane);
    if b > 0 {
      if lane + 1 < m {
        QuotientIs(w, b, lane, column);
      } else {
        DivMonotone(lane * b, w, b);
        QuotientIs(lane * b, b, lane, 0);
      }
    }
  }

  /** Every raw cell is the position of exactly the cell `Locate` names. */
  lemma LocateIsPosition(layout: Layout, row: nat, word: nat)
    requires layout.modulus > 0 && layout.RawCell(row, word)
    ensures
      var (lane, r, c) := layout.Locate(row, word);
      layout.Cell(lane, r, c) && layout.RawPosition(lane, r, c) == (row, word)
  {
    var m := layout.modulus;
    match layout.axis
    case Word =>
      var (k, lane) := Split(word, m);
      StrideCount(layout.nominalWords, lane, m, k);
    case TgckRow =>
      var (k, lane) := Split(row, m);
      StrideCount(layout.inputRows, lane, m, k);
    case WordBlock => BlockLocate(layout.nominalWords, m, word);
  }

  lemma BlockLocate(words: nat, m: nat, word: nat)
    requires m > 0 && word < words
    ensures
      var lane := BlockLane(words, m, word);
      && lane < m && BlockStart(words, m, lane) <= word
      && word - BlockStart(words, m, lane) < Layout(WordBlock, m, words, 1).Dimensions(lane).0
  {
    var b := words / m;
    if b > 0 {
      var (q, r) := Split(word, b);
      var lane := BlockLane(words, m, word);
      BlockBase(words, m, lane);
      MulMonotone(lane, q, b);
    }
  }

  /** Lanes of a twelve-lane word layout are equally wide when the words divide evenly. */
  lemma EvenLanes(layout: Layout, lane: nat)
    requires layout.axis.Word? && layout.modulus == 12 && layout.nominalWords % 12 == 0 && lane < 12
    ensures layout.Dimensions(lane) == layout.Dimensions(0)
  {
  }

  // ----- words of the capture -----

  type Byte = b: nat | b < 256

  /** Raw bytes, the byte at which each row interval starts, and the signed start offset inside it. */
  datatype Capture = Capture(data: seq<Byte>, lineStarts: seq<nat>, startByteOffset: int) {
    function Address(row: nat, word: nat): int
      requires row < |lineStarts|
    {
      lineStarts[row] + startByteOffset + word * 2
    }

    predicate Present(row: nat, word: nat) {
      && row + 1 < |lineStarts|
      && lineStarts[row] <= Address(row, word)
      && Address(row, word) + 1 < Min(lineStarts[row + 1], |data|)
    }

    /** Little-endian word, or `None` when it would leave its interval. */
    function Word(row: nat, word: nat): Option<U16> {
      if Present(row, word)
      then
        var low: int, high: int := data[Address(row, word)], data[Address(row, word) + 1];
        Some(low + 256 * high)
      else None
    }
  }

  ghost predicate Sorted(starts: seq<nat>) {
    forall i, j :: 0 <= i < j < |starts| ==> starts[i] <= starts[j]
  }

  /** Distinct cells never share a byte, and each stays inside its own interval. */
  lemma WordsDisjoint(capture: Capture, row: nat, word: nat, row': nat, word': nat)
    requires Sorted(capture.lineStarts) && (row, word) != (row', word')
    requires capture.Present(row, word) && capture.Present(row', word')
    ensures capture.lineStarts[row] <= capture.Address(row, word) < capture.Address(row, word) + 1
      < capture.lineStarts[row + 1]
    ensures capture.Address(row, word) + 1 < capture.Address(row', word')
      || capture.Address(row', word') + 1 < capture.Address(row, word)
  {
    if row < row' {
      assert capture.lineStarts[row + 1] <= capture.lineStarts[row'];
    } else if row' < row {
      assert capture.lineStarts[row' + 1] <= capture.lineStarts[row];
    }
  }

  /** Words as bytes, low byte first. */
  ghost function LittleEndian(words: seq<U16>): (bytes: seq<Byte>)
    ensures |bytes| == 2 * |words|
  {
    if words == [] then []
    else
      var last: nat := words[|words| - 1];
      LittleEndian(words[..|words| - 1]) + [last % 256, last / 256]
  }

  lemma {:induction false} LittleEndianAt(words: seq<U16>, k: nat)
    requires k < |words|
    ensures LittleEndian(words)[2 * k] == words[k] % 256 && LittleEndian(words)[2 * k + 1] == words[k] / 256
  {
    if k < |words| - 1 {
      LittleEndianAt(words[..|words| - 1], k);
    }
  }

  /** Words written from the offset position of a row interval, all inside it, are read back. */
  lemma WordsReadBack(capture: Capture, row: nat, first: nat, words: seq<U16>, k: nat)
    requires row + 1 < |capture.lineStarts| && k < |words|
    requires first == capture.lineStarts[row] + capture.startByteOffset && capture.lineStarts[row] <= first
    requires first + 2 * |words| <= capture.lineStarts[row + 1] && first + 2 * |words| <= |capture.data|
    requires capture.data[first..first + 2 * |words|] == LittleEndian(words)
    ensures capture.Word(row, k) == Some(words[k])
  {
    hide LittleEndian, Capture.Word;
    var bytes := LittleEndian(words);
    LittleEndianAt(words, k);
    SliceAt(capture.data, first, bytes, 2 * k);
    SliceAt(capture.data, first, bytes, 2 * k + 1);
    WordAt(capture, row, k, words[k]);
  }

  lemma SliceAt(data: seq<Byte>, first: nat, bytes: seq<Byte>, j: nat)
    requires first + |bytes| <= |data| && data[first..first + |bytes|] == bytes && j < |bytes|
    ensures data[first + j] == bytes[j]
  {
  }

  lemma WordAt(capture: Capture, row: nat, k: nat, word: U16)
    requires capture.Present(row, k)
    requires capture.data[capture.Address(row, k)] == word % 256
    requires capture.data[capture.Address(row, k) + 1] == word / 256
    ensures capture.Word(row, k) == Some(word)
  {
    BytesOfWord(word, capture.data[capture.Address(row, k)], capture.data[capture.Address(row, k) + 1]);
  }

  lemma BytesOfWord(word: nat, low: int, high: int)
    requires low == word % 256 && high == word / 256
    ensures low + 256 * high == word
  {
  }

  // ----- overlap of shifted lanes -----

  function MaxOver(values: seq<int>, start: int): int {
    if values == [] then start else Max(MaxOver(values[..|values| - 1], start), values[|values| - 1])
  }

  function MinOver(values: seq<int>, start: int): int {
    if values == [] then start else Min(MinOver(values[..|values| - 1], start), values[|values| - 1])
  }

  lemma {:induction false} MaxOverAtMost(values: seq<int>, start: int, x: int)
    ensures MaxOver(values, start) <= x <==> start <= x && forall i :: 0 <= i < |values| ==> values[i] <= x
  {
    if values != [] {
      MaxOverAtMost(values[..|values| - 1], start, x);
    }
  }

  lemma {:induction false} MinOverAtLeast(values: seq<int>, start: int, x: int)
    ensures x <= MinOver(values, start) <==> x <= start && forall i :: 0 <= i < |values| ==> x <= values[i]
  {
    if values != [] {
      MinOverAtLeast(values[..|values| - 1], start, x);
    }
  }

  function Negated(offsets: seq<int>): seq<int> {
    seq(|offsets|, i requires 0 <= i < |offsets| => -offsets[i])
  }

  function Subtracted(length: int, offsets: seq<int>): seq<int> {
    seq(|offsets|, i requires 0 <= i < |offsets| => length - offsets[i])
  }

  /** First index and count of the positions at which every shifted lane exists. */
  function CommonOverlap(length: nat, offsets: seq<int>): (nat, nat) {
    var start := MaxOver(Negated(offsets), 0);
    var end := if offsets == [] then 0 else MinOver(Subtracted(length, offsets), length);
    MaxOverAtMost(Negated(offsets), 0, start);
    if end <= start then (start, 0) else (start, end - start)
  }

  /** Even without a common position, the first one is never left of a shifted lane. */
  lemma OverlapStarts(length: nat, offsets: seq<int>, i: nat)
    requires i < |offsets|
    ensures CommonOverlap(length, offsets).0 + offsets[i] >= 0
  {
    MaxOverAtMost(Negated(offsets), 0, CommonOverlap(length, offsets).0);
    assert Negated(offsets)[i] == -offsets[i];
  }

  lemma CommonOverlapExact(length: nat, offsets: seq<int>, r: int)
    requires offsets != []
    ensures
      var (start, count) := CommonOverlap(length, offsets);
      start <= r < start + count <==>
        0 <= r < length && forall i :: 0 <= i < |offsets| ==> 0 <= r + offsets[i] < length
  {
    var lows, highs := Negated(offsets), Subtracted(length, offsets);
    MaxOverAtMost(lows, 0, r);
    MinOverAtLeast(highs, length, r + 1);
    assert forall i :: 0 <= i < |offsets| ==> lows[i] == -offsets[i] && highs[i] == length - offsets[i];
  }

  /** No column shifts: every lane column is shared. */
  lemma UnshiftedColumns(length: nat, offsets: seq<int>)
    requires offsets != [] && forall i :: 0 <= i < |offsets| ==> offsets[i] == 0
    ensures CommonOverlap(length, offsets) == (0, length)
  {
    var (start, count) := CommonOverlap(length, offsets);
    CommonOverlapExact(length, offsets, 0);
    CommonOverlapExact(length, offsets, length - 1);
    CommonOverlapExact(length, offsets, length);
    CommonOverlapExact(length, offsets, -1);
    MaxOverAtMost(Negated(offsets), 0, 0);
  }

  // Sub-row overlap: offsets are measured in `units` per row.

  function SubrowStarts(offsets: seq<int>, units: nat): seq<int>
    requires units > 0
  {
    seq(|offsets|, i requires 0 <= i < |offsets| => -(offsets[i] / units))
  }

  function SubrowLasts(length: nat, offsets: seq<int>, units: nat): seq<int>
    requires units > 0
  {
    seq(|offsets|, i requires 0 <= i < |offsets| => (SaturatingSub(length, 1) * units - offsets[i]) / units)
  }

  function SubrowOverlap(length: nat, offsets: seq<int>, units: nat): (nat, nat)
    requires units > 0
  {
    var start := if offsets == [] then 0 else
      var starts := SubrowStarts(offsets, units); Clamp(MaxOver(starts[1..], starts[0]), 0, length);
    var last := if offsets == [] then -1 else
      var lasts := SubrowLasts(length, offsets, units);
      Clamp(MinOver(lasts[1..], lasts[0]), -1, SaturatingSub(length, 1));
    if last < start then (start, 0) else (start, last - start + 1)
  }

  /** A shifted row position, in units, lies between the first and the last source row. */
  predicate Fits(length: nat, offset: int, units: nat, r: int) {
    0 <= r * units + offset <= (length - 1) * units
  }

  ghost predicate AllFit(length: nat, offsets: seq<int>, units: nat, r: int) {
    forall i :: 0 <= i < |offsets| ==> Fits(length, offsets[i], units, r)
  }

  lemma FloorStart(offset: int, units: nat, r: int)
    requires units > 0
    ensures -(offset / units) <= r <==> 0 <= r * units + offset
  {
    var q := offset / units;
    if -q <= r {
      MulMonotone(-q, r, units);
      assert (-q) * units == -(q * units);
    } else {
      MulMonotone(r, -q - 1, units);
      assert (-q - 1) * units == -(q * units) - units;
    }
  }

  lemma FloorLast(length: nat, offset: int, units: nat, r: int)
    requires units > 0
    ensures r <= (length * units - offset) / units <==> r * units + offset <= length * units
  {
    var n := length * units - offset;
    var q := n / units;
    if r <= q {
      MulMonotone(r, q, units);
    } else {
      MulMonotone(q + 1, r, units);
    }
  }

  lemma SubrowEnds(length: nat, offsets: seq<int>, units: nat, r: int)
    requires units > 0 && offsets != []
    ensures
      var starts, lasts := SubrowStarts(offsets, units), SubrowLasts(length, offsets, units);
      MaxOver(starts[1..], starts[0]) <= r <= MinOver(lasts[1..], lasts[0]) <==>
        forall i :: 0 <= i < |offsets| ==> 0 <= r * units + offsets[i] <= SaturatingSub(length, 1) * units
  {
    var starts, lasts := SubrowStarts(offsets, units), SubrowLasts(length, offsets, units);
    MaxOverAtMost(starts[1..], starts[0], r);
    MinOverAtLeast(lasts[1..], lasts[0], r);
    forall i | 0 <= i < |offsets|
      ensures starts[i] <= r <= lasts[i] <==> 0 <= r * units + offsets[i] <= SaturatingSub(length, 1) * units
    {
      FloorStart(offsets[i], units, r);
      FloorLast(SaturatingSub(length, 1), offsets[i], units, r);
    }
    assert forall i {:trigger starts[i]} :: 0 < i < |offsets| ==>
      starts[i] == starts[1..][i - 1] && lasts[i] == lasts[1..][i - 1];
    assert forall i {:trigger starts[1..][i]} :: 0 <= i < |offsets| - 1 ==>
      starts[1..][i] == starts[i + 1] && lasts[1..][i] == lasts[i + 1];
  }

  /** When the sub-row overlap is exact: checkable from its arguments alone. */
  predicate OverlapMeaningful(length: nat, offsets: seq<int>) {
    if offsets == [] then length == 0 else length > 0 || exists i :: 0 <= i < |offsets| && offsets[i] > 0
  }

  lemma WindowClamp(top: int, bottom: int, length: nat, r: int)
    requires length > 0
    ensures Clamp(top, 0, length) <= r <= Clamp(bottom, -1, length - 1) <==> 0 <= r < length && top <= r <= bottom
  {
  }

  /** The overlap contains row `r` exactly when the row exists and all its shifted positions fit. */
  ghost predicate OverlapRight(length: nat, offsets: seq<int>, units: nat, r: int)
    requires units > 0
  {
    var (start, count) := SubrowOverlap(length, offsets, units);
    start <= r < start + count <==> 0 <= r < length && AllFit(length, offsets, units, r)
  }

  lemma SubrowOverlapPositive(length: nat, offsets: seq<int>, units: nat, r: int)
    requires units > 0 && length > 0 && offsets != []
    ensures OverlapRight(length, offsets, units, r)
  {
    hide MaxOver, MinOver, SubrowStarts, SubrowLasts;
    var starts, lasts := SubrowStarts(offsets, units), SubrowLasts(length, offsets, units);
    SubrowLengths(length, offsets, units);
    WindowClamp(MaxOver(starts[1..], starts[0]), MinOver(lasts[1..], lasts[0]), length, r);
    SubrowEnds(length, offsets, units, r);
  }

  lemma SubrowLengths(length: nat, offsets: seq<int>, units: nat)
    requires units > 0
    ensures |SubrowStarts(offsets, units)| == |SubrowLasts(length, offsets, units)| == |offsets|
  {
  }

  /** On an empty image the count is one exactly when no offset is positive. */
  lemma SubrowOverlapEmpty(offsets: seq<int>, units: nat)
    requires units > 0 && offsets != []
    ensures SubrowOverlap(0, offsets, units) ==
      (0, if exists i :: 0 <= i < |offsets| && offsets[i] > 0 then 0 else 1)
  {
    var lasts := SubrowLasts(0, offsets, units);
    MinOverAtLeast(lasts[1..], lasts[0], 0);
    forall i | 0 <= i < |offsets|
      ensures 0 <= lasts[i] <==> offsets[i] <= 0
    {
      FloorLast(SaturatingSub(0, 1), offsets[i], units, 0);
    }
    assert forall i {:trigger lasts[i]} :: 0 < i < |offsets| ==> lasts[i] == lasts[1..][i - 1];
  }

  /**
   The overlap is exactly the set of rows whose every shifted position fits
   between the first and the last source row, if and only if the arguments are
   meaningful: otherwise it reports a row of an empty image, or no row at all
   for an empty list of lanes.
   */
  lemma SubrowOverlapExact(length: nat, offsets: seq<int>, units: nat)
    requires units > 0
    ensures OverlapMeaningful(length, offsets) <==> forall r :: OverlapRight(length, offsets, units, r)
  {
    if offsets == [] {
      assert OverlapRight(length, offsets, units, 0) ==> length == 0;
    } else if length == 0 {
      SubrowOverlapEmpty(offsets, units);
      assert OverlapRight(length, offsets, units, 0) ==> OverlapMeaningful(length, offsets);
    } else {
      forall r
        ensures OverlapRight(length, offsets, units, r)
      {
        SubrowOverlapPositive(length, offsets, units, r);
      }
    }
  }
}
