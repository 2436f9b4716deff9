/**
 The viewer's median chroma cleanup: a reversible colour transform and a 3x3
 median filter that rewrites the image in place, keeping only three original
 rows. It is proved equal to the filter that reads the original image.
 */
module Chroma {
  import opened Common
  import opened Arithmetic
  import opened Sorting

  /** A 32-bit pixel; the top byte is not part of the colour. */
  type Pixel = p: nat | p < 0x1_0000_0000

  const COLORS: nat := 0x100_0000

  function Red(p: nat): nat { p / 0x1_0000 % 0x100 }
  function Green(p: nat): nat { p / 0x100 % 0x100 }
  function Blue(p: nat): nat { p % 0x100 }

  lemma ComponentsOf(r: nat, g: nat, b: nat)
    requires r < 256 && g < 256 && b < 256
    ensures
      var p := r * 0x1_0000 + g * 0x100 + b;
      Red(p) == r && Green(p) == g && Blue(p) == b
  {
    var p := r * 0x1_0000 + g * 0x100 + b;
    QuotientIs(p, 0x1_0000, r, g * 0x100 + b);
    QuotientIs(p, 0x100, r * 0x100 + g, b);
    QuotientIs(r, 0x100, 0, r);
    QuotientIs(r * 0x100 + g, 0x100, r, g);
  }

  function RgbPixel(r: nat, g: nat, b: nat): (p: Pixel)
    requires r < 256 && g < 256 && b < 256
    ensures p < COLORS && Red(p) == r && Green(p) == g && Blue(p) == b
  {
    ComponentsOf(r, g, b);
    r * 0x1_0000 + g * 0x100 + b
  }

  /** Luma and the two chroma differences. */
  datatype Ycocg = Ycocg(y: int, co: int, cg: int)

  function PixelYcocg(p: Pixel): Ycocg {
    var co := Red(p) - Blue(p);
    var temporary := Blue(p) + co / 2;
    var cg := Green(p) - temporary;
    Ycocg(temporary + cg / 2, co, cg)
  }

  function ClampByte(x: int): (r: nat)
    ensures r < 256
  {
    Clamp(x, 0, 255)
  }

  function YcocgPixel(t: Ycocg): Pixel {
    var temporary := t.y - t.cg / 2;
    var green := ClampByte(t.cg + temporary);
    var blue := ClampByte(temporary - t.co / 2);
    var red := ClampByte(blue + t.co);
    RgbPixel(red, green, blue)
  }

  /** No component leaves the byte range on the way back. */
  predicate Unclamped(t: Ycocg) {
    var temporary := t.y - t.cg / 2;
    && 0 <= t.cg + temporary < 256
    && 0 <= temporary - t.co / 2 < 256
    && 0 <= temporary - t.co / 2 + t.co < 256
  }

  lemma ColoursOf(p: Pixel)
    ensures p % COLORS == Red(p) * 0x1_0000 + Green(p) * 0x100 + Blue(p)
    ensures 0 <= Red(p) < 256 && 0 <= Green(p) < 256 && 0 <= Blue(p) < 256
  {
    var high, blue := p / 0x100, p % 0x100;
    var top, green := high / 0x100, high % 0x100;
    var over, red := top / 0x100, top % 0x100;
    var rest := red * 0x1_0000 + green * 0x100 + blue;
    assert p == high * 0x100 + blue && high == top * 0x100 + green && top == over * 0x100 + red;
    QuotientIs(p, 0x1_0000, top, green * 0x100 + blue);
    assert p == over * COLORS + rest;
    QuotientIs(p, COLORS, over, rest);
  }

  /** The transform loses nothing but the unused top byte. */
  lemma ColourRoundTrip(p: Pixel)
    ensures Unclamped(PixelYcocg(p))
    ensures YcocgPixel(PixelYcocg(p)) == p % COLORS
  {
    hide Red, Green, Blue, YcocgPixel, Unclamped;
    ColoursOf(p);
    LiftedRoundTrip(Red(p), Green(p), Blue(p));
  }

  lemma LiftedRoundTrip(r: nat, g: nat, b: nat)
    requires r < 256 && g < 256 && b < 256
    ensures
      var co := r - b;
      var temporary := b + co / 2;
      var cg := g - temporary;
      var t := Ycocg(temporary + cg / 2, co, cg);
      Unclamped(t) && YcocgPixel(t) == r * 0x1_0000 + g * 0x100 + b
  {
  }

  /** The transform in closed form: differences to blue and to the red-blue mean, and the mean of means. */
  lemma TransformValues(p: Pixel)
    ensures
      var t := PixelYcocg(p);
      && t.co == Red(p) - Blue(p)
      && t.cg == Green(p) - (Red(p) + Blue(p)) / 2
      && t.y == ((Red(p) + Blue(p)) / 2 + Green(p)) / 2
  {
  }

  /** Luma and chroma survive the way back exactly when nothing has to be clamped. */
  lemma LumaKeptIffUnclamped(t: Ycocg)
    ensures PixelYcocg(YcocgPixel(t)) == t <==> Unclamped(t)
  {
    if Unclamped(t) {
      var temporary := t.y - t.cg / 2;
      var blue := temporary - t.co / 2;
      assert YcocgPixel(t) == RgbPixel(blue + t.co, t.cg + temporary, blue);
    } else {
      ColourRoundTrip(YcocgPixel(t));
    }
  }

  // ----- the filter on three rows -----

  /** The nine pixels around a column of the middle row, in reading order. */
  function Window(previous: seq<Pixel>, current: seq<Pixel>, next: seq<Pixel>, column: nat): (w: seq<Pixel>)
    requires |previous| == |current| == |next| && 1 <= column < |current| - 1
    ensures |w| == 9
  {
    previous[column - 1..column + 2] + current[column - 1..column + 2] + next[column - 1..column + 2]
  }

  function CoOf(window: seq<Pixel>): seq<int> {
    seq(|window|, i requires 0 <= i < |window| => PixelYcocg(window[i]).co)
  }

  function CgOf(window: seq<Pixel>): seq<int> {
    seq(|window|, i requires 0 <= i < |window| => PixelYcocg(window[i]).cg)
  }

  function FilterRows(previous: seq<Pixel>, current: seq<Pixel>, next: seq<Pixel>, column: nat): Pixel
    requires |previous| == |current| == |next| && 1 <= column < |current| - 1
  {
    var window := Window(previous, current, next, column);
    YcocgPixel(Ycocg(PixelYcocg(current[column]).y, Sort(CoOf(window))[4], Sort(CgOf(window))[4]))
  }

  lemma SortConstant(xs: seq<int>, c: int)
    requires |xs| == 9 && forall i :: 0 <= i < |xs| ==> xs[i] == c
    ensures Sort(xs)[4] == c
  {
    assert Sort(xs)[4] in multiset(Sort(xs));
    assert Sort(xs)[4] in xs;
  }

  // ----- the filter on the original image -----

  lemma RowEnd(width: nat, row: nat, rows: nat)
    requires row < rows
    ensures row * width <= row * width + width == (row + 1) * width <= rows * width
  {
    MulMonotone(row + 1, rows, width);
  }

  function Row(s: seq<Pixel>, width: nat, height: nat, row: nat): (r: seq<Pixel>)
    requires row < height && height * width <= |s|
    ensures |r| == width
  {
    RowEnd(width, row, height);
    s[row * width..row * width + width]
  }

  /** The filtered value of position `i`; borders and anything past the image keep theirs. */
  function FilteredAt(s: seq<Pixel>, width: nat, height: nat, i: nat): Pixel
    requires 3 <= width && 3 <= height && height * width <= |s| && i < |s|
  {
    var row, column := i / width, i % width;
    if 1 <= row < height - 1 && 1 <= column < width - 1
    then FilterRows(Row(s, width, height, row - 1), Row(s, width, height, row), Row(s, width, height, row + 1), column)
    else s[i]
  }

  function FilteredImage(s: seq<Pixel>, width: nat, height: nat): (r: seq<Pixel>)
    ensures |r| == |s|
  {
    if width < 3 || height < 3 || |s| < height * width then s
    else seq(|s|, i requires 0 <= i < |s| => FilteredAt(s, width, height, i))
  }

  lemma Position(width: nat, row: nat, column: nat)
    requires column < width
    ensures (row * width + column) / width == row && (row * width + column) % width == column
  {
    QuotientIs(row * width + column, width, row, column);
  }

  /** Borders, short images and everything past the image are left alone. */
  lemma BordersUntouched(s: seq<Pixel>, width: nat, height: nat, i: nat)
    requires i < |s|
    requires width < 3 || height < 3 || |s| < height * width
      || i / width == 0 || i / width >= height - 1 || i % width == 0 || i % width == width - 1
    ensures FilteredImage(s, width, height)[i] == s[i]
  {
  }

  // ----- in place -----

  /** Positions below `done` are filtered, the rest are original. */
  ghost predicate Progress(now: seq<Pixel>, original: seq<Pixel>, width: nat, height: nat, done: nat)
    requires 3 <= width && 3 <= height && height * width <= |original| && |now| == |original|
  {
    forall i :: 0 <= i < |now| ==> now[i] == if i < done then FilteredAt(original, width, height, i) else original[i]
  }

  lemma BorderValue(s: seq<Pixel>, width: nat, height: nat, row: nat, column: nat)
    requires 3 <= width && 3 <= height && height * width <= |s|
    requires column < width && row * width + column < |s|
    requires row == 0 || row >= height - 1 || column == 0 || column == width - 1
    ensures FilteredAt(s, width, height, row * width + column) == s[row * width + column]
  {
    Position(width, row, column);
  }

  lemma InteriorValue(s: seq<Pixel>, width: nat, height: nat, row: nat, column: nat)
    requires 3 <= width && 3 <= height && height * width <= |s|
    requires 1 <= row < height - 1 && 1 <= column < width - 1
    ensures row * width + column < |s|
    ensures FilteredAt(s, width, height, row * width + column)
      == FilterRows(Row(s, width, height, row - 1), Row(s, width, height, row), Row(s, width, height, row + 1), column)
  {
    hide FilterRows, Row;
    RowEnd(width, row, height);
    Position(width, row, column);
  }

  lemma RowAt(s: seq<Pixel>, width: nat, height: nat, row: nat, column: nat)
    requires row < height && column < width && height * width <= |s|
    ensures row * width + column < |s| && Row(s, width, height, row)[column] == s[row * width + column]
  {
    RowEnd(width, row, height);
  }

  /** Three rows whose window has one chroma give back the centre pixel. */
  lemma UniformWindow(previous: seq<Pixel>, current: seq<Pixel>, next: seq<Pixel>, column: nat)
    requires |previous| == |current| == |next| && 1 <= column < |current| - 1
    requires UniformChroma(Window(previous, current, next, column))
    ensures FilterRows(previous, current, next, column) == current[column] % COLORS
  {
    hide PixelYcocg, YcocgPixel, Sort;
    var window := Window(previous, current, next, column);
    assert window[4] == current[column];
    SortConstant(CoOf(window), PixelYcocg(window[4]).co);
    SortConstant(CgOf(window), PixelYcocg(window[4]).cg);
    ColourRoundTrip(window[4]);
  }

  ghost predicate UniformChroma(window: seq<Pixel>) {
    && |window| == 9
    && forall i :: 0 <= i < 9 ==>
      PixelYcocg(window[i]).co == PixelYcocg(window[4]).co && PixelYcocg(window[i]).cg == PixelYcocg(window[4]).cg
  }

  /** The nine original pixels around a position, in reading order. */
  ghost function Neighborhood(s: seq<Pixel>, width: nat, height: nat, row: nat, column: nat): (w: seq<Pixel>)
    requires 3 <= width && 3 <= height && height * width <= |s|
    requires 1 <= row < height - 1 && 1 <= column < width - 1
    ensures |w| == 9
  {
    seq(9, i requires 0 <= i < 9 =>
      RowAt(s, width, height, row - 1 + i / 3, column - 1 + i % 3);
      s[(row - 1 + i / 3) * width + (column - 1 + i % 3)])
  }

  lemma WindowIsNeighborhood(s: seq<Pixel>, width: nat, height: nat, row: nat, column: nat)
    requires 3 <= width && 3 <= height && height * width <= |s|
    requires 1 <= row < height - 1 && 1 <= column < width - 1
    ensures Window(Row(s, width, height, row - 1), Row(s, width, height, row), Row(s, width, height, row + 1), column)
      == Neighborhood(s, width, height, row, column)
  {
    hide Row;
    var w := Window(Row(s, width, height, row - 1), Row(s, width, height, row), Row(s, width, height, row + 1), column);
    forall i | 0 <= i < 9
      ensures w[i] == Neighborhood(s, width, height, row, column)[i]
    {
      RowAt(s, width, height, row - 1 + i / 3, column - 1 + i % 3);
      assert w[i] == Row(s, width, height, row - 1 + i / 3)[column - 1 + i % 3];
    }
  }

  /** The pixel with the centre's luma and the given chroma. */
  ghost predicate Recolored(s: seq<Pixel>, width: nat, height: nat, row: nat, column: nat, co: int, cg: int)
    requires 3 <= width && 3 <= height && height * width <= |s|
    requires 1 <= row < height - 1 && 1 <= column < width - 1
  {
    RowAt(s, width, height, row, column);
    var t := Ycocg(PixelYcocg(s[row * width + column]).y, co, cg);
    var filtered := FilteredAt(s, width, height, row * width + column);
    filtered == YcocgPixel(t) && (Unclamped(t) ==> PixelYcocg(filtered) == t)
  }

  /**
   An interior pixel keeps its luma and takes, for each chroma difference, the
   one value of its nine original pixels with at least five of them no greater
   and at least five no smaller.
   */
  lemma FilterTakesMedian(s: seq<Pixel>, width: nat, height: nat, row: nat, column: nat) returns (co: int, cg: int)
    requires 3 <= width && 3 <= height && height * width <= |s|
    requires 1 <= row < height - 1 && 1 <= column < width - 1
    ensures HasRank(CoOf(Neighborhood(s, width, height, row, column)), 4, co)
    ensures HasRank(CgOf(Neighborhood(s, width, height, row, column)), 4, cg)
    ensures Recolored(s, width, height, row, column, co, cg)
  {
    hide Row, Sort, HasRank, PixelYcocg, YcocgPixel, Unclamped, Neighborhood, Window, FilteredAt, CoOf, CgOf;
    var window := Neighborhood(s, width, height, row, column);
    WindowIsNeighborhood(s, width, height, row, column);
    InteriorValue(s, width, height, row, column);
    RowAt(s, width, height, row, column);
    ChromaLength(window);
    co, cg := Sort(CoOf(window))[4], Sort(CgOf(window))[4];
    SortRanks(CoOf(window), 4);
    SortRanks(CgOf(window), 4);
    LumaKeptIffUnclamped(Ycocg(PixelYcocg(s[row * width + column]).y, co, cg));
  }

  lemma ChromaLength(window: seq<Pixel>)
    ensures |CoOf(window)| == |CgOf(window)| == |window|
  {
  }

  /** Where the 3x3 neighbourhood has one chroma, the pixel is a fixed point. */
  lemma UniformChromaFixed(s: seq<Pixel>, width: nat, height: nat, row: nat, column: nat)
    requires 3 <= width && 3 <= height && height * width <= |s|
    requires 1 <= row < height - 1 && 1 <= column < width - 1
    requires UniformChroma(
      Window(Row(s, width, height, row - 1), Row(s, width, height, row), Row(s, width, height, row + 1), column))
    ensures row * width + column < |s|
    ensures FilteredAt(s, width, height, row * width + column) == s[row * width + column] % COLORS
  {
    hide FilteredAt, FilterRows, UniformChroma, Row, Window;
    InteriorValue(s, width, height, row, column);
    RowAt(s, width, height, row, column);
    UniformWindow(Row(s, width, height, row - 1), Row(s, width, height, row), Row(s, width, height, row + 1), column);
  }

  /** A border position needs no work. */
  lemma SkipBorder(now: seq<Pixel>, original: seq<Pixel>, width: nat, height: nat, row: nat, column: nat)
    requires 3 <= width && 3 <= height && height * width <= |original| && |now| == |original|
    requires row < height && column < width
    requires row == 0 || row == height - 1 || column == 0 || column == width - 1
    requires Progress(now, original, width, height, row * width + column)
    ensures Progress(now, original, width, height, row * width + column + 1)
  {
    hide FilteredAt;
    RowEnd(width, row, height);
    BorderValue(original, width, height, row, column);
  }

  /** One interior position is written from the three saved rows. */
  lemma WriteInterior(now: seq<Pixel>, original: seq<Pixel>, width: nat, height: nat,
                      row: nat, column: nat, value: Pixel)
    requires 3 <= width && 3 <= height && height * width <= |original| && |now| == |original|
    requires 1 <= row < height - 1 && 1 <= column < width - 1
    requires Progress(now, original, width, height, row * width + column)
    requires value == FilterRows(Row(original, width, height, row - 1), Row(original, width, height, row),
                                 Row(original, width, height, row + 1), column)
    ensures row * width + column < |now|
    ensures Progress(now[row * width + column := value], original, width, height, row * width + column + 1)
  {
    hide FilteredAt, FilterRows, Row;
    InteriorValue(original, width, height, row, column);
  }

  /** The whole first row is border. */
  lemma SkipFirstRow(now: seq<Pixel>, width: nat, height: nat)
    requires 3 <= width && 3 <= height && height * width <= |now|
    ensures Progress(now, now, width, height, width)
  {
    hide FilteredAt;
    RowEnd(width, 0, height);
    forall i | 0 <= i < width
      ensures FilteredAt(now, width, height, i) == now[i]
    {
      BorderValue(now, width, height, 0, i);
    }
  }

  /** Only border positions follow the last interior row. */
  lemma SkipRest(now: seq<Pixel>, original: seq<Pixel>, width: nat, height: nat)
    requires 3 <= width && 3 <= height && height * width <= |original| && |now| == |original|
    requires Progress(now, original, width, height, (height - 1) * width)
    ensures now == FilteredImage(original, width, height)
  {
    hide FilteredAt;
    forall i | (height - 1) * width <= i < |now|
      ensures FilteredAt(original, width, height, i) == original[i]
    {
      RowAtLeast(width, height, i);
      BorderValue(original, width, height, i / width, i % width);
    }
  }

  lemma RowAtLeast(width: nat, height: nat, i: nat)
    requires width > 0 && height > 0 && (height - 1) * width <= i
    ensures i / width >= height - 1 && i == (i / width) * width + i % width && i % width < width
  {
    DivMonotone((height - 1) * width, i, width);
    QuotientIs((height - 1) * width, width, height - 1, 0);
  }

  /** Rows at or past the progress point are still original. */
  lemma RowUnread(now: seq<Pixel>, original: seq<Pixel>, width: nat, height: nat, row: nat, done: nat)
    requires 3 <= width && 3 <= height && height * width <= |original| && |now| == |original|
    requires row < height && done <= row * width && Progress(now, original, width, height, done)
    ensures Row(now, width, height, row) == Row(original, width, height, row)
  {
    RowEnd(width, row, height);
  }

  /** The interior of one row. */
  method FilterRow(pixels: array<Pixel>, ghost original: seq<Pixel>, width: nat, height: nat, row: nat,
                   previous: seq<Pixel>, current: seq<Pixel>, next: seq<Pixel>)
    requires 3 <= width && 3 <= height && height * width <= |original| && pixels.Length == |original|
    requires 1 <= row < height - 1
    requires previous == Row(original, width, height, row - 1)
    requires current == Row(original, width, height, row) && next == Row(original, width, height, row + 1)
    requires Progress(pixels[..], original, width, height, row * width)
    modifies pixels
    ensures Progress(pixels[..], original, width, height, (row + 1) * width)
  {
    hide Progress, FilterRows, Row;
    SkipBorder(pixels[..], original, width, height, row, 0);
    for column := 1 to width - 1
      invariant Progress(pixels[..], original, width, height, row * width + column)
    {
      var value := FilterRows(previous, current, next, column);
      WriteInterior(pixels[..], original, width, height, row, column, value);
      ghost var written := pixels[..][row * width + column := value];
      pixels[row * width + column] := value;
      assert pixels[..] == written;
    }
    SkipBorder(pixels[..], original, width, height, row, width - 1);
    assert row * width + (width - 1) + 1 == (row + 1) * width;
  }

  /** The in-place filter gives the out-of-place result for every image size. */
  method MedianFilterChroma(pixels: array<Pixel>, width: nat, height: nat)
    modifies pixels
    ensures pixels[..] == FilteredImage(old(pixels[..]), width, height)
  {
    hide Progress, FilteredImage, Row;
    if width < 3 || height < 3 || pixels.Length < height * width {
      TooSmall(pixels[..], width, height);
      return;
    }
    ghost var original := pixels[..];
    RowEnd(width, 0, height);
    RowEnd(width, 1, height);
    RowEnd(width, 2, height);
    var previous, current := pixels[..width], pixels[width..2 * width];
    var next := pixels[2 * width..3 * width];
    RowIs(original, width, height, 0, previous);
    RowIs(original, width, height, 1, current);
    RowIs(original, width, height, 2, next);
    SkipFirstRow(original, width, height);
    for row := 1 to height - 1
      invariant Progress(pixels[..], original, width, height, row * width)
      invariant previous == Row(original, width, height, row - 1) && current == Row(original, width, height, row)
      invariant row + 1 < height ==> next == Row(original, width, height, row + 1)
    {
      FilterRow(pixels, original, width, height, row, previous, current, next);
      previous := current;
      current, next := next, [];
      if row + 2 < height {
        RowEnd(width, row + 2, height);
        MulMonotone(row + 1, row + 2, width);
        RowUnread(pixels[..], original, width, height, row + 2, (row + 1) * width);
        next := pixels[(row + 2) * width..(row + 2) * width + width];
        RowIs(pixels[..], width, height, row + 2, next);
      }
    }
    SkipRest(pixels[..], original, width, height);
  }

  lemma RowIs(s: seq<Pixel>, width: nat, height: nat, row: nat, taken: seq<Pixel>)
    requires row < height && height * width <= |s| && row * width + width <= |s|
    requires taken == s[row * width..row * width + width]
    ensures taken == Row(s, width, height, row)
  {
  }

  lemma TooSmall(s: seq<Pixel>, width: nat, height: nat)
    requires width < 3 || height < 3 || |s| < height * width
    ensures FilteredImage(s, width, height) == s
  {
  }
}
