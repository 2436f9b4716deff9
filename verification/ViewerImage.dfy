/**
 The viewer's decoded image and its parameter-keyed cache. The reference
 calibration is not part of the cache key; the image is nevertheless always the
 fresh decode of the current settings.
 */
module ViewerImage {
  import opened Common
  import opened Arithmetic
  import opened CcdGeometry
  import opened CcdSampling
  import opened CcdViewer
  import opened Chroma

  datatype Mode = Raw | Phase0 | Phase1 | Phase2 | Decoded

  datatype Params = Params(
    mode: Mode, startByteOffset: int,
    red: ChannelMap, green: ChannelMap, blue: ChannelMap,
    showRed: bool, showGreen: bool, showBlue: bool,
    gainBits: nat, gamma: bool, chromaFilter: bool)
  {
    predicate Valid() {
      red.group < GROUPS && green.group < GROUPS && blue.group < GROUPS
    }
  }

  /** The capture being viewed; `display` is the gain-and-gamma mapping to a byte. */
  datatype Scene = Scene(data: seq<Byte>, lineStarts: seq<nat>, nominalWords: nat, display: (U16, nat, bool) -> Byte) {
    predicate Valid() {
      |lineStarts| >= 2
    }

    function Rows(): nat {
      SaturatingSub(|lineStarts|, 1)
    }

    function CaptureAt(startByteOffset: int): Capture {
      Capture(data, lineStarts, startByteOffset)
    }

    /** References loaded for this scene have one level per lane and lane column. */
    predicate Calibrates(calibration: Option<Calibration>) {
      calibration.Some? ==>
        && |calibration.value.dark| == |calibration.value.white| == LANES
        && (forall i :: 0 <= i < LANES ==>
              |calibration.value.dark[i]| == |calibration.value.white[i]| == nominalWords / LANES)
    }
  }

  datatype ImageGeometry = ImageGeometry(width: nat, rows: nat, rowOrigin: nat, columnOrigin: nat)
  datatype PixelData = Gray(values: seq<Byte>) | Rgb(colors: seq<Pixel>)
  datatype Picture = Picture(geometry: ImageGeometry, pixels: PixelData)

  // ----- what a fresh decode is -----

  function DecodedGeometry(scene: Scene, p: Params): ImageGeometry {
    var (rowOrigin, rows) := SubrowOverlap(
      scene.Rows(), [p.red.rowOffsetUnits, p.green.rowOffsetUnits, p.blue.rowOffsetUnits], ROW_OFFSET_UNITS);
    var (columnOrigin, columns) := CommonOverlap(
      scene.nominalWords / LANES, [p.red.columnOffset, p.green.columnOffset, p.blue.columnOffset]);
    ImageGeometry(columns * TAPS, rows, rowOrigin, columnOrigin)
  }

  /** Inside the decoded geometry every channel reads existing rows and lane columns. */
  lemma ChannelInside(scene: Scene, p: Params, row: nat, column: nat, channel: ChannelMap)
    requires scene.Valid() && channel in [p.red, p.green, p.blue]
    requires
      var g := DecodedGeometry(scene, p);
      row < g.rows && column < g.width
    ensures
      var g := DecodedGeometry(scene, p);
      && (g.rowOrigin + row) * ROW_OFFSET_UNITS + channel.rowOffsetUnits >= 0
      && 0 <= g.columnOrigin + column / TAPS + channel.columnOffset < scene.nominalWords / LANES
  {
    var g := DecodedGeometry(scene, p);
    var rowOffsets := [p.red.rowOffsetUnits, p.green.rowOffsetUnits, p.blue.rowOffsetUnits];
    var columnOffsets := [p.red.columnOffset, p.green.columnOffset, p.blue.columnOffset];
    SubrowOverlapPositive(scene.Rows(), rowOffsets, ROW_OFFSET_UNITS, g.rowOrigin + row);
    assert OverlapRight(scene.Rows(), rowOffsets, ROW_OFFSET_UNITS, g.rowOrigin + row);
    CommonOverlapExact(scene.nominalWords / LANES, columnOffsets, g.columnOrigin + column / TAPS);
    var i := if channel == p.red then 0 else if channel == p.green then 1 else 2;
    assert rowOffsets[i] == channel.rowOffsetUnits && columnOffsets[i] == channel.columnOffset;
    assert Fits(scene.Rows(), rowOffsets[i], ROW_OFFSET_UNITS, g.rowOrigin + row);
  }

  function ChannelByte(scene: Scene, p: Params, calibration: Option<Calibration>,
                       row: nat, column: nat, channel: ChannelMap)
    : Byte
    requires scene.Valid() && p.Valid() && scene.Calibrates(calibration) && channel in [p.red, p.green, p.blue]
    requires
      var g := DecodedGeometry(scene, p);
      row < g.rows && column < g.width
  {
    var g := DecodedGeometry(scene, p);
    ChannelInside(scene, p, row, column, channel);
    var word := ChannelWord(scene.CaptureAt(p.startByteOffset), g.rowOrigin + row, g.columnOrigin + column / TAPS,
                            column % TAPS, channel, calibration);
    if word.None? then 0 else scene.display(word.value, p.gainBits, p.gamma)
  }

  function ColorAt(scene: Scene, p: Params, calibration: Option<Calibration>, row: nat, column: nat): Pixel
    requires scene.Valid() && p.Valid() && scene.Calibrates(calibration)
    requires
      var g := DecodedGeometry(scene, p);
      row < g.rows && column < g.width
  {
    RgbPixel(ChannelByte(scene, p, calibration, row, column, p.red),
             ChannelByte(scene, p, calibration, row, column, p.green),
             ChannelByte(scene, p, calibration, row, column, p.blue))
  }

  lemma PositionInside(width: nat, rows: nat, i: nat)
    requires i < rows * width
    ensures width > 0 && i / width < rows && i % width < width && i / width >= 0
  {
    DivMonotone(0, i, width);
    if i / width >= rows {
      MulMonotone(rows, i / width, width);
    }
  }

  function ReconstructedColors(scene: Scene, p: Params, calibration: Option<Calibration>): (r: seq<Pixel>)
    requires scene.Valid() && p.Valid() && scene.Calibrates(calibration)
    ensures var g := DecodedGeometry(scene, p); |r| == g.rows * g.width
  {
    var g := DecodedGeometry(scene, p);
    seq(g.rows * g.width, i requires 0 <= i < g.rows * g.width =>
      PositionInside(g.width, g.rows, i);
      ColorAt(scene, p, calibration, i / g.width, i % g.width))
  }

  /** A pixel with only the enabled channels. */
  function Shown(p: Params, color: Pixel): Pixel {
    if p.showRed && p.showGreen && p.showBlue then color
    else RgbPixel(if p.showRed then Red(color) else 0, if p.showGreen then Green(color) else 0,
                  if p.showBlue then Blue(color) else 0)
  }

  function ShownAll(p: Params, colors: seq<Pixel>): seq<Pixel> {
    seq(|colors|, i requires 0 <= i < |colors| => Shown(p, colors[i]))
  }

  function GrayGeometry(scene: Scene, p: Params): ImageGeometry {
    ImageGeometry(if p.mode.Raw? then scene.nominalWords else scene.nominalWords / GROUPS, scene.Rows(), 0, 0)
  }

  function WordIndex(mode: Mode, column: nat): nat {
    match mode
    case Phase0 => column * GROUPS
    case Phase1 => column * GROUPS + 1
    case Phase2 => column * GROUPS + 2
    case _ => column
  }

  function GrayAt(scene: Scene, p: Params, row: nat, column: nat): Byte {
    var word := scene.CaptureAt(p.startByteOffset).Word(row, WordIndex(p.mode, column));
    if word.None? then 0 else scene.display(word.value, p.gainBits, p.gamma)
  }

  function GrayValues(scene: Scene, p: Params): (r: seq<Byte>)
    ensures var g := GrayGeometry(scene, p); |r| == g.rows * g.width
  {
    var g := GrayGeometry(scene, p);
    seq(g.rows * g.width, i requires 0 <= i < g.rows * g.width =>
      PositionInside(g.width, g.rows, i);
      GrayAt(scene, p, i / g.width, i % g.width))
  }

  /** The picture that the settings and the calibration determine. */
  function Decode(scene: Scene, p: Params, calibration: Option<Calibration>): Picture
    requires scene.Valid() && p.Valid() && scene.Calibrates(calibration)
  {
    if p.mode.Decoded? then
      var g := DecodedGeometry(scene, p);
      var colors := ReconstructedColors(scene, p, calibration);
      Picture(g, Rgb(ShownAll(p, if p.chromaFilter then FilteredImage(colors, g.width, g.rows) else colors)))
    else Picture(GrayGeometry(scene, p), Gray(GrayValues(scene, p)))
  }

  // ----- what a decode shows -----

  lemma ShownComponents(p: Params, color: Pixel)
    ensures Red(Shown(p, color)) == (if p.showRed then Red(color) else 0)
    ensures Green(Shown(p, color)) == (if p.showGreen then Green(color) else 0)
    ensures Blue(Shown(p, color)) == (if p.showBlue then Blue(color) else 0)
  {
    hide RgbPixel;
    ColoursOf(color);
  }

  /** An unfiltered decoded pixel carries its three channels' bytes, each in its own component, hidden ones as zero. */
  lemma DecodedShowsChannels(scene: Scene, p: Params, calibration: Option<Calibration>, g: ImageGeometry,
                             row: nat, column: nat, i: nat)
    requires scene.Valid() && p.Valid() && scene.Calibrates(calibration) && p.mode.Decoded? && !p.chromaFilter
    requires g == DecodedGeometry(scene, p) && row < g.rows && column < g.width && i == row * g.width + column
    ensures
      var picture := Decode(scene, p, calibration);
      && picture.geometry == g && picture.pixels.Rgb? && i < |picture.pixels.colors|
      && var color := picture.pixels.colors[i];
         && Red(color) == (if p.showRed then ChannelByte(scene, p, calibration, row, column, p.red) else 0)
         && Green(color) == (if p.showGreen then ChannelByte(scene, p, calibration, row, column, p.green) else 0)
         && Blue(color) == (if p.showBlue then ChannelByte(scene, p, calibration, row, column, p.blue) else 0)
  {
    hide ChannelByte, DecodedGeometry, RgbPixel, Red, Green, Blue, Shown, ReconstructedColors, Decode, Scene.Calibrates;
    ColorsListed(scene, p, calibration, g, row, column, i);
    DecodedPixel(scene, p, calibration, i);
    ShownComponents(p, ColorAt(scene, p, calibration, row, column));
  }

  lemma DecodedPixel(scene: Scene, p: Params, calibration: Option<Calibration>, i: nat)
    requires scene.Valid() && p.Valid() && scene.Calibrates(calibration) && p.mode.Decoded? && !p.chromaFilter
    requires i < |ReconstructedColors(scene, p, calibration)|
    ensures
      var picture := Decode(scene, p, calibration);
      && picture.geometry == DecodedGeometry(scene, p) && picture.pixels.Rgb? && i < |picture.pixels.colors|
      && picture.pixels.colors[i] == Shown(p, ReconstructedColors(scene, p, calibration)[i])
  {
    hide ReconstructedColors, DecodedGeometry, Shown, Scene.Calibrates;
  }

  lemma ColorsListed(scene: Scene, p: Params, calibration: Option<Calibration>, g: ImageGeometry,
                     row: nat, column: nat, i: nat)
    requires scene.Valid() && p.Valid() && scene.Calibrates(calibration)
    requires g == DecodedGeometry(scene, p) && row < g.rows && column < g.width && i == row * g.width + column
    ensures i < |ReconstructedColors(scene, p, calibration)|
    ensures ReconstructedColors(scene, p, calibration)[i] == ColorAt(scene, p, calibration, row, column)
  {
    hide DecodedGeometry, ColorAt;
    RowEnd(g.width, row, g.rows);
    Position(g.width, row, column);
  }

  /** With the filter on, masks apply to the filtered image. */
  lemma FilterThenMask(scene: Scene, p: Params, calibration: Option<Calibration>, i: nat)
    requires scene.Valid() && p.Valid() && scene.Calibrates(calibration) && p.mode.Decoded? && p.chromaFilter
    requires i < |ReconstructedColors(scene, p, calibration)|
    ensures
      var g, picture := DecodedGeometry(scene, p), Decode(scene, p, calibration);
      var filtered := FilteredImage(ReconstructedColors(scene, p, calibration), g.width, g.rows)[i];
      && picture.geometry == g && picture.pixels.Rgb? && i < |picture.pixels.colors|
      && var color := picture.pixels.colors[i];
         && Red(color) == (if p.showRed then Red(filtered) else 0)
         && Green(color) == (if p.showGreen then Green(filtered) else 0)
         && Blue(color) == (if p.showBlue then Blue(filtered) else 0)
  {
    hide ReconstructedColors, FilteredImage, DecodedGeometry, Red, Green, Blue, Shown;
    var g := DecodedGeometry(scene, p);
    ShownComponents(p, FilteredImage(ReconstructedColors(scene, p, calibration), g.width, g.rows)[i]);
  }

  function PhaseOf(mode: Mode): Option<nat> {
    match mode
    case Phase0 => Some(0)
    case Phase1 => Some(1)
    case Phase2 => Some(2)
    case _ => None
  }

  /** A gray picture shows every word of a row, or every third one from the phase on. */
  lemma GrayShowsWords(scene: Scene, p: Params, calibration: Option<Calibration>, width: nat,
                       row: nat, column: nat, i: nat)
    requires scene.Valid() && p.Valid() && scene.Calibrates(calibration) && !p.mode.Decoded?
    requires width == if p.mode.Raw? then scene.nominalWords else scene.nominalWords / 3
    requires row < scene.Rows() && column < width && i == row * width + column
    ensures
      var picture := Decode(scene, p, calibration);
      var phase := PhaseOf(p.mode);
      var index := if phase.Some? then 3 * column + phase.value else column;
      var word := scene.CaptureAt(p.startByteOffset).Word(row, index);
      && picture.geometry.width == width && picture.geometry.rows == scene.Rows()
      && picture.pixels.Gray? && i < |picture.pixels.values|
      && picture.pixels.values[i] == if word.Some? then scene.display(word.value, p.gainBits, p.gamma) else 0
  {
    hide Capture.Word, GrayValues, Scene.Calibrates;
    GrayListed(scene, p, row, column, i);
  }

  lemma GrayListed(scene: Scene, p: Params, row: nat, column: nat, i: nat)
    requires var g := GrayGeometry(scene, p); row < g.rows && column < g.width && i == row * g.width + column
    ensures i < |GrayValues(scene, p)| && GrayValues(scene, p)[i] == GrayAt(scene, p, row, column)
  {
    hide GrayAt;
    var g := GrayGeometry(scene, p);
    RowEnd(g.width, row, g.rows);
    Position(g.width, row, column);
  }

  // ----- the image object -----

  /** Fills the pixel buffer row by row. */
  method Reconstruct(scene: Scene, p: Params, calibration: Option<Calibration>) returns (pixels: array<Pixel>)
    requires scene.Valid() && p.Valid() && scene.Calibrates(calibration)
    ensures fresh(pixels) && pixels[..] == ReconstructedColors(scene, p, calibration)
  {
    hide ColorAt, DecodedGeometry;
    var g := DecodedGeometry(scene, p);
    ghost var colors := ReconstructedColors(scene, p, calibration);
    pixels := new Pixel[g.rows * g.width](_ => 0);
    for row := 0 to g.rows
      invariant row * g.width <= pixels.Length
      invariant forall i :: 0 <= i < row * g.width ==> pixels[i] == colors[i]
    {
      RowEnd(g.width, row, g.rows);
      for column := 0 to g.width
        invariant forall i :: 0 <= i < row * g.width + column ==> pixels[i] == colors[i]
      {
        Position(g.width, row, column);
        pixels[row * g.width + column] := ColorAt(scene, p, calibration, row, column);
      }
    }
  }

  method MaskChannels(pixels: array<Pixel>, p: Params)
    modifies pixels
    ensures pixels[..] == ShownAll(p, old(pixels[..]))
  {
    hide Shown;
    ghost var before := pixels[..];
    for i := 0 to pixels.Length
      invariant forall k :: 0 <= k < i ==> pixels[k] == Shown(p, before[k])
      invariant forall k :: i <= k < pixels.Length ==> pixels[k] == before[k]
    {
      pixels[i] := Shown(p, pixels[i]);
    }
  }

  method ReadGray(scene: Scene, p: Params) returns (pixels: array<Byte>)
    ensures fresh(pixels) && pixels[..] == GrayValues(scene, p)
  {
    hide GrayAt;
    var g := GrayGeometry(scene, p);
    ghost var values := GrayValues(scene, p);
    pixels := new Byte[g.rows * g.width](_ => 0);
    for row := 0 to g.rows
      invariant row * g.width <= pixels.Length
      invariant forall i :: 0 <= i < row * g.width ==> pixels[i] == values[i]
    {
      RowEnd(g.width, row, g.rows);
      for column := 0 to g.width
        invariant forall i :: 0 <= i < row * g.width + column ==> pixels[i] == values[i]
      {
        Position(g.width, row, column);
        pixels[row * g.width + column] := GrayAt(scene, p, row, column);
      }
    }
  }

  class DecodedImage {
    var params: Option<Params>
    var picture: Picture

    constructor ()
      ensures params == None
    {
      params, picture := None, Picture(ImageGeometry(0, 0, 0, 0), Gray([]));
    }

    method Invalidate()
      modifies this
      ensures params == None && picture == old(picture)
    {
      params := None;
    }

    /** Decodes unless the parameters are the cached ones. */
    method Update(scene: Scene, p: Params, calibration: Option<Calibration>)
      requires scene.Valid() && p.Valid() && scene.Calibrates(calibration)
      modifies this
      ensures params == Some(p)
      ensures picture == if old(params) == Some(p) then old(picture) else Decode(scene, p, calibration)
    {
      hide ReconstructedColors, GrayValues, FilteredImage, ShownAll, DecodedGeometry;
      if params == Some(p) {
        return;
      }
      params := Some(p);
      if p.mode.Decoded? {
        var g := DecodedGeometry(scene, p);
        var pixels := Reconstruct(scene, p, calibration);
        if p.chromaFilter {
          MedianFilterChroma(pixels, g.width, g.rows);
        }
        if !(p.showRed && p.showGreen && p.showBlue) {
          MaskChannels(pixels, p);
        } else {
          ShownUnchanged(p, pixels[..]);
        }
        picture := Picture(g, Rgb(pixels[..]));
      } else {
        var values := ReadGray(scene, p);
        picture := Picture(GrayGeometry(scene, p), Gray(values[..]));
      }
    }

    /** The color of a position, with a background outside the picture. */
    method Get(row: nat, column: nat, background: Pixel) returns (color: Pixel)
      requires
        var g := picture.geometry;
        g.rows * g.width == match picture.pixels { case Gray(v) => |v| case Rgb(c) => |c| }
      ensures
        var g := picture.geometry;
        if row >= g.rows || column >= g.width then color == background
        else
          var i := row * g.width + column;
          match picture.pixels {
            case Gray(v) => i < |v| && Red(color) == v[i] && Green(color) == v[i] && Blue(color) == v[i]
            case Rgb(c) => i < |c| && color == c[i]
          }
    {
      var g := picture.geometry;
      if row >= g.rows || column >= g.width {
        return background;
      }
      RowEnd(g.width, row, g.rows);
      var i := row * g.width + column;
      match picture.pixels {
        case Gray(v) => color := RgbPixel(v[i], v[i], v[i]);
        case Rgb(c) => color := c[i];
      }
    }
  }

  lemma ShownUnchanged(p: Params, colors: seq<Pixel>)
    requires p.showRed && p.showGreen && p.showBlue
    ensures ShownAll(p, colors) == colors
  {
  }

  // ----- the event loop -----

  datatype ChannelName = RedChannel | GreenChannel | BlueChannel

  /** Key presses that can reach the settings; everything else only moves the view. */
  datatype Key =
    | NextMode
    | SelectMode(mode: Mode)
    | ShiftRow(channel: ChannelName, units: int)
    | ToggleShown(channel: ChannelName)
    | MoveByteOffset(bytes: int)
    | ScaleGain(bits: nat)
    | ToggleGamma
    | ToggleChromaFilter
    | MoveView

  function NextOf(mode: Mode): Mode {
    match mode
    case Raw => Phase0
    case Phase0 => Phase1
    case Phase1 => Phase2
    case Phase2 => Decoded
    case Decoded => Raw
  }

  function Pressed(p: Params, key: Key): Params {
    match key
    case NextMode => p.(mode := NextOf(p.mode))
    case SelectMode(mode) => p.(mode := mode)
    case ShiftRow(RedChannel, units) => p.(red := p.red.(rowOffsetUnits := p.red.rowOffsetUnits + units))
    case ShiftRow(GreenChannel, units) => p.(green := p.green.(rowOffsetUnits := p.green.rowOffsetUnits + units))
    case ShiftRow(BlueChannel, units) => p.(blue := p.blue.(rowOffsetUnits := p.blue.rowOffsetUnits + units))
    case ToggleShown(RedChannel) => p.(showRed := !p.showRed)
    case ToggleShown(GreenChannel) => p.(showGreen := !p.showGreen)
    case ToggleShown(BlueChannel) => p.(showBlue := !p.showBlue)
    case MoveByteOffset(bytes) => p.(startByteOffset := p.startByteOffset + bytes)
    case ScaleGain(bits) => p.(gainBits := bits)
    case ToggleGamma => p.(gamma := !p.gamma)
    case ToggleChromaFilter => p.(chromaFilter := !p.chromaFilter)
    case MoveView => p
  }

  function PressedAll(p: Params, keys: seq<Key>): Params {
    if keys == [] then p else Pressed(PressedAll(p, keys[..|keys| - 1]), keys[|keys| - 1])
  }

  class Viewer {
    const scene: Scene
    const calibration: Option<Calibration>
    /** The byte offset the references were loaded for. */
    const calibratedOffset: int
    const image: DecodedImage
    var settings: Params
    var needsDecode: bool

    ghost predicate Static() {
      scene.Valid() && scene.Calibrates(calibration)
    }

    /** References apply only at the byte offset they were loaded for. */
    function ActiveCalibration(startByteOffset: int): Option<Calibration> {
      if startByteOffset == calibratedOffset then calibration else None
    }

    ghost function FreshDecode(p: Params): Picture
      requires Static() && p.Valid()
    {
      Decode(scene, p, ActiveCalibration(p.startByteOffset))
    }

    /** Whatever the cache holds is the fresh decode of the parameters it is keyed by. */
    ghost predicate CacheSound()
      requires Static()
      reads this, image
    {
      image.params.Some? ==> image.params.value.Valid() && image.picture == FreshDecode(image.params.value)
    }

    /** The image on screen is the fresh decode of the current settings. */
    ghost predicate Current()
      requires Static()
      reads this, image
    {
      settings.Valid() && !needsDecode && CacheSound() && image.params == Some(settings)
    }

    constructor (scene: Scene, calibration: Option<Calibration>, settings: Params)
      requires scene.Valid() && scene.Calibrates(calibration) && settings.Valid()
      ensures this.scene == scene && this.calibration == calibration && this.settings == settings
      ensures calibratedOffset == settings.startByteOffset
      ensures fresh(image) && Static() && Current()
    {
      this.scene, this.calibration, this.settings := scene, calibration, settings;
      calibratedOffset := settings.startByteOffset;
      needsDecode := false;
      image := new DecodedImage();
      new;
      image.Update(scene, settings, calibration);
    }

    /** One key press; every press that changes a setting asks for a decode. */
    method Press(key: Key)
      requires Static() && settings.Valid() && CacheSound() && (!needsDecode ==> image.params == Some(settings))
      modifies this, image
      ensures settings == Pressed(old(settings), key) && settings.Valid() && CacheSound()
      ensures !needsDecode ==> image.params == Some(settings)
    {
      hide Decode, Pressed;
      PressedKeeps(settings, key);
      settings := Pressed(settings, key);
      if key.MoveByteOffset? {
        image.Invalidate();
      }
      if !key.MoveView? {
        needsDecode := true;
      }
    }

    /** One frame: the keys pressed in it, then a decode if any of them asked for one. */
    method Frame(keys: seq<Key>)
      requires Static() && Current()
      modifies this, image
      ensures Current() && settings == PressedAll(old(settings), keys)
      ensures image.picture == FreshDecode(settings)
      ensures image.picture
        == Decode(scene, settings, if settings.startByteOffset == calibratedOffset then calibration else None)
    {
      hide Decode, Pressed;
      for i := 0 to |keys|
        invariant settings == PressedAll(old(settings), keys[..i]) && settings.Valid() && CacheSound()
        invariant !needsDecode ==> image.params == Some(settings)
      {
        assert keys[..i + 1][..i] == keys[..i];
        Press(keys[i]);
      }
      assert keys[..|keys|] == keys;
      if needsDecode {
        image.Update(scene, settings, ActiveCalibration(settings.startByteOffset));
        needsDecode := false;
      }
    }
  }

  lemma PressedKeeps(p: Params, key: Key)
    requires p.Valid()
    ensures Pressed(p, key).Valid() && (key.MoveView? ==> Pressed(p, key) == p)
  {
  }

  function ChannelOf(p: Params, name: ChannelName): ChannelMap {
    match name
    case RedChannel => p.red
    case GreenChannel => p.green
    case BlueChannel => p.blue
  }

  /** A shift moves its own channel by its amount, no other, and the opposite shift undoes it. */
  lemma ShiftsUndo(p: Params, c: ChannelName, d: ChannelName, units: int)
    ensures
      var shifted := Pressed(p, ShiftRow(c, units));
      && ChannelOf(shifted, d).rowOffsetUnits == ChannelOf(p, d).rowOffsetUnits + (if c == d then units else 0)
      && Pressed(shifted, ShiftRow(c, -units)) == p
  {
    match c
    case RedChannel =>
    case GreenChannel =>
    case BlueChannel =>
  }

  /** Toggles undo themselves. */
  lemma TogglesUndo(p: Params, c: ChannelName)
    ensures Pressed(Pressed(p, ToggleShown(c)), ToggleShown(c)) == p != Pressed(p, ToggleShown(c))
    ensures Pressed(Pressed(p, ToggleGamma), ToggleGamma) == p && Pressed(p, ToggleGamma).gamma == !p.gamma
    ensures Pressed(Pressed(p, ToggleChromaFilter), ToggleChromaFilter) == p
    ensures Pressed(p, ToggleChromaFilter).chromaFilter == !p.chromaFilter
  {
    match c
    case RedChannel =>
    case GreenChannel =>
    case BlueChannel =>
  }

  /** A move of the byte offset adds its amount, and the opposite move undoes it. */
  lemma MovesUndo(p: Params, bytes: int)
    ensures Pressed(p, MoveByteOffset(bytes)).startByteOffset == p.startByteOffset + bytes
    ensures Pressed(Pressed(p, MoveByteOffset(bytes)), MoveByteOffset(-bytes)) == p
  {
  }

  /** A mode step changes only the mode, and five of them come round. */
  lemma ModesCycle(p: Params)
    ensures Pressed(Pressed(p, NextMode), SelectMode(p.mode)) == p && Pressed(p, NextMode).mode == NextOf(p.mode)
    ensures NextOf(p.mode) != p.mode && NextOf(NextOf(NextOf(NextOf(NextOf(p.mode))))) == p.mode
  {
  }
}
