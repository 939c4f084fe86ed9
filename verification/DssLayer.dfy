/** Turning an HWC layer into a DSS layer: the pure helpers and fillDssLayer of
    patches/hardware/interfaces/hwc2onfbadapter-hisi-dss-overlay-fallback.patch.
    A float is the real number it stands for; what float arithmetic rounds is rounded here. */
module DssLayers {
  import opened Options
  import opened Floats

  const HISI_HANDLE_MAGIC := 0x03141592
  const TWO_TO_32 := 0x1_0000_0000

  // HAL pixel formats
  const RGBA_8888 := 1
  const RGBX_8888 := 2
  const RGB_565 := 4
  const BGRA_8888 := 5
  const YCBCR_422_SP := 0x10
  const YCRCB_420_SP := 0x11
  const YV12 := 0x32315659

  // DSS pixel formats
  const HISI_RGB_565 := 0
  const HISI_RGBX_8888 := 5
  const HISI_RGBA_8888 := 6
  const HISI_BGRA_8888 := 13
  const HISI_YUV_422_I := 14
  const HISI_YCBCR_422_SP := 15
  const HISI_YCBCR_420_SP := 17
  const HISI_YCRCB_420_SP := 18
  const HISI_YCBCR_420_P := 21
  const HISI_YCRCB_420_P := 22

  const BLEND_MODE_NONE := 1
  const BLEND_MODE_PREMULTIPLIED := 2
  const BLEND_MODE_COVERAGE := 3

  const CHANNEL_0 := 0
  const CHANNEL_3 := 3

  datatype Capability = CapCsc | CapScl | CapDma | CapFbPost

  datatype Rect = Rect(left: int, top: int, right: int, bottom: int)
  datatype Crop = Crop(left: real, top: real, right: real, bottom: real)

  // A native_handle_t: the file descriptors, then the integer words.
  datatype Buffer = NoBuffer | Native(fds: seq<int>, ints: seq<int>)

  datatype DssRect = DssRect(x: int, y: int, w: int, h: int)

  datatype DssLayer = DssLayer(
    format: int, width: int, height: int, bpp: int,
    srcRect: DssRect, dstRect: DssRect,
    transform: int, blending: int, glbAlpha: int,
    layerIdx: int, chnIdx: int, needCap: set<Capability>)

  function AsUint32(x: int): int { x % TWO_TO_32 }

  // The handle word at a byte offset; the words start at byte 12.
  function HandleWord(b: Buffer, byteOffset: nat): int
    requires b.Native? && 12 <= byteOffset && (byteOffset - 12) / 4 < |b.fds| + |b.ints|
  {
    (b.fds + b.ints)[(byteOffset - 12) / 4]
  }

  predicate IsHisiHandle(b: Buffer) {
    && b.Native? && |b.fds| >= 1 && |b.ints| >= 48
    && AsUint32(HandleWord(b, 16)) == HISI_HANDLE_MAGIC
  }

  predicate IsYuvFormat(format: int) { HISI_YUV_422_I <= format <= HISI_YCRCB_420_P }

  // The DSS format and bytes per pixel of a HAL format.
  function ConvertHisiFormat(halFormat: int): Option<(int, int)> {
    if halFormat == RGBA_8888 then Some((HISI_RGBA_8888, 4))
    else if halFormat == RGBX_8888 then Some((HISI_RGBX_8888, 4))
    else if halFormat == RGB_565 then Some((HISI_RGB_565, 2))
    else if halFormat == BGRA_8888 then Some((HISI_BGRA_8888, 4))
    else if halFormat == YCBCR_422_SP then Some((HISI_YCBCR_422_SP, 2))
    else if halFormat == YCRCB_420_SP then Some((HISI_YCRCB_420_SP, 1))
    else if halFormat == 0x100 then Some((HISI_YCBCR_420_SP, 1))
    else if halFormat == 0x101 then Some((HISI_YCBCR_420_P, 1))
    else if halFormat == YV12 then Some((HISI_YCRCB_420_P, 1))
    else None
  }

  function GetHisiFormat(b: Buffer): Option<int> {
    if !IsHisiHandle(b) then None
    else
      var converted := ConvertHisiFormat(HandleWord(b, 20));
      if converted == None then None else Some(converted.value.0)
  }

  // DSS transforms are bit masks; HWC_TRANSFORM_* has the same numbers for the five it maps.
  function MapHwcTransform(transform: int): int {
    if transform == 1 || transform == 2 || transform == 4 || transform == 3 || transform == 7
    then transform else 0
  }

  function MapHwcBlendMode(mode: int): int {
    if mode == BLEND_MODE_PREMULTIPLIED then 1
    else if mode == BLEND_MODE_COVERAGE then 2
    else 0
  }

  predicate RectIsValid(r: Rect) { r.right > r.left && r.bottom > r.top }

  predicate CropIsValid(c: Crop) { c.right > c.left && c.bottom > c.top }

  predicate FrameFitsDisplay(r: Rect, width: nat, height: nat) {
    r.left >= 0 && r.top >= 0 && r.right <= width && r.bottom <= height
  }

  function RectWidth(r: Rect): int { AsUint32(r.right - r.left) }
  function RectHeight(r: Rect): int { AsUint32(r.bottom - r.top) }

  function FrameArea(r: Rect): int {
    if RectIsValid(r) then RectWidth(r) * RectHeight(r) else 0
  }

  // std::round is exact and rounds halves away from zero.
  function RoundNonNegative(value: real): nat {
    if value < 0.0 then 0 else (value + 0.5).Floor
  }

  function ScaleAlpha(planeAlpha: real): int {
    Float((if planeAlpha < 0.0 then 0.0 else if planeAlpha > 1.0 then 1.0 else planeAlpha) * 255.0).Floor
  }

  function SourceRect(crop: Crop): DssRect
    requires CropIsValid(crop)
  {
    DssRect(RoundNonNegative(crop.left), RoundNonNegative(crop.top),
            RoundNonNegative(Float(crop.right - crop.left)), RoundNonNegative(Float(crop.bottom - crop.top)))
  }

  function TargetRect(frame: Rect): DssRect {
    DssRect(AsUint32(frame.left), AsUint32(frame.top), RectWidth(frame), RectHeight(frame))
  }

  function BufferWidth(b: Buffer): nat
    requires IsHisiHandle(b)
  {
    AsUint32(HandleWord(b, 88))
  }

  function BufferHeight(b: Buffer): nat
    requires IsHisiHandle(b)
  {
    AsUint32(HandleWord(b, 92))
  }

  predicate CropFits(crop: Crop, width: nat, height: nat) {
    && width != 0 && height != 0 && 0.0 <= crop.left && 0.0 <= crop.top
    && crop.right <= Float(width as real) && crop.bottom <= Float(height as real)
  }

  function NeededCap(format: int, src: DssRect, dst: DssRect): set<Capability> {
    (if IsYuvFormat(format) then {CapCsc} else {})
    + (if src.w != dst.w || src.h != dst.h then {CapScl} else {})
  }

  function FillDssLayer(b: Buffer, crop: Crop, frame: Rect, blendMode: int, planeAlpha: real,
                        transform: int, layerIndex: int, channel: int, needCap: set<Capability>)
    : Option<DssLayer>
  {
    if !IsHisiHandle(b) || !CropIsValid(crop) || !RectIsValid(frame) then None
    else if !CropFits(crop, BufferWidth(b), BufferHeight(b)) then None
    else
      var converted := ConvertHisiFormat(HandleWord(b, 20));
      if converted == None then None
      else
        var ((format, bpp), src, dst) := (converted.value, SourceRect(crop), TargetRect(frame));
        Some(DssLayer(format, BufferWidth(b), BufferHeight(b), bpp, src, dst,
                      MapHwcTransform(transform), MapHwcBlendMode(blendMode), ScaleAlpha(planeAlpha),
                      layerIndex, channel, needCap + NeededCap(format, src, dst)))
  }

  // ---- What the helpers mean ----

  // How a format lays out its pixels: the order of its components, and how many pixels share a
  // pair of chroma samples on each axis.
  datatype Layout =
    | Packed(order: string, bytes: nat)
    | Chroma(order: string, across: nat, down: nat, planes: nat)

  function HalLayout(halFormat: int): Option<Layout> {
    match halFormat
    case 1 => Some(Packed("RGBA", 4))
    case 2 => Some(Packed("RGBX", 4))
    case 4 => Some(Packed("RGB", 2))
    case 5 => Some(Packed("BGRA", 4))
    case 0x10 => Some(Chroma("CbCr", 2, 1, 2))
    case 0x11 => Some(Chroma("CrCb", 2, 2, 2))
    case 0x100 => Some(Chroma("CbCr", 2, 2, 2))
    case 0x101 => Some(Chroma("CbCr", 2, 2, 3))
    case 0x32315659 => Some(Chroma("CrCb", 2, 2, 3))
    case _ => None
  }

  function DssLayout(format: int): Option<Layout> {
    match format
    case 0 => Some(Packed("RGB", 2))
    case 5 => Some(Packed("RGBX", 4))
    case 6 => Some(Packed("RGBA", 4))
    case 13 => Some(Packed("BGRA", 4))
    case 15 => Some(Chroma("CbCr", 2, 1, 2))
    case 17 => Some(Chroma("CbCr", 2, 2, 2))
    case 18 => Some(Chroma("CrCb", 2, 2, 2))
    case 21 => Some(Chroma("CbCr", 2, 2, 3))
    case 22 => Some(Chroma("CrCb", 2, 2, 3))
    case _ => None
  }

  // The DSS format lays out pixels as the HAL format does, and counts as YUV just if it has chroma.
  lemma ConversionKeepsLayout(halFormat: int)
    ensures var converted := ConvertHisiFormat(halFormat);
            && (converted.Some? <==> HalLayout(halFormat).Some?)
            && (converted.Some? ==>
                  var ((format, bpp), layout) := (converted.value, HalLayout(halFormat).value);
                  && DssLayout(format) == Some(layout)
                  && (IsYuvFormat(format) <==> layout.Chroma?)
                  && bpp == if layout.Packed? then layout.bytes else if layout.down == 1 then 2 else 1)
  {
  }

  // Which words of a handle with one descriptor are read.
  lemma HandleFields(b: Buffer)
    requires b.Native? && |b.fds| == 1
    ensures IsHisiHandle(b) <==> |b.ints| >= 48 && b.ints[0] % TWO_TO_32 == 0x03141592
    ensures IsHisiHandle(b) ==>
              && HandleWord(b, 20) == b.ints[1]
              && BufferWidth(b) == b.ints[18] % TWO_TO_32 && BufferHeight(b) == b.ints[19] % TWO_TO_32
  {
    if |b.ints| >= 48 {
      assert (b.fds + b.ints)[1] == b.ints[0];
    }
  }

  // A frame on the display has the area of its width times its height, an empty one none.
  lemma FrameAreaIsArea(r: Rect, width: nat, height: nat)
    requires FrameFitsDisplay(r, width, height) && width < TWO_TO_32 && height < TWO_TO_32
    ensures FrameArea(r) == if r.left < r.right && r.top < r.bottom
                            then (r.right - r.left) * (r.bottom - r.top) else 0
  {
    if r.left < r.right && r.top < r.bottom {
      assert RectWidth(r) == r.right - r.left && RectHeight(r) == r.bottom - r.top;
    }
  }

  // Opacity becomes its share of 255, cut to a whole number; what is out of range is clamped.
  lemma AlphaIsScaled(planeAlpha: real)
    ensures planeAlpha <= 0.0 ==> ScaleAlpha(planeAlpha) == 0
    ensures planeAlpha >= 1.0 ==> ScaleAlpha(planeAlpha) == 255
    ensures 0.0 <= planeAlpha <= 1.0 ==>
              planeAlpha * 255.0 - 1.5 < ScaleAlpha(planeAlpha) as real <= planeAlpha * 255.0 + 0.5
  {
    if planeAlpha <= 0.0 {
      FloatOfWhole(0);
    } else if planeAlpha >= 1.0 {
      FloatOfWhole(255);
    } else {
      FloatIsWithinHalf(planeAlpha * 255.0);
    }
  }

  lemma FloatIsWithinHalf(x: real)
    requires 0.0 <= x <= 255.0
    ensures -0.5 <= Float(x) - x <= 0.5
  {
    FloatIsNearest(x);
    ScaledReaches(x, 149, 255);
  }

  // The five transforms the DSS knows pass, all others are dropped.
  lemma KnownTransformsPass(transform: int)
    ensures MapHwcTransform(transform) == if transform in {1, 2, 3, 4, 7} then transform else 0
    ensures MapHwcBlendMode(transform) == (match transform case 2 => 1 case 3 => 2 case _ => 0)
  {
  }

  // ---- Which layers are accepted ----

  // Exactly these: a buffer of the vendor's with a known format and a size, a crop inside it, and
  // a frame that is not empty.
  lemma AcceptedIff(b: Buffer, crop: Crop, frame: Rect, blendMode: int, planeAlpha: real,
                    transform: int, layerIndex: int, channel: int, needCap: set<Capability>)
    ensures FillDssLayer(b, crop, frame, blendMode, planeAlpha, transform, layerIndex, channel, needCap).Some?
            <==> && IsHisiHandle(b) && HalLayout(HandleWord(b, 20)).Some?
                 && 0 < BufferWidth(b) && 0 < BufferHeight(b)
                 && 0.0 <= crop.left < crop.right <= Float(BufferWidth(b) as real)
                 && 0.0 <= crop.top < crop.bottom <= Float(BufferHeight(b) as real)
                 && frame.left < frame.right && frame.top < frame.bottom
  {
    if IsHisiHandle(b) { ConversionKeepsLayout(HandleWord(b, 20)); }
  }

  // A crop in whole pixels is the source rectangle.
  lemma WholeCropIsItself(left: nat, top: nat, right: nat, bottom: nat)
    requires left < right && right as real < TWO_TO_24 && top < bottom && bottom as real < TWO_TO_24
    ensures SourceRect(Crop(left as real, top as real, right as real, bottom as real))
            == DssRect(left, top, right - left, bottom - top)
  {
    WholeAxis(left, right);
    WholeAxis(top, bottom);
  }

  lemma WholeAxis(low: nat, high: nat)
    requires low < high && high as real < TWO_TO_24
    ensures RoundNonNegative(low as real) == low
    ensures RoundNonNegative(Float(high as real - low as real)) == high - low
  {
    assert (high - low) as real == high as real - low as real;
    FloatOfWhole(high - low);
    RoundedWhole(low);
    RoundedWhole(high - low);
  }

  lemma RoundedWhole(n: nat)
    ensures RoundNonNegative(n as real) == n
  {
  }

  // Any other is off by at most half a pixel in position, and in extent by that and the rounding
  // of the difference to a float.
  lemma SourceIsNearCrop(crop: Crop)
    requires CropIsValid(crop) && 0.0 <= crop.left && 0.0 <= crop.top
    ensures NearAxis(SourceRect(crop).x, SourceRect(crop).w, crop.left, crop.right)
    ensures NearAxis(SourceRect(crop).y, SourceRect(crop).h, crop.top, crop.bottom)
  {
    AxisIsNear(crop.left, crop.right);
    AxisIsNear(crop.top, crop.bottom);
  }

  predicate NearAxis(position: int, extent: int, low: real, high: real)
    requires low < high
  {
    && -0.5 <= position as real - low <= 0.5
    && var slack := 0.5 + Ulp(high - low) / 2.0;
       -slack <= extent as real - (high - low) <= slack
  }

  lemma AxisIsNear(low: real, high: real)
    requires 0.0 <= low < high
    ensures NearAxis(RoundNonNegative(low), RoundNonNegative(Float(high - low)), low, high)
  {
    FloatIsNearest(high - low);
    RoundingIsNear(low);
    RoundingIsNear(Float(high - low));
  }

  lemma RoundingIsNear(x: real)
    requires 0.0 <= x
    ensures -0.5 <= RoundNonNegative(x) as real - x <= 0.5
  {
  }

  // ---- Where the source rectangle may leave the buffer ----

  function RoundedEnd(low: real, high: real): int
    requires 0.0 <= low < high
  {
    RoundNonNegative(low) + RoundNonNegative(Float(high - low))
  }

  // The extent comes within half a float spacing of one that is rounded up past what the rounded
  // start leaves of the buffer.
  predicate Overshoots(low: real, high: real, size: nat)
    requires 0.0 <= low < high
  {
    FloatReachesBound(high - low, 0.0);
    RoundsUpTo(high - low, (size - RoundNonNegative(low)) as real + 0.5, Ulp(high - low))
  }

  // Position and extent are rounded separately, the extent twice. On each axis the result leaves
  // the buffer exactly in that case.
  lemma AxisOvershoot(low: real, high: real, size: nat)
    requires 0.0 <= low < high
    ensures RoundedEnd(low, high) > size <==> Overshoots(low, high, size)
  {
    var rest := size - RoundNonNegative(low);
    FloatReachesBound(high - low, rest as real + 0.5);
    RoundedPast(Float(high - low), rest);
  }

  lemma RoundedPast(extent: real, size: int)
    requires 0.0 <= extent
    ensures RoundNonNegative(extent) > size <==> extent >= size as real + 0.5
  {
  }

  lemma RoundedStart(low: real)
    requires 0.0 <= low
    ensures RoundNonNegative(low) == if Fraction(low) >= 0.5 then low.Floor + 1 else low.Floor
  {
  }

  // If the extent is a float itself, nothing is lost: only a crop that reaches the far edge and
  // starts exactly between two pixels overshoots.
  lemma ExactExtentOvershoots(low: real, high: real, size: nat)
    requires 0.0 <= low < high <= size as real && Float(high - low) == high - low
    ensures Overshoots(low, high, size) <==> high == size as real && Fraction(low) == 0.5
  {
    AxisOvershoot(low, high, size);
    RoundedStart(low);
    RoundedPast(high - low, size - RoundNonNegative(low));
  }

  // As long as all whole numbers are floats, no crop that starts in the first half of a pixel
  // overshoots, whole pixels in particular.
  lemma FirstHalfFits(low: real, high: real, size: nat)
    requires 0.0 <= low < high <= size as real <= TWO_TO_24 && Fraction(low) < 0.5
    ensures !Overshoots(low, high, size)
  {
    AxisOvershoot(low, high, size);
    RoundedStart(low);
    FloatBelowWhole(high - low, size - low.Floor);
    RoundedPast(Float(high - low), size - low.Floor);
  }

  // On a wider buffer the size itself is rounded before the crop is compared with it, so a whole
  // one may overshoot.
  lemma WholePixelsMayOvershoot()
    ensures 16777220.0 <= Float(16777219.0) && Overshoots(0.0, 16777220.0, 16777219)
  {
    assert Float(8388609.5) == 8388610.0 && Float(8388610.0) == 8388610.0;
    AxisOvershoot(0.0, 16777220.0, 16777219);
    RoundedStart(0.0);
    RoundedPast(16777220.0, 16777219);
  }

  // ---- The same on buffers whose halves of pixels are floats ----

  const MAX_EXACT_SIZE := 0x80_0000

  // How much room the rounded crop leaves below the size at which its extent rounds up once more:
  // what the crop stays away from the far edge, and its start from the half pixel.
  function Room(low: real, high: real, size: nat): real {
    (size as real - high) + (Fraction(low) - 0.5)
  }

  // The start is rounded up, and the room is lost in rounding the extent to a float.
  predicate LosesRoom(low: real, high: real, size: nat)
    requires 0.0 <= low < high
  {
    var ulp := Ulp(high - low);
    Fraction(low) >= 0.5 && (Room(low, high, size) < ulp / 2.0
                             || (Room(low, high, size) == ulp / 2.0 && ulp < 0.5))
  }

  // There the crop overshoots exactly if it loses that room, and by one pixel.
  lemma OvershootsIffRoomLost(low: real, high: real, size: nat)
    requires 0.0 <= low < high <= size as real && size <= MAX_EXACT_SIZE
    ensures Overshoots(low, high, size) <==> LosesRoom(low, high, size)
    ensures RoundedEnd(low, high) <= size + 1
  {
    AxisOvershoot(low, high, size);
    RoundedStart(low);
    if Fraction(low) >= 0.5 {
      RoomLost(low, high, size);
    } else {
      FirstHalfFits(low, high, size);
    }
  }

  lemma RoomLost(low: real, high: real, size: nat)
    requires 0.0 <= low < high <= size as real && size <= MAX_EXACT_SIZE
    requires Fraction(low) >= 0.5
    ensures RoundedEnd(low, high) > size <==> LosesRoom(low, high, size)
    ensures RoundedEnd(low, high) <= size + 1
  {
    var rest := size - low.Floor - 1;
    RoundedStart(low);
    FloatReachesHalf(high - low, rest);
    RoundedPast(Float(high - low), rest);
    RoundedPast(Float(high - low), rest + 1);
    assert Room(low, high, size) == rest as real + 0.5 - (high - low);
  }

  // ---- Whole layers ----

  predicate Inside(r: DssRect, width: int, height: int) {
    r.x + r.w <= width && r.y + r.h <= height
  }

  predicate SourceInsideBuffer(l: DssLayer) {
    Inside(l.srcRect, l.width, l.height)
  }

  lemma CropInsideIff(crop: Crop, width: nat, height: nat)
    requires CropIsValid(crop) && 0.0 <= crop.left && 0.0 <= crop.top
    ensures Inside(SourceRect(crop), width, height)
            <==> !Overshoots(crop.left, crop.right, width) && !Overshoots(crop.top, crop.bottom, height)
  {
    AxisOvershoot(crop.left, crop.right, width);
    AxisOvershoot(crop.top, crop.bottom, height);
    InsideByEnds(crop, width, height);
  }

  lemma InsideByEnds(crop: Crop, width: nat, height: nat)
    requires CropIsValid(crop) && 0.0 <= crop.left && 0.0 <= crop.top
    ensures Inside(SourceRect(crop), width, height)
            <==> RoundedEnd(crop.left, crop.right) <= width && RoundedEnd(crop.top, crop.bottom) <= height
  {
  }

  // A layer that fillDssLayer accepts reads inside its buffer except where an axis overshoots.
  lemma SourceInsideBufferIff(b: Buffer, crop: Crop, frame: Rect, blendMode: int, planeAlpha: real,
                              transform: int, layerIndex: int, channel: int, needCap: set<Capability>)
    ensures var layer := FillDssLayer(b, crop, frame, blendMode, planeAlpha, transform, layerIndex,
                                      channel, needCap);
            layer.Some? ==>
              && 0.0 <= crop.left < crop.right && 0.0 <= crop.top < crop.bottom
              && 0 < layer.value.width && 0 < layer.value.height
              && (SourceInsideBuffer(layer.value) <==>
                    && !Overshoots(crop.left, crop.right, layer.value.width)
                    && !Overshoots(crop.top, crop.bottom, layer.value.height))
  {
    var layer := FillDssLayer(b, crop, frame, blendMode, planeAlpha, transform, layerIndex,
                              channel, needCap);
    if layer.Some? { CropInsideIff(crop, BufferWidth(b), BufferHeight(b)); }
  }

  // A 64 x 64 buffer of the given HAL format.
  function Sample(halFormat: int): Buffer {
    Native([3], seq(48, i => if i == 0 then HISI_HANDLE_MAGIC else if i == 1 then halFormat
                             else if i == 18 || i == 19 then 64 else 0))
  }

  // Any crop of it from the left edge given and to the far edges is accepted.
  lemma SampleIsAccepted(halFormat: int, left: real)
    requires ConvertHisiFormat(halFormat).Some? && 0.0 <= left < 64.0
    ensures GetHisiFormat(Sample(halFormat)) == Some(ConvertHisiFormat(halFormat).value.0)
    ensures var l := FillDssLayer(Sample(halFormat), Crop(left, 0.0, 64.0, 64.0), Rect(0, 0, 64, 64),
                                  BLEND_MODE_NONE, 1.0, 0, 0, CHANNEL_0, {CapDma});
            l.Some? && l.value.format == ConvertHisiFormat(halFormat).value.0
            && l.value.width == l.value.height == 64
  {
    SampleIsHisi(halFormat);
    FloatOfWhole(64);
  }

  lemma SampleIsHisi(halFormat: int)
    ensures IsHisiHandle(Sample(halFormat)) && HandleWord(Sample(halFormat), 20) == halFormat
    ensures BufferWidth(Sample(halFormat)) == BufferHeight(Sample(halFormat)) == 64
  {
    var b := Sample(halFormat);
    assert b.fds + b.ints == [3] + b.ints;
  }

  lemma JustPastHalfOvershoots(left: real)
    requires 0.5 <= left <= 0.5 + 1.0 / 1048576.0
    ensures Overshoots(left, 64.0, 64)
  {
    assert left.Floor == 0;
    FloatIsNearest(64.0 - left);
    OvershootsIffRoomLost(left, 64.0, 64);
  }

  // Accepted crops that overshoot: from half a pixel up to 2^-20 beyond it, to the far edge. Only
  // the first of them starts exactly at the half pixel.
  lemma AcceptedCropsOvershoot(left: real)
    requires 0.5 <= left <= 0.5 + 1.0 / 1048576.0
    ensures var layer := FillDssLayer(Sample(YV12), Crop(left, 0.0, 64.0, 64.0), Rect(0, 0, 64, 64),
                                      BLEND_MODE_NONE, 1.0, 0, 0, CHANNEL_0, {CapDma});
            layer.Some? && !SourceInsideBuffer(layer.value)
  {
    SampleIsAccepted(YV12, left);
    JustPastHalfOvershoots(left);
    SourceInsideBufferIff(Sample(YV12), Crop(left, 0.0, 64.0, 64.0), Rect(0, 0, 64, 64),
                          BLEND_MODE_NONE, 1.0, 0, 0, CHANNEL_0, {CapDma});
  }

  lemma TargetIsFrame(frame: Rect, width: nat, height: nat)
    requires width < TWO_TO_32 && height < TWO_TO_32
    requires RectIsValid(frame) && FrameFitsDisplay(frame, width, height)
    ensures TargetRect(frame) ==
              DssRect(frame.left, frame.top, frame.right - frame.left, frame.bottom - frame.top)
  {
  }

  // On a display frame inside the display the destination is that frame, and the colour
  // conversion and scaler are asked for exactly when they are needed.
  lemma AcceptedLayer(b: Buffer, crop: Crop, frame: Rect, blendMode: int, planeAlpha: real,
                      transform: int, layerIndex: int, channel: int, width: nat, height: nat)
    requires width < TWO_TO_32 && height < TWO_TO_32 && FrameFitsDisplay(frame, width, height)
    ensures var layer := FillDssLayer(b, crop, frame, blendMode, planeAlpha, transform, layerIndex,
                                      channel, {CapDma});
            layer.Some? ==>
              var l := layer.value;
              && l.dstRect.x == frame.left && l.dstRect.y == frame.top
              && l.dstRect.x + l.dstRect.w == frame.right && l.dstRect.y + l.dstRect.h == frame.bottom
              && GetHisiFormat(b) == Some(l.format)
              && ConvertHisiFormat(HandleWord(b, 20)) == Some((l.format, l.bpp))
              && l.glbAlpha == ScaleAlpha(planeAlpha)
              && l.width == BufferWidth(b) && l.height == BufferHeight(b)
              && l.srcRect == SourceRect(crop)
              && l.layerIdx == layerIndex && l.chnIdx == channel
              && l.blending == MapHwcBlendMode(blendMode) && l.transform == MapHwcTransform(transform)
              && (CapCsc in l.needCap <==> IsYuvFormat(l.format))
              && (CapScl in l.needCap <==> (l.srcRect.w, l.srcRect.h) != (l.dstRect.w, l.dstRect.h))
              && CapDma in l.needCap && CapFbPost !in l.needCap
              && 0 <= l.glbAlpha <= 255
  {
    if RectIsValid(frame) { TargetIsFrame(frame, width, height); }
    AlphaIsByte(planeAlpha);
  }

  lemma AlphaIsByte(planeAlpha: real)
    ensures 0 <= ScaleAlpha(planeAlpha) <= 255
  {
    var alpha := if planeAlpha < 0.0 then 0.0 else if planeAlpha > 1.0 then 1.0 else planeAlpha;
    FloatBelowWhole(alpha * 255.0, 255);
  }
}
