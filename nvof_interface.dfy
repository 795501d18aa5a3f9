/**
 * The constants, enumerations and documented parameter rules of the
 * optical-flow interface header (NvOFInterface/nvOpticalFlowCommon.h).
 *
 * The header holds no code: its enumerations become datatypes or integer
 * predicates, its structs become records, and the rules its comments state
 * become predicates that other parts of the model are checked against.
 */
module NvOFInterface {

  datatype Option<T> = None | Some(value: T)

  type byte = x: int | 0 <= x < 0x100
  type uint16 = x: int | 0 <= x < 0x1_0000
  type uint32 = x: int | 0 <= x < 0x1_0000_0000
  type int16 = x: int | -0x8000 <= x < 0x8000

  // ---------------------------------------------------------------------------
  // Status codes (NV_OF_STATUS)
  // ---------------------------------------------------------------------------

  /** The status codes, in declaration order. */
  datatype Status =
    | Success
    | ErrOfNotAvailable
    | ErrUnsupportedDevice
    | ErrDeviceDoesNotExist
    | ErrInvalidPtr
    | ErrInvalidParam
    | ErrInvalidCall
    | ErrInvalidVersion
    | ErrOutOfMemory
    | ErrNotInitialized
    | ErrUnsupportedFeature
    | ErrGeneric
  {
    /** The numeric value of the enumerator: its position in the declaration. */
    function Code(): (c: nat)
      ensures c <= 11
      ensures c == 0 <==> this == Success
    {
      match this
      case Success => 0
      case ErrOfNotAvailable => 1
      case ErrUnsupportedDevice => 2
      case ErrDeviceDoesNotExist => 3
      case ErrInvalidPtr => 4
      case ErrInvalidParam => 5
      case ErrInvalidCall => 6
      case ErrInvalidVersion => 7
      case ErrOutOfMemory => 8
      case ErrNotInitialized => 9
      case ErrUnsupportedFeature => 10
      case ErrGeneric => 11
    }
  }

  /** The enumerator with a given numeric value, if there is one. */
  function StatusOfCode(c: int): Option<Status>
  {
    if c == 0 then Some(Success)
    else if c == 1 then Some(ErrOfNotAvailable)
    else if c == 2 then Some(ErrUnsupportedDevice)
    else if c == 3 then Some(ErrDeviceDoesNotExist)
    else if c == 4 then Some(ErrInvalidPtr)
    else if c == 5 then Some(ErrInvalidParam)
    else if c == 6 then Some(ErrInvalidCall)
    else if c == 7 then Some(ErrInvalidVersion)
    else if c == 8 then Some(ErrOutOfMemory)
    else if c == 9 then Some(ErrNotInitialized)
    else if c == 10 then Some(ErrUnsupportedFeature)
    else if c == 11 then Some(ErrGeneric)
    else None
  }

  /** Codes and enumerators are in one-to-one correspondence over 0..11. */
  lemma StatusCodeRoundTrip(s: Status, c: int)
    ensures StatusOfCode(s.Code()) == Some(s)
    ensures StatusOfCode(c).Some? <==> 0 <= c <= 11
    ensures StatusOfCode(c).Some? ==> StatusOfCode(c).value.Code() == c
  {
  }

  // ---------------------------------------------------------------------------
  // Interface version (NV_OF_API_VERSION)
  // ---------------------------------------------------------------------------

  const ApiMajorVersion: bv16 := 5
  const ApiMinorVersion: bv16 := 0

  /** The major version shifted above the four bits that hold the minor one, cast to 16 bits. */
  function PackVersion(major: bv16, minor: bv16): bv16
  {
    (major << 4) | minor
  }

  /** The version the interface is compiled against. */
  const ApiVersion: bv16 := PackVersion(ApiMajorVersion, ApiMinorVersion)

  /** The parts of a 32-bit version as the driver reports it: minor in the four low bits, major above. */
  function VersionMajor(v: bv32): bv32 { v >> 4 }
  function VersionMinor(v: bv32): bv32 { v & 0xF }

  lemma ApiVersionValue()
    ensures ApiVersion == 80
  {
  }

  /** Unpacking a packed version gives back its parts when they fit their fields. */
  lemma VersionRoundTrip(major: bv16, minor: bv16)
    requires major < 0x1000 && minor < 0x10
    ensures VersionMajor(PackVersion(major, minor) as bv32) == major as bv32
    ensures VersionMinor(PackVersion(major, minor) as bv32) == minor as bv32
  {
  }

  // ---------------------------------------------------------------------------
  // Enumerations
  // ---------------------------------------------------------------------------

  /** The perf levels: slow (5), medium (10) and fast (20). */
  const PerfLevelSlow := 5
  const PerfLevelMedium := 10
  const PerfLevelFast := 20

  predicate IsPerfLevel(p: int)
  {
    p == PerfLevelSlow || p == PerfLevelMedium || p == PerfLevelFast
  }

  /** The output vector grid sizes: 1x1, 2x2 and 4x4 blocks. */
  predicate IsOutGridSize(g: int)
  {
    g == 1 || g == 2 || g == 4
  }

  /** The hint vector grid sizes: 1x1, 2x2, 4x4 and 8x8 blocks. */
  predicate IsHintGridSize(g: int)
  {
    g == 1 || g == 2 || g == 4 || g == 8
  }

  /** Every output grid size is a power of two no larger than 4, and a hint grid size. */
  lemma OutGridSizesAreHintGridSizes(g: int)
    ensures IsOutGridSize(g) <==> IsHintGridSize(g) && g < 8
  {
  }

  /** The stereo disparity ranges: undefined (0), 128 and 256. */
  predicate IsDisparityRange(d: int)
  {
    d == 0 || d == 128 || d == 256
  }

  datatype Mode = ModeUndefined | OpticalFlow | StereoDisparity

  /** Forward has the value 0 and Both the value 2. */
  datatype PredDirection = Forward | Both

  datatype BufferUsage = UsageUndefined | Input | Output | Hint | Cost | GlobalFlow

  datatype BufferFormat = FormatUndefined | Grayscale8 | NV12 | ABGR8 | Short | Short2 | UInt | UInt8

  /** The formats the header documents as input frame formats. */
  predicate IsInputFormat(f: BufferFormat)
  {
    f == Grayscale8 || f == NV12 || f == ABGR8
  }

  // ---------------------------------------------------------------------------
  // Session initialisation parameters (NV_OF_INIT_PARAMS)
  // ---------------------------------------------------------------------------

  /** The grid sizes and perf level keep their raw integer values, since callers may cast any integer into them. */
  datatype InitParams = InitParams(
    width: uint32,
    height: uint32,
    outGridSize: int,
    hintGridSize: int,
    mode: Mode,
    perfLevel: int,
    enableExternalHints: bool,
    enableOutputCost: bool,
    hasPrivData: bool,
    disparityRange: int,
    enableRoi: bool,
    predDirection: PredDirection,
    enableGlobalFlow: bool,
    inputBufferFormat: BufferFormat)

  /** Both directions are allowed only for optical flow; stereo disparity allows forward only. */
  predicate DirectionAllowed(mode: Mode, dir: PredDirection)
  {
    dir == Forward || (dir == Both && mode == OpticalFlow)
  }

  /** The hint grid is considered only with external hints, and is then no finer than the output grid. */
  predicate HintGridAllowed(p: InitParams)
  {
    p.enableExternalHints ==> IsHintGridSize(p.hintGridSize) && p.hintGridSize >= p.outGridSize
  }

  /** The rules the header's comments state for a session's parameters. */
  predicate ValidInitParams(p: InitParams)
  {
    && IsOutGridSize(p.outGridSize)
    && HintGridAllowed(p)
    && (p.mode == OpticalFlow || p.mode == StereoDisparity)
    && IsPerfLevel(p.perfLevel)
    && !p.hasPrivData
    && IsDisparityRange(p.disparityRange)
    && DirectionAllowed(p.mode, p.predDirection)
    && (p.enableGlobalFlow ==> p.mode == OpticalFlow)
    && IsInputFormat(p.inputBufferFormat)
  }

  /**
   * A valid session may turn external hints on with the hint grid equal to
   * its output grid: every output grid size is a hint grid size, and no
   * finer than itself.
   */
  lemma HintsOnOutputGrid(p: InitParams)
    requires ValidInitParams(p)
    ensures ValidInitParams(p.(enableExternalHints := true, hintGridSize := p.outGridSize))
  {
    OutGridSizesAreHintGridSizes(p.outGridSize);
  }

  /** Stereo disparity rejects backward prediction, whatever else the parameters say. */
  lemma StereoIsForwardOnly(p: InitParams)
    requires ValidInitParams(p) && p.mode == StereoDisparity
    ensures p.predDirection == Forward && !p.enableGlobalFlow
  {
  }

  // ---------------------------------------------------------------------------
  // Buffer descriptors (NV_OF_BUFFER_DESCRIPTOR)
  // ---------------------------------------------------------------------------

  datatype BufferDescriptor = BufferDescriptor(width: uint32, height: uint32, usage: BufferUsage, format: BufferFormat)

  /**
   * `n` counts `pixels` in blocks of `grid`. The header does not say how a
   * partial block is rounded, so either rounding is accepted.
   */
  predicate InGridUnits(n: int, pixels: int, grid: int)
    requires grid > 0
  {
    pixels / grid <= n <= (pixels + grid - 1) / grid
  }

  /** The format the output and hint buffers hold in a mode. */
  function VectorFormat(mode: Mode): BufferFormat
  {
    if mode == StereoDisparity then Short else Short2
  }

  /**
   * A descriptor fits a session: input frames have the session's size and
   * format; output buffers are sized in output grid units and hint buffers
   * in hint grid units. A descriptor without a usage fits nothing.
   */
  predicate DescriptorFits(d: BufferDescriptor, p: InitParams)
    requires ValidInitParams(p)
  {
    match d.usage
    case Input =>
      d.width == p.width && d.height == p.height && d.format == p.inputBufferFormat
    case Output =>
      && InGridUnits(d.width, p.width, p.outGridSize)
      && InGridUnits(d.height, p.height, p.outGridSize)
      && d.format == VectorFormat(p.mode)
    case Hint =>
      && p.enableExternalHints
      && InGridUnits(d.width, p.width, p.hintGridSize)
      && InGridUnits(d.height, p.height, p.hintGridSize)
      && d.format == VectorFormat(p.mode)
    case UsageUndefined => false
    case _ => true
  }

  // ---------------------------------------------------------------------------
  // Regions of interest (NV_OF_ROI_RECT)
  // ---------------------------------------------------------------------------

  datatype RoiRect = RoiRect(startX: uint32, startY: uint32, width: uint32, height: uint32)

  function Max(a: int, b: int): int { if a < b then b else a }

  /** The six alignment, size and containment rules for a region of interest. */
  predicate ValidRoi(r: RoiRect, outGridSize: int, imageWidth: int, imageHeight: int)
  {
    && IsOutGridSize(outGridSize)
    && r.startX % (32 * outGridSize) == 0
    && r.width % (32 * outGridSize) == 0
    && r.startY % (8 * Max(outGridSize, 2)) == 0
    && r.height % (8 * outGridSize) == 0
    && 32 <= r.width <= 8192
    && 16 <= r.height <= 8192
    && r.startX + r.width <= imageWidth
    && r.startY + r.height <= imageHeight
  }

  /** Dividing an exact multiple by its factor m leaves the cofactor and no remainder. */
  lemma ExactDivision(x: int, m: int, q: int)
    requires m > 0 && x == m * q
    ensures x % m == 0 && x / m == q
  {
    var d := x / m - q;
    assert m * (x / m) == m * q + m * d;
    assert m * d == -(x % m);
    NonzeroMultiple(m, d);
  }

  /** A nonzero multiple of a positive m is at least m away from zero. */
  lemma NonzeroMultiple(m: int, d: int)
    requires m > 0
    ensures d >= 1 ==> m * d >= m
    ensures d <= -1 ==> m * d <= -m
  {
    if d >= 1 {
      assert m * d == m * (d - 1) + m;
      assert m * (d - 1) >= 0;
    } else if d <= -1 {
      assert m * d == m * (d + 1) - m;
      assert m * (d + 1) <= 0;
    }
  }

  /** A positive multiple of k * g is at least k * g, and divided by g it is a multiple of k, at least k. */
  lemma ScaledMultiple(x: int, k: int, g: int)
    requires g > 0 && k > 0 && x > 0 && x % (k * g) == 0
    ensures x >= k * g && x % g == 0 && x / g >= k
  {
    var m := k * g;
    NonzeroMultiple(g, k);
    var q := x / m;
    assert x == m * q;
    NonzeroMultiple(m, q);
    assert q >= 1;
    assert x == g * (k * q);
    ExactDivision(x, g, k * q);
    NonzeroMultiple(k, q);
  }

  /**
   * A valid region spans at least one block row of output vectors in each
   * direction: at least 32 output vectors across and 8 down.
   */
  lemma RoiSpansWholeBlocks(r: RoiRect, g: int, imageWidth: int, imageHeight: int)
    requires ValidRoi(r, g, imageWidth, imageHeight)
    ensures r.width >= 32 * g && r.width % g == 0 && r.width / g >= 32
    ensures r.height >= 8 * g && r.height % g == 0 && r.height / g >= 8
    ensures imageWidth >= 32 * g && imageHeight >= Max(16, 8 * g)
  {
    ScaledMultiple(r.width, 32, g);
    ScaledMultiple(r.height, 8, g);
  }

  // ---------------------------------------------------------------------------
  // Per-frame execution parameters (NV_OF_EXECUTE_INPUT_PARAMS, NV_OF_EXECUTE_OUTPUT_PARAMS)
  // ---------------------------------------------------------------------------

  /** A GPU buffer handle; a null handle is None. */
  type BufferHandle = nat

  /** The private-data handle and the ROI array are pointers; only whether they are null matters here. */
  datatype ExecuteInputParams = ExecuteInputParams(
    inputFrame: Option<BufferHandle>,
    referenceFrame: Option<BufferHandle>,
    externalHints: Option<BufferHandle>,
    disableTemporalHints: bool,
    padding: uint32,
    hasPrivData: bool,
    padding2: uint32,
    numRois: uint32,
    hasRoiData: bool)

  datatype ExecuteOutputParams = ExecuteOutputParams(
    outputBuffer: Option<BufferHandle>,
    outputCostBuffer: Option<BufferHandle>,
    hasPrivData: bool,
    bwdOutputBuffer: Option<BufferHandle>,
    bwdOutputCostBuffer: Option<BufferHandle>,
    globalFlowBuffer: Option<BufferHandle>)

  /**
   * The rules the header's comments state for one execution of a session
   * set up with `p`: both frames are given, padding is zero, the reserved
   * private data is null, hints and ROIs come only with the features
   * enabled, and every output the session's flags ask for has a buffer.
   */
  predicate ValidExecuteParams(i: ExecuteInputParams, o: ExecuteOutputParams, p: InitParams)
  {
    && i.inputFrame.Some? && i.referenceFrame.Some?
    && (i.externalHints.Some? ==> p.enableExternalHints)
    && i.padding == 0 && i.padding2 == 0
    && !i.hasPrivData && !o.hasPrivData
    && (i.numRois > 0 ==> p.enableRoi && i.hasRoiData)
    && o.outputBuffer.Some?
    && (p.enableOutputCost ==> o.outputCostBuffer.Some?)
    && (p.predDirection == Both ==> o.bwdOutputBuffer.Some?)
    && (p.predDirection == Both && p.enableOutputCost ==> o.bwdOutputCostBuffer.Some?)
    && (p.enableGlobalFlow ==> o.globalFlowBuffer.Some?)
  }

  // ---------------------------------------------------------------------------
  // Fixed-point vector formats
  // ---------------------------------------------------------------------------

  /** NV_OF_FLOW_VECTOR: two S10.5 components. */
  datatype FlowVector = FlowVector(flowx: int16, flowy: int16)

  /** An S10.5 value: five fractional bits, so the raw integer over 32. */
  function FlowComponent(raw: int16): real
  {
    raw as real / 32.0
  }

  /** The raw S10.5 integer for a value on the 1/32 grid. */
  function EncodeFlowComponent(v: real): int
  {
    (v * 32.0).Floor
  }

  /**
   * Decoding is exact and invertible, and the value lies in the S10.5 range:
   * a sign, ten integer bits, five fraction bits.
   */
  lemma FlowComponentRoundTrip(raw: int16)
    ensures EncodeFlowComponent(FlowComponent(raw)) == raw
    ensures -1024.0 <= FlowComponent(raw) < 1024.0
    ensures -1024 <= raw / 32 < 1024 && raw == 32 * (raw / 32) + raw % 32
  {
  }

  /** NV_OF_STEREO_DISPARITY: one unsigned 11.5 value. */
  function DisparityValue(raw: uint16): real
  {
    raw as real / 32.0
  }

  lemma DisparityRange(raw: uint16)
    ensures 0.0 <= DisparityValue(raw) < 2048.0
    ensures (DisparityValue(raw) * 32.0).Floor == raw
  {
  }
}
