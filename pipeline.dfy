/**
 * One run of calculateFlow (main.cpp): initialise the session, create and
 * fill the two input frames, create the output buffer, execute, download
 * the vectors, draw them, then release the buffers and the session. The
 * parameter records it builds, the output size it derives from the grid
 * size, and the frame buffer main allocates for the drawn image.
 */
module Pipeline {
  import opened NvOFInterface
  import opened NvOFErrors
  import opened GpuCopy
  import opened GpuBuffer
  import opened CudaBuffers
  import opened ColorWheel
  import opened FlowVisualize

  /** H_BUFF and W_BUFF: the frame size of every input. */
  const HBuff := 1080
  const WBuff := 1920

  // ---------------------------------------------------------------------------
  // Output size
  // ---------------------------------------------------------------------------

  /** The output grid's width and height for grid size g: whole blocks only. */
  function OutWidth(g: byte): uint32
    requires g > 0
  {
    WBuff / g
  }

  function OutHeight(g: byte): uint32
    requires g > 0
  {
    HBuff / g
  }

  /**
   * calculateOutputDimensions: the frame size in grid blocks, rounded down
   * (see OutputDimensionsFloor). Both fit the 16-bit sizes postProcessVectors
   * takes, so passing them there loses nothing.
   */
  method CalculateOutputDimensions(gridsize: byte) returns (outwidth: uint32, outheight: uint32)
    requires gridsize > 0
    ensures outwidth == OutWidth(gridsize) && outheight == OutHeight(gridsize)
    ensures outwidth < 0x1_0000 && outheight < 0x1_0000
  {
    outheight := HBuff / gridsize;
    outwidth := WBuff / gridsize;
    OutputDimensionsFloor(gridsize);
  }

  /**
   * The output grid has as many whole blocks as fit in the frame: one more
   * block would not fit. It is never larger than the frame itself.
   */
  lemma OutputDimensionsFloor(g: byte)
    requires g > 0
    ensures OutWidth(g) * g <= WBuff < (OutWidth(g) + 1) * g
    ensures OutHeight(g) * g <= HBuff < (OutHeight(g) + 1) * g
    ensures OutWidth(g) <= WBuff && OutHeight(g) <= HBuff
  {
    MulLeq(OutWidth(g), 1, g);
    MulLeq(OutHeight(g), 1, g);
  }

  /** For the grid sizes the interface offers, the frame divides into whole blocks; grid 4 gives 480 x 270. */
  lemma OutputDimensionsExact(g: int)
    requires IsOutGridSize(g)
    ensures (WBuff / g) * g == WBuff && (HBuff / g) * g == HBuff
    ensures g == 4 ==> WBuff / g == 480 && HBuff / g == 270
  {
  }

  /** The size main allocates for the drawn image: H_BUFF / gridsize * W_BUFF / gridsize * 3, left to right. */
  function VecframeSize(g: nat): int
    requires g > 0
  {
    (HBuff / g * WBuff) / g * 3
  }

  lemma DivAtLeast(x: nat, g: nat, q: nat)
    requires g > 0 && x >= g * q
    ensures x / g >= q
  {
    var d := q - x / g;
    assert g * d == g * q - g * (x / g);
    NonzeroMultiple(g, d);
  }

  /**
   * The image buffer holds the three bytes of every output pixel for any
   * grid size, exactly so for the grid sizes the interface offers.
   */
  lemma VecframeHoldsImage(g: nat)
    requires g > 0
    ensures VecframeSize(g) >= 3 * ((WBuff / g) * (HBuff / g))
    ensures IsOutGridSize(g) ==> VecframeSize(g) == 3 * ((WBuff / g) * (HBuff / g))
  {
    var a, w := HBuff / g, WBuff / g;
    assert a * WBuff == g * (a * w) + a * (WBuff % g) by {
      assert WBuff == g * w + WBuff % g;
    }
    DivAtLeast(a * WBuff, g, a * w);
  }

  // ---------------------------------------------------------------------------
  // Parameter records
  // ---------------------------------------------------------------------------

  /**
   * initializeOFParameters: optical flow on full frames of ABGR8, forward
   * only, slow perf level, every optional feature off, and the global grid
   * size cast to the output grid size.
   */
  function InitializeOFParameters(gridsize: int): (p: InitParams)
    ensures ValidInitParams(p) <==> IsOutGridSize(gridsize)
    ensures p.width == WBuff && p.height == HBuff && p.outGridSize == gridsize
  {
    InitParams(
      width := WBuff,
      height := HBuff,
      outGridSize := gridsize,
      hintGridSize := 0,
      mode := OpticalFlow,
      perfLevel := PerfLevelSlow,
      enableExternalHints := false,
      enableOutputCost := false,
      hasPrivData := false,
      disparityRange := 0,
      enableRoi := false,
      predDirection := Forward,
      enableGlobalFlow := false,
      inputBufferFormat := ABGR8)
  }

  /** The descriptor createAndUploadInputBuffer creates. */
  function InputDescriptor(): BufferDescriptor
  {
    BufferDescriptor(WBuff, HBuff, Input, ABGR8)
  }

  /** The descriptor createOutputBuffer creates. */
  function OutputDescriptor(outwidth: uint32, outheight: uint32): BufferDescriptor
  {
    BufferDescriptor(outwidth, outheight, Output, Short2)
  }

  /** Both buffers the run creates fit the session it initialises, whatever output grid size it uses. */
  lemma DescriptorsFitSession(g: int)
    requires IsOutGridSize(g)
    ensures DescriptorFits(InputDescriptor(), InitializeOFParameters(g))
    ensures DescriptorFits(OutputDescriptor(WBuff / g, HBuff / g), InitializeOFParameters(g))
  {
  }

  /** prepareExecutionInputParams: the two frames' handles, no hints, no ROIs, zero padding. */
  function PrepareExecutionInputParams(inputFrame: Option<BufferHandle>, referenceFrame: Option<BufferHandle>): ExecuteInputParams
  {
    ExecuteInputParams(
      inputFrame := inputFrame,
      referenceFrame := referenceFrame,
      externalHints := None,
      disableTemporalHints := false,
      padding := 0,
      hasPrivData := false,
      padding2 := 0,
      numRois := 0,
      hasRoiData := false)
  }

  /** prepareExecutionOutputParams: the output buffer's handle, every other output null. */
  function PrepareExecutionOutputParams(outputBuffer: Option<BufferHandle>): ExecuteOutputParams
  {
    ExecuteOutputParams(
      outputBuffer := outputBuffer,
      outputCostBuffer := None,
      hasPrivData := false,
      bwdOutputBuffer := None,
      bwdOutputCostBuffer := None,
      globalFlowBuffer := None)
  }

  /**
   * For the session initializeOFParameters sets up, the records the run
   * builds are valid exactly when all three buffer handles are non-null.
   */
  lemma ExecuteParamsValid(g: int, input: Option<BufferHandle>, reference: Option<BufferHandle>, output: Option<BufferHandle>)
    ensures ValidExecuteParams(PrepareExecutionInputParams(input, reference), PrepareExecutionOutputParams(output),
                               InitializeOFParameters(g))
        <==> input.Some? && reference.Some? && output.Some?
  {
  }

  // ---------------------------------------------------------------------------
  // Flow vectors in host memory
  // ---------------------------------------------------------------------------

  /** A 16-bit two's-complement integer from its bytes, low byte first. */
  function Int16Of(lo: byte, hi: byte): int16
  {
    var u := lo + 256 * hi;
    if u >= 0x8000 then u - 0x1_0000 else u
  }

  /** The bytes of a 16-bit integer, low byte first. */
  function Int16Bytes(v: int16): (byte, byte)
  {
    var u := if v < 0 then v + 0x1_0000 else v;
    (u % 256, u / 256)
  }

  /** Reading back the bytes of a value gives the value, and the bytes of a read value are the bytes read. */
  lemma Int16RoundTrip(v: int16, lo: byte, hi: byte)
    ensures Int16Of(Int16Bytes(v).0, Int16Bytes(v).1) == v
    ensures Int16Bytes(Int16Of(lo, hi)) == (lo, hi)
  {
  }

  /** Vector n of a host array of NV_OF_FLOW_VECTOR: four bytes, flowx then flowy. */
  function VectorAt(bytes: seq<byte>, n: nat): FlowVector
    requires 4 * n + 3 < |bytes|
  {
    FlowVector(Int16Of(bytes[4 * n], bytes[4 * n + 1]), Int16Of(bytes[4 * n + 2], bytes[4 * n + 3]))
  }

  /** The vectors of a host array, in order. */
  function Vectors(bytes: seq<byte>, count: nat): (vs: seq<FlowVector>)
    requires 4 * count <= |bytes|
    ensures |vs| == count
  {
    seq(count, n requires 0 <= n < count => VectorAt(bytes, n))
  }

  /** The vector the engine leaves at column x of row y of an output buffer whose rows are strideX bytes apart. */
  function EngineVector(engine: nat -> byte, strideX: nat, x: nat, y: nat): FlowVector
  {
    var base := y * strideX + 4 * x;
    FlowVector(Int16Of(engine(base), engine(base + 1)), Int16Of(engine(base + 2), engine(base + 3)))
  }

  /** The engine's outwidth x outheight vectors in row-major order. */
  function EngineVectors(engine: nat -> byte, strideX: nat, outwidth: nat, outheight: nat): (vs: seq<FlowVector>)
    ensures |vs| == outwidth * outheight
  {
    if outwidth == 0 then
      []
    else
      seq(outwidth * outheight, n requires 0 <= n < outwidth * outheight =>
        EngineVector(engine, strideX, n % outwidth, n / outwidth))
  }

  /** Row y and column x of index y * w + x. */
  lemma DivModOf(n: nat, w: nat, y: nat, x: nat)
    requires x < w && n == y * w + x
    ensures n / w == y && n % w == x
  {
    var d := n / w - y;
    assert w * d == w * (n / w) - w * y;
    NonzeroMultiple(w, d);
  }

  /** Byte k of the vector at column x of row y lands in the packed host array. */
  lemma DownloadedVectorByte(dev: seq<byte>, target: seq<byte>, outwidth: nat, outheight: nat, stride: StrideInfo,
                             y: nat, x: nat, k: nat)
    requires StrideHolds(Short2, 4 * outwidth, outheight, stride)
    requires |dev| >= stride.strideX * outheight && |target| >= 4 * outwidth * outheight
    requires y < outheight && x < outwidth && k < 4
    ensures 4 * (y * outwidth + x) + k < |target| && y * stride.strideX + 4 * x + k < |dev|
    ensures Downloaded(Short2, dev, target, 4 * outwidth, outheight, stride)[4 * (y * outwidth + x) + k]
         == dev[y * stride.strideX + 4 * x + k]
  {
    assert 4 * (y * outwidth + x) + k == y * (4 * outwidth) + (4 * x + k);
    PackedDownloadAt(Short2, dev, target, 4 * outwidth, outheight, stride, y, 4 * x + k);
  }

  /** The vector at column x of row y of the downloaded host array is the one the engine wrote there. */
  lemma DownloadedVectorAtCell(engine: nat -> byte, dev: seq<byte>, target: seq<byte>, outwidth: nat, outheight: nat,
                               stride: StrideInfo, y: nat, x: nat)
    requires StrideHolds(Short2, 4 * outwidth, outheight, stride)
    requires |dev| >= stride.strideX * outheight && |target| >= 4 * outwidth * outheight
    requires forall i :: 0 <= i < |dev| ==> dev[i] == engine(i)
    requires y < outheight && x < outwidth
    ensures 4 * (y * outwidth + x) + 3 < |target|
    ensures VectorAt(Downloaded(Short2, dev, target, 4 * outwidth, outheight, stride), y * outwidth + x)
         == EngineVector(engine, stride.strideX, x, y)
  {
    DownloadedVectorByte(dev, target, outwidth, outheight, stride, y, x, 0);
    DownloadedVectorByte(dev, target, outwidth, outheight, stride, y, x, 1);
    DownloadedVectorByte(dev, target, outwidth, outheight, stride, y, x, 2);
    DownloadedVectorByte(dev, target, outwidth, outheight, stride, y, x, 3);
  }

  /**
   * Vector n of the downloaded host array is the vector the engine wrote at
   * row n / outwidth, column n % outwidth of the output buffer.
   */
  lemma DownloadedVectorAt(engine: nat -> byte, dev: seq<byte>, target: seq<byte>, outwidth: nat, outheight: nat,
                           stride: StrideInfo, n: nat)
    requires StrideHolds(Short2, 4 * outwidth, outheight, stride)
    requires |dev| >= stride.strideX * outheight && |target| >= 4 * outwidth * outheight
    requires forall i :: 0 <= i < |dev| ==> dev[i] == engine(i)
    requires n < outwidth * outheight
    ensures 4 * n + 3 < |target|
    ensures VectorAt(Downloaded(Short2, dev, target, 4 * outwidth, outheight, stride), n)
         == EngineVectors(engine, stride.strideX, outwidth, outheight)[n]
  {
    var y, x := RowAndColumn(n, outwidth, outheight);
    DivModOf(n, outwidth, y, x);
    DownloadedVectorAtCell(engine, dev, target, outwidth, outheight, stride, y, x);
  }

  /** The vectors post-processing reads from the downloaded host array are the engine's, in row-major order. */
  lemma DownloadedVectors(engine: nat -> byte, dev: seq<byte>, target: seq<byte>, outwidth: nat, outheight: nat,
                          stride: StrideInfo)
    requires StrideHolds(Short2, 4 * outwidth, outheight, stride)
    requires |dev| >= stride.strideX * outheight && |target| >= 4 * outwidth * outheight
    requires forall i :: 0 <= i < |dev| ==> dev[i] == engine(i)
    ensures 4 * (outwidth * outheight) <= |target|
    ensures Vectors(Downloaded(Short2, dev, target, 4 * outwidth, outheight, stride), outwidth * outheight)
         == EngineVectors(engine, stride.strideX, outwidth, outheight)
  {
    var count := outwidth * outheight;
    assert 4 * count == 4 * outwidth * outheight;
    var vs := Vectors(Downloaded(Short2, dev, target, 4 * outwidth, outheight, stride), count);
    var es := EngineVectors(engine, stride.strideX, outwidth, outheight);
    assert forall n :: 0 <= n < count ==> vs[n] == es[n] by {
      forall n | 0 <= n < count
        ensures vs[n] == es[n]
      {
        DownloadedVectorAt(engine, dev, target, outwidth, outheight, stride, n);
      }
    }
  }

  // ---------------------------------------------------------------------------
  // The run
  // ---------------------------------------------------------------------------

  /** Everything the driver, the CUDA runtime and the engine answer during one run. */
  datatype FlowReplies = FlowReplies(
    initStatus: Status,
    inputCreate: CreateReply,
    inputCopy: int,
    referenceCreate: CreateReply,
    referenceCopy: int,
    outputCreate: CreateReply,
    engine: nat -> byte,
    downloadCopy: int,
    downloadSync: int,
    inputRelease: Status,
    referenceRelease: Status,
    outputRelease: Status,
    errName: int -> string)

  predicate Created(reply: CreateReply)
  {
    reply.createStatus == Success && reply.strideStatus == Success
  }

  /** The driver calls a buffer's successful creation makes. */
  function CreateLog(desc: BufferDescriptor, reply: CreateReply): seq<Call>
  {
    [CreateGpuBuffer(desc), GetDevicePtr(reply.handle), GetStrideInfo(reply.handle)]
  }

  /** The calls up to and including both uploads: the session is initialised and both frames are on the device. */
  function SetupLog(g: int, rs: FlowReplies, inputStream: Stream): seq<Call>
  {
    [InitSession(InitializeOFParameters(g))]
    + CreateLog(InputDescriptor(), rs.inputCreate)
    + [CopyAsync(UploadFirstCopy(4 * WBuff, HBuff, rs.inputCreate.stride.strideX), inputStream)]
    + CreateLog(InputDescriptor(), rs.referenceCreate)
    + [CopyAsync(UploadFirstCopy(4 * WBuff, HBuff, rs.referenceCreate.stride.strideX), inputStream)]
  }

  /** The calls from the output buffer's creation to the end of the download. */
  function RunLog(w: uint32, h: uint32, rs: FlowReplies, outputStream: Stream): seq<Call>
  {
    var h1, h2, h3 := rs.inputCreate.handle, rs.referenceCreate.handle, rs.outputCreate.handle;
    CreateLog(OutputDescriptor(w, h), rs.outputCreate)
    + [ExecuteSession(PrepareExecutionInputParams(Some(h1), Some(h2)), PrepareExecutionOutputParams(Some(h3)))]
    + [CopyAsync(DownloadFirstCopy(Short2, 4 * w, h, rs.outputCreate.stride.strideX), outputStream), Synchronize(outputStream)]
  }

  /** The clean-up calls: the three buffers, then the session. */
  function TeardownLog(rs: FlowReplies): seq<Call>
  {
    [ DestroyGpuBuffer(rs.inputCreate.handle), DestroyGpuBuffer(rs.referenceCreate.handle),
      DestroyGpuBuffer(rs.outputCreate.handle), DestroySession ]
  }

  /** The calls of a complete run, in order; the session is destroyed last, after all three buffers. */
  function FlowLog(g: byte, rs: FlowReplies, inputStream: Stream, outputStream: Stream): seq<Call>
    requires g > 0
  {
    SetupLog(g, rs, inputStream) + RunLog(OutWidth(g), OutHeight(g), rs, outputStream) + TeardownLog(rs)
  }

  /** Only the very last call of a complete run destroys the session. */
  lemma SessionDestroyedLast(g: byte, rs: FlowReplies, inputStream: Stream, outputStream: Stream)
    requires g > 0
    ensures var log := FlowLog(g, rs, inputStream, outputStream);
      && log[|log| - 1] == DestroySession
      && DestroySession !in log[..|log| - 1]
  {
    var log := FlowLog(g, rs, inputStream, outputStream);
    assert log[..|log| - 1] == SetupLog(g, rs, inputStream) + RunLog(OutWidth(g), OutHeight(g), rs, outputStream) + TeardownLog(rs)[..3];
  }

  /** `calls` extends `before` without destroying the session. */
  ghost predicate SessionKept(before: seq<Call>, calls: seq<Call>)
  {
    |before| <= |calls| && calls[..|before|] == before && DestroySession !in calls[|before|..]
  }

  lemma SessionKeptTrans(a: seq<Call>, b: seq<Call>, c: seq<Call>)
    requires SessionKept(a, b) && SessionKept(b, c)
    ensures SessionKept(a, c)
  {
    assert c[|a|..] == b[|a|..] + c[|b|..] by {
      assert c[..|b|] == b;
    }
  }

  /** Byte c of frame row r sits at byte c of device row r. */
  ghost predicate ByteLoaded(dev: seq<byte>, frame: seq<byte>, strideX: nat, r: nat, c: nat)
  {
    r * strideX + c < |dev| && r * (4 * WBuff) + c < |frame| && dev[r * strideX + c] == frame[r * (4 * WBuff) + c]
  }

  /** The whole frame sits in the device rows, one frame row per device row. */
  ghost predicate FrameLoaded(dev: seq<byte>, frame: seq<byte>, strideX: nat)
  {
    forall r: nat, c: nat :: r < HBuff && c < 4 * WBuff ==> ByteLoaded(dev, frame, strideX, r, c)
  }

  /**
   * createAndUploadInputBuffer: a full-size ABGR8 input buffer holding the
   * frame, one frame row per device row. A failure in either step throws,
   * and a buffer already created is not released.
   */
  method CreateAndUploadInputBuffer(api: Api, frame: array<byte>, reply: CreateReply, copyResult: int,
                                    errName: int -> string) returns (r: Result<CudaBuffer>)
    requires frame.Length >= 4 * WBuff * HBuff
    requires StrideHolds(ABGR8, 4 * WBuff, HBuff, reply.stride)
    modifies api
    ensures r.Ok? <==> Created(reply) && copyResult == CudaSuccess
    ensures r.Err? ==> SessionKept(old(api.calls), api.calls)
    ensures r.Ok? ==>
      var b := r.value;
      && fresh(b) && fresh(b.device) && b.Valid() && b.api == api && b.handle == Some(reply.handle)
      && b.width == WBuff && b.height == HBuff && b.usage == Input && b.format == ABGR8
      && b.stride == reply.stride && b.elementSize == Some(4)
      && api.calls == old(api.calls) + CreateLog(InputDescriptor(), reply)
                      + [CopyAsync(UploadFirstCopy(4 * WBuff, HBuff, reply.stride.strideX), api.inputStream)]
      && FrameLoaded(b.device[..], frame[..], reply.stride.strideX)
  {
    var created := CreateBuffer(api, InputDescriptor(), reply);
    if created.Err? {
      return created;
    }
    var b := created.value;
    var before := b.device[..];
    var o := b.UploadData(frame, copyResult, CudaSuccess, errName);
    if o.Fail? {
      return Err(o.error);
    }
    forall row: nat, c: nat | row < HBuff && c < 4 * WBuff
      ensures ByteLoaded(b.device[..], frame[..], reply.stride.strideX, row, c)
    {
      PackedUploadAt(ABGR8, frame[..], before, 4 * WBuff, HBuff, reply.stride, row, c);
    }
    r := Ok(b);
  }

  /** createOutputBuffer: a SHORT2 output buffer of outwidth x outheight vectors. */
  method CreateOutputBuffer(api: Api, outwidth: uint32, outheight: uint32, reply: CreateReply) returns (r: Result<CudaBuffer>)
    modifies api
    ensures r.Ok? <==> Created(reply)
    ensures r.Err? ==> SessionKept(old(api.calls), api.calls)
    ensures r.Ok? ==>
      var b := r.value;
      && fresh(b) && fresh(b.device) && b.Valid() && b.api == api && b.handle == Some(reply.handle)
      && b.width == outwidth && b.height == outheight && b.usage == Output && b.format == Short2
      && b.stride == reply.stride && b.elementSize == Some(4)
      && api.calls == old(api.calls) + CreateLog(OutputDescriptor(outwidth, outheight), reply)
  {
    r := CreateBuffer(api, OutputDescriptor(outwidth, outheight), reply);
  }

  /** nvOFExecute: the engine fills the output buffer with `engine`, byte by byte. Its status is not looked at. */
  method Execute(api: Api, inparams: ExecuteInputParams, outparams: ExecuteOutputParams, outbuffer: CudaBuffer,
                 engine: nat -> byte)
    modifies api, outbuffer.device
    ensures api.calls == old(api.calls) + [ExecuteSession(inparams, outparams)]
    ensures forall i :: 0 <= i < outbuffer.device.Length ==> outbuffer.device[i] == engine(i)
  {
    api.Issue(ExecuteSession(inparams, outparams));
    forall i | 0 <= i < outbuffer.device.Length {
      outbuffer.device[i] := engine(i);
    }
  }

  /** calls after `before` extended by calls that do not destroy the session. */
  lemma SessionKeptAppend(before: seq<Call>, calls: seq<Call>, more: seq<Call>)
    requires SessionKept(before, calls) && DestroySession !in more
    ensures SessionKept(before, calls + more)
  {
    assert (calls + more)[..|before|] == calls[..|before|];
    assert (calls + more)[|before|..] == calls[|before|..] + more;
  }

  /** `before` extended by calls that do not destroy the session keeps it. */
  lemma SessionKeptExtend(before: seq<Call>, more: seq<Call>)
    requires DestroySession !in more
    ensures SessionKept(before, before + more)
  {
    assert (before + more)[..|before|] == before;
    assert (before + more)[|before|..] == more;
  }

  const InitSite := Site("calculateFlow", "main.cpp", 244)

  /** The two input buffers of a run, created and loaded. */
  datatype Inputs = Inputs(input: CudaBuffer, reference: CudaBuffer)

  /**
   * The first part of calculateFlow: nvOFInit, then the input and the
   * reference frame each into a buffer of its own. A failure throws, leaving
   * the session open and whatever was created in place.
   */
  method OpenSession(api: Api, gridsize: byte, frame1: array<byte>, frame2: array<byte>, rs: FlowReplies)
    returns (r: Result<Inputs>)
    requires frame1.Length >= 4 * WBuff * HBuff && frame2.Length >= 4 * WBuff * HBuff
    requires StrideHolds(ABGR8, 4 * WBuff, HBuff, rs.inputCreate.stride)
    requires StrideHolds(ABGR8, 4 * WBuff, HBuff, rs.referenceCreate.stride)
    modifies api
    ensures r.Ok? <==>
      && rs.initStatus == Success
      && Created(rs.inputCreate) && rs.inputCopy == CudaSuccess
      && Created(rs.referenceCreate) && rs.referenceCopy == CudaSuccess
    ensures r.Err? ==> SessionKept(old(api.calls), api.calls)
    ensures r.Ok? ==>
      var a, b := r.value.input, r.value.reference;
      && fresh(a) && fresh(b) && a != b
      && a.api == api && b.api == api
      && a.handle == Some(rs.inputCreate.handle) && b.handle == Some(rs.referenceCreate.handle)
      && api.calls == old(api.calls) + SetupLog(gridsize, rs, api.inputStream)
      && FrameLoaded(a.device[..], frame1[..], rs.inputCreate.stride.strideX)
      && FrameLoaded(b.device[..], frame2[..], rs.referenceCreate.stride.strideX)
  {
    var initparams := InitializeOFParameters(gridsize);
    api.Issue(InitSession(initparams));
    var o := ApiCall(rs.initStatus, "nvOFInit", InitSite);
    if o.Fail? {
      SessionKeptExtend(old(api.calls), [InitSession(initparams)]);
      return Err(o.error);
    }
    ghost var log := api.calls;
    SessionKeptExtend(old(api.calls), [InitSession(initparams)]);

    var created := CreateAndUploadInputBuffer(api, frame1, rs.inputCreate, rs.inputCopy, rs.errName);
    if created.Err? {
      SessionKeptTrans(old(api.calls), log, api.calls);
      return Err(created.error);
    }
    var inbuffer := created.value;
    ghost var log2 := api.calls;
    SessionKeptExtend(log, api.calls[|log|..]);
    assert log2 == log + api.calls[|log|..];
    SessionKeptTrans(old(api.calls), log, log2);

    created := CreateAndUploadInputBuffer(api, frame2, rs.referenceCreate, rs.referenceCopy, rs.errName);
    if created.Err? {
      SessionKeptTrans(old(api.calls), log2, api.calls);
      return Err(created.error);
    }
    r := Ok(Inputs(inbuffer, created.value));
  }

  /**
   * The middle of calculateFlow: the output grid's size, the host array for
   * the vectors, the output buffer, nvOFExecute over the three handles and
   * the download. On success the host array holds the engine's vectors in
   * row-major order.
   */
  method RunEngine(api: Api, outwidth: uint32, outheight: uint32, inHandle: Option<BufferHandle>,
                   refHandle: Option<BufferHandle>, rs: FlowReplies)
    returns (r: Result<CudaBuffer>, flowdata: array<byte>)
    requires outwidth <= WBuff
    requires inHandle == Some(rs.inputCreate.handle) && refHandle == Some(rs.referenceCreate.handle)
    requires StrideHolds(Short2, 4 * outwidth, outheight, rs.outputCreate.stride)
    modifies api
    ensures r.Ok? <==> Created(rs.outputCreate) && rs.downloadCopy == CudaSuccess && rs.downloadSync == CudaSuccess
    ensures r.Err? ==> SessionKept(old(api.calls), api.calls)
    ensures r.Ok? ==>
      && fresh(r.value) && fresh(flowdata)
      && r.value.api == api && r.value.handle == Some(rs.outputCreate.handle)
      && api.calls == old(api.calls) + RunLog(outwidth, outheight, rs, api.outputStream)
      && 4 * (outwidth * outheight) <= flowdata.Length
      && Vectors(flowdata[..], outwidth * outheight) == EngineVectors(rs.engine, rs.outputCreate.stride.strideX, outwidth, outheight)
  {
    flowdata := new byte[4 * (outwidth * outheight * 2)];

    r := CreateOutputBuffer(api, outwidth, outheight, rs.outputCreate);
    if r.Err? {
      return;
    }
    var outbuffer := r.value;
    ghost var log := api.calls;
    SessionKeptExtend(old(api.calls), api.calls[|old(api.calls)|..]);
    assert log == old(api.calls) + api.calls[|old(api.calls)|..];

    var inparams := PrepareExecutionInputParams(inHandle, refHandle);
    var outparams := PrepareExecutionOutputParams(outbuffer.handle);
    Execute(api, inparams, outparams, outbuffer, rs.engine);
    SessionKeptAppend(old(api.calls), log, [ExecuteSession(inparams, outparams)]);
    log := api.calls;

    var o := DownloadFlow(api, outbuffer, flowdata, rs);
    if o.Fail? {
      SessionKeptTrans(old(api.calls), log, api.calls);
      return Err(o.error), flowdata;
    }
  }

  /**
   * outbuffer->DownloadData(flowdata) after the engine has run: the packed
   * rows of the output buffer land in the host array, which then holds the
   * engine's vectors in row-major order.
   */
  method DownloadFlow(api: Api, outbuffer: CudaBuffer, flowdata: array<byte>, rs: FlowReplies) returns (o: Outcome)
    requires outbuffer.api == api && outbuffer.Valid() && outbuffer.device != flowdata
    requires outbuffer.usage == Output && outbuffer.format == Short2 && outbuffer.elementSize == Some(4)
    requires outbuffer.width <= WBuff
    requires outbuffer.stride == rs.outputCreate.stride
    requires StrideHolds(Short2, 4 * outbuffer.width, outbuffer.height, outbuffer.stride)
    requires flowdata.Length == 4 * (outbuffer.width * outbuffer.height * 2)
    requires forall i :: 0 <= i < outbuffer.device.Length ==> outbuffer.device[i] == rs.engine(i)
    modifies api, flowdata
    ensures o.Pass? <==> rs.downloadCopy == CudaSuccess && rs.downloadSync == CudaSuccess
    ensures o.Fail? ==> SessionKept(old(api.calls), api.calls)
    ensures o.Pass? ==>
      var w, h := outbuffer.width, outbuffer.height;
      && api.calls == old(api.calls)
                      + [CopyAsync(DownloadFirstCopy(Short2, 4 * w, h, outbuffer.stride.strideX), api.outputStream),
                         Synchronize(api.outputStream)]
      && Vectors(flowdata[..], w * h) == EngineVectors(rs.engine, outbuffer.stride.strideX, w, h)
  {
    ghost var target := flowdata[..];
    OutputRowBytes(outbuffer, outbuffer.width, outbuffer.height, flowdata.Length);
    o := outbuffer.DownloadData(flowdata, rs.downloadCopy, CudaSuccess, rs.downloadSync, rs.errName);
    if o.Fail? {
      SessionKeptExtend(old(api.calls), api.calls[|old(api.calls)|..]);
      assert api.calls == old(api.calls) + api.calls[|old(api.calls)|..];
      return;
    }
    DownloadedVectors(rs.engine, outbuffer.device[..], target, outbuffer.width, outbuffer.height, outbuffer.stride);
  }

  /** The output buffer's packed row is four bytes per vector, and the host array holds them all. */
  lemma OutputRowBytes(b: CudaBuffer, w: nat, h: nat, len: nat)
    requires b.width == w && b.height == h && b.format == Short2 && b.elementSize == Some(4)
    requires w <= WBuff && len == 4 * (w * h * 2)
    ensures b.RowBytes() == 4 * w
    ensures b.RowBytes() * HostRows(b.format, b.height) <= len
  {
  }

  /**
   * The end of calculateFlow: the three buffers are deleted, then the
   * session is destroyed. A failing release throws out of the destructor
   * before anything else is released.
   */
  method CloseSession(api: Api, inbuffer: CudaBuffer, refbuffer: CudaBuffer, outbuffer: CudaBuffer, rs: FlowReplies)
    returns (o: Outcome)
    requires inbuffer != refbuffer && inbuffer != outbuffer && refbuffer != outbuffer
    requires inbuffer.api == api && refbuffer.api == api && outbuffer.api == api
    requires inbuffer.handle == Some(rs.inputCreate.handle)
    requires refbuffer.handle == Some(rs.referenceCreate.handle)
    requires outbuffer.handle == Some(rs.outputCreate.handle)
    modifies api, inbuffer, refbuffer, outbuffer
    ensures o.Pass? <==> rs.inputRelease == Success && rs.referenceRelease == Success && rs.outputRelease == Success
    ensures o.Pass? ==> api.calls == old(api.calls) + TeardownLog(rs)
    ensures o.Fail? ==> SessionKept(old(api.calls), api.calls)
  {
    o := inbuffer.Release(rs.inputRelease);
    if o.Fail? {
      SessionKeptExtend(old(api.calls), [DestroyGpuBuffer(rs.inputCreate.handle)]);
      return;
    }
    o := refbuffer.Release(rs.referenceRelease);
    if o.Fail? {
      SessionKeptExtend(old(api.calls), TeardownLog(rs)[..2]);
      return;
    }
    o := outbuffer.Release(rs.outputRelease);
    if o.Fail? {
      SessionKeptExtend(old(api.calls), TeardownLog(rs)[..3]);
      return;
    }
    api.Issue(DestroySession);
  }

  /**
   * calculateFlow. On success the driver sees exactly FlowLog, and the
   * image holds, for every output vector in row-major order, the colour of
   * that vector over the clamped largest radius. Any failure throws out of
   * the run at once: the session is not destroyed and nothing created so far
   * is released. The status of the execute call is not looked at.
   */
  method CalculateFlow(api: Api, gridsize: byte, frame1: array<byte>, frame2: array<byte>, vecframe: array<byte>,
                       rs: FlowReplies, radius: (real, real) -> real, color: (real, real) -> Pixel) returns (r: Outcome)
    requires gridsize > 0
    requires frame1.Length >= 4 * WBuff * HBuff && frame2.Length >= 4 * WBuff * HBuff
    requires vecframe.Length >= 3 * (OutWidth(gridsize) * OutHeight(gridsize))
    requires StrideHolds(ABGR8, 4 * WBuff, HBuff, rs.inputCreate.stride)
    requires StrideHolds(ABGR8, 4 * WBuff, HBuff, rs.referenceCreate.stride)
    requires StrideHolds(Short2, 4 * OutWidth(gridsize), OutHeight(gridsize), rs.outputCreate.stride)
    modifies api, vecframe
    ensures r.Pass? <==>
      && rs.initStatus == Success
      && Created(rs.inputCreate) && rs.inputCopy == CudaSuccess
      && Created(rs.referenceCreate) && rs.referenceCopy == CudaSuccess
      && Created(rs.outputCreate)
      && rs.downloadCopy == CudaSuccess && rs.downloadSync == CudaSuccess
      && rs.inputRelease == Success && rs.referenceRelease == Success && rs.outputRelease == Success
    ensures r.Pass? ==> api.calls == old(api.calls) + FlowLog(gridsize, rs, api.inputStream, api.outputStream)
    ensures r.Fail? ==> SessionKept(old(api.calls), api.calls)
    ensures r.Pass? ==>
      var w, h := OutWidth(gridsize), OutHeight(gridsize);
      Drawn(vecframe[..], EngineVectors(rs.engine, rs.outputCreate.stride.strideX, w, h), w * h, radius, color)
    ensures r.Pass? ==>
      forall i :: 3 * (OutWidth(gridsize) * OutHeight(gridsize)) <= i < vecframe.Length ==> vecframe[i] == old(vecframe[i])
  {
    var setup := OpenSession(api, gridsize, frame1, frame2, rs);
    if setup.Err? {
      return Fail(setup.error);
    }
    var inbuffer, refbuffer := setup.value.input, setup.value.reference;
    ghost var log := api.calls;
    SessionKeptExtend(old(api.calls), SetupLog(gridsize, rs, api.inputStream));

    var outwidth, outheight := CalculateOutputDimensions(gridsize);
    OutputDimensionsFloor(gridsize);
    assert outwidth <= WBuff;
    assert inbuffer.handle == Some(rs.inputCreate.handle);
    assert refbuffer.handle == Some(rs.referenceCreate.handle);
    assert StrideHolds(Short2, 4 * outwidth, outheight, rs.outputCreate.stride);
    var ran, flowdata := RunEngine(api, outwidth, outheight, inbuffer.handle, refbuffer.handle, rs);
    if ran.Err? {
      SessionKeptTrans(old(api.calls), log, api.calls);
      return Fail(ran.error);
    }
    var outbuffer := ran.value;
    ghost var log2 := api.calls;
    SessionKeptExtend(log, RunLog(outwidth, outheight, rs, api.outputStream));
    SessionKeptTrans(old(api.calls), log, log2);

    var vectors := Vectors(flowdata[..], outwidth * outheight);
    // postProcessVectors takes its sizes as uint16_t; the conversion keeps them.
    var width16: uint16, height16: uint16 := outwidth, outheight;
    var _ := PostProcessVectors(vectors, vecframe, width16, height16, radius, color);

    r := CloseSession(api, inbuffer, refbuffer, outbuffer, rs);
    if r.Fail? {
      SessionKeptTrans(old(api.calls), log2, api.calls);
    }
  }
}
