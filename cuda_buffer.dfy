/**
 * The session object (API) and the GPU buffers created through it
 * (NvOFCudaBuffer). Every driver call either makes is appended to the
 * session's call log; what the driver answers (a status, a CUDA result, a
 * handle, the strides) is passed in as a parameter.
 */
module CudaBuffers {
  import opened NvOFInterface
  import opened NvOFErrors
  import opened GpuCopy
  import opened GpuBuffer

  /** A CUDA stream. */
  type Stream = nat

  /** The driver calls made through one session, in the order they are issued. */
  datatype Call =
    | InitSession(params: InitParams)
    | CreateGpuBuffer(desc: BufferDescriptor)
    | GetDevicePtr(handle: BufferHandle)
    | GetStrideInfo(handle: BufferHandle)
    | DestroyGpuBuffer(handle: BufferHandle)
    | CopyAsync(cp: Memcpy2D, stream: Stream)
    | Synchronize(stream: Stream)
    | ExecuteSession(inParams: ExecuteInputParams, outParams: ExecuteOutputParams)
    | DestroySession

  /** The session: the two streams it was given and the driver calls made through it so far. */
  class Api {
    const inputStream: Stream
    const outputStream: Stream
    var calls: seq<Call>

    /** The streams are kept as given; loading the driver library and opening the session are not modelled. */
    constructor (input: Stream, output: Stream)
      ensures inputStream == input && outputStream == output && calls == []
    {
      inputStream := input;
      outputStream := output;
      calls := [];
    }

    /** getCudaStream: input buffers use the input stream, every other usage the output stream. */
    function CudaStream(usage: BufferUsage): (s: Stream)
      ensures usage == Input ==> s == inputStream
      ensures usage != Input ==> s == outputStream
    {
      if usage == Input then inputStream else outputStream
    }

    /** A driver call whose effect is only that it was made. */
    method Issue(c: Call)
      modifies this
      ensures calls == old(calls) + [c]
    {
      calls := calls + [c];
    }

    /**
     * cuMemcpy2DAsync with the driver's result: an accepted copy is taken to
     * be complete at once, a refused one changes nothing.
     */
    method Memcpy2DAsync(cp: Memcpy2D, src: array<byte>, dst: array<byte>, stream: Stream, result: int)
      requires src != dst && Fits(cp, src.Length, dst.Length)
      modifies this, dst
      ensures calls == old(calls) + [CopyAsync(cp, stream)]
      ensures dst[..] == if result == CudaSuccess then Copy2D(src[..], old(dst[..]), cp) else old(dst[..])
    {
      calls := calls + [CopyAsync(cp, stream)];
      if result == CudaSuccess {
        Memcpy2DBytes(cp, src, dst);
      }
    }
  }

  /** The driver's replies to the calls the buffer constructor makes: create, then the stride query. */
  datatype CreateReply = CreateReply(createStatus: Status, handle: BufferHandle, strideStatus: Status, stride: StrideInfo)

  const CreateCallText := "nvOFCreateGPUBufferCuda"
  const StrideCallText := "nvOFGPUBufferGetStrideInfo"
  const DestroyCallText := "nvOFDestroyGPUBufferCuda"

  const CreateSite := Site("NvOFCudaBuffer", "flowvec.h", 117)
  const StrideSite := Site("NvOFCudaBuffer", "flowvec.h", 122)
  const DestroySite := Site("~NvOFCudaBuffer", "flowvec.h", 142)
  const UploadLumaSite := Site("UploadData", "flowvec.cpp", 61)
  const UploadChromaSite := Site("UploadData", "flowvec.cpp", 68)
  const DownloadLumaSite := Site("DownloadData", "flowvec.cpp", 84)
  const DownloadChromaSite := Site("DownloadData", "flowvec.cpp", 90)
  const DownloadSyncSite := Site("DownloadData", "flowvec.cpp", 92)

  /** One GPU buffer: the descriptor's fields, the element size, the driver handle, the strides and the device memory. */
  class CudaBuffer {
    const api: Api
    const width: uint32
    const height: uint32
    const usage: BufferUsage
    const format: BufferFormat
    /** m_elementSize; None where the constructor leaves it unassigned. */
    const elementSize: Option<nat>
    const stride: StrideInfo
    /** The device memory behind m_devicePtr: DeviceRows rows of strideX bytes. */
    const device: array<byte>
    /** m_hGPUBuffer; None is the null handle. */
    var handle: Option<BufferHandle>

    ghost predicate Valid()
    {
      device.Length == stride.strideX * DeviceRows(format, height, stride)
    }

    /** WidthInBytes: width times element size, a product of two 32-bit unsigned values that wraps. */
    function RowBytes(): (n: nat)
      requires elementSize.Some?
      ensures n < 0x1_0000_0000
      ensures width * elementSize.value < 0x1_0000_0000 ==> n == width * elementSize.value
    {
      (width * elementSize.value) % 0x1_0000_0000
    }

    /**
     * The constructor once both driver calls have succeeded: the
     * descriptor's fields are stored as given and the element size is
     * chosen by format.
     */
    constructor (api: Api, desc: BufferDescriptor, h: BufferHandle, stride: StrideInfo)
      ensures this.api == api && width == desc.width && height == desc.height
      ensures usage == desc.usage && format == desc.format && this.stride == stride
      ensures handle == Some(h) && elementSize == ElementSize(desc.format)
      ensures Valid() && fresh(device)
    {
      this.api := api;
      width := desc.width;
      height := desc.height;
      usage := desc.usage;
      format := desc.format;
      handle := Some(h);
      this.stride := stride;
      device := new byte[stride.strideX * DeviceRows(desc.format, desc.height, stride)];
      if desc.format == ABGR8 {
        elementSize := Some(4);
      } else if desc.format == Short2 {
        elementSize := Some(4);
      } else if desc.format == NV12 {
        elementSize := Some(1);
      } else {
        elementSize := None;
      }
    }

    /**
     * The destructor: a non-null handle is destroyed and then nulled; a null
     * handle makes no call, so a second release does nothing. A failing
     * destroy throws before the handle is nulled.
     */
    method Release(status: Status) returns (o: Outcome)
      modifies this, api
      ensures old(handle).None? ==> o == Pass && handle == None && api.calls == old(api.calls)
      ensures old(handle).Some? ==>
        && api.calls == old(api.calls) + [DestroyGpuBuffer(old(handle).value)]
        && o == ApiCall(status, DestroyCallText, DestroySite)
        && handle == (if status == Success then None else old(handle))
    {
      o := Pass;
      if handle.Some? {
        api.Issue(DestroyGpuBuffer(handle.value));
        o := ApiCall(status, DestroyCallText, DestroySite);
        if o.Fail? {
          return;
        }
        handle := None;
      }
    }

    /**
     * UploadData: the packed host image goes into the device rows on the
     * buffer's stream; NV12 issues a second copy for the chroma plane of
     * (h + 1) / 2 rows, the sum taken modulo 2^32, with the record's Height
     * updated before the source offset is computed from it. A refused copy
     * throws and ends the upload. Upload never synchronises.
     */
    method UploadData(data: array<byte>, result1: int, result2: int, errName: int -> string) returns (o: Outcome)
      requires Valid() && elementSize.Some?
      requires StrideHolds(format, RowBytes(), height, stride)
      requires data != device && data.Length >= RowBytes() * HostRows(format, height)
      modifies api, device
      ensures o.Pass? <==> result1 == CudaSuccess && (format == NV12 ==> result2 == CudaSuccess)
      ensures
        var s := api.CudaStream(usage);
        var first := UploadFirstCopy(RowBytes(), height, stride.strideX);
        var second := UploadSecondCopy(first, height, stride.strideY);
        && (result1 != CudaSuccess ==>
              && o == CudaCall(result1, errName(result1), UploadLumaSite)
              && api.calls == old(api.calls) + [CopyAsync(first, s)]
              && device[..] == old(device[..]))
        && (result1 == CudaSuccess && format != NV12 ==>
              && api.calls == old(api.calls) + [CopyAsync(first, s)]
              && device[..] == Uploaded(format, data[..], old(device[..]), RowBytes(), height, stride))
        && (result1 == CudaSuccess && format == NV12 ==>
              && o == CudaCall(result2, errName(result2), UploadChromaSite)
              && api.calls == old(api.calls) + [CopyAsync(first, s), CopyAsync(second, s)]
              && device[..] == if result2 == CudaSuccess
                               then Uploaded(format, data[..], old(device[..]), RowBytes(), height, stride)
                               else Copy2D(data[..], old(device[..]), first))
    {
      var stream := api.CudaStream(usage);
      var cuCopy2d := Cleared;
      cuCopy2d := cuCopy2d.(widthInBytes := RowBytes());
      cuCopy2d := cuCopy2d.(srcMemoryType := Host, srcOffset := 0, srcPitch := cuCopy2d.widthInBytes);
      cuCopy2d := cuCopy2d.(dstMemoryType := Device, dstOffset := 0, dstPitch := stride.strideX);
      cuCopy2d := cuCopy2d.(height := height);
      UploadFits(format, RowBytes(), height, stride, data.Length, device.Length);
      api.Memcpy2DAsync(cuCopy2d, data, device, stream, result1);
      o := CudaCall(result1, errName(result1), UploadLumaSite);
      if o.Fail? {
        return;
      }
      if format == NV12 {
        // getHeight() + 1 is computed in 32-bit unsigned arithmetic
        cuCopy2d := cuCopy2d.(height := (height + 1) % 0x1_0000_0000 / 2);
        assert cuCopy2d.height == ChromaCopyHeight(height) by {
          WrappedHeights(height);
        }
        cuCopy2d := cuCopy2d.(srcOffset := cuCopy2d.srcPitch * cuCopy2d.height);
        cuCopy2d := cuCopy2d.(dstY := stride.strideY);
        api.Memcpy2DAsync(cuCopy2d, data, device, stream, result2);
        o := CudaCall(result2, errName(result2), UploadChromaSite);
      }
    }

    /**
     * DownloadData: the device rows go back into a packed host image, h + h / 2
     * rows (modulo 2^32) in the first copy for NV12; NV12 then copies the chroma plane
     * with the host offset computed from the updated Height; finally the
     * stream is synchronised. A refused call throws and ends the download.
     */
    method DownloadData(data: array<byte>, result1: int, result2: int, syncResult: int, errName: int -> string)
      returns (o: Outcome)
      requires Valid() && elementSize.Some?
      requires StrideHolds(format, RowBytes(), height, stride)
      requires data != device && data.Length >= RowBytes() * HostRows(format, height)
      modifies api, data
      ensures o.Pass? <==>
        result1 == CudaSuccess && (format == NV12 ==> result2 == CudaSuccess) && syncResult == CudaSuccess
      ensures
        var s := api.CudaStream(usage);
        var first := DownloadFirstCopy(format, RowBytes(), height, stride.strideX);
        var second := DownloadSecondCopy(first, height, stride.strideY);
        var copies := if format == NV12 then [CopyAsync(first, s), CopyAsync(second, s)] else [CopyAsync(first, s)];
        && (result1 != CudaSuccess ==>
              && o == CudaCall(result1, errName(result1), DownloadLumaSite)
              && api.calls == old(api.calls) + [CopyAsync(first, s)]
              && data[..] == old(data[..]))
        && (result1 == CudaSuccess && format == NV12 && result2 != CudaSuccess ==>
              && o == CudaCall(result2, errName(result2), DownloadChromaSite)
              && api.calls == old(api.calls) + copies
              && data[..] == Copy2D(device[..], old(data[..]), first))
        && (result1 == CudaSuccess && (format == NV12 ==> result2 == CudaSuccess) ==>
              && o == CudaCall(syncResult, errName(syncResult), DownloadSyncSite)
              && api.calls == old(api.calls) + copies + [Synchronize(s)]
              && data[..] == Downloaded(format, device[..], old(data[..]), RowBytes(), height, stride))
    {
      var stream := api.CudaStream(usage);
      var cuCopy2d := Cleared;
      cuCopy2d := cuCopy2d.(widthInBytes := RowBytes());
      cuCopy2d := cuCopy2d.(dstMemoryType := Host, dstOffset := 0, dstPitch := cuCopy2d.widthInBytes);
      cuCopy2d := cuCopy2d.(srcMemoryType := Device, srcOffset := 0, srcPitch := stride.strideX);
      // the NV12 row count is a 32-bit unsigned sum, as RowBytes is
      cuCopy2d := cuCopy2d.(height := if format == NV12 then (height + height / 2) % 0x1_0000_0000 else height);
      assert format == NV12 ==> cuCopy2d.height == Nv12DownloadHeight(height) by {
        WrappedHeights(height);
      }
      DownloadFits(format, RowBytes(), height, stride, device.Length, data.Length);
      api.Memcpy2DAsync(cuCopy2d, device, data, stream, result1);
      o := CudaCall(result1, errName(result1), DownloadLumaSite);
      if o.Fail? {
        return;
      }
      if format == NV12 {
        cuCopy2d := cuCopy2d.(height := (height + 1) % 0x1_0000_0000 / 2);
        assert cuCopy2d.height == ChromaCopyHeight(height) by {
          WrappedHeights(height);
        }
        cuCopy2d := cuCopy2d.(dstOffset := cuCopy2d.dstPitch * cuCopy2d.height);
        cuCopy2d := cuCopy2d.(srcY := stride.strideY);
        api.Memcpy2DAsync(cuCopy2d, device, data, stream, result2);
        o := CudaCall(result2, errName(result2), DownloadChromaSite);
        if o.Fail? {
          return;
        }
      }
      api.Issue(Synchronize(stream));
      o := CudaCall(syncResult, errName(syncResult), DownloadSyncSite);
    }
  }

  /**
   * NvOFCudaBuffer's constructor with its failure paths: the buffer is
   * created, its device pointer and strides are read, then the element size
   * is chosen. A failing status throws; when the stride query fails the
   * handle already created is never destroyed, since no destructor runs for
   * a constructor that throws.
   */
  method CreateBuffer(api: Api, desc: BufferDescriptor, reply: CreateReply) returns (r: Result<CudaBuffer>)
    modifies api
    ensures r.Ok? <==> reply.createStatus == Success && reply.strideStatus == Success
    ensures reply.createStatus != Success ==>
      && r == Err(ApiCall(reply.createStatus, CreateCallText, CreateSite).error)
      && api.calls == old(api.calls) + [CreateGpuBuffer(desc)]
    ensures reply.createStatus == Success ==>
      api.calls == old(api.calls) + [CreateGpuBuffer(desc), GetDevicePtr(reply.handle), GetStrideInfo(reply.handle)]
    ensures reply.createStatus == Success && reply.strideStatus != Success ==>
      r == Err(ApiCall(reply.strideStatus, StrideCallText, StrideSite).error)
    ensures r.Ok? ==>
      var b := r.value;
      && fresh(b) && fresh(b.device) && b.Valid() && b.api == api
      && b.width == desc.width && b.height == desc.height && b.usage == desc.usage && b.format == desc.format
      && b.handle == Some(reply.handle) && b.stride == reply.stride && b.elementSize == ElementSize(desc.format)
  {
    api.Issue(CreateGpuBuffer(desc));
    var o := ApiCall(reply.createStatus, CreateCallText, CreateSite);
    if o.Fail? {
      return Err(o.error);
    }
    api.Issue(GetDevicePtr(reply.handle));
    api.Issue(GetStrideInfo(reply.handle));
    o := ApiCall(reply.strideStatus, StrideCallText, StrideSite);
    if o.Fail? {
      return Err(o.error);
    }
    var b := new CudaBuffer(api, desc, reply.handle, reply.stride);
    r := Ok(b);
  }
}
