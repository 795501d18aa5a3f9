# Optical-flow sample: a verified model of its core

The sample runs NVIDIA's optical-flow engine on pairs of 1920 x 1080 ABGR8
frames and draws the resulting flow vectors as a colour image. This project
models its core in Dafny:

- **Interface rules** (`nvof_interface.dfy`, module `NvOFInterface`). This
  covers the constants, enums and records of the optical-flow interface
  header:
  - status codes and the packed API version;
  - the grid sizes, the formats and the init / descriptor / ROI / execute
    parameter records, with the validity rules the header documents;
  - the S10.5 fixed-point flow vector and the disparity format.
- **Error reporting** (`nvof_errors.dfy`, module `NvOFErrors`):
  - `NvOFException` and `makeNvOFException`, including the decimal line
    number in the message;
  - the `NVOF_API_CALL` and `CUDA_DRVAPI_CALL` checks, as functions from a
    driver status to a pass-or-throw outcome.
- **Strided copies** (`gpu_copy.dfy`, module `GpuCopy`). A `CUDA_MEMCPY2D`
  record, and the copy the driver performs for it, done row by row on
  arrays.
- **GPU buffers** (`gpu_buffer.dfy` and `cuda_buffer.dfy`, modules
  `GpuBuffer` and `CudaBuffers`):
  - the session object's stream choice;
  - `NvOFCudaBuffer` as a class: its constructor and failure paths, its
    destructor, and `UploadData` / `DownloadData` as strided copies between
    a packed host image and the pitched device rows;
  - the copy geometry as pure functions, with round-trip and
    padding-preservation lemmas.
- **Colour wheel and visualisation** (`color_wheel.dfy` and
  `flow_visualize.dfy`, modules `ColorWheel` and `FlowVisualize`):
  - the 55-entry hue wheel in its 60-row table, and `computeColor`'s table
    lookup;
  - `postProcessVectors`: decode, scan for unknown flow and the largest
    radius, and render every pixel.
- **One run** (`pipeline.dfy`, module `Pipeline`). This is `calculateFlow`
  as a sequence of driver calls:
  - initialise, create and upload both frames;
  - size and create the output buffer, execute and download;
  - draw, release the buffers and destroy the session.

  Every driver call is appended to a call log kept on the session object
  (`CudaBuffers.Api.calls`). What the driver, the CUDA runtime and the
  engine answer is a parameter (`FlowReplies`). The main theorem is the
  contract of `Pipeline.CalculateFlow`:
  - the run passes exactly when every reply is a success;
  - a passing run issues exactly `FlowLog`, and the session is destroyed
    last;
  - a passing run leaves the image holding the colour of every engine
    vector;
  - a failing run never destroys the session.

Floating-point work is passed in as functions the model does not interpret:
the square root, `atan2`, and the blend and truncation of a colour channel.

## Model

| member | source | states |
|---|---|---|
| NvOFInterface.Status.Code | NvOFInterface/nvOpticalFlowCommon.h:73-139 | Status codes are 0..11, and only NV_OF_SUCCESS has code 0 |
| NvOFInterface.StatusCodeRoundTrip | NvOFInterface/nvOpticalFlowCommon.h:73-139 | Codes and statuses are in one-to-one correspondence: a status's code decodes back to it, and exactly the integers 0..11 decode |
| NvOFInterface.ApiVersionValue | NvOFInterface/nvOpticalFlowCommon.h:56-58 | NV_OF_API_VERSION (major 5, minor 0, packed as major << 4 \| minor) is 80 |
| NvOFInterface.VersionRoundTrip | NvOFInterface/nvOpticalFlowCommon.h:56-58 | For a major below 0x1000 and a minor below 0x10, the version query's shift and mask recover both halves of the packed version |
| NvOFInterface.OutGridSizesAreHintGridSizes | NvOFInterface/nvOpticalFlowCommon.h:194-215 | The output grid sizes are exactly the hint grid sizes below 8 |
| NvOFInterface.HintsOnOutputGrid | NvOFInterface/nvOpticalFlowCommon.h:334-336 | A valid session stays valid with external hints turned on at its own output grid size, which the hint grid rule (equal to or coarser than the output grid) admits |
| NvOFInterface.StereoIsForwardOnly | NvOFInterface/nvOpticalFlowCommon.h:285-298 | A valid stereo-disparity session predicts forward only and has no global flow |
| NvOFInterface.RoiSpansWholeBlocks | NvOFInterface/nvOpticalFlowCommon.h:374-392 | A valid ROI is a whole number of grid blocks, at least 32 blocks wide and 8 high, in an image at least 32 blocks wide and max(16, 8 blocks) high |
| NvOFInterface.FlowComponentRoundTrip | NvOFInterface/nvOpticalFlowCommon.h:300-311 | Decoding an S10.5 component gives a value in [-1024, 1024), and re-encoding it gives back the raw 16-bit value |
| NvOFInterface.DisparityRange | NvOFInterface/nvOpticalFlowCommon.h:313-323 | An unsigned 11.5 disparity lies in [0, 2048), and scaling it by 32 recovers the raw value |
| NvOFErrors.NatToStringRoundTrip | flowvec.h:30-37 | The decimal text of a line number parses back to that number |
| NvOFErrors.MakeNvOFException | flowvec.h:30-37 | The exception carries the given status; its message starts with the function name and ends in a newline |
| NvOFErrors.MessageCarriesLineNo | flowvec.h:30-37 | The line number can be read back from the end of every exception message |
| NvOFErrors.ApiCall | flowvec.h:45-55 | NVOF_API_CALL passes exactly when the status is NV_OF_SUCCESS; otherwise the exception carries that status |
| NvOFErrors.CudaCall | flowvec.h:57-70 | CUDA_DRVAPI_CALL passes exactly when the result is CUDA_SUCCESS; otherwise the exception carries NV_OF_ERR_GENERIC |
| GpuCopy.Memcpy2DBytes | flowvec.cpp:61 | The row-by-row copy leaves the destination equal to the specification Copy2D of the source and the old destination |
| GpuCopy.CopyRowsWritten | flowvec.cpp:61 | After a fitting copy, byte c of destination row r holds byte c of source row r: later rows never overwrite earlier ones |
| GpuCopy.CopyRowsUntouched | flowvec.cpp:61 | A byte outside every copied row keeps its value |
| GpuCopy.PaddingUntouched | flowvec.cpp:61 | The bytes between a row's width and its pitch are outside every copied row |
| GpuBuffer.ElementSize | flowvec.h:124-136 | The element size is 4 exactly for ABGR8 and SHORT2, 1 exactly for NV12, and unassigned for every other format |
| GpuBuffer.ElementSizeMatchesFormat | flowvec.h:124-136 | Every assigned element size is the byte width of one element of the format; the one input format left unassigned is GRAYSCALE8 |
| GpuBuffer.WrappedHeights | flowvec.cpp:65-87 | For a 32-bit height, the NV12 row counts (h + 1) / 2 and h + h / 2 are the sums taken modulo 2^32, as the source's unsigned arithmetic computes them. They never exceed the exact counts and equal them while the sums fit; at h = 0xFFFF_FFFF the chroma count wraps to 0, and from h = 0xAAAA_AAAB the download count loses 2^32 |
| GpuBuffer.UploadFits | flowvec.cpp:49-70 | Both upload copies stay inside the host image and the device allocation, with the wrapped row count as written and with the exact one as intended |
| GpuBuffer.DownloadFits | flowvec.cpp:72-93 | Both download copies stay inside the device allocation and the host image, with the wrapped row counts as written and with the exact ones as intended |
| GpuBuffer.PackedUploadAt | flowvec.cpp:49-61 | Upload puts host byte c of row r at byte c of device row r |
| GpuBuffer.PackedDownloadAt | flowvec.cpp:72-84 | Download puts byte c of device row r at host byte c of row r |
| GpuBuffer.PackedRoundTrip | flowvec.cpp:49-93 | For ABGR8 and SHORT2, downloading what was uploaded gives back the host image byte for byte, whatever the device and the target held before |
| GpuBuffer.UploadKeepsPadding | flowvec.cpp:49-70 | The luma copy changes neither the row padding nor the bytes past row height - 1. The whole upload never changes the padding of any row, and for a single-copy format nothing past the last row either; for NV12 the chroma copy writes the rows from strideY on |
| GpuBuffer.Nv12RoundTrip | flowvec.cpp:63-69 | With the chroma host offset at the end of the luma plane and the row counts not wrapped at 32 bits, as intended, an NV12 image survives upload and download byte for byte |
| GpuBuffer.Nv12UploadReadsLuma | flowvec.cpp:65-66 | As written, for 2 <= height < 0xFFFF_FFFF, the first device chroma row is filled from host luma row (height + 1) / 2 (at 0xFFFF_FFFF the wrapped chroma copy has no rows) |
| GpuBuffer.Nv12DownloadOverwritesLuma | flowvec.cpp:87-88 | As written, for 2 <= height < 0xFFFF_FFFF, download writes the device's first chroma row over host luma row (height + 1) / 2 |
| CudaBuffers.Api.CudaStream | flowvec.cpp:42-47 | Input buffers use the input stream; every other usage uses the output stream |
| CudaBuffers.Api.Memcpy2DAsync | flowvec.cpp:61 | The copy is logged; an accepted copy updates the destination as Copy2D, and a refused one changes nothing |
| CudaBuffers.CudaBuffer.RowBytes | flowvec.cpp:53 | WidthInBytes is below 2^32, and equals width times element size when that product fits in 32 bits |
| CudaBuffers.CudaBuffer.constructor | flowvec.h:108-137 | The descriptor's fields, the handle and the strides are stored as given; the element size follows ElementSize; the device memory is fresh |
| CudaBuffers.CreateBuffer | flowvec.h:108-137 | The buffer exists exactly when both the create and the stride query succeed. A failed create throws with its status after one call. A failed stride query throws after three calls, leaving the handle created |
| CudaBuffers.CudaBuffer.Release | flowvec.h:139-145 | A null handle makes no call. Otherwise the handle is destroyed, and nulled only on success, so a second release does nothing |
| CudaBuffers.CudaBuffer.UploadData | flowvec.cpp:49-70 | The upload passes exactly when every copy is accepted. On each path it gives the exact calls on the buffer's stream, the NV12 chroma copy having (h + 1) / 2 rows with the sum taken modulo 2^32, and the new device contents (Uploaded, or the first copy only, or unchanged) |
| CudaBuffers.CudaBuffer.DownloadData | flowvec.cpp:72-93 | The download passes exactly when every copy and the synchronise succeed. On each path it gives the exact calls, the synchronise last, with the NV12 copies of h + h / 2 and (h + 1) / 2 rows, both sums modulo 2^32, and the host contents (Downloaded, or the first copy only, or unchanged) |
| ColorWheel.BandStarts | main.cpp:45-68 | The wheel has 55 entries, and its six bands start at pure red, yellow, green, cyan, blue and magenta |
| ColorWheel.EntryInByteRange | main.cpp:45-68 | Every wheel channel lies in 0..255 |
| ColorWheel.WheelIsSmooth | main.cpp:45-68 | Every entry and the next one, with entry 54 wrapping round to 0, differ in exactly one channel, by at most 64 |
| ColorWheel.Wheel.constructor | main.cpp:13-14 | The table has 60 rows of three channels, all zero, and no row is built yet |
| ColorWheel.Wheel.SetColors | main.cpp:38-43 | Row k becomes (r, g, b), and every other row is unchanged |
| ColorWheel.Wheel.MakeColorWheel | main.cpp:45-68 | The row count becomes 55; rows 0..54 hold the wheel entries; rows 55..59 keep what they held |
| ColorWheel.ColorIndex | main.cpp:73-77 | For an angle in [-1, 1], both looked-up rows are built rows, k1 is the next row after k0 with wrap-around, and the blend fraction lies in [0, 1) |
| ColorWheel.ColorIndexEnds | main.cpp:73-77 | Angle -1 lands on row 0, and angle 1 lands on the last built row, whose neighbour wraps round to row 0 |
| ColorWheel.ColorIndexMonotonic | main.cpp:73-77 | A larger angle never lands on an earlier row |
| ColorWheel.Wheel.ComputeColor | main.cpp:70-90 | Channel b of the two rows at ColorIndex, blended, goes to byte 2 - b of the pixel |
| FlowVisualize.DecodedFlowIsKnown | main.cpp:31-36 | No decoded S10.5 vector reaches the unknown-flow threshold |
| FlowVisualize.FoldMaxIsMaximum | main.cpp:110-128 | The running maximum is at least every element and at least its start value, and is one of them |
| FlowVisualize.FoldMinIsMinimum | main.cpp:110-128 | The running minimum is at most every element and at most its start value, and is one of them |
| FlowVisualize.ClampedMaxRadiusBounds | main.cpp:110-128 | The largest radius, raised to 1 when smaller, is at least 1 and at least the radius of every vector |
| FlowVisualize.DecodeFlow | main.cpp:98-105 | Entries 2n and 2n + 1 of the float buffer are the decoded x and y components of vector n |
| FlowVisualize.ScanFlow | main.cpp:110-128 | The scan aborts exactly when some vector is unknown. Otherwise it returns the folded extremes of both components and the clamped largest radius |
| FlowVisualize.PutPixel | main.cpp:131-151 | The three pixel bytes land at base .. base + 2, and no other byte changes |
| FlowVisualize.RenderRow | main.cpp:131-151 | Every pixel of row y is written, and bytes outside the row are unchanged |
| FlowVisualize.RenderFlow | main.cpp:131-151 | Byte 3n + c is channel c of the colour of vector n over the given radius, and bytes past the image are unchanged |
| FlowVisualize.PostProcessVectors | main.cpp:93-152 | Every vector is drawn (the sample's vectors are never unknown). The image is the colour of each vector over the clamped largest radius, and bytes past the image are unchanged |
| Pipeline.CalculateOutputDimensions | main.cpp:188-191 | The output size is the frame size divided by the grid size, and both sides are below 2^16, so the uint16_t parameters of postProcessVectors (main.cpp:93) receive them unchanged |
| Pipeline.OutputDimensionsFloor | main.cpp:188-191 | The output grid holds as many whole blocks as fit, and one more would not fit; it is never larger than the frame |
| Pipeline.OutputDimensionsExact | main.cpp:188-191 | For every grid size the interface offers, the frame divides into whole blocks; grid 4 gives 480 x 270 |
| Pipeline.VecframeHoldsImage | main.cpp:313 | The image buffer main allocates holds three bytes per output pixel for any grid size, and exactly that for the offered grid sizes |
| Pipeline.InitializeOFParameters | main.cpp:155-171 | The init record passes the interface's validity rules exactly when the grid size is an output grid size; it covers the full frame |
| Pipeline.DescriptorsFitSession | main.cpp:174-202 | The input and the output descriptors both fit the session initializeOFParameters sets up |
| Pipeline.ExecuteParamsValid | main.cpp:205-234 | The execute records are valid for that session exactly when all three buffer handles are non-null |
| Pipeline.Int16RoundTrip | NvOFInterface/nvOpticalFlowCommon.h:307-311 | Reading a 16-bit vector component from its low and high bytes inverts writing it |
| Pipeline.DownloadedVectors | main.cpp:269 | After the download, the vectors read from the host array are the engine's output vectors in row-major order |
| Pipeline.SessionDestroyedLast | main.cpp:276-281 | In a complete run the session is destroyed by the last call and by no earlier one |
| Pipeline.CreateAndUploadInputBuffer | main.cpp:174-185 | The buffer exists exactly when creation and upload succeed. It is a fresh full-size ABGR8 input buffer holding the frame row by row, after exactly the create and copy calls. A failure leaves the session open |
| Pipeline.CreateOutputBuffer | main.cpp:194-202 | The buffer exists exactly when creation succeeds. It is a fresh SHORT2 output buffer of the given size |
| Pipeline.Execute | main.cpp:266 | The execute call is logged, and the output buffer holds what the engine wrote |
| Pipeline.OpenSession | main.cpp:243-248 | Init and both input buffers succeed exactly when every reply is a success. Then the two distinct buffers hold the two frames, after exactly SetupLog; a failure leaves the session open |
| Pipeline.RunEngine | main.cpp:251-269 | The output buffer, the execute and the download succeed exactly when their replies do. Then the host array holds the engine's vectors, after exactly RunLog |
| Pipeline.DownloadFlow | main.cpp:269 | The download passes exactly when the copy and the synchronise succeed. Then the host array holds the engine's vectors in row-major order |
| Pipeline.CloseSession | main.cpp:276-281 | Teardown passes exactly when all three releases succeed, after exactly TeardownLog with the session last; a failure leaves the session open |
| Pipeline.CalculateFlow | main.cpp:237-282 | The run passes exactly when every reply succeeds. Then the driver sees exactly FlowLog, and the image holds the colour of every engine vector over the clamped largest radius. A failing run never destroys the session |

## Left out

- Loading the driver library and opening the session (`API::API`, `~API`) are left out, as is reading the entry-point table. `CudaBuffers.Api.constructor` only keeps the two streams.
- `main`'s video decoding, frame conversion and display loop (FFmpeg and OpenCV), the CUDA context set-up and `writeFlowtoFile` are left out: they are I/O outside the core.
- Floating point is not modelled:
  - `sqrtf`, `atan2f`, the channel blend of `computeColor` and the float-to-byte truncation are uninterpreted functions passed in;
  - NaN and rounding are not modelled.
- FlowVisualize.PostProcessVectors: its `radius` and `color` are parameters and are not tied to `ColorWheel.Wheel.ComputeColor`; the per-pixel call of `computeColor` on the global wheel is this pair of functions.
- CudaBuffers.Api.Memcpy2DAsync: an accepted asynchronous copy is modelled as complete at once. Stream ordering and concurrency with the host are not modelled.
- Device memory contents are modelled but not constrained at allocation.
- Pipeline.Execute: the engine's output is a parameter. It does not depend on the frames, since the flow computation itself is the engine's. `nvOFExecute`'s status is not checked by the source, so the model records the call and ignores its status.
- Pipeline.CalculateFlow: `nvOFDestroy`'s status is likewise ignored, as in the source.
- The sample's global grid size is a parameter of the model.
- FlowVisualize.PostProcessVectors: takes its sizes as unbounded naturals, not as the source's `uint16_t` parameters. `Pipeline.CalculateFlow` makes the narrowing at the call explicit with 16-bit locals, and `Pipeline.CalculateOutputDimensions` proves the output size fits, so the conversion loses nothing.
- Driver call texts in exception messages are abbreviated to the API names.
- CudaBuffers.CudaBuffer.Release: a failing destroy throws out of a destructor. That terminates a C++ program; the model returns the failure instead.
- CudaBuffers.CreateBuffer: `nvOFGPUBufferGetCUdeviceptr`'s result is not checked by the source. The model logs the call and gives the buffer fresh device memory.
- The getters of `NvOFCudaBuffer` are the class's const fields, and `NvOFException`'s getters are its datatype fields.
- The driver's replies are taken to keep two promises the source relies on without checking: the strides satisfy `GpuBuffer.StrideHolds` (the pitch strideX holds a row of RowBytes bytes, and the NV12 chroma plane starts at row strideY >= height), and the device allocation is exactly strideX times `GpuBuffer.DeviceRows` bytes (`CudaBuffers.CudaBuffer.Valid`). Every copy-fits, padding and round-trip result assumes both.
- GpuBuffer.ElementSize: the constructor leaves `m_elementSize` uninitialised for formats other than ABGR8, SHORT2 and NV12, and its value then is undefined. The model says None, and upload and download require an assigned size.
- The interface's entry-point table, the hint, cost and global-flow buffers, and ROI and private data are modelled only as the validity rules and record fields the core uses. Calling them is left out.

## Findings

| source | as written | input that shows it | evidently intended | confidence | as-written member | corrected member |
|---|---|---|---|---|---|---|
| flowvec.cpp:65-66 | The NV12 chroma copy's host offset is srcPitch times the copy's Height, and Height has just been set to (h + 1) / 2, so the chroma plane is read from the middle of the luma plane | NV12, width 1, height 2, strides (1, 2), host bytes [10, 20, 30]: the device chroma row gets 20 (luma row 1) instead of 30 | the source offset is srcPitch times h, the end of the luma plane, with row counts not wrapped at 32 bits | not executed; the sample itself uses only ABGR8 and SHORT2 | GpuBuffer.Nv12UploadReadsLuma | GpuBuffer.Nv12RoundTrip |
| flowvec.cpp:87-88 | The NV12 chroma download's host offset is dstPitch times (h + 1) / 2, so the chroma plane is written over the luma rows from (h + 1) / 2 on | NV12, width 1, height 2, strides (1, 2), device luma [10, 20], chroma [30]: host byte 1 becomes 30 and luma row 1 is lost | the target offset is dstPitch times h, the end of the luma plane, with row counts not wrapped at 32 bits | not executed; the sample itself uses only ABGR8 and SHORT2 | GpuBuffer.Nv12DownloadOverwritesLuma | GpuBuffer.Nv12RoundTrip |
