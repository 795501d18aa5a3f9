/**
 * One GPU buffer of the optical-flow session (NvOFCudaBuffer): the fields
 * its constructor records, the element size it derives from the format,
 * release of its driver handle, and the strided copies that upload host
 * data into it and download its contents back.
 */
module GpuBuffer {
  import opened NvOFInterface
  import opened GpuCopy

  // ---------------------------------------------------------------------------
  // Element size and stride
  // ---------------------------------------------------------------------------

  /**
   * The element size the constructor assigns: 4 bytes for ABGR8 and SHORT2,
   * 1 for NV12. Every other format leaves the member unassigned (None).
   */
  function ElementSize(format: BufferFormat): (size: Option<nat>)
    ensures size == Some(4) <==> format == ABGR8 || format == Short2
    ensures size == Some(1) <==> format == NV12
    ensures size.None? <==> !(format == ABGR8 || format == Short2 || format == NV12)
  {
    if format == ABGR8 then Some(4)
    else if format == Short2 then Some(4)
    else if format == NV12 then Some(1)
    else None
  }

  /** The bits one element of each format holds, per plane, as the header describes the formats. */
  function ElementBits(format: BufferFormat): nat
  {
    match format
    case FormatUndefined => 0
    case Grayscale8 => 8
    case NV12 => 8
    case ABGR8 => 32
    case Short => 16
    case Short2 => 32
    case UInt => 32
    case UInt8 => 8
  }

  /**
   * Wherever the constructor assigns an element size, it is the width of
   * one element of the format; the formats it leaves unassigned include
   * GRAYSCALE8, an input format of one byte per element.
   */
  lemma ElementSizeMatchesFormat(format: BufferFormat)
    ensures ElementSize(format).Some? ==> 8 * ElementSize(format).value == ElementBits(format)
    ensures IsInputFormat(format) && ElementSize(format).None? ==> format == Grayscale8 && ElementBits(format) == 8
  {
  }

  /** strideInfo[0] as the driver reports it: the row pitch and, for NV12, the row where the chroma plane starts. */
  datatype StrideInfo = StrideInfo(strideX: nat, strideY: nat)

  /**
   * What the driver's strides are taken to promise: a row of rowBytes fits
   * in a pitch, and the NV12 chroma plane starts below the luma plane.
   */
  predicate StrideHolds(format: BufferFormat, rowBytes: nat, height: nat, stride: StrideInfo)
  {
    rowBytes <= stride.strideX && (format == NV12 ==> height <= stride.strideY)
  }

  /** The rows of the device allocation: the luma rows, or for NV12 the rows up to the end of the chroma plane. */
  function DeviceRows(format: BufferFormat, height: nat, stride: StrideInfo): nat
  {
    if format == NV12 then stride.strideY + (height + 1) / 2 else height
  }

  /** The host image: height packed rows, plus (height + 1) / 2 chroma rows for NV12. */
  function HostRows(format: BufferFormat, height: nat): nat
  {
    if format == NV12 then height + (height + 1) / 2 else height
  }

  // ---------------------------------------------------------------------------
  // The copies upload and download issue
  // ---------------------------------------------------------------------------

  /** The first upload copy: height packed host rows into device rows of pitch strideX. */
  function UploadFirstCopy(rowBytes: nat, height: nat, strideX: nat): Memcpy2D
  {
    Cleared.(widthInBytes := rowBytes, srcMemoryType := Host, srcOffset := 0, srcPitch := rowBytes,
             dstMemoryType := Device, dstOffset := 0, dstPitch := strideX, height := height)
  }

  /**
   * The chroma row count (height + 1) / 2 as the source computes it for a
   * 32-bit height: the sum is a 32-bit unsigned value, so it wraps to 0 for
   * height 0xFFFF_FFFF.
   */
  function ChromaCopyHeight(height: nat): nat
  {
    if height == 0xFFFF_FFFF then 0 else (height + 1) / 2
  }

  /** The NV12 download row count height + height / 2 for a 32-bit height, in 32-bit unsigned arithmetic. */
  function Nv12DownloadHeight(height: nat): nat
  {
    var rows := height + height / 2;
    if rows < 0x1_0000_0000 then rows else rows - 0x1_0000_0000
  }

  /**
   * The NV12 chroma upload as written: Height is set to the wrapped
   * (height + 1) / 2 first, and the host source offset is then computed from
   * the new Height.
   */
  function UploadSecondCopy(first: Memcpy2D, height: nat, strideY: nat): Memcpy2D
  {
    var rows := ChromaCopyHeight(height);
    first.(height := rows, srcOffset := first.srcPitch * rows, dstY := strideY)
  }

  /** The chroma upload with the host source at the end of the luma plane and no wrap-around. */
  function IntendedUploadSecondCopy(first: Memcpy2D, height: nat, strideY: nat): Memcpy2D
  {
    first.(height := (height + 1) / 2, srcOffset := first.srcPitch * height, dstY := strideY)
  }

  /** The first download copy as written: the wrapped height + height / 2 rows for NV12, height rows otherwise. */
  function DownloadFirstCopy(format: BufferFormat, rowBytes: nat, height: nat, strideX: nat): Memcpy2D
  {
    Cleared.(widthInBytes := rowBytes, dstMemoryType := Host, dstOffset := 0, dstPitch := rowBytes,
             srcMemoryType := Device, srcOffset := 0, srcPitch := strideX,
             height := if format == NV12 then Nv12DownloadHeight(height) else height)
  }

  /** The first NV12 download copy with height + height / 2 rows and no wrap-around. */
  function IntendedDownloadFirstCopy(rowBytes: nat, height: nat, strideX: nat): Memcpy2D
  {
    Cleared.(widthInBytes := rowBytes, dstMemoryType := Host, dstOffset := 0, dstPitch := rowBytes,
             srcMemoryType := Device, srcOffset := 0, srcPitch := strideX, height := height + height / 2)
  }

  /** The NV12 chroma download as written: the host offset uses the updated, wrapped Height. */
  function DownloadSecondCopy(first: Memcpy2D, height: nat, strideY: nat): Memcpy2D
  {
    var rows := ChromaCopyHeight(height);
    first.(height := rows, dstOffset := first.dstPitch * rows, srcY := strideY)
  }

  /** The chroma download with the host destination at the end of the luma plane and no wrap-around. */
  function IntendedDownloadSecondCopy(first: Memcpy2D, height: nat, strideY: nat): Memcpy2D
  {
    first.(height := (height + 1) / 2, dstOffset := first.dstPitch * height, srcY := strideY)
  }

  /**
   * For every 32-bit height the row counts are the source's sums taken
   * modulo 2^32; they never exceed the exact counts, equal them while the
   * sums fit in 32 bits, and wrap for the largest heights.
   */
  lemma WrappedHeights(height: nat)
    ensures height < 0x1_0000_0000 ==> ChromaCopyHeight(height) == (height + 1) % 0x1_0000_0000 / 2
    ensures height < 0x1_0000_0000 ==> Nv12DownloadHeight(height) == (height + height / 2) % 0x1_0000_0000
    ensures ChromaCopyHeight(height) <= (height + 1) / 2
    ensures Nv12DownloadHeight(height) <= height + height / 2
    ensures height < 0xFFFF_FFFF ==> ChromaCopyHeight(height) == (height + 1) / 2
    ensures height < 0xAAAA_AAAB ==> Nv12DownloadHeight(height) == height + height / 2
    ensures 0xAAAA_AAAB <= height < 0x1_0000_0000 ==> Nv12DownloadHeight(height) == height + height / 2 - 0x1_0000_0000
  {
  }

  // ---------------------------------------------------------------------------
  // The copies stay inside host and device memory
  // ---------------------------------------------------------------------------

  /** (height + 1) / 2 chroma rows. */
  lemma ChromaRows(height: nat)
    ensures (height + 1) / 2 <= height + 1 - (height + 1) / 2
    ensures height > 0 ==> (height + 1) / 2 <= height
    ensures height / 2 <= (height + 1) / 2
  {
  }

  /** Each upload copy fits a host image of HostRows rows and a device allocation of DeviceRows rows. */
  lemma UploadFits(format: BufferFormat, rowBytes: nat, height: nat, stride: StrideInfo, hostLen: nat, devLen: nat)
    requires StrideHolds(format, rowBytes, height, stride)
    requires hostLen >= rowBytes * HostRows(format, height) && devLen >= stride.strideX * DeviceRows(format, height, stride)
    ensures Fits(UploadFirstCopy(rowBytes, height, stride.strideX), hostLen, devLen)
    ensures format == NV12 ==>
      var first := UploadFirstCopy(rowBytes, height, stride.strideX);
      && Fits(UploadSecondCopy(first, height, stride.strideY), hostLen, devLen)
      && Fits(IntendedUploadSecondCopy(first, height, stride.strideY), hostLen, devLen)
  {
    var first := UploadFirstCopy(rowBytes, height, stride.strideX);
    var hostRows, devRows := HostRows(format, height), DeviceRows(format, height, stride);
    FitsWithinRows(first, 0, 0, hostRows, devRows, hostLen, devLen);
    if format == NV12 {
      ChromaRows(height);
      WrappedHeights(height);
      var rows := ChromaCopyHeight(height);
      FitsWithinRows(UploadSecondCopy(first, height, stride.strideY), rows, 0, hostRows, devRows, hostLen, devLen);
      FitsWithinRows(IntendedUploadSecondCopy(first, height, stride.strideY), height, 0, hostRows, devRows, hostLen, devLen);
    }
  }

  /** Each download copy fits a device allocation of DeviceRows rows and a host image of HostRows rows. */
  lemma DownloadFits(format: BufferFormat, rowBytes: nat, height: nat, stride: StrideInfo, devLen: nat, hostLen: nat)
    requires StrideHolds(format, rowBytes, height, stride)
    requires hostLen >= rowBytes * HostRows(format, height) && devLen >= stride.strideX * DeviceRows(format, height, stride)
    ensures Fits(DownloadFirstCopy(format, rowBytes, height, stride.strideX), devLen, hostLen)
    ensures format == NV12 ==>
      var first := DownloadFirstCopy(format, rowBytes, height, stride.strideX);
      var exact := IntendedDownloadFirstCopy(rowBytes, height, stride.strideX);
      && Fits(DownloadSecondCopy(first, height, stride.strideY), devLen, hostLen)
      && Fits(exact, devLen, hostLen)
      && Fits(IntendedDownloadSecondCopy(exact, height, stride.strideY), devLen, hostLen)
  {
    var first := DownloadFirstCopy(format, rowBytes, height, stride.strideX);
    var hostRows, devRows := HostRows(format, height), DeviceRows(format, height, stride);
    ChromaRows(height);
    WrappedHeights(height);
    FitsWithinRows(first, 0, 0, devRows, hostRows, devLen, hostLen);
    if format == NV12 {
      var exact := IntendedDownloadFirstCopy(rowBytes, height, stride.strideX);
      FitsWithinRows(DownloadSecondCopy(first, height, stride.strideY), 0, ChromaCopyHeight(height), devRows, hostRows, devLen, hostLen);
      FitsWithinRows(exact, 0, 0, devRows, hostRows, devLen, hostLen);
      FitsWithinRows(IntendedDownloadSecondCopy(exact, height, stride.strideY), 0, height, devRows, hostRows, devLen, hostLen);
    }
  }

  /** The device after a successful upload as written: the luma copy, then for NV12 the chroma copy. */
  function Uploaded(format: BufferFormat, host: seq<byte>, dev: seq<byte>, rowBytes: nat, height: nat,
                    stride: StrideInfo): (out: seq<byte>)
    ensures |out| == |dev|
  {
    var first := UploadFirstCopy(rowBytes, height, stride.strideX);
    var dev1 := Copy2D(host, dev, first);
    if format == NV12 then Copy2D(host, dev1, UploadSecondCopy(first, height, stride.strideY)) else dev1
  }

  /** The host buffer after a successful download as written. */
  function Downloaded(format: BufferFormat, dev: seq<byte>, target: seq<byte>, rowBytes: nat, height: nat,
                      stride: StrideInfo): (out: seq<byte>)
    ensures |out| == |target|
  {
    var first := DownloadFirstCopy(format, rowBytes, height, stride.strideX);
    var host1 := Copy2D(dev, target, first);
    if format == NV12 then Copy2D(dev, host1, DownloadSecondCopy(first, height, stride.strideY)) else host1
  }

  /** The NV12 upload with the chroma source at the end of the luma plane and no wrap-around. */
  function IntendedNv12Uploaded(host: seq<byte>, dev: seq<byte>, rowBytes: nat, height: nat,
                                stride: StrideInfo): (out: seq<byte>)
    ensures |out| == |dev|
  {
    var first := UploadFirstCopy(rowBytes, height, stride.strideX);
    Copy2D(host, Copy2D(host, dev, first), IntendedUploadSecondCopy(first, height, stride.strideY))
  }

  /** The NV12 download with the chroma destination at the end of the luma plane and no wrap-around. */
  function IntendedNv12Downloaded(dev: seq<byte>, target: seq<byte>, rowBytes: nat, height: nat,
                                  stride: StrideInfo): (out: seq<byte>)
    ensures |out| == |target|
  {
    var first := IntendedDownloadFirstCopy(rowBytes, height, stride.strideX);
    Copy2D(dev, Copy2D(dev, target, first), IntendedDownloadSecondCopy(first, height, stride.strideY))
  }

  // ---------------------------------------------------------------------------
  // Round trips
  // ---------------------------------------------------------------------------

  /** An index below w * n splits into row i / w and column i % w. */
  lemma SplitIndex(i: nat, w: nat, n: nat)
    requires i < w * n
    ensures w > 0 && i / w < n && i % w < w && i == (i / w) * w + i % w
  {
    assert w > 0;
    var q := i / w;
    assert q * w <= i;
    assert (n - q) * w == n * w - q * w;
    assert (n - q) * w > 0;
  }

  /** The row and column of an index below w * n, without the division in sight. */
  lemma RowAndColumn(i: nat, w: nat, n: nat) returns (q: nat, c: nat)
    requires i < w * n
    ensures q < n && c < w && i == q * w + c
  {
    SplitIndex(i, w, n);
    q, c := i / w, i % w;
  }

  /** Row r of a block of pitch p, column c < p, lies before row n. */
  lemma BeforeRow(r: nat, n: nat, p: nat, c: nat)
    requires r < n && c < p
    ensures r * p + c < n * p
  {
    assert n * p == r * p + (n - r) * p;
    assert (n - r) * p >= p by {
      assert (n - r) * p == (n - r - 1) * p + p;
    }
  }

  /** Multiplication distributes over a sum, on either side. */
  lemma Distribute(a: nat, b: nat, p: nat)
    ensures (a + b) * p == a * p + b * p && p * (a + b) == p * a + p * b
  {
  }

  /** Multiplying by the same factor keeps order. */
  lemma MulLeq(a: nat, b: nat, c: nat)
    requires b <= c
    ensures a * b <= a * c
  {
    assert a * c == a * b + a * (c - b);
  }

  /** For a single-copy format, upload puts host byte c of row r at byte c of device row r. */
  lemma PackedUploadAt(format: BufferFormat, host: seq<byte>, dev: seq<byte>, rowBytes: nat, height: nat,
                       stride: StrideInfo, r: nat, c: nat)
    requires format != NV12 && StrideHolds(format, rowBytes, height, stride)
    requires |host| >= rowBytes * height && |dev| >= stride.strideX * height
    requires r < height && c < rowBytes
    ensures r * rowBytes + c < |host| && r * stride.strideX + c < |dev|
    ensures Uploaded(format, host, dev, rowBytes, height, stride)[r * stride.strideX + c] == host[r * rowBytes + c]
  {
    var up := UploadFirstCopy(rowBytes, height, stride.strideX);
    UploadFits(format, rowBytes, height, stride, |host|, |dev|);
    assert up.SrcRow(r) == r * rowBytes && up.DstRow(r) == r * stride.strideX;
    CopyRowsWritten(host, dev, up, height, r, c);
  }

  /** For a single-copy format, download puts byte c of device row r at host byte c of row r. */
  lemma PackedDownloadAt(format: BufferFormat, dev: seq<byte>, target: seq<byte>, rowBytes: nat, height: nat,
                         stride: StrideInfo, r: nat, c: nat)
    requires format != NV12 && StrideHolds(format, rowBytes, height, stride)
    requires |target| >= rowBytes * height && |dev| >= stride.strideX * height
    requires r < height && c < rowBytes
    ensures r * rowBytes + c < |target| && r * stride.strideX + c < |dev|
    ensures Downloaded(format, dev, target, rowBytes, height, stride)[r * rowBytes + c] == dev[r * stride.strideX + c]
  {
    var down := DownloadFirstCopy(format, rowBytes, height, stride.strideX);
    DownloadFits(format, rowBytes, height, stride, |dev|, |target|);
    assert down.SrcRow(r) == r * stride.strideX && down.DstRow(r) == r * rowBytes;
    CopyRowsWritten(dev, target, down, height, r, c);
  }

  /** One byte of the single-copy round trip comes back. */
  lemma PackedRoundTripAt(format: BufferFormat, host: seq<byte>, dev: seq<byte>, target: seq<byte>,
                          rowBytes: nat, height: nat, stride: StrideInfo, i: nat)
    requires format != NV12 && StrideHolds(format, rowBytes, height, stride)
    requires |host| >= rowBytes * height && |target| >= rowBytes * height
    requires |dev| >= stride.strideX * height
    requires i < rowBytes * height
    ensures Downloaded(format, Uploaded(format, host, dev, rowBytes, height, stride), target, rowBytes, height, stride)[i]
         == host[i]
  {
    var r, c := RowAndColumn(i, rowBytes, height);
    PackedUploadAt(format, host, dev, rowBytes, height, stride, r, c);
    PackedDownloadAt(format, Uploaded(format, host, dev, rowBytes, height, stride), target, rowBytes, height, stride, r, c);
  }

  /**
   * For a single-copy format, downloading what was uploaded reproduces the
   * host image byte for byte, whatever the device held before and whatever
   * the download target held.
   */
  lemma PackedRoundTrip(format: BufferFormat, host: seq<byte>, dev: seq<byte>, target: seq<byte>,
                        rowBytes: nat, height: nat, stride: StrideInfo)
    requires format != NV12 && StrideHolds(format, rowBytes, height, stride)
    requires |host| >= rowBytes * height && |target| >= rowBytes * height
    requires |dev| >= stride.strideX * height
    ensures Downloaded(format, Uploaded(format, host, dev, rowBytes, height, stride), target, rowBytes, height, stride)[..rowBytes * height]
         == host[..rowBytes * height]
  {
    var out := Downloaded(format, Uploaded(format, host, dev, rowBytes, height, stride), target, rowBytes, height, stride);
    var n := rowBytes * height;
    assert forall i :: 0 <= i < n ==> out[i] == host[i] by {
      forall i | 0 <= i < n
        ensures out[i] == host[i]
      {
        PackedRoundTripAt(format, host, dev, target, rowBytes, height, stride, i);
      }
    }
  }

  /** A byte in the padding of a device row, or past the last row, is outside every row of the first upload copy. */
  lemma PaddingOutsideRows(rowBytes: nat, height: nat, strideX: nat, i: nat)
    requires rowBytes <= strideX && strideX > 0
    requires i % strideX >= rowBytes || i >= strideX * height
    ensures Untouched(UploadFirstCopy(rowBytes, height, strideX), height, i)
  {
    var up := UploadFirstCopy(rowBytes, height, strideX);
    if height > 0 {
      if i >= strideX * height {
        assert up.DstRow(height - 1) + rowBytes <= i by {
          assert up.DstRow(height - 1) + strideX == strideX * height;
        }
        OutsideBlock(up, height, i);
      } else {
        SplitIndex(i, strideX, height);
        var r, c := i / strideX, i % strideX;
        assert up.DstRow(r) + c == i;
        PaddingUntouched(up, height, r, c);
      }
    }
  }

  /**
   * Upload writes only the first rowBytes bytes of device rows. The luma
   * copy leaves the padding up to the pitch, and everything past row
   * height - 1, alone. The whole upload leaves the padding of every row
   * alone, and for a single-copy format everything past the last row too;
   * for NV12 the chroma copy writes rows strideY onwards.
   */
  lemma UploadKeepsPadding(format: BufferFormat, host: seq<byte>, dev: seq<byte>, rowBytes: nat, height: nat,
                           stride: StrideInfo, i: nat)
    requires StrideHolds(format, rowBytes, height, stride)
    requires |host| >= rowBytes * HostRows(format, height) && |dev| >= stride.strideX * DeviceRows(format, height, stride)
    requires stride.strideX > 0 && i < |dev| && (i % stride.strideX >= rowBytes || i >= stride.strideX * height)
    ensures
      var up := UploadFirstCopy(rowBytes, height, stride.strideX);
      Fits(up, |host|, |dev|) && Copy2D(host, dev, up)[i] == dev[i]
    ensures format != NV12 || i % stride.strideX >= rowBytes ==>
      Uploaded(format, host, dev, rowBytes, height, stride)[i] == dev[i]
  {
    UploadFits(format, rowBytes, height, stride, |host|, |dev|);
    var up := UploadFirstCopy(rowBytes, height, stride.strideX);
    PaddingOutsideRows(rowBytes, height, stride.strideX, i);
    CopyRowsUntouched(host, dev, up, height, i);
    if format == NV12 && i % stride.strideX >= rowBytes {
      var dev1 := Copy2D(host, dev, up);
      var second := UploadSecondCopy(up, height, stride.strideY);
      PaddingOutsideEveryRow(second, second.height, i);
      CopyRowsUntouched(host, dev1, second, second.height, i);
    }
  }

  // ---------------------------------------------------------------------------
  // NV12: the chroma copies as written, and as intended
  // ---------------------------------------------------------------------------

  /** Where row r of each chroma copy starts, on the host and on the device. */
  lemma ChromaCopyRows(rowBytes: nat, height: nat, stride: StrideInfo, r: nat)
    ensures
      var rows := ChromaCopyHeight(height);
      var u1 := UploadFirstCopy(rowBytes, height, stride.strideX);
      var d1 := DownloadFirstCopy(NV12, rowBytes, height, stride.strideX);
      var e1 := IntendedDownloadFirstCopy(rowBytes, height, stride.strideX);
      var device := (stride.strideY + r) * stride.strideX;
      && IntendedUploadSecondCopy(u1, height, stride.strideY).SrcRow(r) == (height + r) * rowBytes
      && IntendedUploadSecondCopy(u1, height, stride.strideY).DstRow(r) == device
      && UploadSecondCopy(u1, height, stride.strideY).SrcRow(r) == (rows + r) * rowBytes
      && UploadSecondCopy(u1, height, stride.strideY).DstRow(r) == device
      && IntendedDownloadSecondCopy(e1, height, stride.strideY).SrcRow(r) == device
      && IntendedDownloadSecondCopy(e1, height, stride.strideY).DstRow(r) == (height + r) * rowBytes
      && DownloadSecondCopy(d1, height, stride.strideY).SrcRow(r) == device
      && DownloadSecondCopy(d1, height, stride.strideY).DstRow(r) == (rows + r) * rowBytes
  {
    var rows := ChromaCopyHeight(height);
    assert rowBytes * height + r * rowBytes == (height + r) * rowBytes;
    assert rowBytes * rows + r * rowBytes == (rows + r) * rowBytes;
  }

  /** Luma row r of the host reaches device row r, whichever chroma copy follows. */
  lemma Nv12UploadLuma(host: seq<byte>, dev: seq<byte>, rowBytes: nat, height: nat, stride: StrideInfo,
                       r: nat, c: nat, i: nat, j: nat)
    requires StrideHolds(NV12, rowBytes, height, stride)
    requires |host| >= rowBytes * HostRows(NV12, height) && |dev| >= stride.strideX * DeviceRows(NV12, height, stride)
    requires r < height && c < rowBytes && i == r * rowBytes + c && j == r * stride.strideX + c
    requires i < |host| && j < |dev|
    ensures IntendedNv12Uploaded(host, dev, rowBytes, height, stride)[j] == host[i]
    ensures Uploaded(NV12, host, dev, rowBytes, height, stride)[j] == host[i]
  {
    var sx, sy := stride.strideX, stride.strideY;
    var u1 := UploadFirstCopy(rowBytes, height, sx);
    var u2 := IntendedUploadSecondCopy(u1, height, sy);
    var w2 := UploadSecondCopy(u1, height, sy);
    var rows, wrapped := (height + 1) / 2, ChromaCopyHeight(height);
    assert Fits(u1, |host|, |dev|) && Fits(u2, |host|, |dev|) && Fits(w2, |host|, |dev|) by {
      UploadFits(NV12, rowBytes, height, stride, |host|, |dev|);
    }
    var dev1 := Copy2D(host, dev, u1);
    assert dev1[j] == host[i] by {
      assert u1.SrcRow(r) == i - c && u1.DstRow(r) == j - c;
      CopyRowsWritten(host, dev, u1, height, r, c);
    }
    assert j < sy * sx by {
      BeforeRow(r, height, sx, c);
      MulLeq(sx, height, sy);
    }
    assert u2.DstRow(0) == sy * sx && w2.DstRow(0) == sy * sx;
    assert Copy2D(host, dev1, u2)[j] == dev1[j] by {
      OutsideBlock(u2, rows, j);
      CopyRowsUntouched(host, dev1, u2, rows, j);
    }
    assert Copy2D(host, dev1, w2)[j] == dev1[j] by {
      if wrapped > 0 {
        OutsideBlock(w2, wrapped, j);
      }
      CopyRowsUntouched(host, dev1, w2, wrapped, j);
    }
  }

  /** Row r of the chroma plane on the device, row strideY + r, holds host chroma row r with the intended offset. */
  lemma Nv12UploadChroma(host: seq<byte>, dev: seq<byte>, rowBytes: nat, height: nat, stride: StrideInfo,
                         r: nat, c: nat, i: nat, j: nat)
    requires StrideHolds(NV12, rowBytes, height, stride)
    requires |host| >= rowBytes * HostRows(NV12, height) && |dev| >= stride.strideX * DeviceRows(NV12, height, stride)
    requires r < (height + 1) / 2 && c < rowBytes
    requires i == (height + r) * rowBytes + c && j == (stride.strideY + r) * stride.strideX + c
    requires i < |host| && j < |dev|
    ensures IntendedNv12Uploaded(host, dev, rowBytes, height, stride)[j] == host[i]
  {
    var u1 := UploadFirstCopy(rowBytes, height, stride.strideX);
    var u2 := IntendedUploadSecondCopy(u1, height, stride.strideY);
    assert Fits(u1, |host|, |dev|) && Fits(u2, |host|, |dev|) by {
      UploadFits(NV12, rowBytes, height, stride, |host|, |dev|);
    }
    ChromaCopyRows(rowBytes, height, stride, r);
    CopyRowsWritten(host, Copy2D(host, dev, u1), u2, u2.height, r, c);
  }

  /**
   * As written, device chroma row strideY + r receives host row
   * ChromaCopyHeight(height) + r instead, for each of the ChromaCopyHeight(height) rows copied.
   */
  lemma Nv12UploadChromaAsWritten(host: seq<byte>, dev: seq<byte>, rowBytes: nat, height: nat, stride: StrideInfo,
                                  r: nat, c: nat, k: nat, j: nat)
    requires StrideHolds(NV12, rowBytes, height, stride)
    requires |host| >= rowBytes * HostRows(NV12, height) && |dev| >= stride.strideX * DeviceRows(NV12, height, stride)
    requires r < ChromaCopyHeight(height) && c < rowBytes
    requires k == (ChromaCopyHeight(height) + r) * rowBytes + c && j == (stride.strideY + r) * stride.strideX + c
    requires k < |host| && j < |dev|
    ensures Uploaded(NV12, host, dev, rowBytes, height, stride)[j] == host[k]
  {
    var u1 := UploadFirstCopy(rowBytes, height, stride.strideX);
    var w2 := UploadSecondCopy(u1, height, stride.strideY);
    assert Fits(u1, |host|, |dev|) && Fits(w2, |host|, |dev|) by {
      UploadFits(NV12, rowBytes, height, stride, |host|, |dev|);
    }
    ChromaCopyRows(rowBytes, height, stride, r);
    CopyRowsWritten(host, Copy2D(host, dev, u1), w2, w2.height, r, c);
  }

  /** Device row r reaches host row r for every luma row, with the intended chroma offset. */
  lemma Nv12DownloadLuma(dev: seq<byte>, target: seq<byte>, rowBytes: nat, height: nat, stride: StrideInfo,
                         r: nat, c: nat, i: nat, j: nat)
    requires StrideHolds(NV12, rowBytes, height, stride)
    requires |target| >= rowBytes * HostRows(NV12, height) && |dev| >= stride.strideX * DeviceRows(NV12, height, stride)
    requires r < height && c < rowBytes && i == r * rowBytes + c && j == r * stride.strideX + c
    requires i < |target| && j < |dev|
    ensures IntendedNv12Downloaded(dev, target, rowBytes, height, stride)[i] == dev[j]
  {
    var sx, sy := stride.strideX, stride.strideY;
    var d1 := IntendedDownloadFirstCopy(rowBytes, height, sx);
    var d2 := IntendedDownloadSecondCopy(d1, height, sy);
    var rows := (height + 1) / 2;
    assert Fits(d1, |dev|, |target|) && Fits(d2, |dev|, |target|) by {
      DownloadFits(NV12, rowBytes, height, stride, |dev|, |target|);
    }
    var host1 := Copy2D(dev, target, d1);
    assert host1[i] == dev[j] by {
      assert d1.SrcRow(r) == j - c && d1.DstRow(r) == i - c;
      CopyRowsWritten(dev, target, d1, d1.height, r, c);
    }
    assert i < rowBytes * height by {
      BeforeRow(r, height, rowBytes, c);
    }
    assert d2.DstRow(0) == rowBytes * height;
    OutsideBlock(d2, rows, i);
    CopyRowsUntouched(dev, host1, d2, rows, i);
  }

  /** Device chroma row strideY + r reaches host chroma row r with the intended offset. */
  lemma Nv12DownloadChroma(dev: seq<byte>, target: seq<byte>, rowBytes: nat, height: nat, stride: StrideInfo,
                           r: nat, c: nat, i: nat, j: nat)
    requires StrideHolds(NV12, rowBytes, height, stride)
    requires |target| >= rowBytes * HostRows(NV12, height) && |dev| >= stride.strideX * DeviceRows(NV12, height, stride)
    requires r < (height + 1) / 2 && c < rowBytes
    requires i == (height + r) * rowBytes + c && j == (stride.strideY + r) * stride.strideX + c
    requires i < |target| && j < |dev|
    ensures IntendedNv12Downloaded(dev, target, rowBytes, height, stride)[i] == dev[j]
  {
    var d1 := IntendedDownloadFirstCopy(rowBytes, height, stride.strideX);
    var d2 := IntendedDownloadSecondCopy(d1, height, stride.strideY);
    assert Fits(d1, |dev|, |target|) && Fits(d2, |dev|, |target|) by {
      DownloadFits(NV12, rowBytes, height, stride, |dev|, |target|);
    }
    var host1 := Copy2D(dev, target, d1);
    assert Copy2D(dev, host1, d2)[i] == dev[j] by {
      ChromaCopyRows(rowBytes, height, stride, r);
      CopyRowsWritten(dev, host1, d2, d2.height, r, c);
    }
    assert IntendedNv12Downloaded(dev, target, rowBytes, height, stride) == Copy2D(dev, host1, d2);
  }

  /**
   * As written, device chroma row strideY + r lands on host row
   * ChromaCopyHeight(height) + r instead, for each of the ChromaCopyHeight(height) rows copied.
   */
  lemma Nv12DownloadChromaAsWritten(dev: seq<byte>, target: seq<byte>, rowBytes: nat, height: nat, stride: StrideInfo,
                                    r: nat, c: nat, k: nat, j: nat)
    requires StrideHolds(NV12, rowBytes, height, stride)
    requires |target| >= rowBytes * HostRows(NV12, height) && |dev| >= stride.strideX * DeviceRows(NV12, height, stride)
    requires r < ChromaCopyHeight(height) && c < rowBytes
    requires k == (ChromaCopyHeight(height) + r) * rowBytes + c && j == (stride.strideY + r) * stride.strideX + c
    requires k < |target| && j < |dev|
    ensures Downloaded(NV12, dev, target, rowBytes, height, stride)[k] == dev[j]
  {
    var d1 := DownloadFirstCopy(NV12, rowBytes, height, stride.strideX);
    var w2 := DownloadSecondCopy(d1, height, stride.strideY);
    assert Fits(d1, |dev|, |target|) && Fits(w2, |dev|, |target|) by {
      DownloadFits(NV12, rowBytes, height, stride, |dev|, |target|);
    }
    ChromaCopyRows(rowBytes, height, stride, r);
    CopyRowsWritten(dev, Copy2D(dev, target, d1), w2, w2.height, r, c);
  }

  /** Byte c of luma row r lies inside both the host image and the device buffer. */
  lemma LumaIndexBounds(rowBytes: nat, height: nat, stride: StrideInfo, r: nat, c: nat)
    requires StrideHolds(NV12, rowBytes, height, stride)
    requires r < height && c < rowBytes
    ensures r * rowBytes + c < rowBytes * HostRows(NV12, height)
    ensures r * stride.strideX + c < stride.strideX * DeviceRows(NV12, height, stride)
  {
    BeforeRow(r, HostRows(NV12, height), rowBytes, c);
    BeforeRow(r, DeviceRows(NV12, height, stride), stride.strideX, c);
  }

  /** Byte c of chroma row r lies inside both the host image and the device buffer. */
  lemma ChromaIndexBounds(rowBytes: nat, height: nat, stride: StrideInfo, r: nat, c: nat)
    requires StrideHolds(NV12, rowBytes, height, stride)
    requires r < (height + 1) / 2 && c < rowBytes
    ensures (height + r) * rowBytes + c < rowBytes * HostRows(NV12, height)
    ensures (stride.strideY + r) * stride.strideX + c < stride.strideX * DeviceRows(NV12, height, stride)
  {
    BeforeRow(height + r, HostRows(NV12, height), rowBytes, c);
    BeforeRow(stride.strideY + r, DeviceRows(NV12, height, stride), stride.strideX, c);
  }

  /** A luma byte of the NV12 round trip with the intended offsets comes back. */
  lemma Nv12RoundTripLuma(host: seq<byte>, dev: seq<byte>, target: seq<byte>, rowBytes: nat, height: nat, stride: StrideInfo,
                          r: nat, c: nat, i: nat, j: nat)
    requires StrideHolds(NV12, rowBytes, height, stride)
    requires |host| >= rowBytes * HostRows(NV12, height) && |target| >= rowBytes * HostRows(NV12, height)
    requires |dev| >= stride.strideX * DeviceRows(NV12, height, stride)
    requires r < height && c < rowBytes && i == r * rowBytes + c && j == r * stride.strideX + c
    requires i < |host| && i < |target| && j < |dev|
    ensures IntendedNv12Downloaded(IntendedNv12Uploaded(host, dev, rowBytes, height, stride), target, rowBytes, height, stride)[i]
         == host[i]
  {
    var dev2 := IntendedNv12Uploaded(host, dev, rowBytes, height, stride);
    Nv12UploadLuma(host, dev, rowBytes, height, stride, r, c, i, j);
    Nv12DownloadLuma(dev2, target, rowBytes, height, stride, r, c, i, j);
  }

  /** A chroma byte of the NV12 round trip with the intended offsets comes back. */
  lemma Nv12RoundTripChroma(host: seq<byte>, dev: seq<byte>, target: seq<byte>, rowBytes: nat, height: nat, stride: StrideInfo,
                            r: nat, c: nat, i: nat, j: nat)
    requires StrideHolds(NV12, rowBytes, height, stride)
    requires |host| >= rowBytes * HostRows(NV12, height) && |target| >= rowBytes * HostRows(NV12, height)
    requires |dev| >= stride.strideX * DeviceRows(NV12, height, stride)
    requires r < (height + 1) / 2 && c < rowBytes
    requires i == (height + r) * rowBytes + c && j == (stride.strideY + r) * stride.strideX + c
    requires i < |host| && i < |target| && j < |dev|
    ensures IntendedNv12Downloaded(IntendedNv12Uploaded(host, dev, rowBytes, height, stride), target, rowBytes, height, stride)[i]
         == host[i]
  {
    var dev2 := IntendedNv12Uploaded(host, dev, rowBytes, height, stride);
    Nv12UploadChroma(host, dev, rowBytes, height, stride, r, c, i, j);
    Nv12DownloadChroma(dev2, target, rowBytes, height, stride, r, c, i, j);
  }

  /** Host byte i of the luma plane is byte c of luma row r, which lives at j on the device. */
  lemma LocateLuma(rowBytes: nat, height: nat, stride: StrideInfo, i: nat) returns (r: nat, c: nat, j: nat)
    requires StrideHolds(NV12, rowBytes, height, stride)
    requires i < rowBytes * height
    ensures r < height && c < rowBytes && i == r * rowBytes + c && j == r * stride.strideX + c
    ensures j < stride.strideX * DeviceRows(NV12, height, stride)
  {
    r, c := RowAndColumn(i, rowBytes, height);
    j := r * stride.strideX + c;
    LumaIndexBounds(rowBytes, height, stride, r, c);
  }

  /** Host byte i past the luma plane is byte c of chroma row r, which lives at j on the device. */
  lemma LocateChroma(rowBytes: nat, height: nat, stride: StrideInfo, i: nat) returns (r: nat, c: nat, j: nat)
    requires StrideHolds(NV12, rowBytes, height, stride)
    requires rowBytes * height <= i < rowBytes * HostRows(NV12, height)
    ensures r < (height + 1) / 2 && c < rowBytes
    ensures i == (height + r) * rowBytes + c && j == (stride.strideY + r) * stride.strideX + c
    ensures j < stride.strideX * DeviceRows(NV12, height, stride)
  {
    var rows := (height + 1) / 2;
    assert HostRows(NV12, height) == height + rows;
    Distribute(height, rows, rowBytes);
    var k := i - rowBytes * height;
    r, c := RowAndColumn(k, rowBytes, rows);
    Distribute(height, r, rowBytes);
    j := (stride.strideY + r) * stride.strideX + c;
    ChromaIndexBounds(rowBytes, height, stride, r, c);
  }

  /** One byte of the NV12 round trip with the intended offsets comes back. */
  lemma Nv12RoundTripAt(host: seq<byte>, dev: seq<byte>, target: seq<byte>, rowBytes: nat, height: nat, stride: StrideInfo,
                        i: nat)
    requires StrideHolds(NV12, rowBytes, height, stride)
    requires |host| >= rowBytes * HostRows(NV12, height) && |target| >= rowBytes * HostRows(NV12, height)
    requires |dev| >= stride.strideX * DeviceRows(NV12, height, stride)
    requires i < rowBytes * HostRows(NV12, height)
    ensures IntendedNv12Downloaded(IntendedNv12Uploaded(host, dev, rowBytes, height, stride), target, rowBytes, height, stride)[i]
         == host[i]
  {
    if i < rowBytes * height {
      var r, c, j := LocateLuma(rowBytes, height, stride, i);
      Nv12RoundTripLuma(host, dev, target, rowBytes, height, stride, r, c, i, j);
    } else {
      var r, c, j := LocateChroma(rowBytes, height, stride, i);
      Nv12RoundTripChroma(host, dev, target, rowBytes, height, stride, r, c, i, j);
    }
  }

  /**
   * With the chroma offsets at the end of the luma plane, an NV12 image
   * survives upload and download byte for byte.
   */
  lemma Nv12RoundTrip(host: seq<byte>, dev: seq<byte>, target: seq<byte>, rowBytes: nat, height: nat, stride: StrideInfo)
    requires StrideHolds(NV12, rowBytes, height, stride)
    requires |host| >= rowBytes * HostRows(NV12, height) && |target| >= rowBytes * HostRows(NV12, height)
    requires |dev| >= stride.strideX * DeviceRows(NV12, height, stride)
    ensures IntendedNv12Downloaded(IntendedNv12Uploaded(host, dev, rowBytes, height, stride), target, rowBytes, height, stride)
              [..rowBytes * HostRows(NV12, height)]
         == host[..rowBytes * HostRows(NV12, height)]
  {
    var out := IntendedNv12Downloaded(IntendedNv12Uploaded(host, dev, rowBytes, height, stride), target, rowBytes, height, stride);
    var n := rowBytes * HostRows(NV12, height);
    assert forall i :: 0 <= i < n ==> out[i] == host[i] by {
      forall i | 0 <= i < n
        ensures out[i] == host[i]
      {
        Nv12RoundTripAt(host, dev, target, rowBytes, height, stride, i);
      }
    }
  }

  /** The indices the two as-written lemmas below compare all lie inside their buffers. */
  lemma MiddleRowBounds(rowBytes: nat, height: nat, stride: StrideInfo, c: nat, hostLen: nat, devLen: nat)
    requires StrideHolds(NV12, rowBytes, height, stride)
    requires hostLen >= rowBytes * HostRows(NV12, height) && devLen >= stride.strideX * DeviceRows(NV12, height, stride)
    requires height >= 2 && c < rowBytes
    ensures (height + 1) / 2 < height
    ensures (height + 1) / 2 * rowBytes + c < hostLen && height * rowBytes + c < hostLen
    ensures stride.strideY * stride.strideX + c < devLen && (height + 1) / 2 * stride.strideX + c < devLen
  {
    var rows := (height + 1) / 2;
    BeforeRow(height, height + rows, rowBytes, c);
    MulLeq(rowBytes, rows, height);
    BeforeRow(stride.strideY, stride.strideY + rows, stride.strideX, c);
    BeforeRow(rows, height, stride.strideX, c);
    MulLeq(stride.strideX, height, DeviceRows(NV12, height, stride));
  }

  /**
   * As written, upload fills the device chroma plane from the middle of the
   * luma plane: for an image of two or more rows (below 0xFFFF_FFFF, where
   * the wrapped chroma copy is empty), the device's first chroma
   * row is host luma row (height + 1) / 2, so it differs from the intended
   * result wherever that luma row differs from the first chroma row.
   */
  lemma Nv12UploadReadsLuma(host: seq<byte>, dev: seq<byte>, rowBytes: nat, height: nat, stride: StrideInfo,
                            c: nat, k: nat, i: nat, j: nat)
    requires StrideHolds(NV12, rowBytes, height, stride)
    requires |host| >= rowBytes * HostRows(NV12, height) && |dev| >= stride.strideX * DeviceRows(NV12, height, stride)
    requires 2 <= height < 0xFFFF_FFFF && c < rowBytes
    requires k == (height + 1) / 2 * rowBytes + c && i == height * rowBytes + c && j == stride.strideY * stride.strideX + c
    ensures (height + 1) / 2 < height
    ensures k < |host| && i < |host| && j < |dev|
    ensures Uploaded(NV12, host, dev, rowBytes, height, stride)[j] == host[k]
    ensures host[k] != host[i] ==>
              Uploaded(NV12, host, dev, rowBytes, height, stride)[j] != IntendedNv12Uploaded(host, dev, rowBytes, height, stride)[j]
  {
    var rows := (height + 1) / 2;
    MiddleRowBounds(rowBytes, height, stride, c, |host|, |dev|);
    assert ChromaCopyHeight(height) == rows by {
      WrappedHeights(height);
    }
    assert k == (rows + 0) * rowBytes + c && j == (stride.strideY + 0) * stride.strideX + c;
    assert i == (height + 0) * rowBytes + c;
    Nv12UploadChromaAsWritten(host, dev, rowBytes, height, stride, 0, c, k, j);
    Nv12UploadChroma(host, dev, rowBytes, height, stride, 0, c, i, j);
  }

  /**
   * As written, download writes the device chroma plane over the middle of
   * the host luma plane: for an image of two or more rows (below
   * 0xFFFF_FFFF, where the wrapped chroma copy is empty), host luma row
   * (height + 1) / 2 receives the device's first chroma row instead of its
   * own luma row.
   */
  lemma Nv12DownloadOverwritesLuma(dev: seq<byte>, target: seq<byte>, rowBytes: nat, height: nat, stride: StrideInfo,
                                   c: nat, k: nat, jc: nat, jl: nat)
    requires StrideHolds(NV12, rowBytes, height, stride)
    requires |target| >= rowBytes * HostRows(NV12, height) && |dev| >= stride.strideX * DeviceRows(NV12, height, stride)
    requires 2 <= height < 0xFFFF_FFFF && c < rowBytes
    requires k == (height + 1) / 2 * rowBytes + c
    requires jc == stride.strideY * stride.strideX + c && jl == (height + 1) / 2 * stride.strideX + c
    ensures (height + 1) / 2 < height
    ensures k < |target| && jc < |dev| && jl < |dev|
    ensures Downloaded(NV12, dev, target, rowBytes, height, stride)[k] == dev[jc]
    ensures IntendedNv12Downloaded(dev, target, rowBytes, height, stride)[k] == dev[jl]
  {
    var rows := (height + 1) / 2;
    MiddleRowBounds(rowBytes, height, stride, c, |target|, |dev|);
    assert ChromaCopyHeight(height) == rows by {
      WrappedHeights(height);
    }
    assert k == (rows + 0) * rowBytes + c && jc == (stride.strideY + 0) * stride.strideX + c;
    Nv12DownloadChromaAsWritten(dev, target, rowBytes, height, stride, 0, c, k, jc);
    Nv12DownloadLuma(dev, target, rowBytes, height, stride, rows, c, k, jl);
  }
}
