/**
 * The geometry of a 2-D strided byte copy (the driver's cuMemcpy2DAsync) as
 * the buffer upload and download use it: `height` rows of `widthInBytes`
 * bytes, row r read at srcOffset + (srcY + r) * srcPitch and written at
 * dstOffset + (dstY + r) * dstPitch. The column offsets srcXInBytes and
 * dstXInBytes are always zero here and are not modelled.
 */
module GpuCopy {
  import opened NvOFInterface

  /** Where a copy's source or destination lives; Unset is the value the zero-filled record holds. */
  datatype MemoryType = Unset | Host | Device

  /** The fields of CUDA_MEMCPY2D the sample sets; the offsets stand for srcHost/srcDevice and dstHost/dstDevice within their arrays. */
  datatype Memcpy2D = Memcpy2D(
    srcMemoryType: MemoryType,
    srcOffset: nat,
    srcY: nat,
    srcPitch: nat,
    dstMemoryType: MemoryType,
    dstOffset: nat,
    dstY: nat,
    dstPitch: nat,
    widthInBytes: nat,
    height: nat)
  {
    /** Where source row r starts. */
    function SrcRow(r: nat): nat { srcOffset + (srcY + r) * srcPitch }

    /** Where destination row r starts. */
    function DstRow(r: nat): nat { dstOffset + (dstY + r) * dstPitch }
  }

  /** The record after memset to zero. */
  const Cleared := Memcpy2D(Unset, 0, 0, 0, Unset, 0, 0, 0, 0, 0)

  /**
   * A copy is well formed for a source of srcLen bytes and a destination of
   * dstLen bytes: no row is wider than a pitch, so rows never overlap, and
   * the last row of each side ends inside its array.
   */
  predicate Fits(cp: Memcpy2D, srcLen: nat, dstLen: nat)
  {
    && cp.widthInBytes <= cp.srcPitch
    && cp.widthInBytes <= cp.dstPitch
    && (cp.height > 0 ==>
          && cp.SrcRow(cp.height - 1) + cp.widthInBytes <= srcLen
          && cp.DstRow(cp.height - 1) + cp.widthInBytes <= dstLen)
  }

  /** Rows of pitch p starting at row y are ordered: a later row starts at least one pitch further on. */
  lemma RowsOrdered(base: nat, y: nat, p: nat, r1: nat, r2: nat)
    requires r1 < r2
    ensures base + (y + r1) * p + p <= base + (y + r2) * p
  {
    var d := r2 - r1;
    assert (y + r2) * p == (y + r1) * p + d * p;
    assert d * p >= p by {
      assert d * p == (d - 1) * p + p;
    }
  }

  /** Every row of a fitting copy lies inside both arrays. */
  lemma RowFits(cp: Memcpy2D, srcLen: nat, dstLen: nat, r: nat)
    requires Fits(cp, srcLen, dstLen) && r < cp.height
    ensures cp.SrcRow(r) + cp.widthInBytes <= srcLen
    ensures cp.DstRow(r) + cp.widthInBytes <= dstLen
  {
    if r < cp.height - 1 {
      RowsOrdered(cp.srcOffset, cp.srcY, cp.srcPitch, r, cp.height - 1);
      RowsOrdered(cp.dstOffset, cp.dstY, cp.dstPitch, r, cp.height - 1);
    }
  }

  /** A block of n rows of pitch p, starting q + y rows in, ends by row R when q + y + n <= R. */
  lemma BlockInside(q: nat, y: nat, n: nat, p: nat, w: nat, R: nat)
    requires n > 0 && w <= p && q + y + n <= R
    ensures q * p + (y + n - 1) * p + w <= p * R
  {
    assert q * p + (y + n - 1) * p + p == (q + y + n) * p;
    assert (q + y + n) * p <= R * p by {
      assert R * p == (q + y + n) * p + (R - (q + y + n)) * p;
    }
  }

  /**
   * A copy whose offsets are whole rows (qs source rows, qd destination
   * rows) fits when its rows end within srcRows and dstRows rows of the
   * arrays.
   */
  lemma FitsWithinRows(cp: Memcpy2D, qs: nat, qd: nat, srcRows: nat, dstRows: nat, srcLen: nat, dstLen: nat)
    requires cp.widthInBytes <= cp.srcPitch && cp.widthInBytes <= cp.dstPitch
    requires cp.srcOffset == cp.srcPitch * qs && cp.dstOffset == cp.dstPitch * qd
    requires qs + cp.srcY + cp.height <= srcRows && qd + cp.dstY + cp.height <= dstRows
    requires cp.srcPitch * srcRows <= srcLen && cp.dstPitch * dstRows <= dstLen
    ensures Fits(cp, srcLen, dstLen)
  {
    if cp.height > 0 {
      BlockInside(qs, cp.srcY, cp.height, cp.srcPitch, cp.widthInBytes, srcRows);
      BlockInside(qd, cp.dstY, cp.height, cp.dstPitch, cp.widthInBytes, dstRows);
    }
  }

  /**
   * `dst` with row r of the copy written into it. Bytes whose source would
   * lie past the end of `src` are left alone; a copy that fits has none.
   */
  function CopyRow(src: seq<byte>, dst: seq<byte>, cp: Memcpy2D, r: nat): (out: seq<byte>)
    ensures |out| == |dst|
  {
    seq(|dst|, i requires 0 <= i < |dst| =>
      if cp.DstRow(r) <= i < cp.DstRow(r) + cp.widthInBytes && cp.SrcRow(r) + (i - cp.DstRow(r)) < |src|
      then src[cp.SrcRow(r) + (i - cp.DstRow(r))]
      else dst[i])
  }

  /** Byte i after writing row r: the source byte if i falls in the row, else as before. */
  lemma CopyRowAt(src: seq<byte>, dst: seq<byte>, cp: Memcpy2D, r: nat, i: nat)
    requires cp.SrcRow(r) + cp.widthInBytes <= |src|
    requires i < |dst|
    ensures CopyRow(src, dst, cp, r)[i] ==
      if cp.DstRow(r) <= i < cp.DstRow(r) + cp.widthInBytes then src[cp.SrcRow(r) + (i - cp.DstRow(r))] else dst[i]
  {
  }

  /** `dst` with rows 0 .. n - 1 of the copy written into it, in order. */
  function CopyRows(src: seq<byte>, dst: seq<byte>, cp: Memcpy2D, n: nat): (out: seq<byte>)
    ensures |out| == |dst|
    decreases n
  {
    if n == 0 then dst else CopyRow(src, CopyRows(src, dst, cp, n - 1), cp, n - 1)
  }

  /** The destination after the whole copy. */
  function Copy2D(src: seq<byte>, dst: seq<byte>, cp: Memcpy2D): (out: seq<byte>)
    ensures |out| == |dst|
  {
    CopyRows(src, dst, cp, cp.height)
  }

  /** One row of the copy, byte by byte. */
  method CopyRowBytes(cp: Memcpy2D, r: nat, src: array<byte>, dst: array<byte>)
    requires src != dst
    requires cp.SrcRow(r) + cp.widthInBytes <= src.Length && cp.DstRow(r) + cp.widthInBytes <= dst.Length
    modifies dst
    ensures dst[..] == CopyRow(src[..], old(dst[..]), cp, r)
  {
    var s, d := cp.SrcRow(r), cp.DstRow(r);
    for c := 0 to cp.widthInBytes
      invariant forall i :: 0 <= i < dst.Length ==>
        dst[i] == (if d <= i < d + c then src[s + (i - d)] else old(dst[i]))
    {
      dst[d + c] := src[s + c];
    }
    forall i | 0 <= i < dst.Length
      ensures dst[i] == CopyRow(src[..], old(dst[..]), cp, r)[i]
    {
      CopyRowAt(src[..], old(dst[..]), cp, r, i);
    }
  }

  /**
   * The copy as the driver performs it: row by row, from one array into
   * another.
   */
  method Memcpy2DBytes(cp: Memcpy2D, src: array<byte>, dst: array<byte>)
    requires src != dst && Fits(cp, src.Length, dst.Length)
    modifies dst
    ensures dst[..] == Copy2D(src[..], old(dst[..]), cp)
  {
    for r := 0 to cp.height
      invariant dst[..] == CopyRows(src[..], old(dst[..]), cp, r)
    {
      RowFits(cp, src.Length, dst.Length, r);
      CopyRowBytes(cp, r, src, dst);
    }
  }

  /** A byte no row of the first n rows writes. */
  ghost predicate Untouched(cp: Memcpy2D, n: nat, i: int)
  {
    forall r: nat :: r < n ==> i < cp.DstRow(r) || cp.DstRow(r) + cp.widthInBytes <= i
  }

  /** Byte c of row r ends up holding byte c of source row r: later rows never overwrite it. */
  lemma {:induction false} CopyRowsWritten(src: seq<byte>, dst: seq<byte>, cp: Memcpy2D, n: nat, r: nat, c: nat)
    requires Fits(cp, |src|, |dst|) && n <= cp.height
    requires r < n && c < cp.widthInBytes
    ensures cp.DstRow(r) + c < |dst| && cp.SrcRow(r) + c < |src|
    ensures CopyRows(src, dst, cp, n)[cp.DstRow(r) + c] == src[cp.SrcRow(r) + c]
    decreases n
  {
    RowFits(cp, |src|, |dst|, r);
    RowFits(cp, |src|, |dst|, n - 1);
    var prev := CopyRows(src, dst, cp, n - 1);
    CopyRowAt(src, prev, cp, n - 1, cp.DstRow(r) + c);
    if r < n - 1 {
      CopyRowsWritten(src, dst, cp, n - 1, r, c);
      RowsOrdered(cp.dstOffset, cp.dstY, cp.dstPitch, r, n - 1);
    }
  }

  /** A byte outside every written row keeps its value. */
  lemma {:induction false} CopyRowsUntouched(src: seq<byte>, dst: seq<byte>, cp: Memcpy2D, n: nat, i: nat)
    requires Fits(cp, |src|, |dst|) && n <= cp.height
    requires i < |dst| && Untouched(cp, n, i)
    ensures CopyRows(src, dst, cp, n)[i] == dst[i]
    decreases n
  {
    if n > 0 {
      RowFits(cp, |src|, |dst|, n - 1);
      assert i < cp.DstRow(n - 1) || cp.DstRow(n - 1) + cp.widthInBytes <= i;
      CopyRowAt(src, CopyRows(src, dst, cp, n - 1), cp, n - 1, i);
      CopyRowsUntouched(src, dst, cp, n - 1, i);
    }
  }

  /** Bytes before the first row and after the last row are untouched. */
  lemma OutsideBlock(cp: Memcpy2D, n: nat, i: int)
    requires n > 0
    requires i < cp.DstRow(0) || cp.DstRow(n - 1) + cp.widthInBytes <= i
    requires cp.widthInBytes <= cp.dstPitch
    ensures Untouched(cp, n, i)
  {
    forall r: nat | r < n
      ensures i < cp.DstRow(r) || cp.DstRow(r) + cp.widthInBytes <= i
    {
      if 0 < r {
        RowsOrdered(cp.dstOffset, cp.dstY, cp.dstPitch, 0, r);
      }
      if r < n - 1 {
        RowsOrdered(cp.dstOffset, cp.dstY, cp.dstPitch, r, n - 1);
      }
    }
  }

  /** Column m of row q, at or past the width w, is not inside the first w bytes of any row k of pitch p. */
  lemma OutsidePitchedRow(k: nat, q: nat, m: nat, p: nat, w: nat)
    requires w <= m < p
    ensures q * p + m < k * p || k * p + w <= q * p + m
  {
    if k <= q {
      var d: nat := q - k;
      assert q * p == k * p + d * p;
    } else {
      var d: nat := k - q - 1;
      assert k * p == q * p + p + d * p;
    }
  }

  /**
   * For a copy whose destination rows start at whole multiples of the pitch,
   * a byte in the padding of any row (its column at or past the width) is
   * outside every copied row, wherever the copy starts.
   */
  lemma PaddingOutsideEveryRow(cp: Memcpy2D, n: nat, i: nat)
    requires cp.dstOffset == 0 && cp.dstPitch > 0 && cp.widthInBytes <= i % cp.dstPitch
    ensures Untouched(cp, n, i)
  {
    var p := cp.dstPitch;
    var q, m := i / p, i % p;
    assert i == q * p + m;
    forall r: nat | r < n
      ensures i < cp.DstRow(r) || cp.DstRow(r) + cp.widthInBytes <= i
    {
      OutsidePitchedRow(cp.dstY + r, q, m, p, cp.widthInBytes);
    }
  }

  /** The padding of row r, the bytes between the row's width and its pitch, is untouched. */
  lemma PaddingUntouched(cp: Memcpy2D, n: nat, r: nat, c: nat)
    requires r < n && cp.widthInBytes <= c < cp.dstPitch
    ensures Untouched(cp, n, cp.DstRow(r) + c)
  {
    forall r': nat | r' < n
      ensures cp.DstRow(r) + c < cp.DstRow(r') || cp.DstRow(r') + cp.widthInBytes <= cp.DstRow(r) + c
    {
      if r' < r {
        RowsOrdered(cp.dstOffset, cp.dstY, cp.dstPitch, r', r);
      } else if r < r' {
        RowsOrdered(cp.dstOffset, cp.dstY, cp.dstPitch, r, r');
      }
    }
  }
}
