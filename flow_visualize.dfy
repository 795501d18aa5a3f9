/**
 * postProcessVectors of main.cpp: decode the downloaded S10.5 vectors into an
 * interleaved buffer of (fx, fy) values, scan them for unknown vectors while
 * folding the component extremes and the largest radius, then write one
 * pixel of three bytes per vector, row-major.
 *
 * The decode is exact (a 16-bit integer over 32 is exact in single precision
 * too), so it is modelled with reals. The radius sqrt(fx * fx + fy * fy) and
 * the colour of a normalised vector (ComputeColor) are floating-point
 * computations passed in as functions the model does not interpret.
 */
module FlowVisualize {
  import opened NvOFInterface
  import opened ColorWheel

  /** UNKNOWN_FLOW_THRESH */
  const UnknownFlowThresh: real := 1_000_000_000.0

  function Abs(x: real): real { if x < 0.0 then -x else x }

  function MaxReal(a: real, b: real): real { if a < b then b else a }

  function MinReal(a: real, b: real): real { if a < b then a else b }

  /** unknown_flow: a component whose magnitude is beyond the threshold (NaN has no counterpart among reals). */
  predicate UnknownFlow(u: real, v: real)
  {
    Abs(u) > UnknownFlowThresh || Abs(v) > UnknownFlowThresh
  }

  /** Every decoded S10.5 vector is known, so neither the early return nor the black pixel can occur on driver output. */
  lemma DecodedFlowIsKnown(v: FlowVector)
    ensures !UnknownFlow(FlowComponent(v.flowx), FlowComponent(v.flowy))
  {
    FlowComponentRoundTrip(v.flowx);
    FlowComponentRoundTrip(v.flowy);
  }

  // ---------------------------------------------------------------------------
  // Views of the interleaved buffer
  // ---------------------------------------------------------------------------

  /** Component `axis` (0 for x, 1 for y) of each of the first `count` vectors. */
  function Components(flowvec: seq<real>, count: nat, axis: nat): (s: seq<real>)
    requires 2 * count <= |flowvec| && axis < 2
    ensures |s| == count
  {
    seq(count, n requires 0 <= n < count => flowvec[2 * n + axis])
  }

  /** The radius of each of the first `count` vectors, as `radius` computes it. */
  function Radii(flowvec: seq<real>, count: nat, radius: (real, real) -> real): (s: seq<real>)
    requires 2 * count <= |flowvec|
    ensures |s| == count
  {
    seq(count, n requires 0 <= n < count => radius(flowvec[2 * n], flowvec[2 * n + 1]))
  }

  predicate UnknownAt(flowvec: seq<real>, n: nat)
    requires 2 * n + 1 < |flowvec|
  {
    UnknownFlow(flowvec[2 * n], flowvec[2 * n + 1])
  }

  /** A left fold of max over s, starting from init (std::max in a loop). */
  function FoldMax(init: real, s: seq<real>): real
  {
    if s == [] then init else MaxReal(FoldMax(init, s[..|s| - 1]), s[|s| - 1])
  }

  /** A left fold of min over s, starting from init (std::min in a loop). */
  function FoldMin(init: real, s: seq<real>): real
  {
    if s == [] then init else MinReal(FoldMin(init, s[..|s| - 1]), s[|s| - 1])
  }

  /** The fold is the largest of init and the elements: it bounds them all and is one of them. */
  lemma {:induction false} FoldMaxIsMaximum(init: real, s: seq<real>)
    ensures FoldMax(init, s) >= init
    ensures forall i :: 0 <= i < |s| ==> FoldMax(init, s) >= s[i]
    ensures FoldMax(init, s) == init || exists i :: 0 <= i < |s| && FoldMax(init, s) == s[i]
  {
    if s != [] {
      var t := s[..|s| - 1];
      FoldMaxIsMaximum(init, t);
      assert forall i :: 0 <= i < |t| ==> s[i] == t[i];
    }
  }

  /** The fold is the smallest of init and the elements. */
  lemma {:induction false} FoldMinIsMinimum(init: real, s: seq<real>)
    ensures FoldMin(init, s) <= init
    ensures forall i :: 0 <= i < |s| ==> FoldMin(init, s) <= s[i]
    ensures FoldMin(init, s) == init || exists i :: 0 <= i < |s| && FoldMin(init, s) == s[i]
  {
    if s != [] {
      var t := s[..|s| - 1];
      FoldMinIsMinimum(init, t);
      assert forall i :: 0 <= i < |t| ==> s[i] == t[i];
    }
  }

  /** maxrad after the scan: the fold from -1 of the radii, clamped below at 1. */
  function ClampedMaxRadius(flowvec: seq<real>, count: nat, radius: (real, real) -> real): real
    requires 2 * count <= |flowvec|
  {
    MaxReal(FoldMax(-1.0, Radii(flowvec, count, radius)), 1.0)
  }

  /** The clamp keeps maxrad at least 1 (so dividing by it is safe) and at least every radius. */
  lemma ClampedMaxRadiusBounds(flowvec: seq<real>, count: nat, radius: (real, real) -> real)
    requires 2 * count <= |flowvec|
    ensures ClampedMaxRadius(flowvec, count, radius) >= 1.0
    ensures forall n :: 0 <= n < count ==>
      ClampedMaxRadius(flowvec, count, radius) >= radius(flowvec[2 * n], flowvec[2 * n + 1])
  {
    var rs := Radii(flowvec, count, radius);
    FoldMaxIsMaximum(-1.0, rs);
    assert forall n :: 0 <= n < count ==> rs[n] == radius(flowvec[2 * n], flowvec[2 * n + 1]);
  }

  // ---------------------------------------------------------------------------
  // The three loops of postProcessVectors
  // ---------------------------------------------------------------------------

  /** The inner loop of the first loop: the vectors of row y. */
  method DecodeRow(vectors: seq<FlowVector>, buf: array<real>, outwidth: nat, y: nat)
    requires y * outwidth + outwidth <= |vectors| && 2 * (y * outwidth + outwidth) <= buf.Length
    modifies buf
    ensures forall n :: y * outwidth <= n < y * outwidth + outwidth ==>
      buf[2 * n] == FlowComponent(vectors[n].flowx) && buf[2 * n + 1] == FlowComponent(vectors[n].flowy)
    ensures forall i :: 0 <= i < buf.Length && !(2 * (y * outwidth) <= i < 2 * (y * outwidth + outwidth)) ==>
      buf[i] == old(buf[i])
  {
    ghost var row := y * outwidth;
    for x := 0 to outwidth
      invariant forall n :: row <= n < row + x ==>
        buf[2 * n] == FlowComponent(vectors[n].flowx) && buf[2 * n + 1] == FlowComponent(vectors[n].flowy)
      invariant forall i :: 0 <= i < buf.Length && !(2 * row <= i < 2 * (row + x)) ==> buf[i] == old(buf[i])
    {
      assert (y * 2 * outwidth) + 2 * x == 2 * (row + x);
      buf[(y * 2 * outwidth) + 2 * x] := FlowComponent(vectors[y * outwidth + x].flowx);
      buf[(y * 2 * outwidth) + 2 * x + 1] := FlowComponent(vectors[y * outwidth + x].flowy);
    }
  }

  /** The first loop: vector n's components go to positions 2n and 2n + 1, divided by 32. */
  method DecodeFlow(vectors: seq<FlowVector>, outwidth: nat, outheight: nat) returns (flowvec: seq<real>)
    requires outwidth * outheight <= |vectors|
    ensures |flowvec| == 2 * (outwidth * outheight)
    ensures forall n :: 0 <= n < outwidth * outheight ==>
      flowvec[2 * n] == FlowComponent(vectors[n].flowx) && flowvec[2 * n + 1] == FlowComponent(vectors[n].flowy)
  {
    var buf := new real[outwidth * outheight * 2];
    ghost var count := outwidth * outheight;
    assert buf.Length == 2 * count;
    ghost var row := 0;
    for y := 0 to outheight
      invariant row == y * outwidth && row <= count
      invariant forall n :: 0 <= n < row ==>
        buf[2 * n] == FlowComponent(vectors[n].flowx) && buf[2 * n + 1] == FlowComponent(vectors[n].flowy)
    {
      RowInGrid(y, outwidth, outheight);
      DecodeRow(vectors, buf, outwidth, y);
      GridRowStep(y, outwidth);
      row := row + outwidth;
    }
    flowvec := buf[..];
  }

  /** Row y of a height-by-width grid, y < h, ends by the grid's end. */
  lemma RowInGrid(y: nat, w: nat, h: nat)
    requires y < h
    ensures y * w + w <= w * h
  {
    var d := h - (y + 1);
    assert (y + 1) * w == y * w + w;
    assert h * w == (y + 1) * w + d * w;
  }

  /** The next row starts one width further on. */
  lemma GridRowStep(y: nat, w: nat)
    ensures (y + 1) * w == y * w + w
  {
  }

  /** What the scan loop leaves behind: an abort, or the folded extremes. */
  datatype Scan = Aborted | Scanned(maxx: real, maxy: real, minx: real, miny: real, maxrad: real)

  /**
   * The second loop: stop at the first unknown vector; otherwise fold the
   * component maxima and minima (from -999 and 999), and the largest radius
   * (from -1), clamped below at 1.
   */
  method ScanFlow(flowvec: seq<real>, count: nat, radius: (real, real) -> real) returns (s: Scan)
    requires 2 * count <= |flowvec|
    ensures s.Aborted? <==> exists n :: 0 <= n < count && UnknownAt(flowvec, n)
    ensures s.Scanned? ==>
      && s.maxx == FoldMax(-999.0, Components(flowvec, count, 0))
      && s.maxy == FoldMax(-999.0, Components(flowvec, count, 1))
      && s.minx == FoldMin(999.0, Components(flowvec, count, 0))
      && s.miny == FoldMin(999.0, Components(flowvec, count, 1))
      && s.maxrad == ClampedMaxRadius(flowvec, count, radius)
  {
    var maxx, maxy := -999.0, -999.0;
    var minx, miny := 999.0, 999.0;
    var maxrad := -1.0;
    for n := 0 to count
      invariant forall j :: 0 <= j < n ==> !UnknownAt(flowvec, j)
      invariant maxx == FoldMax(-999.0, Components(flowvec, n, 0))
      invariant maxy == FoldMax(-999.0, Components(flowvec, n, 1))
      invariant minx == FoldMin(999.0, Components(flowvec, n, 0))
      invariant miny == FoldMin(999.0, Components(flowvec, n, 1))
      invariant maxrad == FoldMax(-1.0, Radii(flowvec, n, radius))
    {
      var fx := flowvec[2 * n];
      var fy := flowvec[(2 * n) + 1];
      if UnknownFlow(fx, fy) {
        assert UnknownAt(flowvec, n);
        return Aborted;
      }
      assert Components(flowvec, n + 1, 0) == Components(flowvec, n, 0) + [fx];
      assert Components(flowvec, n + 1, 1) == Components(flowvec, n, 1) + [fy];
      assert Radii(flowvec, n + 1, radius) == Radii(flowvec, n, radius) + [radius(fx, fy)];
      maxx := MaxReal(maxx, fx);
      maxy := MaxReal(maxy, fy);
      minx := MinReal(minx, fx);
      miny := MinReal(miny, fy);
      var rad := radius(fx, fy);
      maxrad := MaxReal(maxrad, rad);
    }
    maxrad := MaxReal(maxrad, 1.0);
    s := Scanned(maxx, maxy, minx, miny, maxrad);
  }

  /** The pixel the output loop writes for vector n: black if unknown, else the colour of the normalised vector. */
  function PixelFor(flowvec: seq<real>, n: nat, maxrad: real, color: (real, real) -> Pixel): Pixel
    requires 2 * n + 1 < |flowvec| && maxrad != 0.0
  {
    if UnknownAt(flowvec, n) then Pixel(0, 0, 0)
    else color(flowvec[2 * n] / maxrad, flowvec[2 * n + 1] / maxrad)
  }

  /** The three bytes of one pixel, written at base .. base + 2. */
  method PutPixel(output: array<byte>, base: nat, pix: Pixel)
    requires base + 2 < output.Length
    modifies output
    ensures forall c :: 0 <= c < 3 ==> output[base + c] == pix.At(c)
    ensures forall i :: 0 <= i < output.Length && !(base <= i < base + 3) ==> output[i] == old(output[i])
  {
    output[base] := pix.p0;
    output[base + 1] := pix.p1;
    output[base + 2] := pix.p2;
  }

  /** The inner loop of the third loop: row y of pixels, vectors y * outwidth .. y * outwidth + outwidth - 1. */
  method RenderRow(flowvec: seq<real>, maxrad: real, output: array<byte>, outwidth: nat, y: nat,
                   color: (real, real) -> Pixel)
    requires 2 * (y * outwidth + outwidth) <= |flowvec| && 3 * (y * outwidth + outwidth) <= output.Length
    requires maxrad >= 1.0
    modifies output
    ensures forall n, c :: y * outwidth <= n < y * outwidth + outwidth && 0 <= c < 3 ==>
      output[3 * n + c] == PixelFor(flowvec, n, maxrad, color).At(c)
    ensures forall i :: 0 <= i < output.Length && !(3 * (y * outwidth) <= i < 3 * (y * outwidth + outwidth)) ==>
      output[i] == old(output[i])
  {
    ghost var row := y * outwidth;
    for x := 0 to outwidth
      invariant forall n, c :: row <= n < row + x && 0 <= c < 3 ==>
        output[3 * n + c] == PixelFor(flowvec, n, maxrad, color).At(c)
      invariant forall i :: 0 <= i < output.Length && !(3 * row <= i < 3 * (row + x)) ==> output[i] == old(output[i])
    {
      ghost var n := row + x;
      assert (y * outwidth * 2) + (2 * x) == 2 * n;
      var fx := flowvec[(y * outwidth * 2) + (2 * x)];
      var fy := flowvec[(y * outwidth * 2) + (2 * x) + 1];
      var pix: Pixel;
      if UnknownFlow(fx, fy) {
        pix := Pixel(0, 0, 0);
      } else {
        pix := color(fx / maxrad, fy / maxrad);
      }
      assert pix == PixelFor(flowvec, n, maxrad, color);
      var base := (y * outwidth * 3) + (3 * x);
      assert base == 3 * n;
      PutPixel(output, base, pix);
    }
  }

  /**
   * The third loop: pixel (x, y) goes to bytes 3 * (y * outwidth + x) .. + 2;
   * nothing past outwidth * outheight * 3 bytes is written.
   */
  method RenderFlow(flowvec: seq<real>, maxrad: real, output: array<byte>, outwidth: nat, outheight: nat,
                    color: (real, real) -> Pixel)
    requires 2 * (outwidth * outheight) <= |flowvec| && 3 * (outwidth * outheight) <= output.Length
    requires maxrad >= 1.0
    modifies output
    ensures forall n, c :: 0 <= n < outwidth * outheight && 0 <= c < 3 ==>
      output[3 * n + c] == PixelFor(flowvec, n, maxrad, color).At(c)
    ensures forall i :: 3 * (outwidth * outheight) <= i < output.Length ==> output[i] == old(output[i])
  {
    ghost var count := outwidth * outheight;
    ghost var row := 0;
    for y := 0 to outheight
      invariant row == y * outwidth && row <= count
      invariant forall n, c :: 0 <= n < row && 0 <= c < 3 ==>
        output[3 * n + c] == PixelFor(flowvec, n, maxrad, color).At(c)
      invariant forall i :: 3 * row <= i < output.Length ==> output[i] == old(output[i])
    {
      RowInGrid(y, outwidth, outheight);
      RenderRow(flowvec, maxrad, output, outwidth, y, color);
      GridRowStep(y, outwidth);
      row := row + outwidth;
    }
  }

  /** The colour of a raw vector once decoded and divided by maxrad. */
  function VectorPixel(v: FlowVector, maxrad: real, color: (real, real) -> Pixel): Pixel
    requires maxrad != 0.0
  {
    color(FlowComponent(v.flowx) / maxrad, FlowComponent(v.flowy) / maxrad)
  }

  /** maxrad for the raw vectors: the clamped largest radius of their decoded values. */
  function DecodedMaxRadius(vectors: seq<FlowVector>, count: nat, radius: (real, real) -> real): real
    requires count <= |vectors|
  {
    var rs := seq(count, n requires 0 <= n < count =>
      radius(FlowComponent(vectors[n].flowx), FlowComponent(vectors[n].flowy)));
    MaxReal(FoldMax(-1.0, rs), 1.0)
  }

  /**
   * `image` holds the first `count` vectors drawn: three bytes per pixel in
   * row-major order, each the colour of its vector over the clamped largest
   * radius, which is at least 1.
   */
  ghost predicate Drawn(image: seq<byte>, vectors: seq<FlowVector>, count: nat, radius: (real, real) -> real,
                        color: (real, real) -> Pixel)
    requires count <= |vectors| && 3 * count <= |image|
  {
    && DecodedMaxRadius(vectors, count, radius) >= 1.0
    && forall n, c :: 0 <= n < count && 0 <= c < 3 ==>
         image[3 * n + c] == VectorPixel(vectors[n], DecodedMaxRadius(vectors, count, radius), color).At(c)
  }

  /**
   * postProcessVectors on a buffer of outwidth * outheight vectors. The image
   * is always drawn, since decoded vectors are never unknown; each pixel is
   * the colour of its vector divided by the clamped largest radius, in
   * row-major order, three bytes per pixel; the rest of `output` is left as
   * it was.
   */
  method PostProcessVectors(vectors: seq<FlowVector>, output: array<byte>, outwidth: nat, outheight: nat,
                            radius: (real, real) -> real, color: (real, real) -> Pixel) returns (drawn: bool)
    requires outwidth * outheight <= |vectors| && 3 * (outwidth * outheight) <= output.Length
    modifies output
    ensures drawn
    ensures Drawn(output[..], vectors, outwidth * outheight, radius, color)
    ensures forall i :: 3 * (outwidth * outheight) <= i < output.Length ==> output[i] == old(output[i])
  {
    var w: nat, h: nat := outwidth, outheight;
    var count := w * h;
    var flowvec := DecodeFlow(vectors, w, h);
    forall n | 0 <= n < count
      ensures !UnknownAt(flowvec, n)
    {
      DecodedFlowIsKnown(vectors[n]);
    }
    var scan := ScanFlow(flowvec, count, radius);
    assert Radii(flowvec, count, radius) == seq(count, n requires 0 <= n < count =>
      radius(FlowComponent(vectors[n].flowx), FlowComponent(vectors[n].flowy)));
    ClampedMaxRadiusBounds(flowvec, count, radius);
    RenderFlow(flowvec, scan.maxrad, output, w, h, color);
    forall n | 0 <= n < count
      ensures PixelFor(flowvec, n, scan.maxrad, color) == VectorPixel(vectors[n], scan.maxrad, color)
    {
    }
    drawn := true;
  }
}
