/**
 * The colour wheel of main.cpp: a 60-row table of RGB triples filled by
 * MakeColorWheel through SetColors and a running row counter, and the index
 * arithmetic ComputeColor uses to pick two neighbouring rows of it.
 *
 * The floating-point parts of ComputeColor (sqrtf, atan2f, the blend and the
 * truncation to a byte) are passed in as functions the model does not
 * interpret.
 */
module ColorWheel {
  import opened NvOFInterface

  /** Rows of m_colorwheel. */
  const TableRows := 60

  /** The relative lengths of the six colour transitions. */
  const RY := 15
  const YG := 6
  const GC := 4
  const CB := 11
  const BM := 13
  const MR := 6

  /** The number of rows MakeColorWheel fills: the sum of the band lengths. */
  const NCols := RY + YG + GC + CB + BM + MR

  datatype Color = Color(r: int, g: int, b: int)
  {
    function Channel(c: int): int
      requires 0 <= c < 3
    {
      if c == 0 then r else if c == 1 then g else b
    }

    predicate InByteRange()
    {
      0 <= r <= 255 && 0 <= g <= 255 && 0 <= b <= 255
    }
  }

  /** The three bytes ComputeColor writes, in the order pix[0], pix[1], pix[2]. */
  datatype Pixel = Pixel(p0: byte, p1: byte, p2: byte)
  {
    function At(i: int): byte
      requires 0 <= i < 3
    {
      if i == 0 then p0 else if i == 1 then p1 else p2
    }
  }

  /**
   * Reference definition of row k of the built wheel: which band k falls in,
   * and how far into the band it is.
   */
  function WheelEntry(k: int): Color
    requires 0 <= k < NCols
  {
    if k < RY then
      Color(255, 255 * k / RY, 0)
    else if k < RY + YG then
      var i := k - RY; Color(255 - 255 * i / YG, 255, 0)
    else if k < RY + YG + GC then
      var i := k - (RY + YG); Color(0, 255, 255 * i / GC)
    else if k < RY + YG + GC + CB then
      var i := k - (RY + YG + GC); Color(0, 255 - 255 * i / CB, 255)
    else if k < RY + YG + GC + CB + BM then
      var i := k - (RY + YG + GC + CB); Color(255 * i / BM, 0, 255)
    else
      var i := k - (RY + YG + GC + CB + BM); Color(255, 0, 255 - 255 * i / MR)
  }

  /** The bands start at pure red, yellow, green, cyan, blue and magenta. */
  lemma BandStarts()
    ensures NCols == 55
    ensures WheelEntry(0) == Color(255, 0, 0)
    ensures WheelEntry(15) == Color(255, 255, 0)
    ensures WheelEntry(21) == Color(0, 255, 0)
    ensures WheelEntry(25) == Color(0, 255, 255)
    ensures WheelEntry(36) == Color(0, 0, 255)
    ensures WheelEntry(49) == Color(255, 0, 255)
  {
  }

  lemma EntryInByteRange(k: int)
    requires 0 <= k < NCols
    ensures WheelEntry(k).InByteRange()
  {
  }

  /** Two colours differ in exactly one channel, and by at most 64 there. */
  predicate OneSmallStep(x: Color, y: Color)
  {
    || (x.r != y.r && x.g == y.g && x.b == y.b && -64 <= x.r - y.r <= 64)
    || (x.r == y.r && x.g != y.g && x.b == y.b && -64 <= x.g - y.g <= 64)
    || (x.r == y.r && x.g == y.g && x.b != y.b && -64 <= x.b - y.b <= 64)
  }

  /**
   * The wheel is a closed hue circle: every row and the next one (row 54
   * wrapping round to row 0) differ in a single channel by a small step,
   * also across band boundaries.
   */
  lemma WheelIsSmooth(k: int)
    requires 0 <= k < NCols
    ensures OneSmallStep(WheelEntry(k), WheelEntry((k + 1) % NCols))
  {
    if k < NCols - 1 {
      assert (k + 1) % NCols == k + 1;
    }
    if k < RY {
      RedYellowSmooth(k);
    } else if k < RY + YG {
      YellowGreenSmooth(k - RY);
    } else if k < RY + YG + GC {
      GreenCyanSmooth(k - (RY + YG));
    } else if k < RY + YG + GC + CB {
      CyanBlueSmooth(k - (RY + YG + GC));
    } else if k < RY + YG + GC + CB + BM {
      BlueMagentaSmooth(k - (RY + YG + GC + CB));
    } else {
      MagentaRedSmooth(k - (NCols - MR));
    }
  }

  lemma RedYellowSmooth(i: int)
    requires 0 <= i < RY
    ensures OneSmallStep(WheelEntry(i), WheelEntry(i + 1))
  {
    assert 255 * i / RY == 17 * i;
    assert 255 * (i + 1) / RY == 17 * i + 17;
  }

  lemma YellowGreenSmooth(i: int)
    requires 0 <= i < YG
    ensures OneSmallStep(WheelEntry(RY + i), WheelEntry(RY + i + 1))
  {
    var q0, q1 := 255 * i / YG, 255 * (i + 1) / YG;
    assert YG * q0 <= 255 * i < YG * q0 + YG;
    assert YG * q1 <= 255 * i + 255 < YG * q1 + YG;
  }

  lemma GreenCyanSmooth(i: int)
    requires 0 <= i < GC
    ensures OneSmallStep(WheelEntry(RY + YG + i), WheelEntry(RY + YG + i + 1))
  {
    var q0, q1 := 255 * i / GC, 255 * (i + 1) / GC;
    assert GC * q0 <= 255 * i < GC * q0 + GC;
    assert GC * q1 <= 255 * i + 255 < GC * q1 + GC;
  }

  lemma CyanBlueSmooth(i: int)
    requires 0 <= i < CB
    ensures OneSmallStep(WheelEntry(RY + YG + GC + i), WheelEntry(RY + YG + GC + i + 1))
  {
    var q0, q1 := 255 * i / CB, 255 * (i + 1) / CB;
    assert CB * q0 <= 255 * i < CB * q0 + CB;
    assert CB * q1 <= 255 * i + 255 < CB * q1 + CB;
  }

  lemma BlueMagentaSmooth(i: int)
    requires 0 <= i < BM
    ensures OneSmallStep(WheelEntry(RY + YG + GC + CB + i), WheelEntry(RY + YG + GC + CB + i + 1))
  {
    var q0, q1 := 255 * i / BM, 255 * (i + 1) / BM;
    assert BM * q0 <= 255 * i < BM * q0 + BM;
    assert BM * q1 <= 255 * i + 255 < BM * q1 + BM;
  }

  lemma MagentaRedSmooth(i: int)
    requires 0 <= i < MR
    ensures OneSmallStep(WheelEntry(NCols - MR + i), WheelEntry((NCols - MR + i + 1) % NCols))
  {
    var k := NCols - MR + i;
    if i < MR - 1 {
      assert (k + 1) % NCols == k + 1;
      var q0, q1 := 255 * i / MR, 255 * (i + 1) / MR;
      assert MR * q0 <= 255 * i < MR * q0 + MR;
      assert MR * q1 <= 255 * i + 255 < MR * q1 + MR;
    } else {
      assert (k + 1) % NCols == 0;
      assert WheelEntry(k) == Color(255, 0, 43);
      assert WheelEntry(0) == Color(255, 0, 0);
    }
  }

  /** Where ComputeColor lands on the wheel: two neighbouring rows and the blend fraction. */
  datatype WheelPos = WheelPos(k0: int, k1: int, f: real)

  /**
   * fk = (a + 1) / 2 * (ncols - 1), k0 its integer part, k1 the next row with
   * wrap-around, f the fractional part. For an angle a in [-1, 1] the rows
   * lie inside the built part of the wheel.
   */
  function ColorIndex(a: real, ncols: int): (pos: WheelPos)
    requires -1.0 <= a <= 1.0 && ncols >= 1
    ensures 0 <= pos.k0 < ncols && 0 <= pos.k1 < ncols
    ensures pos.k1 == (pos.k0 + 1) % ncols
    ensures 0.0 <= pos.f < 1.0
  {
    var t := (a + 1.0) / 2.0;
    var fk := t * (ncols - 1) as real;
    ScaledFractionInRange(t, ncols - 1);
    FloorInRange(fk, ncols - 1);
    var k0 := fk.Floor;
    WheelPos(k0, (k0 + 1) % ncols, fk - k0 as real)
  }

  lemma FloorInRange(x: real, n: nat)
    requires 0.0 <= x <= n as real
    ensures 0 <= x.Floor <= n
    ensures 0.0 <= x - x.Floor as real < 1.0
  {
  }

  lemma ScaledFractionInRange(t: real, n: nat)
    requires 0.0 <= t <= 1.0
    ensures 0.0 <= t * n as real <= n as real
  {
    assert t * n as real <= 1.0 * n as real;
  }

  /**
   * The ends of the angle range: a = -1 starts at row 0, and a = 1 lands on
   * the last built row, whose neighbour wraps round to row 0.
   */
  lemma ColorIndexEnds(ncols: int)
    requires ncols >= 2
    ensures ColorIndex(-1.0, ncols) == WheelPos(0, 1, 0.0)
    ensures ColorIndex(1.0, ncols) == WheelPos(ncols - 1, 0, 0.0)
  {
    assert 0.0 * (ncols - 1) as real == 0.0;
    assert 1.0 * (ncols - 1) as real == (ncols - 1) as real;
  }

  /** A larger angle never lands on an earlier row. */
  lemma ColorIndexMonotonic(a: real, b: real, ncols: int)
    requires -1.0 <= a <= b <= 1.0 && ncols >= 1
    ensures ColorIndex(a, ncols).k0 <= ColorIndex(b, ncols).k0
  {
    var x := (a + 1.0) / 2.0 * (ncols - 1) as real;
    var y := (b + 1.0) / 2.0 * (ncols - 1) as real;
    ScaleMonotonic((a + 1.0) / 2.0, (b + 1.0) / 2.0, ncols - 1);
    assert x <= y;
    assert ColorIndex(a, ncols).k0 == x.Floor;
    assert ColorIndex(b, ncols).k0 == y.Floor;
    assert x.Floor as real <= x <= y;
  }

  lemma ScaleMonotonic(x: real, y: real, n: nat)
    requires x <= y
    ensures x * n as real <= y * n as real
  {
    assert y * n as real - x * n as real == (y - x) * n as real;
  }

  /** The colour table and the count of rows built (m_colorwheel and m_ncols). */
  class Wheel {
    var colorwheel: array2<int>
    var ncols: int

    ghost predicate Valid()
      reads this
    {
      colorwheel.Length0 == TableRows && colorwheel.Length1 == 3
    }

    function Row(k: int): Color
      reads this, colorwheel
      requires Valid() && 0 <= k < TableRows
    {
      Color(colorwheel[k, 0], colorwheel[k, 1], colorwheel[k, 2])
    }

    /** The table is a zero-initialised global and no row is built yet. */
    constructor ()
      ensures Valid() && fresh(colorwheel) && ncols == 0
      ensures forall k :: 0 <= k < TableRows ==> Row(k) == Color(0, 0, 0)
    {
      colorwheel := new int[TableRows, 3]((_, _) => 0);
      ncols := 0;
    }

    /** Writes row k and nothing else. */
    method SetColors(r: int, g: int, b: int, k: int)
      requires Valid() && 0 <= k < TableRows
      modifies colorwheel
      ensures Row(k) == Color(r, g, b)
      ensures forall j :: 0 <= j < TableRows && j != k ==> Row(j) == old(Row(j))
    {
      colorwheel[k, 0] := r;
      colorwheel[k, 1] := g;
      colorwheel[k, 2] := b;
    }

    /**
     * Fills rows 0..54 band by band with a running row counter and sets the
     * row count to 55; rows 55..59 of the 60-row table keep what they held.
     */
    method MakeColorWheel()
      requires Valid()
      modifies this, colorwheel
      ensures Valid() && colorwheel == old(colorwheel)
      ensures ncols == NCols
      ensures forall k :: 0 <= k < NCols ==> Row(k) == WheelEntry(k)
      ensures forall k :: NCols <= k < TableRows ==> Row(k) == old(Row(k))
    {
      ncols := RY + YG + GC + CB + BM + MR;
      var k := 0;

      for i := 0 to RY
        modifies colorwheel
        invariant k == i
        invariant forall j :: 0 <= j < k ==> Row(j) == WheelEntry(j)
        invariant forall j :: k <= j < TableRows ==> Row(j) == old(Row(j))
      {
        SetColors(255, 255 * i / RY, 0, k);
        k := k + 1;
      }
      for i := 0 to YG
        modifies colorwheel
        invariant k == RY + i
        invariant forall j :: 0 <= j < k ==> Row(j) == WheelEntry(j)
        invariant forall j :: k <= j < TableRows ==> Row(j) == old(Row(j))
      {
        SetColors(255 - 255 * i / YG, 255, 0, k);
        k := k + 1;
      }
      for i := 0 to GC
        modifies colorwheel
        invariant k == RY + YG + i
        invariant forall j :: 0 <= j < k ==> Row(j) == WheelEntry(j)
        invariant forall j :: k <= j < TableRows ==> Row(j) == old(Row(j))
      {
        SetColors(0, 255, 255 * i / GC, k);
        k := k + 1;
      }
      for i := 0 to CB
        modifies colorwheel
        invariant k == RY + YG + GC + i
        invariant forall j :: 0 <= j < k ==> Row(j) == WheelEntry(j)
        invariant forall j :: k <= j < TableRows ==> Row(j) == old(Row(j))
      {
        SetColors(0, 255 - 255 * i / CB, 255, k);
        k := k + 1;
      }
      for i := 0 to BM
        modifies colorwheel
        invariant k == RY + YG + GC + CB + i
        invariant forall j :: 0 <= j < k ==> Row(j) == WheelEntry(j)
        invariant forall j :: k <= j < TableRows ==> Row(j) == old(Row(j))
      {
        SetColors(255 * i / BM, 0, 255, k);
        k := k + 1;
      }
      for i := 0 to MR
        modifies colorwheel
        invariant k == RY + YG + GC + CB + BM + i
        invariant forall j :: 0 <= j < k ==> Row(j) == WheelEntry(j)
        invariant forall j :: k <= j < TableRows ==> Row(j) == old(Row(j))
      {
        SetColors(255, 0, 255 - 255 * i / MR, k);
        k := k + 1;
      }
    }

    /**
     * The table lookup of ComputeColor. `angle` is atan2f(-fy, -fx) / pi and
     * `rad` is sqrtf(fx * fx + fy * fy), both computed by the caller;
     * `shade(col0, col1, f, rad)` is the floating-point blend of one channel
     * of two table rows, truncated to a byte. Channel b of the table goes to
     * pix[2 - b], so the bytes come out in reverse channel order.
     */
    method ComputeColor(angle: real, rad: real, shade: (int, int, real, real) -> byte) returns (pix: Pixel)
      requires Valid() && 1 <= ncols <= TableRows
      requires -1.0 <= angle <= 1.0
      ensures var pos := ColorIndex(angle, ncols);
        forall b :: 0 <= b < 3 ==>
          pix.At(2 - b) == shade(Row(pos.k0).Channel(b), Row(pos.k1).Channel(b), pos.f, rad)
    {
      ghost var pos := ColorIndex(angle, ncols);
      var fk := (angle + 1.0) / 2.0 * (ncols - 1) as real;
      var k0 := fk.Floor;
      var k1 := (k0 + 1) % ncols;
      var f := fk - k0 as real;
      assert pos == WheelPos(k0, k1, f);
      var out := new byte[3];
      for b := 0 to 3
        invariant forall c :: 0 <= c < b ==>
          out[2 - c] == shade(colorwheel[k0, c], colorwheel[k1, c], f, rad)
      {
        var col0 := colorwheel[k0, b];
        var col1 := colorwheel[k1, b];
        out[2 - b] := shade(col0, col1, f, rad);
      }
      pix := Pixel(out[0], out[1], out[2]);
    }
  }
}
