/** Boxes, frames and the square crop computed around a group of boxes
    (docker/ai-detector/regions.py:15-100). Pixel coordinates are integers;
    the factors 1.35, 0.1, 1.1 and 0.05 are the exact rationals 27/20, 1/10,
    11/10 and 1/20. */
module RegionGeometry {

  datatype Box = Box(x0: int, y0: int, x1: int, y1: int)

  datatype Frame = Frame(height: nat, width: nat)

  function Min(a: int, b: int): int { if a <= b then a else b }

  function Max(a: int, b: int): int { if a >= b then a else b }

  /** Python's int() of the fraction n/d: truncation toward zero. */
  function Trunc(n: int, d: int): int
    requires d > 0
  {
    if n >= 0 then n / d else -((-n) / d)
  }

  function Area(b: Box): int { (b.x1 - b.x0) * (b.y1 - b.y0) }

  predicate BoxInside(outer: Box, inner: Box) {
    inner.x0 >= outer.x0 && inner.y0 >= outer.y0 && inner.x1 <= outer.x1 && inner.y1 <= outer.y1
  }

  predicate InFrame(frame: Frame, b: Box) {
    0 <= b.x0 <= b.x1 <= frame.width && 0 <= b.y0 <= b.y1 <= frame.height
  }

  // ---------------------------------------------------------------- crops

  /** Longest edge times 1.35 floored to a multiple of four, but at least the model size. */
  function CropSize(edge: int, modelSize: nat): (size: nat)
    ensures size >= modelSize
  {
    var size := 27 * edge / 80 * 4;
    if size < modelSize then modelSize else size
  }

  /** One coordinate of the crop's corner: centred on lo..hi, then pushed into the frame. */
  function CropOffset(lo: int, hi: int, size: nat, extent: nat): int {
    var offset := Trunc(lo + hi - size, 2);
    if offset < 0 then 0
    else if offset > extent - size then Max(0, extent - size)
    else offset
  }

  function CalculateRegion(frame: Frame, hull: Box, modelSize: nat): Box {
    var size := CropSize(Max(hull.x1 - hull.x0, hull.y1 - hull.y0), modelSize);
    var x := CropOffset(hull.x0, hull.x1, size, frame.width);
    var y := CropOffset(hull.y0, hull.y1, size, frame.height);
    Box(x, y, x + size, y + size)
  }

  /** Unless the model size is larger, the size is the largest multiple of four
      within 1.35 times the edge. */
  lemma CropSizeIsLargest(edge: int, modelSize: nat)
    ensures var size := CropSize(edge, modelSize);
      27 * edge < 20 * (size + 4) && (size > modelSize ==> size % 4 == 0 && 20 * size <= 27 * edge)
  {
  }

  /** The crop is large enough for its hull in all but three edge lengths,
      and for those exactly when the model size makes up for it. */
  lemma CropSizeCoversIff(edge: nat, modelSize: nat)
    ensures CropSize(edge, modelSize) >= edge <==> modelSize >= edge || edge !in {1, 2, 5}
  {
    if edge >= 12 {
      assert 27 * edge / 80 * 4 >= edge;
    } else {
      assert edge == 0 || edge == 1 || edge == 2 || edge == 3 || edge == 4 || edge == 5
          || edge == 6 || edge == 7 || edge == 8 || edge == 9 || edge == 10 || edge == 11;
    }
  }

  /** Centring with truncation and both clamps keeps an interval of the frame
      inside the crop, including the case of equal lengths. */
  lemma CropOffsetCovers(lo: int, hi: int, size: nat, extent: nat)
    requires 0 <= lo <= hi <= extent
    requires hi - lo <= size
    ensures var x := CropOffset(lo, hi, size, extent); 0 <= x <= lo && hi <= x + size
  {
  }

  /** No other place in the frame would centre the crop better on lo..hi. */
  lemma CropOffsetNearest(lo: int, hi: int, size: nat, extent: nat, other: int)
    requires 0 <= other <= Max(0, extent - size)
    ensures var x := CropOffset(lo, hi, size, extent);
      Abs(2 * x + size - (lo + hi)) <= Abs(2 * other + size - (lo + hi))
  {
  }

  /** Whatever the hull, the crop starts inside the frame and, unless it is
      larger than the frame, ends inside it. */
  lemma CropOffsetInFrame(lo: int, hi: int, size: nat, extent: nat)
    ensures var x := CropOffset(lo, hi, size, extent);
      0 <= x && (size <= extent ==> x + size <= extent) && (size > extent ==> x == 0)
  {
  }

  function Clamp(frame: Frame, r: Box): Box {
    Box(Max(0, r.x0), Max(0, r.y0), Min(frame.width, r.x1), Min(frame.height, r.y1))
  }

  lemma CalculateRegionCovers(frame: Frame, hull: Box, modelSize: nat)
    requires InFrame(frame, hull)
    requires modelSize >= 5
    ensures BoxInside(Clamp(frame, CalculateRegion(frame, hull, modelSize)), hull)
  {
    var edge := Max(hull.x1 - hull.x0, hull.y1 - hull.y0);
    var size := CropSize(edge, modelSize);
    var x := CropOffset(hull.x0, hull.x1, size, frame.width);
    var y := CropOffset(hull.y0, hull.y1, size, frame.height);
    assert CalculateRegion(frame, hull, modelSize) == Box(x, y, x + size, y + size);
    assert size >= edge by { CropSizeCovers(edge, modelSize); }
    assert Max(0, x) <= hull.x0 && hull.x1 <= Min(frame.width, x + size) by {
      CropCoversAxis(hull.x0, hull.x1, size, frame.width);
    }
    assert Max(0, y) <= hull.y0 && hull.y1 <= Min(frame.height, y + size) by {
      CropCoversAxis(hull.y0, hull.y1, size, frame.height);
    }
  }

  lemma CropSizeCovers(edge: nat, modelSize: nat)
    requires modelSize >= 5
    ensures CropSize(edge, modelSize) >= edge
  {
    CropSizeCoversIff(edge, modelSize);
  }

  lemma CropCoversAxis(lo: int, hi: int, size: nat, extent: nat)
    requires 0 <= lo <= hi <= extent && hi - lo <= size
    ensures Max(0, CropOffset(lo, hi, size, extent)) <= lo
    ensures hi <= Min(extent, CropOffset(lo, hi, size, extent) + size)
  {
    CropOffsetCovers(lo, hi, size, extent);
  }

  /** A clamped crop lies in the frame and has the size of one square cut to it. */
  ghost predicate CroppedSquare(frame: Frame, minSize: nat, r: Box) {
    && 0 <= r.x0 <= r.x1 <= frame.width
    && 0 <= r.y0 <= r.y1 <= frame.height
    && exists s: nat :: s >= minSize && IsCutOf(frame, r, s)
  }

  ghost predicate IsCutOf(frame: Frame, r: Box, s: nat) {
    r.x1 - r.x0 == Min(frame.width, s) && r.y1 - r.y0 == Min(frame.height, s)
  }

  lemma CalculateRegionIsCroppedSquare(frame: Frame, hull: Box, modelSize: nat)
    ensures CroppedSquare(frame, modelSize, Clamp(frame, CalculateRegion(frame, hull, modelSize)))
  {
    var size := CropSize(Max(hull.x1 - hull.x0, hull.y1 - hull.y0), modelSize);
    CropOffsetInFrame(hull.x0, hull.x1, size, frame.width);
    CropOffsetInFrame(hull.y0, hull.y1, size, frame.height);
    assert IsCutOf(frame, Clamp(frame, CalculateRegion(frame, hull, modelSize)), size);
  }

  /** The crop is a square, of that size. */
  lemma CalculateRegionSize(frame: Frame, hull: Box, modelSize: nat)
    ensures var r := CalculateRegion(frame, hull, modelSize);
      var size, edge := r.x1 - r.x0, Max(hull.x1 - hull.x0, hull.y1 - hull.y0);
      && r.y1 - r.y0 == size >= modelSize && 27 * edge < 20 * (size + 4)
      && (size > modelSize ==> size % 4 == 0 && 20 * size <= 27 * edge)
  {
    CropSizeIsLargest(Max(hull.x1 - hull.x0, hull.y1 - hull.y0), modelSize);
  }

  /** And on each axis its middle is as near the hull's as the frame allows. */
  lemma CalculateRegionCentred(frame: Frame, hull: Box, modelSize: nat, x: int, y: int)
    requires var r := CalculateRegion(frame, hull, modelSize);
      0 <= x <= Max(0, frame.width - (r.x1 - r.x0)) && 0 <= y <= Max(0, frame.height - (r.y1 - r.y0))
    ensures var r := CalculateRegion(frame, hull, modelSize);
      && Abs(r.x0 + r.x1 - (hull.x0 + hull.x1)) <= Abs(2 * x + (r.x1 - r.x0) - (hull.x0 + hull.x1))
      && Abs(r.y0 + r.y1 - (hull.y0 + hull.y1)) <= Abs(2 * y + (r.y1 - r.y0) - (hull.y0 + hull.y1))
  {
    var size := CropSize(Max(hull.x1 - hull.x0, hull.y1 - hull.y0), modelSize);
    CropOffsetNearest(hull.x0, hull.x1, size, frame.width, x);
    CropOffsetNearest(hull.y0, hull.y1, size, frame.height, y);
  }

  // ----------------------------------------------------------- boundaries

  /** int(math.sqrt(n)). */
  function ISqrt(n: nat): (r: nat)
    ensures r * r <= n < (r + 1) * (r + 1)
  {
    if n == 0 then 0
    else
      var q := ISqrt(n / 4);
      SquareOfDouble(q, n);
      if (2 * q + 1) * (2 * q + 1) <= n then 2 * q + 1 else 2 * q
  }

  lemma SquareOfDouble(q: nat, n: nat)
    requires q * q <= n / 4 < (q + 1) * (q + 1)
    ensures (2 * q) * (2 * q) <= n < (2 * q + 2) * (2 * q + 2)
  {
    assert (2 * q) * (2 * q) == 4 * (q * q);
    assert (2 * q + 2) * (2 * q + 2) == 4 * ((q + 1) * (q + 1));
  }

  function Abs(n: int): nat { if n >= 0 then n else -n }

  /** max(least, int(math.sqrt(n))). */
  function RootAtLeast(n: nat, least: nat): (size: nat)
    ensures size >= least && n < (size + 1) * (size + 1)
    ensures size > least ==> size * size <= n
  {
    var root := ISqrt(n);
    SquareMonotone(root + 1, least + 1);
    if root <= least then least else root
  }

  lemma SquareMonotone(a: nat, b: nat)
    ensures a <= b ==> a * a <= b * b
  {
    if a <= b {
      assert a * a <= a * b <= b * b;
    }
  }

  /** Side of the largest region worth growing around a box: the box fills a
      tenth of it, unless the minimum region is larger. */
  function MaxRegionSize(b: Box, minRegion: nat): nat { RootAtLeast(10 * Abs(Area(b)), minRegion) }

  /** How far from the centre of lo..hi its cluster may reach on this axis. */
  function Reach(lo: int, hi: int, size: nat): int { Trunc(20 * size - 11 * (hi - lo), 20) }

  function ReachLo(lo: int, hi: int, size: nat): int { Trunc(lo + hi - 2 * Reach(lo, hi, size), 2) }

  function ReachHi(lo: int, hi: int, size: nat): int { Trunc(lo + hi + 2 * Reach(lo, hi, size), 2) }

  function ClusterBoundary(b: Box, minRegion: nat): Box {
    var size := MaxRegionSize(b, minRegion);
    Box(ReachLo(b.x0, b.x1, size), ReachLo(b.y0, b.y1, size), ReachHi(b.x0, b.x1, size), ReachHi(b.y0, b.y1, size))
  }

  /** The window of this size at t holds lo..hi enlarged by a tenth. */
  predicate WindowHolds(lo: int, hi: int, size: nat, t: int) {
    20 * t <= 10 * (lo + hi) - 11 * (hi - lo) && 10 * (lo + hi) + 11 * (hi - lo) <= 20 * (t + size)
  }

  /** The boundary is, up to rounding, the union of all largest regions that
      hold the box with a tenth to spare: no such window sticks out of it by more
      than a pixel, and each of its sides is within two pixels of some window. */
  lemma BoundaryIsUnionOfWindows(lo: int, hi: int, size: nat, t: int)
    ensures WindowHolds(lo, hi, size, t) ==> ReachLo(lo, hi, size) <= t + 1 && t + size <= ReachHi(lo, hi, size) + 1
    ensures lo <= hi && 20 * size >= 22 * (hi - lo) + 20 ==>
      && (exists first :: WindowHolds(lo, hi, size, first) && first <= ReachLo(lo, hi, size) + 2)
      && (exists last :: WindowHolds(lo, hi, size, last) && ReachHi(lo, hi, size) <= last + size + 2)
  {
    if lo <= hi && 20 * size >= 22 * (hi - lo) + 20 {
      var last := (10 * (lo + hi) - 11 * (hi - lo)) / 20;
      assert WindowHolds(lo, hi, size, last);
      var first := -((20 * size - 10 * (lo + hi) - 11 * (hi - lo)) / 20);
      assert WindowHolds(lo, hi, size, first);
    }
  }

  /** A box is a tenth of its largest region, to the pixel, unless the minimum
      region is larger still. */
  lemma MaxRegionIsTenfold(b: Box, minRegion: nat)
    ensures var n, area := MaxRegionSize(b, minRegion), Abs((b.x1 - b.x0) * (b.y1 - b.y0));
      n >= minRegion && 10 * area < (n + 1) * (n + 1) && (n > minRegion ==> n * n <= 10 * area)
  {
  }

  function Grown(b: Box, d: nat): Box { Box(b.x0 - d, b.y0 - d, b.x1 + d, b.y1 + d) }

  /** Any square of that size that holds the box with a tenth to spare lies in
      the cluster boundary, give or take a pixel. */
  lemma BoundaryHoldsWindows(b: Box, minRegion: nat, x: int, y: int)
    ensures var size := MaxRegionSize(b, minRegion);
      WindowHolds(b.x0, b.x1, size, x) && WindowHolds(b.y0, b.y1, size, y) ==>
        BoxInside(Grown(ClusterBoundary(b, minRegion), 1), Box(x, y, x + size, y + size))
  {
    var size := MaxRegionSize(b, minRegion);
    BoundaryIsUnionOfWindows(b.x0, b.x1, size, x);
    BoundaryIsUnionOfWindows(b.y0, b.y1, size, y);
  }

  /** t is the fraction n/d cut off toward zero. */
  predicate CutOff(t: int, n: int, d: int) {
    Abs(t) * d <= Abs(n) < (Abs(t) + 1) * d && (t > 0 ==> n > 0) && (t < 0 ==> n < 0)
  }

  lemma TruncCutsOff(n: int)
    ensures CutOff(Trunc(n, 2), n, 2) && CutOff(Trunc(n, 20), n, 20)
  {
  }

  /** Each side lies the reach away from the middle of the box, and the reach is
      what the largest region leaves over beside 0.55 of the box, both cut off
      toward zero. */
  predicate SidesAt(low: int, high: int, lo: int, hi: int, size: nat, reach: int) {
    && CutOff(reach, 20 * size - 11 * (hi - lo), 20)
    && CutOff(low, lo + hi - 2 * reach, 2)
    && CutOff(high, lo + hi + 2 * reach, 2)
  }

  lemma BoundaryExact(b: Box, minRegion: nat) returns (reachX: int, reachY: int)
    ensures var c, size := ClusterBoundary(b, minRegion), MaxRegionSize(b, minRegion);
      SidesAt(c.x0, c.x1, b.x0, b.x1, size, reachX) && SidesAt(c.y0, c.y1, b.y0, b.y1, size, reachY)
  {
    var size := MaxRegionSize(b, minRegion);
    reachX := SidesCutOff(b.x0, b.x1, size);
    reachY := SidesCutOff(b.y0, b.y1, size);
  }

  lemma SidesCutOff(lo: int, hi: int, size: nat) returns (reach: int)
    ensures SidesAt(ReachLo(lo, hi, size), ReachHi(lo, hi, size), lo, hi, size, reach)
  {
    reach := Reach(lo, hi, size);
    TruncCutsOff(20 * size - 11 * (hi - lo));
    TruncCutsOff(lo + hi - 2 * reach);
    TruncCutsOff(lo + hi + 2 * reach);
  }
}
