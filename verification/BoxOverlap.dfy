/** Overlap of two boxes and the average of a list of boxes
    (docker/ai-detector/regions.py:15-42), over exact rationals. */
module BoxOverlap {
  import opened RegionGeometry
  import opened Fractions

  /** A box with fractional coordinates, as an average of boxes has. */
  datatype RealBox = RealBox(x0: real, y0: real, x1: real, y1: real)

  function ToReal(b: Box): RealBox {
    RealBox(b.x0 as real, b.y0 as real, b.x1 as real, b.y1 as real)
  }

  function RMin(a: real, b: real): real { if a <= b then a else b }

  function RMax(a: real, b: real): real { if a >= b then a else b }

  function RealArea(b: RealBox): real { (b.x1 - b.x0) * (b.y1 - b.y0) }

  function Overlap(a: RealBox, b: RealBox): real {
    RMax(0.0, RMin(a.x1, b.x1) - RMax(a.x0, b.x0)) * RMax(0.0, RMin(a.y1, b.y1) - RMax(a.y0, b.y0))
  }

  lemma ProductBounds(w: real, h: real, w': real, h': real)
    requires 0.0 <= w <= w' && 0.0 <= h <= h'
    ensures 0.0 <= w * h <= w' * h'
  {
    assert w * h <= w' * h <= w' * h';
  }

  /** A non-zero overlap is positive and no larger than either box, even when
      the boxes may be inverted; the union is then positive. */
  lemma OverlapBounds(a: RealBox, b: RealBox)
    ensures Overlap(a, b) >= 0.0
    ensures Overlap(a, b) != 0.0 ==> 0.0 < Overlap(a, b) <= RealArea(a) && Overlap(a, b) <= RealArea(b)
  {
    var w := RMin(a.x1, b.x1) - RMax(a.x0, b.x0);
    var h := RMin(a.y1, b.y1) - RMax(a.y0, b.y0);
    if w > 0.0 && h > 0.0 {
      ProductBounds(w, h, a.x1 - a.x0, a.y1 - a.y0);
      ProductBounds(w, h, b.x1 - b.x0, b.y1 - b.y0);
    } else {
      assert RMax(0.0, w) == 0.0 || RMax(0.0, h) == 0.0;
    }
  }

  /** Always defined and within 0..1, for every pair of boxes. */
  function IntersectionOverUnion(a: RealBox, b: RealBox): (iou: real)
    ensures 0.0 <= iou <= 1.0
    ensures iou == 0.0 <==> Overlap(a, b) == 0.0
  {
    OverlapBounds(a, b);
    var inter := Overlap(a, b);
    if inter == 0.0 then 0.0
    else
      var union := RealArea(a) + RealArea(b) - inter;
      UnitFraction(inter, union);
      inter / union
  }

  predicate PositiveArea(b: RealBox) { b.x0 < b.x1 && b.y0 < b.y1 }

  /** A box overlaps itself fully, unless it is empty or inverted. */
  lemma SelfOverlap(b: RealBox)
    ensures IntersectionOverUnion(b, b) == if PositiveArea(b) then 1.0 else 0.0
  {
    if PositiveArea(b) {
      ProductBounds(0.0, 0.0, b.x1 - b.x0, b.y1 - b.y0);
      OverlapBounds(b, b);
      PositiveProduct(b.x1 - b.x0, b.y1 - b.y0);
      var r := RealArea(b);
      assert Overlap(b, b) == r;
      assert r + r - r == r;
      FullFraction(r);
    } else {
      assert RMax(0.0, b.x1 - b.x0) == 0.0 || RMax(0.0, b.y1 - b.y0) == 0.0;
      assert Overlap(b, b) == 0.0;
    }
  }

  lemma PositiveProduct(x: real, y: real)
    requires x > 0.0 && y > 0.0
    ensures x * y > 0.0
  {
  }

  lemma OverlapSymmetric(a: RealBox, b: RealBox)
    ensures IntersectionOverUnion(a, b) == IntersectionOverUnion(b, a)
  {
    assert Overlap(a, b) == Overlap(b, a);
  }

  /** m spans from the greater of the low sides to the lesser of the high ones. */
  predicate CommonPart(m: RealBox, a: RealBox, b: RealBox) {
    && (m.x0 == a.x0 >= b.x0 || m.x0 == b.x0 >= a.x0) && (m.y0 == a.y0 >= b.y0 || m.y0 == b.y0 >= a.y0)
    && (m.x1 == a.x1 <= b.x1 || m.x1 == b.x1 <= a.x1) && (m.y1 == a.y1 <= b.y1 || m.y1 == b.y1 <= a.y1)
  }

  /** With fractional coordinates too: the common part's share of what the two
      cover together, and 0 if they have no part in common. */
  lemma OverlapIsShare(a: RealBox, b: RealBox, m: RealBox)
    requires CommonPart(m, a, b)
    ensures var iou, common := IntersectionOverUnion(a, b), (m.x1 - m.x0) * (m.y1 - m.y0);
      if m.x0 < m.x1 && m.y0 < m.y1
      then iou * ((a.x1 - a.x0) * (a.y1 - a.y0) + (b.x1 - b.x0) * (b.y1 - b.y0) - common) == common
      else iou == 0.0
  {
    OverlapOfCommon(a, b, m);
    ShareOfOverlap(a, b);
  }

  lemma ShareOfOverlap(a: RealBox, b: RealBox)
    ensures var o := Overlap(a, b);
      if o == 0.0 then IntersectionOverUnion(a, b) == 0.0
      else IntersectionOverUnion(a, b) * (RealArea(a) + RealArea(b) - o) == o
  {
    OverlapBounds(a, b);
    var o, ra, rb := Overlap(a, b), RealArea(a), RealArea(b);
    if o != 0.0 {
      Quotient(o, ra + rb - o);
    }
  }

  lemma OverlapOfCommon(a: RealBox, b: RealBox, m: RealBox)
    requires CommonPart(m, a, b)
    ensures Overlap(a, b) == if m.x0 < m.x1 && m.y0 < m.y1 then (m.x1 - m.x0) * (m.y1 - m.y0) else 0.0
    ensures Overlap(a, b) == 0.0 <==> !(m.x0 < m.x1 && m.y0 < m.y1)
  {
    if m.x0 < m.x1 && m.y0 < m.y1 {
      PositiveProduct(m.x1 - m.x0, m.y1 - m.y0);
    }
    assert RMax(a.x0, b.x0) == m.x0 && RMin(a.x1, b.x1) == m.x1;
    assert RMax(a.y0, b.y0) == m.y0 && RMin(a.y1, b.y1) == m.y1;
  }

  // --------------------------------------------------------------- pixels

  function Pixels(b: Box): set<(int, int)> {
    set x, y | b.x0 <= x < b.x1 && b.y0 <= y < b.y1 :: (x, y)
  }

  predicate Upright(b: Box) { b.x0 <= b.x1 && b.y0 <= b.y1 }

  lemma {:induction false} ColumnCount(x: int, y0: int, y1: int)
    requires y0 <= y1
    ensures |Pixels(Box(x, y0, x + 1, y1))| == y1 - y0
    decreases y1 - y0
  {
    if y0 == y1 {
      assert Pixels(Box(x, y0, x + 1, y1)) == {};
    } else {
      ColumnCount(x, y0, y1 - 1);
      assert Pixels(Box(x, y0, x + 1, y1)) == Pixels(Box(x, y0, x + 1, y1 - 1)) + {(x, y1 - 1)};
    }
  }

  lemma CutColumn(b: Box)
    requires b.x0 < b.x1
    ensures |Pixels(b)| == |Pixels(b.(x1 := b.x1 - 1))| + |Pixels(b.(x0 := b.x1 - 1))|
  {
    var left, last := Pixels(b.(x1 := b.x1 - 1)), Pixels(b.(x0 := b.x1 - 1));
    assert Pixels(b) == left + last;
    assert left * last == {};
  }

  /** The area of an upright box is its number of pixels. */
  lemma {:induction false} PixelCount(b: Box)
    requires Upright(b)
    ensures |Pixels(b)| == Area(b)
    decreases b.x1 - b.x0
  {
    if b.x0 == b.x1 {
      assert Pixels(b) == {};
    } else {
      PixelCount(b.(x1 := b.x1 - 1));
      ColumnCount(b.x1 - 1, b.y0, b.y1);
      CutColumn(b);
      assert Area(b) == Area(b.(x1 := b.x1 - 1)) + (b.y1 - b.y0);
    }
  }

  /** The common part of two boxes; a degenerate box if there is none. */
  function Meet(a: Box, b: Box): Box {
    var x0, y0 := Max(a.x0, b.x0), Max(a.y0, b.y0);
    Box(x0, y0, Max(x0, Min(a.x1, b.x1)), Max(y0, Min(a.y1, b.y1)))
  }

  lemma OverlapIsMeet(a: Box, b: Box)
    ensures Overlap(ToReal(a), ToReal(b)) == Area(Meet(a, b)) as real
  {
    var m := Meet(a, b);
    assert RMax(0.0, RMin(a.x1 as real, b.x1 as real) - RMax(a.x0 as real, b.x0 as real)) == (m.x1 - m.x0) as real;
    assert RMax(0.0, RMin(a.y1 as real, b.y1 as real) - RMax(a.y0 as real, b.y0 as real)) == (m.y1 - m.y0) as real;
    ProductAsReal(m.x1 - m.x0, m.y1 - m.y0);
  }

  lemma ProductAsReal(x: int, y: int)
    ensures (x * y) as real == x as real * y as real
  {
  }

  lemma AreaAsReal(b: Box)
    ensures RealArea(ToReal(b)) == Area(b) as real
  {
    ProductAsReal(b.x1 - b.x0, b.y1 - b.y0);
  }

  /** What the formula means: of the pixels in either box, the share in both. */
  lemma OverlapIsPixelShare(a: Box, b: Box)
    requires Upright(a) && Upright(b)
    ensures var shared, either := |Pixels(a) * Pixels(b)|, |Pixels(a) + Pixels(b)|;
      IntersectionOverUnion(ToReal(a), ToReal(b)) == if shared == 0 then 0.0 else shared as real / either as real
  {
    PixelCount(a);
    PixelCount(b);
    PixelCount(Meet(a, b));
    assert Pixels(a) * Pixels(b) == Pixels(Meet(a, b));
    OverlapIsMeet(a, b);
    AreaAsReal(a);
    AreaAsReal(b);
  }

  // ------------------------------------------------------------- averages

  function X0(b: Box): int { b.x0 }
  function Y0(b: Box): int { b.y0 }
  function X1(b: Box): int { b.x1 }
  function Y1(b: Box): int { b.y1 }

  function Sum(boxes: seq<Box>, coordinate: Box -> int): int {
    if boxes == [] then 0 else coordinate(boxes[0]) + Sum(boxes[1..], coordinate)
  }

  function AverageBoxes(boxes: seq<Box>): RealBox
    requires boxes != []
  {
    var n := |boxes| as real;
    RealBox(Sum(boxes, X0) as real / n, Sum(boxes, Y0) as real / n,
            Sum(boxes, X1) as real / n, Sum(boxes, Y1) as real / n)
  }

  lemma {:induction false} SumBounds(boxes: seq<Box>, coordinate: Box -> int, lo: int, hi: int)
    requires forall i | 0 <= i < |boxes| :: lo <= coordinate(boxes[i]) <= hi
    ensures lo * |boxes| <= Sum(boxes, coordinate) <= hi * |boxes|
  {
    if boxes != [] {
      SumBounds(boxes[1..], coordinate, lo, hi);
    }
  }

  lemma AverageOfBounded(sum: int, n: nat, lo: int, hi: int)
    requires n > 0 && lo * n <= sum <= hi * n
    ensures lo as real <= sum as real / n as real <= hi as real
  {
    assert lo as real * n as real == (lo * n) as real;
    assert hi as real * n as real == (hi * n) as real;
    DivideBounds(sum as real, n as real, lo as real, hi as real);
  }

  lemma DivideBounds(s: real, n: real, lo: real, hi: real)
    requires n > 0.0 && lo * n <= s <= hi * n
    ensures lo <= s / n <= hi
  {
    DivideMonotone(lo * n, s, n);
    DivideMonotone(s, hi * n, n);
  }

  /** The average lies within the bounding box of the boxes. */
  lemma AverageWithin(boxes: seq<Box>, lo: Box, hi: Box)
    requires boxes != []
    requires forall i | 0 <= i < |boxes| :: lo.x0 <= boxes[i].x0 <= hi.x0 && lo.y0 <= boxes[i].y0 <= hi.y0
    requires forall i | 0 <= i < |boxes| :: lo.x1 <= boxes[i].x1 <= hi.x1 && lo.y1 <= boxes[i].y1 <= hi.y1
    ensures var a := AverageBoxes(boxes);
      && lo.x0 as real <= a.x0 <= hi.x0 as real && lo.y0 as real <= a.y0 <= hi.y0 as real
      && lo.x1 as real <= a.x1 <= hi.x1 as real && lo.y1 as real <= a.y1 <= hi.y1 as real
  {
    SumBounds(boxes, X0, lo.x0, hi.x0);
    AverageOfBounded(Sum(boxes, X0), |boxes|, lo.x0, hi.x0);
    SumBounds(boxes, Y0, lo.y0, hi.y0);
    AverageOfBounded(Sum(boxes, Y0), |boxes|, lo.y0, hi.y0);
    SumBounds(boxes, X1, lo.x1, hi.x1);
    AverageOfBounded(Sum(boxes, X1), |boxes|, lo.x1, hi.x1);
    SumBounds(boxes, Y1, lo.y1, hi.y1);
    AverageOfBounded(Sum(boxes, Y1), |boxes|, lo.y1, hi.y1);
  }

  /** The average of copies of one box is that box. */
  lemma AverageOfCopies(boxes: seq<Box>, b: Box)
    requires boxes != []
    requires forall i | 0 <= i < |boxes| :: boxes[i] == b
    ensures AverageBoxes(boxes) == ToReal(b)
  {
    AverageWithin(boxes, b, b);
  }

  lemma {:induction false} SumSnoc(boxes: seq<Box>, b: Box, coordinate: Box -> int)
    ensures Sum(boxes + [b], coordinate) == Sum(boxes, coordinate) + coordinate(b)
  {
    if boxes == [] {
      assert boxes + [b] == [b];
    } else {
      assert (boxes + [b])[1..] == boxes[1..] + [b];
      SumSnoc(boxes[1..], b, coordinate);
    }
  }

  /** One more box moves the average toward it by its share. */
  lemma AverageExtends(boxes: seq<Box>, b: Box)
    requires boxes != []
    ensures var n, a, a' := |boxes| as real, AverageBoxes(boxes), AverageBoxes(boxes + [b]);
      && (n + 1.0) * a'.x0 == n * a.x0 + b.x0 as real && (n + 1.0) * a'.y0 == n * a.y0 + b.y0 as real
      && (n + 1.0) * a'.x1 == n * a.x1 + b.x1 as real && (n + 1.0) * a'.y1 == n * a.y1 + b.y1 as real
  {
    SumOfAverage(boxes, b, X0);
    SumOfAverage(boxes, b, Y0);
    SumOfAverage(boxes, b, X1);
    SumOfAverage(boxes, b, Y1);
  }

  lemma SumOfAverage(boxes: seq<Box>, b: Box, coordinate: Box -> int)
    requires boxes != []
    ensures var n := |boxes| as real;
      (n + 1.0) * (Sum(boxes + [b], coordinate) as real / |boxes + [b]| as real)
      == n * (Sum(boxes, coordinate) as real / n) + coordinate(b) as real
  {
    SumSnoc(boxes, b, coordinate);
    Quotient(Sum(boxes, coordinate) as real, |boxes| as real);
    Quotient(Sum(boxes + [b], coordinate) as real, |boxes + [b]| as real);
  }

  lemma {:induction false} SumMonotone(boxes: seq<Box>, f: Box -> int, g: Box -> int)
    requires forall i | 0 <= i < |boxes| :: f(boxes[i]) <= g(boxes[i])
    ensures Sum(boxes, f) <= Sum(boxes, g)
  {
    if boxes != [] {
      SumMonotone(boxes[1..], f, g);
    }
  }

  /** Averaging boxes that are not inverted gives a box that is not inverted. */
  lemma AverageWellFormed(boxes: seq<Box>)
    requires boxes != []
    requires forall i | 0 <= i < |boxes| :: boxes[i].x0 <= boxes[i].x1 && boxes[i].y0 <= boxes[i].y1
    ensures var a := AverageBoxes(boxes); a.x0 <= a.x1 && a.y0 <= a.y1
  {
    SumMonotone(boxes, X0, X1);
    SumMonotone(boxes, Y0, Y1);
    DivideMonotone(Sum(boxes, X0) as real, Sum(boxes, X1) as real, |boxes| as real);
    DivideMonotone(Sum(boxes, Y0) as real, Sum(boxes, Y1) as real, |boxes| as real);
  }
}
