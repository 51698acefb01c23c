/** The state the motion detector keeps between frames (docker/ai-detector/
    motion.py): a ring of contrast limits, a background average, a calibration
    flag and a count of frames with motion. Percentiles, blurring and contours
    come from OpenCV and enter as arguments; arithmetic is exact. */
module MotionBackground {
  import opened Fractions

  // ----------------------------------------------------------- contrast ring

  datatype Contrast = Contrast(low: int, high: int)

  const NEUTRAL := Contrast(0, 255)

  /** One byte below another. */
  predicate Proper(c: Contrast) { 0 <= c.low < c.high <= 255 }

  /** The last n accepted limits, padded in front with the neutral pair. */
  ghost function Window(n: nat, accepted: seq<Contrast>): (w: seq<Contrast>)
    ensures |w| == n
  {
    (seq(n, _ => NEUTRAL) + accepted)[|accepted|..]
  }

  lemma WindowAccept(n: nat, accepted: seq<Contrast>, c: Contrast)
    requires n >= 1
    ensures Window(n, accepted + [c]) == Window(n, accepted)[1..] + [c]
  {
  }

  /** Before any frame is accepted there are only neutral pairs. */
  lemma WindowEmpty(n: nat)
    ensures forall i | 0 <= i < n :: Window(n, [])[i] == Contrast(0, 255)
  {
  }

  function SumLow(cs: seq<Contrast>): int { if cs == [] then 0 else cs[0].low + SumLow(cs[1..]) }

  function SumHigh(cs: seq<Contrast>): int { if cs == [] then 0 else cs[0].high + SumHigh(cs[1..]) }

  lemma {:induction false} SumAppend(a: seq<Contrast>, b: seq<Contrast>)
    ensures SumLow(a + b) == SumLow(a) + SumLow(b) && SumHigh(a + b) == SumHigh(a) + SumHigh(b)
  {
    if a == [] {
      assert a + b == b;
    } else {
      assert (a + b)[1..] == a[1..] + b;
      SumAppend(a[1..], b);
    }
  }

  /** One more pair moves both means toward it by its share; the mean of one pair
      is that pair. */
  lemma MeanExtends(cs: seq<Contrast>, c: Contrast)
    ensures Mean([c]) == Limits(c.low as real, c.high as real)
    ensures cs != [] ==> var n, l, l' := |cs| as real, Mean(cs), Mean(cs + [c]);
      (n + 1.0) * l'.low == n * l.low + c.low as real && (n + 1.0) * l'.high == n * l.high + c.high as real
  {
    SumAppend(cs, [c]);
    if cs != [] {
      Quotient(SumLow(cs) as real, |cs| as real);
      Quotient(SumHigh(cs) as real, |cs| as real);
      Quotient(SumLow(cs + [c]) as real, |cs| as real + 1.0);
      Quotient(SumHigh(cs + [c]) as real, |cs| as real + 1.0);
    }
  }

  lemma {:induction false} SumsProper(cs: seq<Contrast>)
    requires forall i | 0 <= i < |cs| :: Proper(cs[i])
    ensures 0 <= SumLow(cs) && SumHigh(cs) <= 255 * |cs| && SumLow(cs) + |cs| <= SumHigh(cs)
  {
    if cs != [] {
      SumsProper(cs[1..]);
    }
  }

  datatype Limits = Limits(low: real, high: real)

  /** Limits to rescale between: a whole grey level apart, inside the byte range. */
  predicate Usable(l: Limits) { 0.0 <= l.low && l.low + 1.0 <= l.high <= 255.0 }

  /** np.mean(contrast_values, axis=0) */
  function Mean(cs: seq<Contrast>): (l: Limits)
    requires cs != []
  {
    Limits(SumLow(cs) as real / |cs| as real, SumHigh(cs) as real / |cs| as real)
  }

  lemma MeanUsable(cs: seq<Contrast>)
    requires cs != [] && forall i | 0 <= i < |cs| :: Proper(cs[i])
    ensures Usable(Mean(cs))
  {
    SumsProper(cs);
    var n := |cs| as real;
    DivideMonotone(0.0, SumLow(cs) as real, n);
    DivideMonotone(SumLow(cs) as real + n, SumHigh(cs) as real, n);
    DivideMonotone(SumHigh(cs) as real, 255.0 * n, n);
    Times(1.0, SumLow(cs) as real, n);
    Times(255.0, 0.0, n);
  }

  lemma Times(k: real, a: real, n: real)
    requires n > 0.0
    ensures (a + k * n) / n == a / n + k
  {
  }

  // ------------------------------------------------------------- rescaling

  predicate Pixel(p: int) { 0 <= p <= 255 }

  function Clip(p: real, l: Limits): real {
    if p < l.low then l.low else if p > l.high then l.high else p
  }

  /** astype(uint8) of the clipped pixel stretched to 0..255. */
  function Rescale(p: int, l: Limits): int
    requires Usable(l)
  {
    ((Clip(p as real, l) - l.low) / (l.high - l.low) * 255.0).Floor
  }

  /** Rescaling never divides by zero and never leaves the byte range. */
  lemma RescaleInRange(p: int, l: Limits)
    requires Usable(l)
    ensures Pixel(Rescale(p, l))
  {
    UnitFraction(Clip(p as real, l) - l.low, l.high - l.low);
  }

  /** A grey level between the limits lands in proportion, rounded down; one
      outside, at the nearer end. */
  lemma RescaleExact(p: int, l: Limits)
    requires Usable(l)
    ensures var r, d := Rescale(p, l) as real, l.high - l.low;
      && (l.low <= p as real <= l.high ==> r * d <= 255.0 * (p as real - l.low) < (r + 1.0) * d)
      && (p as real <= l.low ==> r == 0.0)
      && (p as real >= l.high ==> r == 255.0)
  {
    RescaleMonotone(p, p, l);
    if l.low <= p as real <= l.high {
      var d, a := l.high - l.low, p as real - l.low;
      FloorOfShare(a, d, a / d * 255.0);
      assert Rescale(p, l) == (a / d * 255.0).Floor;
    }
  }

  lemma FloorOfShare(a: real, d: real, x: real)
    requires d > 0.0 && x == a / d * 255.0
    ensures x.Floor as real * d <= 255.0 * a < (x.Floor as real + 1.0) * d
  {
    Quotient(a, d);
    Reorder(a / d, d, a);
    FloorBetween(x, d, 255.0 * a);
  }

  lemma FloorBetween(x: real, d: real, b: real)
    requires d > 0.0 && x * d == b
    ensures x.Floor as real * d <= b < (x.Floor as real + 1.0) * d
  {
    ScaleBy(x.Floor as real, x, d);
    StrictScaleBy(x, x.Floor as real + 1.0, d);
  }

  lemma Reorder(u: real, d: real, a: real)
    requires u * d == a
    ensures u * 255.0 * d == 255.0 * a
  {
  }

  lemma ScaleBy(x: real, y: real, d: real)
    requires x <= y && d > 0.0
    ensures x * d <= y * d
  {
  }

  lemma StrictScaleBy(x: real, y: real, d: real)
    requires x < y && d > 0.0
    ensures x * d < y * d
  {
  }

  /** It keeps the order of grey levels and stretches the limits to the ends. */
  lemma RescaleMonotone(p: int, q: int, l: Limits)
    requires Usable(l) && p <= q
    ensures Rescale(p, l) <= Rescale(q, l)
    ensures p as real <= l.low ==> Rescale(p, l) == 0
    ensures q as real >= l.high ==> Rescale(q, l) == 255
  {
    var d := l.high - l.low;
    var a, b := Clip(p as real, l) - l.low, Clip(q as real, l) - l.low;
    DivideMonotone(a, b, d);
    UnitFraction(a, d);
    UnitFraction(b, d);
    FullFraction(d);
  }

  // ------------------------------------------------------------- averaging

  function Blend(average: real, pixel: int, alpha: real): real {
    (1.0 - alpha) * average + alpha * pixel as real
  }

  /** The average moves the share alpha of the way to the pixel. */
  lemma BlendExact(a: real, p: int, alpha: real)
    ensures Blend(a, p, alpha) - a == alpha * (p as real - a)
    ensures Blend(a, p, 0.0) == a && Blend(a, p, 1.0) == p as real
  {
  }

  predicate Grey(a: real) { 0.0 <= a <= 255.0 }

  /** Averaging stays within grey levels for every image exactly when the weight
      lies between 0 and 1. */
  lemma BlendStaysGreyIff(alpha: real)
    ensures (forall a, p | Grey(a) && Pixel(p) :: Grey(Blend(a, p, alpha))) <==> 0.0 <= alpha <= 1.0
  {
    if 0.0 <= alpha <= 1.0 {
      forall a, p | Grey(a) && Pixel(p) ensures Grey(Blend(a, p, alpha)) {
        BlendGrey(a, p, alpha);
      }
    } else {
      assert Blend(255.0, 0, alpha) == 255.0 - 255.0 * alpha;
      assert Blend(0.0, 255, alpha) == 255.0 * alpha;
      assert Grey(255.0) && Grey(0.0) && Pixel(0) && Pixel(255);
    }
  }

  lemma BlendGrey(a: real, p: int, alpha: real)
    requires Grey(a) && Pixel(p) && 0.0 <= alpha <= 1.0
    ensures Grey(Blend(a, p, alpha))
  {
    Convex(a, p as real, alpha);
  }

  lemma Convex(a: real, b: real, alpha: real)
    requires Grey(a) && Grey(b) && 0.0 <= alpha <= 1.0
    ensures Grey((1.0 - alpha) * a + alpha * b)
  {
    var u, v := (1.0 - alpha) * a, alpha * b;
    Scale(1.0 - alpha, a, u);
    Scale(alpha, b, v);
    assert Grey(u + v);
  }

  lemma Scale(w: real, x: real, r: real)
    requires 0.0 <= w && Grey(x) && r == w * x
    ensures 0.0 <= r <= 255.0 * w
  {
    assert w * (255.0 - x) >= 0.0;
  }

  /** Frames with motion since the last one without. */
  function MotionRun(boxCounts: seq<nat>): nat {
    if boxCounts == [] || boxCounts[|boxCounts| - 1] == 0 then 0
    else MotionRun(boxCounts[..|boxCounts| - 1]) + 1
  }

  /** The frame goes into the background if nothing moves, or motion has lasted
      ten frames. */
  predicate Averages(boxCounts: seq<nat>)
    requires boxCounts != []
  {
    boxCounts[|boxCounts| - 1] == 0 || MotionRun(boxCounts) >= 10
  }

  /** The run is the longest stretch of frames with boxes up to the last one. */
  lemma {:induction false} MotionRunExact(boxCounts: seq<nat>)
    ensures var n, m := MotionRun(boxCounts), |boxCounts|;
      && n <= m && (forall i | m - n <= i < m :: boxCounts[i] > 0)
      && (n < m ==> boxCounts[m - n - 1] == 0)
  {
    if boxCounts != [] && boxCounts[|boxCounts| - 1] > 0 {
      MotionRunExact(boxCounts[..|boxCounts| - 1]);
    }
  }

  /** A frame enters the background when it has no box, or it and the nine before
      it all have. */
  lemma AveragesIff(boxCounts: seq<nat>)
    requires boxCounts != []
    ensures Averages(boxCounts) <==>
            || boxCounts[|boxCounts| - 1] == 0
            || (|boxCounts| >= 10 && forall i | |boxCounts| - 10 <= i < |boxCounts| :: boxCounts[i] > 0)
  {
    MotionRunExact(boxCounts);
  }

  // ------------------------------------------------------------ the program

  class MotionDetector {
    const frameAlpha: real
    const lightningThreshold: real
    const contrastValues: array<Contrast>
    var contrastIndex: nat
    const avgFrame: array<real>
    var calibrating: bool
    var motionFrameCount: nat
    ghost var accepted: seq<Contrast>
    ghost var boxCounts: seq<nat>

    ghost predicate Valid()
      reads this, contrastValues, avgFrame
    {
      && contrastIndex < contrastValues.Length
      && contrastValues[contrastIndex..] + contrastValues[..contrastIndex] == Window(contrastValues.Length, accepted)
      && (forall i | 0 <= i < contrastValues.Length :: Proper(contrastValues[i]))
      && motionFrameCount == MotionRun(boxCounts)
      && (0.0 <= frameAlpha <= 1.0 ==> forall i | 0 <= i < avgFrame.Length :: Grey(avgFrame[i]))
    }

    constructor (pixels: nat, frameAlpha: real, lightningThreshold: real, contrastFrameHistory: nat)
      requires contrastFrameHistory >= 1
      ensures Valid() && fresh(contrastValues) && fresh(avgFrame)
      ensures contrastValues.Length == contrastFrameHistory && avgFrame.Length == pixels
      ensures this.frameAlpha == frameAlpha && this.lightningThreshold == lightningThreshold
      ensures calibrating && accepted == [] && boxCounts == [] && forall i | 0 <= i < pixels :: avgFrame[i] == 0.0
    {
      this.frameAlpha, this.lightningThreshold := frameAlpha, lightningThreshold;
      contrastValues := new Contrast[contrastFrameHistory](_ => NEUTRAL);
      avgFrame := new real[pixels](_ => 0.0);
      contrastIndex, calibrating, motionFrameCount, accepted, boxCounts := 0, true, 0, [], [];
    }

    /** The contrast step: a frame of a single grey is left alone; otherwise the
        limits join the ring and every pixel is rescaled between its means. */
    method ImproveContrast(frame: seq<int>, low: int, high: int) returns (out: seq<int>)
      requires Valid()
      requires Pixel(low) && Pixel(high) && forall i | 0 <= i < |frame| :: Pixel(frame[i])
      modifies `contrastIndex, `accepted, contrastValues
      ensures Valid()
      ensures accepted == if low < high then old(accepted) + [Contrast(low, high)] else old(accepted)
      ensures |out| == |frame| && forall i | 0 <= i < |out| :: Pixel(out[i])
      ensures low >= high ==> out == frame
      ensures low < high ==> var l := Mean(Window(contrastValues.Length, accepted));
        Usable(l) && forall i | 0 <= i < |out| :: out[i] == Rescale(frame[i], l)
    {
      if low >= high {
        return frame;
      }
      Record(Contrast(low, high));
      var l := Mean(contrastValues[..]);
      MeanUsable(contrastValues[..]);
      SumAppend(contrastValues[contrastIndex..], contrastValues[..contrastIndex]);
      SumAppend(contrastValues[..contrastIndex], contrastValues[contrastIndex..]);
      assert contrastValues[..contrastIndex] + contrastValues[contrastIndex..] == contrastValues[..];
      forall i | 0 <= i < |frame| ensures Pixel(Rescale(frame[i], l)) {
        RescaleInRange(frame[i], l);
      }
      out := seq(|frame|, i requires 0 <= i < |frame| => Rescale(frame[i], l));
    }

    method Record(c: Contrast)
      requires Valid() && Proper(c)
      modifies `contrastIndex, `accepted, contrastValues
      ensures Valid() && accepted == old(accepted) + [c]
    {
      WindowAccept(contrastValues.Length, accepted, c);
      ghost var before := contrastValues[..];
      ghost var at := contrastIndex;
      contrastValues[contrastIndex] := c;
      contrastIndex := contrastIndex + 1;
      assert contrastValues[..at] == before[..at] && contrastValues[at + 1..] == before[at + 1..];
      assert (before[at..] + before[..at])[1..] == before[at + 1..] + before[..at];
      assert contrastValues[at + 1..] + contrastValues[..at + 1] == before[at + 1..] + before[..at] + [c];
      if contrastIndex == contrastValues.Length {
        contrastIndex := 0;
        assert contrastValues[0..] + contrastValues[..0] == contrastValues[..at + 1];
      }
      accepted := accepted + [c];
    }

    /** The rest of a frame, once its boxes and moving share are known. */
    method Observe(blurred: seq<int>, boxes: nat, pctMotion: real)
      requires Valid()
      requires |blurred| == avgFrame.Length && forall i | 0 <= i < |blurred| :: Pixel(blurred[i])
      modifies `calibrating, `motionFrameCount, `boxCounts, avgFrame
      ensures Valid() && boxCounts == old(boxCounts) + [boxes]
      ensures calibrating <==> (old(calibrating) && !(pctMotion < 0.05 && boxes <= 4)) || pctMotion > lightningThreshold
      ensures forall i | 0 <= i < avgFrame.Length :: avgFrame[i] ==
                if Averages(boxCounts) then Blend(old(avgFrame[i]), blurred[i], if calibrating then 0.2 else frameAlpha)
                else old(avgFrame[i])
    {
      if pctMotion < 0.05 && boxes <= 4 {
        calibrating := false;
      }
      if calibrating || pctMotion > lightningThreshold {
        calibrating := true;
      }
      Absorb(blurred, boxes);
    }

    method Absorb(blurred: seq<int>, boxes: nat)
      requires Valid()
      requires |blurred| == avgFrame.Length && forall i | 0 <= i < |blurred| :: Pixel(blurred[i])
      modifies `motionFrameCount, `boxCounts, avgFrame
      ensures Valid() && boxCounts == old(boxCounts) + [boxes]
      ensures forall i | 0 <= i < avgFrame.Length :: avgFrame[i] ==
                if Averages(boxCounts) then Blend(old(avgFrame[i]), blurred[i], if calibrating then 0.2 else frameAlpha)
                else old(avgFrame[i])
    {
      ghost var counts := boxCounts + [boxes];
      assert counts[..|counts| - 1] == boxCounts;
      if boxes > 0 {
        motionFrameCount := motionFrameCount + 1;
        if motionFrameCount >= 10 {
          Accumulate(blurred, if calibrating then 0.2 else frameAlpha);
        }
      } else {
        Accumulate(blurred, if calibrating then 0.2 else frameAlpha);
        motionFrameCount := 0;
      }
      boxCounts := counts;
    }

    /** cv2.accumulateWeighted */
    method Accumulate(blurred: seq<int>, alpha: real)
      requires |blurred| == avgFrame.Length && forall i | 0 <= i < |blurred| :: Pixel(blurred[i])
      modifies avgFrame
      ensures forall i | 0 <= i < avgFrame.Length :: avgFrame[i] == Blend(old(avgFrame[i]), blurred[i], alpha)
      ensures 0.0 <= alpha <= 1.0 && old(forall i | 0 <= i < avgFrame.Length :: Grey(avgFrame[i])) ==>
                forall i | 0 <= i < avgFrame.Length :: Grey(avgFrame[i])
    {
      for i := 0 to avgFrame.Length
        invariant forall j | 0 <= j < i :: avgFrame[j] == Blend(old(avgFrame[j]), blurred[j], alpha)
        invariant forall j | i <= j < avgFrame.Length :: avgFrame[j] == old(avgFrame[j])
      {
        avgFrame[i] := Blend(avgFrame[i], blurred[i], alpha);
      }
      if 0.0 <= alpha <= 1.0 {
        BlendStaysGreyIff(alpha);
      }
    }
  }
}
