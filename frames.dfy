/**
 * Per-frame statistics of the heuristic video classifier (app_fixed.py,
 * lines 75-107). Decoding, the colour averages and the grayscale conversion
 * are done by OpenCV and NumPy; their results enter the model as the fields
 * of a Frame. The predicates over them are exact comparisons over reals.
 */
module Frames {

  /** One pixel of an 8-bit grayscale image (the output of cvtColor). */
  type Pixel = x: int | 0 <= x <= 255

  /** The mean of one colour plane of an 8-bit image. */
  type Channel = x: real | 0.0 <= x <= 255.0

  /** A grayscale image: its height, its width and its pixels, row after row. */
  datatype Image = Image(rows: nat, cols: nat, pixels: seq<Pixel>)

  /**
   * The grayscale image of a decoded frame: a successful read never yields
   * an empty image, and the pixels fill the rows and columns exactly.
   */
  type Gray = g: Image | 1 <= g.rows && 1 <= g.cols && |g.pixels| == g.rows * g.cols
    witness Image(1, 1, [0])

  /**
   * A decoded frame reduced to what the classifier looks at: the average
   * blue, green and red values (np.mean over the image, in OpenCV's BGR
   * order) and the frame's grayscale image.
   */
  datatype Frame = Frame(blue: Channel, green: Channel, red: Channel, gray: Gray)

  /** The mean of the three channel averages. */
  function Brightness(f: Frame): real {
    (f.blue + f.green + f.red) / 3.0
  }

  /** The share of blue in the channel sum; the `+ 1` keeps the divisor positive. */
  function BlueRatio(f: Frame): (r: real)
    ensures 0.0 <= r < 1.0
  {
    var d := f.blue + f.green + f.red + 1.0;
    QuotientBelowOne(f.blue, d);
    f.blue / d
  }

  /** The share of red in the channel sum; the `+ 1` keeps the divisor positive. */
  function RedRatio(f: Frame): (r: real)
    ensures 0.0 <= r < 1.0
  {
    var d := f.blue + f.green + f.red + 1.0;
    QuotientBelowOne(f.red, d);
    f.red / d
  }

  /** Blue and green both above red: the muddy-water reading. */
  predicate IsBrownMuddy(f: Frame) {
    f.blue > f.red && f.green > f.red
  }

  /** The water (flood) indicator. */
  predicate IsWater(f: Frame) {
    IsBrownMuddy(f) || BlueRatio(f) > 0.4 || (Brightness(f) > 100.0 && BlueRatio(f) > 0.3)
  }

  /** The fire indicator: red-heavy and bright. */
  predicate IsFire(f: Frame) {
    RedRatio(f) > 0.4 && Brightness(f) > 70.0
  }

  /** The darkness indicator. */
  predicate IsDark(f: Frame) {
    Brightness(f) < 45.0
  }

  lemma QuotientBelowOne(x: real, d: real)
    requires 0.0 <= x && x + 1.0 <= d
    ensures 0.0 <= x / d < 1.0
  {
  }

  /** A quotient by a positive divisor exceeds c exactly when the dividend exceeds c times it. */
  lemma QuotientAbove(x: real, d: real, c: real)
    requires d > 0.0
    ensures x / d > c <==> x > c * d
  {
  }

  /** The water indicator stated without division, over the three channel averages. */
  lemma WaterWithoutDivision(f: Frame)
    ensures IsWater(f) <==>
      (f.blue > f.red && f.green > f.red)
      || 3.0 * f.blue > 2.0 * (f.green + f.red + 1.0)
      || (f.blue + f.green + f.red > 300.0 && 7.0 * f.blue > 3.0 * (f.green + f.red + 1.0))
  {
    var d := f.blue + f.green + f.red + 1.0;
    QuotientAbove(f.blue, d, 0.4);
    QuotientAbove(f.blue, d, 0.3);
  }

  /** The fire indicator stated without division, over the three channel averages. */
  lemma FireWithoutDivision(f: Frame)
    ensures IsFire(f) <==>
      3.0 * f.red > 2.0 * (f.blue + f.green + 1.0) && f.blue + f.green + f.red > 210.0
  {
    QuotientAbove(f.red, f.blue + f.green + f.red + 1.0, 0.4);
  }

  /** A frame cannot be both dark (below 45) and fiery (above 70). */
  lemma DarkExcludesFire(f: Frame)
    ensures !(IsDark(f) && IsFire(f))
  {
  }

  /**
   * A fire frame is never a muddy-water frame: red is not at or below both
   * blue and green, and the red average itself exceeds 84.
   */
  lemma FireIsNotMuddy(f: Frame)
    requires IsFire(f)
    ensures !(f.red <= f.blue && f.red <= f.green)
    ensures !IsBrownMuddy(f)
    ensures f.red > 84.0
  {
    FireWithoutDivision(f);
  }

  /** The absolute difference of two pixels (cv2.absdiff on 8-bit values is exact). */
  function PixelDiff(a: Pixel, b: Pixel): (d: nat)
    ensures d <= 255
  {
    if a <= b then b - a else a - b
  }

  /** The sum of the absolute differences of two pixel sequences of equal length. */
  function SumAbsDiff(a: seq<Pixel>, b: seq<Pixel>): (s: nat)
    requires |a| == |b|
    ensures s <= 255 * |a|
  {
    if a == [] then 0 else PixelDiff(a[0], b[0]) + SumAbsDiff(a[1..], b[1..])
  }

  /** cv2.absdiff accepts two images only when they have the same height and width. */
  predicate SameShape(a: Gray, b: Gray) {
    a.rows == b.rows && a.cols == b.cols
  }

  /** Two images of the same shape have the same, non-zero, number of pixels. */
  lemma SameShapeSameSize(a: Gray, b: Gray)
    requires SameShape(a, b)
    ensures |a.pixels| == |b.pixels| >= 1
  {
    assert a.rows * a.cols >= a.rows * 1;
  }

  /** np.mean(cv2.absdiff(prev, cur)): the mean absolute grayscale change. */
  function MotionLevel(prev: Gray, cur: Gray): (m: real)
    requires SameShape(prev, cur)
    ensures 0.0 <= m <= 255.0
  {
    SameShapeSameSize(prev, cur);
    var n := |cur.pixels| as real;
    assert SumAbsDiff(prev.pixels, cur.pixels) as real <= 255.0 * n;
    QuotientAbove(SumAbsDiff(prev.pixels, cur.pixels) as real, n, 255.0);
    SumAbsDiff(prev.pixels, cur.pixels) as real / n
  }

  /** The motion indicator: mean change above 25. */
  predicate HasMotion(prev: Gray, cur: Gray)
    requires SameShape(prev, cur)
  {
    MotionLevel(prev, cur) > 25.0
  }

  lemma {:induction false} SumAbsDiffSymmetric(a: seq<Pixel>, b: seq<Pixel>)
    requires |a| == |b|
    ensures SumAbsDiff(a, b) == SumAbsDiff(b, a)
  {
    if a != [] {
      SumAbsDiffSymmetric(a[1..], b[1..]);
    }
  }

  /** Motion does not depend on which of the two frames came first. */
  lemma MotionIsSymmetric(a: Gray, b: Gray)
    requires SameShape(a, b)
    ensures HasMotion(a, b) == HasMotion(b, a)
  {
    SameShapeSameSize(a, b);
    SumAbsDiffSymmetric(a.pixels, b.pixels);
  }

  lemma {:induction false} SumAbsDiffSelf(a: seq<Pixel>)
    ensures SumAbsDiff(a, a) == 0
  {
    if a != [] {
      SumAbsDiffSelf(a[1..]);
    }
  }

  /** A frame compared with an identical frame never counts as motion. */
  lemma StillFrameHasNoMotion(a: Gray)
    ensures !HasMotion(a, a)
  {
    SumAbsDiffSelf(a.pixels);
  }

  lemma {:induction false} SumAbsDiffBelow(a: seq<Pixel>, b: seq<Pixel>, bound: nat)
    requires |a| == |b|
    requires forall k :: 0 <= k < |a| ==> PixelDiff(a[k], b[k]) <= bound
    ensures SumAbsDiff(a, b) <= bound * |a|
  {
    if a != [] {
      assert PixelDiff(a[0], b[0]) <= bound;
      forall k | 0 <= k < |a| - 1
        ensures PixelDiff(a[1..][k], b[1..][k]) <= bound
      {
        assert a[1..][k] == a[k + 1] && b[1..][k] == b[k + 1];
      }
      SumAbsDiffBelow(a[1..], b[1..], bound);
      assert bound * |a| == bound + bound * (|a| - 1);
    }
  }

  /** Motion is only ever seen when at least one pixel changed by more than 25. */
  lemma MotionNeedsChangedPixel(a: Gray, b: Gray)
    requires SameShape(a, b)
    requires HasMotion(a, b)
    ensures exists k :: 0 <= k < |a.pixels| && PixelDiff(a.pixels[k], b.pixels[k]) > 25
  {
    SameShapeSameSize(a, b);
    if forall k :: 0 <= k < |a.pixels| ==> PixelDiff(a.pixels[k], b.pixels[k]) <= 25 {
      SumAbsDiffBelow(a.pixels, b.pixels, 25);
      QuotientAbove(SumAbsDiff(a.pixels, b.pixels) as real, |b.pixels| as real, 25.0);
      assert false;
    }
  }
}
