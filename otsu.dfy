/**
 * Otsu's threshold as `OtsuThreshold.calculateThreshold` computes it: a
 * 256-bin histogram of the red channel, then one scan over the bins that
 * keeps the first bin whose between-class variance strictly beats the
 * running maximum.
 */
module Otsu {
  import opened Images
  import Int32
  import Arith

  // ---------------------------------------------------------------------
  // The histogram
  // ---------------------------------------------------------------------

  /** Number of pixels of `row` with intensity `v`. */
  function CountIn(row: seq<Gray>, v: int): (n: nat)
    ensures n <= |row|
  {
    if row == [] then 0
    else CountIn(row[..|row| - 1], v) + (if row[|row| - 1] == v then 1 else 0)
  }

  /** Number of pixels of the grid `rows` with intensity `v`. */
  function CountGrid(rows: seq<seq<Gray>>, v: int): nat {
    if rows == [] then 0
    else CountGrid(rows[..|rows| - 1], v) + CountIn(rows[|rows| - 1], v)
  }

  /** Bin `v` holds the number of pixels whose intensity is `v`. */
  function Histogram(img: Image): (h: seq<nat>)
    ensures |h| == 256
  {
    seq(256, v => CountGrid(img.red, v))
  }

  /** `h[0] + ... + h[n - 1]`: the pixels in bins below `n`. */
  function Prefix(h: seq<nat>, n: nat): nat
    requires n <= |h|
  {
    if n == 0 then 0 else Prefix(h, n - 1) + h[n - 1]
  }

  /** `0 * h[0] + ... + (n - 1) * h[n - 1]`: the summed intensity of the pixels in bins below `n`. */
  function WeightedPrefix(h: seq<nat>, n: nat): int
    requires n <= |h|
  {
    if n == 0 then 0 else WeightedPrefix(h, n - 1) + (n - 1) * h[n - 1]
  }

  // ---------------------------------------------------------------------
  // What the scan computes
  // ---------------------------------------------------------------------

  /**
   * How the product `wB * wF * (mB - mF) * (mB - mF)` is evaluated: as the
   * source writes it, on Kotlin `Int` (every multiplication wraps), or on
   * unbounded integers, as the `Double` running maximum suggests was meant.
   */
  datatype Arithmetic = Wrapping32 | Unbounded

  function Product(arith: Arithmetic, wB: int, wF: int, d: int): int {
    match arith
    case Wrapping32 => Int32.Mul(Int32.Mul(Int32.Mul(wB, wF), d), d)
    case Unbounded => wB * wF * d * d
  }

  /**
   * Bin `i` reaches the variance computation: the background (bins 0..i)
   * and the foreground (bins above i) both hold at least one pixel.
   */
  predicate Evaluated(h: seq<nat>, total: int, i: int)
    requires |h| == 256
  {
    0 <= i < 256 && 0 < Prefix(h, i + 1) < total
  }

  /** `mB`: the mean intensity of bins 0..i, truncated. */
  function BackgroundMean(h: seq<nat>, total: int, i: int): int
    requires |h| == 256 && Evaluated(h, total, i)
  {
    WeightedPrefix(h, i + 1) / Prefix(h, i + 1)
  }

  /** `mF`: the mean intensity of the bins above i, truncated. */
  function ForegroundMean(h: seq<nat>, total: int, i: int): int
    requires |h| == 256 && Evaluated(h, total, i)
  {
    (WeightedPrefix(h, 256) - WeightedPrefix(h, i + 1)) / (total - Prefix(h, i + 1))
  }

  /**
   * Between-class variance at bin `i`, with truncating integer means. On
   * Kotlin `Int` it is some 32-bit value; evaluated exactly it is positive
   * exactly when the two class means differ, and 0 otherwise.
   */
  function Variance(h: seq<nat>, total: int, i: int, arith: Arithmetic): (v: int)
    requires |h| == 256 && Evaluated(h, total, i)
    ensures arith == Wrapping32 ==> Int32.InRange(v)
    ensures arith == Unbounded ==> v >= 0
    ensures arith == Unbounded ==> (v > 0 <==> BackgroundMean(h, total, i) != ForegroundMean(h, total, i))
  {
    var wB := Prefix(h, i + 1);
    var wF := total - wB;
    var sumB := WeightedPrefix(h, i + 1);
    var mB := sumB / wB;
    var mF := (WeightedPrefix(h, 256) - sumB) / wF;
    ExactProductSign(wB, wF, mB - mF);
    Product(arith, wB, wF, mB - mF)
  }

  /**
   * `t` is the threshold the scan returns: when some evaluated bin has a
   * positive variance, `t` is the lowest evaluated bin of maximal variance;
   * otherwise it is 0. It is never 255, since bin 255 leaves no pixel above it.
   */
  ghost predicate IsOtsuThreshold(h: seq<nat>, total: int, t: int, arith: Arithmetic)
    requires |h| == 256
    ensures IsOtsuThreshold(h, total, t, arith) && total == Prefix(h, 256) ==> t <= 254
  {
    && 0 <= t < 256
    && if exists j :: Evaluated(h, total, j) && Variance(h, total, j, arith) > 0 then
         && Evaluated(h, total, t)
         && (forall j :: Evaluated(h, total, j) ==> Variance(h, total, j, arith) <= Variance(h, total, t, arith))
         && (forall j :: 0 <= j < t && Evaluated(h, total, j) ==> Variance(h, total, j, arith) < Variance(h, total, t, arith))
       else
         t == 0
  }

  /** The scan's state after bins 0..n-1: maximum `maxV` so far, reached first at `t`. */
  ghost predicate BestSoFar(h: seq<nat>, total: int, n: int, maxV: int, t: int, arith: Arithmetic)
    requires |h| == 256 && 0 <= n <= 256
  {
    && 0 <= maxV
    && 0 <= t < 256
    && (forall j :: 0 <= j < n && Evaluated(h, total, j) ==> Variance(h, total, j, arith) <= maxV)
    && (maxV == 0 ==> t == 0)
    && (maxV > 0 ==>
          && t < n && Evaluated(h, total, t) && Variance(h, total, t, arith) == maxV
          && forall j :: 0 <= j < t && Evaluated(h, total, j) ==> Variance(h, total, j, arith) < maxV)
  }

  // ---------------------------------------------------------------------
  // The code
  // ---------------------------------------------------------------------

  /** OtsuThreshold.kt:9-16: one increment per pixel, row by row. */
  method BuildHistogram(img: Image) returns (histogram: array<nat>)
    requires img.Valid()
    ensures fresh(histogram)
    ensures histogram[..] == Histogram(img)
  {
    histogram := new nat[256](_ => 0);
    for y := 0 to img.height
      invariant forall v :: 0 <= v < 256 ==> histogram[v] == CountGrid(img.red[..y], v)
    {
      for x := 0 to img.width
        invariant forall v :: 0 <= v < 256 ==>
          histogram[v] == CountGrid(img.red[..y], v) + CountIn(img.red[y][..x], v)
      {
        assert img.red[y][..x + 1][..x] == img.red[y][..x];
        var gray := img.red[y][x];
        histogram[gray] := histogram[gray] + 1;
      }
      assert img.red[..y + 1][..y] == img.red[..y];
      assert img.red[y][..img.width] == img.red[y];
    }
    assert img.red[..img.height] == img.red;
  }

  /** OtsuThreshold.kt:19-20: the summed intensity of all pixels, bin by bin. */
  method SumIntensities(histogram: array<nat>) returns (sum: int)
    requires histogram.Length == 256
    ensures sum == WeightedPrefix(histogram[..], 256)
  {
    sum := 0;
    for i: int := 0 to 256
      invariant sum == WeightedPrefix(histogram[..], i)
    {
      sum := sum + i * histogram[i];
    }
  }

  /**
   * OtsuThreshold.kt:18-44, given the histogram and the pixel count. The
   * requires on `total` keeps `total`, `sum`, `sumB` and `wB` inside Kotlin's
   * `Int` range, so only the variance product can wrap.
   */
  method ScanThreshold(histogram: array<nat>, total: int, arith: Arithmetic) returns (threshold: int)
    requires histogram.Length == 256
    requires total == Prefix(histogram[..], 256)
    requires total * 255 <= Int32.Max
    ensures IsOtsuThreshold(histogram[..], total, threshold, arith)
    ensures 0 <= threshold <= 254
  {
    var h := histogram[..];
    var sum := SumIntensities(histogram);

    var sumB: int := 0;
    var wB: int := 0;
    var maxVariance: int := 0;
    threshold := 0;
    for i: int := 0 to 256
      invariant wB == Prefix(h, i)
      invariant sumB == WeightedPrefix(h, i)
      invariant BestSoFar(h, total, i, maxVariance, threshold, arith)
    {
      wB := wB + h[i];
      if wB == 0 {
        BestSoFarSkip(h, total, i, maxVariance, threshold, arith);
        continue;
      }
      var wF: int := total - wB;
      PrefixMonotone(h, i + 1, 256);
      if wF == 0 {
        BestSoFarAfterBreak(h, total, i, maxVariance, threshold, arith);
        break;
      }
      sumB := sumB + i * h[i];
      var mB: int := sumB / wB;
      var mF: int := (sum - sumB) / wF;
      var variance: int := Product(arith, wB, wF, mB - mF);
      ScanStep(h, total, i, maxVariance, threshold, arith, wB, sumB, sum, variance);
      if variance > maxVariance {
        maxVariance := variance;
        threshold := i;
      }
    }
    BestSoFarIsThreshold(h, total, maxVariance, threshold, arith);
  }

  /** `OtsuThreshold.calculateThreshold`, with the 32-bit product the source evaluates. */
  method CalculateThreshold(img: Image) returns (threshold: int)
    requires img.Valid()
    requires img.width * img.height * 255 <= Int32.Max
    ensures IsOtsuThreshold(Histogram(img), img.width * img.height, threshold, Wrapping32)
    ensures 0 <= threshold <= 254
  {
    var histogram := BuildHistogram(img);
    var total := img.width * img.height;
    HistogramTotal(img);
    threshold := ScanThreshold(histogram, total, Wrapping32);
  }

  /** `calculateThreshold` with the variance product evaluated without overflow. */
  method CalculateThresholdIntended(img: Image) returns (threshold: int)
    requires img.Valid()
    requires img.width * img.height * 255 <= Int32.Max
    ensures IsOtsuThreshold(Histogram(img), img.width * img.height, threshold, Unbounded)
    ensures 0 <= threshold <= 254
  {
    var histogram := BuildHistogram(img);
    var total := img.width * img.height;
    HistogramTotal(img);
    threshold := ScanThreshold(histogram, total, Unbounded);
  }

  // ---------------------------------------------------------------------
  // Lemmas about the scan
  // ---------------------------------------------------------------------

  lemma {:induction false} PrefixMonotone(h: seq<nat>, a: nat, b: nat)
    requires a <= b <= |h|
    ensures Prefix(h, a) <= Prefix(h, b)
    decreases b - a
  {
    if a < b {
      PrefixMonotone(h, a, b - 1);
    }
  }

  /** The variance the loop body computes from its running sums is `Variance(h, total, i, arith)`. */
  lemma VarianceAt(h: seq<nat>, total: int, i: int, arith: Arithmetic, wB: int, sumB: int, sum: int)
    requires |h| == 256 && 0 <= i < 256
    requires wB == Prefix(h, i + 1) && sumB == WeightedPrefix(h, i + 1) && sum == WeightedPrefix(h, 256)
    requires 0 < wB < total
    ensures Evaluated(h, total, i)
    ensures Variance(h, total, i, arith) == Product(arith, wB, total - wB, sumB / wB - (sum - sumB) / (total - wB))
  {
  }

  /** A bin that `continue`s (its background is still empty) leaves the scan's state as it is. */
  lemma BestSoFarSkip(h: seq<nat>, total: int, i: int, maxV: int, t: int, arith: Arithmetic)
    requires |h| == 256 && 0 <= i < 256
    requires BestSoFar(h, total, i, maxV, t, arith)
    requires Prefix(h, i + 1) == 0
    ensures BestSoFar(h, total, i + 1, maxV, t, arith)
    ensures WeightedPrefix(h, i + 1) == WeightedPrefix(h, i)
  {
  }

  /** A bin that `break`s (its foreground is empty) ends the scan: no later bin is evaluated. */
  lemma BestSoFarAfterBreak(h: seq<nat>, total: int, i: int, maxV: int, t: int, arith: Arithmetic)
    requires |h| == 256 && 0 <= i < 256
    requires BestSoFar(h, total, i, maxV, t, arith)
    requires total == Prefix(h, 256) == Prefix(h, i + 1)
    ensures BestSoFar(h, total, 256, maxV, t, arith)
  {
    forall j | i <= j < 256
      ensures !Evaluated(h, total, j)
    {
      PrefixMonotone(h, i + 1, j + 1);
      PrefixMonotone(h, j + 1, 256);
    }
  }

  /** An evaluated bin replaces the maximum exactly when its variance is strictly larger. */
  lemma BestSoFarStep(h: seq<nat>, total: int, i: int, maxV: int, t: int, arith: Arithmetic)
    requires |h| == 256 && 0 <= i < 256
    requires BestSoFar(h, total, i, maxV, t, arith)
    requires Evaluated(h, total, i)
    ensures Variance(h, total, i, arith) > maxV ==> BestSoFar(h, total, i + 1, Variance(h, total, i, arith), i, arith)
    ensures Variance(h, total, i, arith) <= maxV ==> BestSoFar(h, total, i + 1, maxV, t, arith)
  {
  }

  /** One evaluated bin of the loop, stated on the running sums the loop keeps. */
  lemma ScanStep(h: seq<nat>, total: int, i: int, maxV: int, t: int, arith: Arithmetic, wB: int, sumB: int, sum: int, v: int)
    requires |h| == 256 && 0 <= i < 256
    requires wB == Prefix(h, i + 1) && sumB == WeightedPrefix(h, i + 1) && sum == WeightedPrefix(h, 256)
    requires 0 < wB < total
    requires BestSoFar(h, total, i, maxV, t, arith)
    requires v == Product(arith, wB, total - wB, sumB / wB - (sum - sumB) / (total - wB))
    ensures v > maxV ==> BestSoFar(h, total, i + 1, v, i, arith)
    ensures v <= maxV ==> BestSoFar(h, total, i + 1, maxV, t, arith)
  {
    VarianceAt(h, total, i, arith, wB, sumB, sum);
    BestSoFarStep(h, total, i, maxV, t, arith);
  }

  lemma BestSoFarIsThreshold(h: seq<nat>, total: int, maxV: int, t: int, arith: Arithmetic)
    requires |h| == 256
    requires BestSoFar(h, total, 256, maxV, t, arith)
    ensures IsOtsuThreshold(h, total, t, arith)
  {
    if maxV > 0 {
      assert Evaluated(h, total, t) && Variance(h, total, t, arith) > 0;
    }
  }

  /** At most one bin satisfies `IsOtsuThreshold`: the predicate fixes the scan's result. */
  lemma ThresholdUnique(h: seq<nat>, total: int, t1: int, t2: int, arith: Arithmetic)
    requires |h| == 256
    requires IsOtsuThreshold(h, total, t1, arith) && IsOtsuThreshold(h, total, t2, arith)
    ensures t1 == t2
  {
  }

  // ---------------------------------------------------------------------
  // The histogram counts every pixel once
  // ---------------------------------------------------------------------

  /** Pixels of `rows` in bins below `n`. */
  function GridBelow(rows: seq<seq<Gray>>, n: nat): nat {
    if n == 0 then 0 else GridBelow(rows, n - 1) + CountGrid(rows, n - 1)
  }

  /** Pixels of `row` in bins below `n`. */
  function RowBelow(row: seq<Gray>, n: nat): nat {
    if n == 0 then 0 else RowBelow(row, n - 1) + CountIn(row, n - 1)
  }

  lemma {:induction false} PrefixIsGridBelow(img: Image, n: nat)
    requires n <= 256
    ensures Prefix(Histogram(img), n) == GridBelow(img.red, n)
  {
    if n > 0 {
      PrefixIsGridBelow(img, n - 1);
    }
  }

  lemma {:induction false} GridBelowLastRow(rows: seq<seq<Gray>>, n: nat)
    requires rows != []
    ensures GridBelow(rows, n) == GridBelow(rows[..|rows| - 1], n) + RowBelow(rows[|rows| - 1], n)
  {
    if n > 0 {
      GridBelowLastRow(rows, n - 1);
    }
  }

  lemma {:induction false} RowBelowLastPixel(row: seq<Gray>, n: nat)
    requires row != []
    ensures RowBelow(row, n) == RowBelow(row[..|row| - 1], n) + (if row[|row| - 1] < n then 1 else 0)
  {
    if n > 0 {
      RowBelowLastPixel(row, n - 1);
    }
  }

  lemma {:induction false} RowBelowAll(row: seq<Gray>)
    ensures RowBelow(row, 256) == |row|
  {
    if row != [] {
      RowBelowLastPixel(row, 256);
      RowBelowAll(row[..|row| - 1]);
    } else {
      RowBelowEmpty(256);
    }
  }

  lemma {:induction false} RowBelowEmpty(n: nat)
    ensures RowBelow([], n) == 0
  {
    if n > 0 {
      RowBelowEmpty(n - 1);
    }
  }

  lemma {:induction false} GridBelowEmpty(n: nat)
    ensures GridBelow([], n) == 0
  {
    if n > 0 {
      GridBelowEmpty(n - 1);
    }
  }

  lemma {:induction false} GridBelowAll(rows: seq<seq<Gray>>, w: nat)
    requires forall y :: 0 <= y < |rows| ==> |rows[y]| == w
    ensures GridBelow(rows, 256) == |rows| * w
  {
    if rows == [] {
      GridBelowEmpty(256);
    } else {
      GridBelowLastRow(rows, 256);
      GridBelowAll(rows[..|rows| - 1], w);
      RowBelowAll(rows[|rows| - 1]);
    }
  }

  /** OtsuThreshold.kt:9-18: the bins add up to `width * height`. */
  lemma HistogramTotal(img: Image)
    requires img.Valid()
    ensures Prefix(Histogram(img), 256) == img.width * img.height
  {
    PrefixIsGridBelow(img, 256);
    GridBelowAll(img.red, img.width);
  }

  // ---------------------------------------------------------------------
  // Images with one or two intensities
  // ---------------------------------------------------------------------

  lemma {:induction false} CountInAbsent(row: seq<Gray>, v: int)
    requires forall x :: 0 <= x < |row| ==> row[x] != v
    ensures CountIn(row, v) == 0
  {
    if row != [] {
      CountInAbsent(row[..|row| - 1], v);
    }
  }

  /** A bin no pixel falls into stays empty. */
  lemma {:induction false} CountGridAbsent(rows: seq<seq<Gray>>, v: int)
    requires forall y, x :: 0 <= y < |rows| && 0 <= x < |rows[y]| ==> rows[y][x] != v
    ensures CountGrid(rows, v) == 0
  {
    if rows != [] {
      CountGridAbsent(rows[..|rows| - 1], v);
      CountInAbsent(rows[|rows| - 1], v);
    }
  }

  /** The cumulative sums of a histogram whose only non-empty bins are `a` and `b`. */
  lemma {:induction false} PrefixTwoBins(h: seq<nat>, a: int, b: int, n: nat)
    requires |h| == 256 && 0 <= a < b < 256 && n <= 256
    requires forall k :: 0 <= k < 256 && k != a && k != b ==> h[k] == 0
    ensures Prefix(h, n) == (if a < n then h[a] else 0) + (if b < n then h[b] else 0)
    ensures WeightedPrefix(h, n) == (if a < n then a * h[a] else 0) + (if b < n then b * h[b] else 0)
  {
    if n > 0 {
      PrefixTwoBins(h, a, b, n - 1);
    }
  }

  /** The cumulative count of a histogram whose only non-empty bin is `v`. */
  lemma {:induction false} PrefixOneBin(h: seq<nat>, v: int, n: nat)
    requires |h| == 256 && 0 <= v < 256 && n <= 256
    requires forall k :: 0 <= k < 256 && k != v ==> h[k] == 0
    ensures Prefix(h, n) == if v < n then h[v] else 0
  {
    if n > 0 {
      PrefixOneBin(h, v, n - 1);
    }
  }

  lemma MulDivCancel(a: int, n: int)
    requires n > 0
    ensures (a * n) / n == a
  {
    var q, r := (a * n) / n, (a * n) % n;
    assert a * n == n * q + r && 0 <= r < n;
    assert n * (a - q) == r;
    Arith.MulSign(n, a - q);
  }

  /**
   * OtsuThreshold.kt:27-32: when every pixel has the same intensity (in
   * particular when there are no pixels), every bin either `continue`s or
   * `break`s, so the threshold stays 0.
   */
  lemma UniformImageThreshold(img: Image, v: Gray, t: int, arith: Arithmetic)
    requires img.Valid()
    requires forall y, x :: 0 <= y < img.height && 0 <= x < img.width ==> img.red[y][x] == v
    requires IsOtsuThreshold(Histogram(img), img.width * img.height, t, arith)
    ensures t == 0
  {
    var h := Histogram(img);
    var total := img.width * img.height;
    HistogramTotal(img);
    forall k | 0 <= k < 256 && k != v
      ensures h[k] == 0
    {
      CountGridAbsent(img.red, k);
    }
    PrefixOneBin(h, v, 256);
    forall j | 0 <= j < 256
      ensures !Evaluated(h, total, j)
    {
      PrefixOneBin(h, v, j + 1);
    }
  }

  /**
   * OtsuThreshold.kt:27-43 on an image with exactly two intensities `a < b`:
   * the bins a..b-1 are evaluated and share one variance, so the threshold is
   * `a` when that variance, as computed, is positive, and 0 otherwise.
   */
  lemma TwoLevelThreshold(img: Image, a: Gray, b: Gray, total: int, t: int, arith: Arithmetic)
    requires img.Valid() && a < b && total == img.width * img.height
    requires forall y, x :: 0 <= y < img.height && 0 <= x < img.width ==> img.red[y][x] == a || img.red[y][x] == b
    requires Histogram(img)[a] > 0 && Histogram(img)[b] > 0
    requires IsOtsuThreshold(Histogram(img), total, t, arith)
    ensures t == if Product(arith, Histogram(img)[a], Histogram(img)[b], a - b) > 0 then a else 0
  {
    var h := Histogram(img);
    var na, nb := h[a], h[b];
    var v := Product(arith, na, nb, a - b);
    HistogramTotal(img);
    forall k | 0 <= k < 256 && k != a && k != b
      ensures h[k] == 0
    {
      CountGridAbsent(img.red, k);
    }
    PrefixTwoBins(h, a, b, 256);
    forall j | 0 <= j < 256
      ensures Evaluated(h, total, j) <==> a <= j < b
      ensures a <= j < b ==> Variance(h, total, j, arith) == v
    {
      TwoLevelBin(h, total, a, b, j, arith);
    }
    if v > 0 {
      assert Evaluated(h, total, a) && Variance(h, total, a, arith) > 0;
    }
  }

  /** Bin `j` of a two-level histogram: evaluated exactly from `a` up to below `b`, always with the same variance. */
  lemma TwoLevelBin(h: seq<nat>, total: int, a: int, b: int, j: int, arith: Arithmetic)
    requires |h| == 256 && 0 <= a < b < 256 && 0 <= j < 256
    requires forall k :: 0 <= k < 256 && k != a && k != b ==> h[k] == 0
    requires h[a] > 0 && h[b] > 0 && total == h[a] + h[b]
    ensures Evaluated(h, total, j) <==> a <= j < b
    ensures a <= j < b ==> Variance(h, total, j, arith) == Product(arith, h[a], h[b], a - b)
  {
    PrefixTwoBins(h, a, b, j + 1);
    PrefixTwoBins(h, a, b, 256);
    if a <= j < b {
      MulDivCancel(a, h[a]);
      MulDivCancel(b, h[b]);
      assert WeightedPrefix(h, 256) - WeightedPrefix(h, j + 1) == b * h[b];
    }
  }

  /** With no overflow in the product, a two-level image is split right above its darker level. */
  lemma TwoLevelThresholdNoOverflow(img: Image, a: Gray, b: Gray, t: int)
    requires img.Valid() && a < b
    requires forall y, x :: 0 <= y < img.height && 0 <= x < img.width ==> img.red[y][x] == a || img.red[y][x] == b
    requires Histogram(img)[a] > 0 && Histogram(img)[b] > 0
    requires Histogram(img)[a] * Histogram(img)[b] * (b - a) * (b - a) <= Int32.Max
    requires IsOtsuThreshold(Histogram(img), img.width * img.height, t, Wrapping32)
    ensures t == a
  {
    ProductNoOverflow(Histogram(img)[a], Histogram(img)[b], b - a);
    TwoLevelThreshold(img, a, b, img.width * img.height, t, Wrapping32);
  }

  /** Without overflow, every two-level image is split right above its darker level. */
  lemma TwoLevelThresholdIntended(img: Image, a: Gray, b: Gray, t: int)
    requires img.Valid() && a < b
    requires forall y, x :: 0 <= y < img.height && 0 <= x < img.width ==> img.red[y][x] == a || img.red[y][x] == b
    requires Histogram(img)[a] > 0 && Histogram(img)[b] > 0
    requires IsOtsuThreshold(Histogram(img), img.width * img.height, t, Unbounded)
    ensures t == a
  {
    ExactProductSign(Histogram(img)[a], Histogram(img)[b], a - b);
    TwoLevelThreshold(img, a, b, img.width * img.height, t, Unbounded);
  }

  /** With both class weights positive, the exact product is positive exactly when the means differ. */
  lemma ExactProductSign(p: int, q: int, d: int)
    requires p > 0 && q > 0
    ensures d != 0 ==> Product(Unbounded, p, q, d) > 0
    ensures d == 0 ==> Product(Unbounded, p, q, d) == 0
  {
    if d != 0 {
      assert p * q > 0;
      assert d * d > 0;
      assert p * q * d * d == (p * q) * (d * d);
    }
  }

  /** When the full product fits in an `Int`, no partial product wraps either. */
  lemma ProductNoOverflow(p: int, q: int, e: int)
    requires p > 0 && q > 0 && e > 0
    requires p * q * e * e <= Int32.Max
    ensures Product(Wrapping32, p, q, -e) == p * q * e * e > 0
  {
    ProductBound(p, q, e);
    assert p * q * (-e) == -(p * q * e);
    assert p * q * (-e) * (-e) == p * q * e * e;
  }

  /** Every partial product of `p * q * (-d) * (-d)` is bounded by the full one. */
  lemma ProductBound(p: nat, q: nat, d: nat)
    requires p > 0 && q > 0 && d > 0
    requires p * q * d * d <= Int32.Max
    ensures 0 < p * q <= p * q * d <= p * q * d * d
  {
    assert p * q >= 1;
    assert p * q * d == (p * q) * d >= p * q;
    assert p * q * d * d == (p * q * d) * d >= p * q * d;
  }

  // ---------------------------------------------------------------------
  // A 28 x 28 picture on which the 32-bit product wraps
  // ---------------------------------------------------------------------

  /** `n` rows of `w` pixels: the first `k` rows at intensity `a`, the others at `b`. */
  function Stripes(w: nat, n: nat, k: nat, a: Gray, b: Gray): (rows: seq<seq<Gray>>)
    ensures |rows| == n
    ensures forall y :: 0 <= y < n ==> rows[y] == ConstRow(w, if y < k then a else b)
  {
    seq(n, y => ConstRow(w, if y < k then a else b))
  }

  /** Dark strokes above a light background, the shape of a photographed digit after scaling to 28 x 28. */
  function StripedDigit(): (img: Image)
    ensures img.Valid() && img.width * img.height == 784
  {
    Image(28, 28, Stripes(28, 28, 14, 10, 240))
  }

  lemma {:induction false} CountConstRow(w: nat, v: Gray, u: int)
    ensures CountIn(ConstRow(w, v), u) == if u == v then w else 0
  {
    if w > 0 {
      assert ConstRow(w, v)[..w - 1] == ConstRow(w - 1, v);
      CountConstRow(w - 1, v, u);
    }
  }

  lemma {:induction false} CountStripes(w: nat, n: nat, k: nat, a: Gray, b: Gray)
    requires a != b && k <= n
    ensures CountGrid(Stripes(w, n, k, a, b), a) == k * w
    ensures CountGrid(Stripes(w, n, k, a, b), b) == (n - k) * w
    decreases n
  {
    if n > 0 {
      var rows := Stripes(w, n, k, a, b);
      var k' := if n > k then k else k - 1;
      var last := if n > k then b else a;
      assert rows[..n - 1] == Stripes(w, n - 1, k', a, b);
      assert rows[n - 1] == ConstRow(w, last);
      CountStripes(w, n - 1, k', a, b);
      CountConstRow(w, last, a);
      CountConstRow(w, last, b);
      assert CountGrid(rows, a) == k' * w + CountIn(ConstRow(w, last), a);
      assert CountGrid(rows, b) == (n - 1 - k') * w + CountIn(ConstRow(w, last), b);
      if n > k {
        Arith.MulSucc(n - 1 - k, w);
      } else {
        Arith.MulSucc(k - 1, w);
        assert n - k == 0 && n - 1 - k' == 0;
      }
    }
  }

  /**
   * As written, the scan returns 0 for `StripedDigit`: 392 * 392 * 230 * 230
   * wraps to a negative `Int`, no bin beats the initial maximum, and every
   * pixel lies above the threshold.
   */
  lemma StripedDigitThresholdAsWritten(t: int)
    requires IsOtsuThreshold(Histogram(StripedDigit()), 784, t, Wrapping32)
    ensures t == 0
    ensures forall y, x :: 0 <= y < 28 && 0 <= x < 28 ==> StripedDigit().red[y][x] > t
  {
    StripedTwoLevel(StripedDigit(), t, Wrapping32);
    StripedProductWraps();
  }

  /** `StripedDigit` is a two-level picture with 392 pixels at each of 10 and 240. */
  lemma StripedTwoLevel(img: Image, t: int, arith: Arithmetic)
    requires img == StripedDigit()
    requires IsOtsuThreshold(Histogram(img), 784, t, arith)
    ensures t == if Product(arith, 392, 392, -230) > 0 then 10 else 0
  {
    StripesThreshold(img, 28, 28, 14, 10, 240, 784, t, arith);
  }

  /**
   * `TwoLevelThreshold` for a striped picture of any size: `k` rows at `a`
   * above `n - k` rows at `b`, so `k * w` and `(n - k) * w` pixels.
   */
  lemma StripesThreshold(img: Image, w: nat, n: nat, k: nat, a: Gray, b: Gray, total: int, t: int, arith: Arithmetic)
    requires a < b && 0 < k < n && w > 0
    requires img == Image(w, n, Stripes(w, n, k, a, b)) && total == w * n
    requires IsOtsuThreshold(Histogram(img), total, t, arith)
    ensures t == if Product(arith, k * w, (n - k) * w, a - b) > 0 then a else 0
  {
    CountStripes(w, n, k, a, b);
    Arith.MulSign(w, k);
    Arith.MulSign(w, n - k);
    assert Histogram(img)[a] == k * w > 0 && Histogram(img)[b] == (n - k) * w > 0;
    StripesTwoLevels(w, n, k, a, b);
    TwoLevelThreshold(img, a, b, total, t, arith);
  }

  /** Every pixel of a striped picture has one of its two intensities. */
  lemma StripesTwoLevels(w: nat, n: nat, k: nat, a: Gray, b: Gray)
    ensures forall y, x :: 0 <= y < n && 0 <= x < w ==> Stripes(w, n, k, a, b)[y][x] == a || Stripes(w, n, k, a, b)[y][x] == b
  {
  }

  /** 392 * 392 * (-230) * (-230) = 8128825600, which is -461108992 modulo 2^32. */
  lemma StripedProductWraps()
    ensures Product(Wrapping32, 392, 392, -230) == -461108992
  {
    assert Int32.Wrap(153664) == 153664;
    assert Int32.Wrap(-35342720) == -35342720;
    assert (8128825600 - Int32.Min) % Int32.Modulus == 1686374656;
    assert Int32.Wrap(8128825600) == -461108992;
  }

  /** With the product evaluated exactly, the same picture is split between its two stripes. */
  lemma StripedDigitThresholdIntended(t: int)
    requires IsOtsuThreshold(Histogram(StripedDigit()), 784, t, Unbounded)
    ensures t == 10
    ensures forall y, x :: 0 <= y < 28 && 0 <= x < 28 ==> (StripedDigit().red[y][x] <= t <==> y < 14)
  {
    StripedTwoLevel(StripedDigit(), t, Unbounded);
  }
}
