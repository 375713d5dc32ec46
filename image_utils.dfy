/**
 * `ImageUtils.binarizeImage` and `ImageUtils.flattenImage`: a threshold turns
 * the red channel into a 0/1 matrix (1 for pixels at or below the threshold),
 * which is then read out row by row.
 */
module ImageUtils {
  import opened Images
  import Arith

  /** ImageUtils.kt:37: a pixel becomes 1 exactly when it is not brighter than the threshold. */
  function BinaryPixel(gray: int, threshold: int): (bit: int)
    ensures bit == 0 || bit == 1
    ensures bit == 1 <==> gray <= threshold
  {
    if gray > threshold then 0 else 1
  }

  /** The matrix `binarizeImage` fills in, as a value. */
  function Binarized(img: Image, threshold: int): (b: seq<seq<int>>)
    requires img.Valid()
    ensures |b| == img.height
    ensures forall y :: 0 <= y < img.height ==> |b[y]| == img.width
    ensures forall y, x :: 0 <= y < img.height && 0 <= x < img.width ==>
      b[y][x] == BinaryPixel(img.red[y][x], threshold)
  {
    seq(img.height, y requires 0 <= y < img.height =>
      seq(img.width, x requires 0 <= x < img.width => BinaryPixel(img.red[y][x], threshold)))
  }

  /** The rows of a matrix, as a value. */
  function Matrix(m: array2<int>): (rows: seq<seq<int>>)
    reads m
    ensures |rows| == m.Length0
    ensures forall y :: 0 <= y < m.Length0 ==> |rows[y]| == m.Length1
    ensures forall y, x :: 0 <= y < m.Length0 && 0 <= x < m.Length1 ==> rows[y][x] == m[y, x]
  {
    seq(m.Length0, y requires 0 <= y < m.Length0 reads m =>
      seq(m.Length1, x requires 0 <= x < m.Length1 reads m => m[y, x]))
  }

  /** ImageUtils.kt:32-41: a fresh height x width matrix, filled cell by cell. */
  method BinarizeImage(img: Image, threshold: int) returns (binarized: array2<int>)
    requires img.Valid()
    ensures fresh(binarized)
    ensures binarized.Length0 == img.height && binarized.Length1 == img.width
    ensures forall y, x :: 0 <= y < img.height && 0 <= x < img.width ==>
      (binarized[y, x] == 0 || binarized[y, x] == 1) && (binarized[y, x] == 1 <==> img.red[y][x] <= threshold)
    ensures Matrix(binarized) == Binarized(img, threshold)
  {
    binarized := new int[img.height, img.width];
    for y := 0 to img.height
      invariant forall y', x' :: 0 <= y' < y && 0 <= x' < img.width ==>
        binarized[y', x'] == BinaryPixel(img.red[y'][x'], threshold)
    {
      for x := 0 to img.width
        invariant forall y', x' :: 0 <= y' < y && 0 <= x' < img.width ==>
          binarized[y', x'] == BinaryPixel(img.red[y'][x'], threshold)
        invariant forall x' :: 0 <= x' < x ==> binarized[y, x'] == BinaryPixel(img.red[y][x'], threshold)
      {
        var gray := img.red[y][x];
        binarized[y, x] := if gray > threshold then 0 else 1;
      }
    }
    MatrixOfBinarized(binarized, img, threshold);
  }

  lemma MatrixOfBinarized(m: array2<int>, img: Image, threshold: int)
    requires img.Valid()
    requires m.Length0 == img.height && m.Length1 == img.width
    requires forall y, x :: 0 <= y < img.height && 0 <= x < img.width ==>
      m[y, x] == BinaryPixel(img.red[y][x], threshold)
    ensures Matrix(m) == Binarized(img, threshold)
  {
    var a, b := Matrix(m), Binarized(img, threshold);
    forall y | 0 <= y < img.height
      ensures a[y] == b[y]
    {
    }
  }

  /** The sum of the row lengths. */
  function TotalLength(rows: seq<seq<int>>): nat {
    if rows == [] then 0 else |rows[0]| + TotalLength(rows[1..])
  }

  /** ImageUtils.kt:43-45: `flatMap` over the rows, in order; nothing is dropped or added. */
  function FlattenImage(rows: seq<seq<int>>): seq<int> {
    if rows == [] then [] else rows[0] + FlattenImage(rows[1..])
  }

  /** The flattened vector is exactly as long as all the rows together, whatever their widths. */
  lemma {:induction false} FlattenTotalLength(rows: seq<seq<int>>)
    ensures |FlattenImage(rows)| == TotalLength(rows)
    ensures rows != [] ==> FlattenImage(rows)[..|rows[0]|] == rows[0]
  {
    if rows != [] {
      FlattenTotalLength(rows[1..]);
    }
  }

  /** Flattening the rows of two matrices one after the other is flattening each and concatenating. */
  lemma {:induction false} FlattenAppend(top: seq<seq<int>>, bottom: seq<seq<int>>)
    ensures FlattenImage(top + bottom) == FlattenImage(top) + FlattenImage(bottom)
  {
    if top != [] {
      assert (top + bottom)[0] == top[0] && (top + bottom)[1..] == top[1..] + bottom;
      FlattenAppend(top[1..], bottom);
      calc {
        FlattenImage(top + bottom);
        top[0] + FlattenImage(top[1..] + bottom);
        top[0] + (FlattenImage(top[1..]) + FlattenImage(bottom));
        (top[0] + FlattenImage(top[1..])) + FlattenImage(bottom);
      }
    } else {
      assert top + bottom == bottom;
    }
  }

  /** For rows of one width `w`, the flattened vector has `|rows| * w` entries. */
  lemma {:induction false} FlattenLength(rows: seq<seq<int>>, w: nat)
    requires forall y :: 0 <= y < |rows| ==> |rows[y]| == w
    ensures |FlattenImage(rows)| == |rows| * w
  {
    if rows != [] {
      FlattenLength(rows[1..], w);
      NextRow(|rows|, w, 0);
    }
  }

  /** For rows of one width `w`, entry `y * w + x` of the flattened vector is `rows[y][x]`. */
  lemma {:induction false} FlattenAt(rows: seq<seq<int>>, w: nat, y: int, x: int)
    requires forall y :: 0 <= y < |rows| ==> |rows[y]| == w
    requires 0 <= y < |rows| && 0 <= x < w
    ensures y * w + x < |FlattenImage(rows)| && FlattenImage(rows)[y * w + x] == rows[y][x]
  {
    FlattenLength(rows, w);
    RowMajorBound(|rows|, w, y, x);
    if y > 0 {
      var rest := rows[1..];
      FlattenAt(rest, w, y - 1, x);
      NextRow(y, w, x);
      assert FlattenImage(rows) == rows[0] + FlattenImage(rest);
    }
  }

  /** Conversely, entry `k` of the flattened vector comes from row `k / w`, column `k % w`. */
  lemma FlattenIndex(rows: seq<seq<int>>, w: nat, k: int)
    requires w > 0
    requires forall y :: 0 <= y < |rows| ==> |rows[y]| == w
    requires 0 <= k < |FlattenImage(rows)|
    ensures 0 <= k / w < |rows| && FlattenImage(rows)[k] == rows[k / w][k % w]
  {
    FlattenLength(rows, w);
    RowOfIndex(|rows|, w, k);
    FlattenAt(rows, w, k / w, k % w);
  }

  lemma NextRow(y: int, w: int, x: int)
    requires y > 0
    ensures y * w + x == w + ((y - 1) * w + x)
  {
  }

  lemma RowMajorBound(n: int, w: int, y: int, x: int)
    requires 0 <= y < n && 0 <= x < w
    ensures 0 <= y * w + x < n * w
  {
    MulNonNegative(y, w);
    MulNonNegative(n - y - 1, w);
    assert n * w == y * w + w + (n - y - 1) * w;
  }

  lemma MulNonNegative(a: int, b: int)
    requires a >= 0 && b >= 0
    ensures a * b >= 0
  {
  }

  /** Index `k` of a row-major vector lies in row `k / w`, column `k % w`. */
  lemma RowOfIndex(n: int, w: int, k: int)
    requires w > 0 && 0 <= k < n * w
    ensures 0 <= k / w < n && 0 <= k % w < w
    ensures k == (k / w) * w + k % w
  {
    var y, x := k / w, k % w;
    assert k == y * w + x && 0 <= x < w;
    assert 0 <= y by {
      if y <= -1 {
        Arith.MulSign(w, y);
      }
    }
    assert y < n by {
      if y >= n {
        Arith.MulSign(w, y - n);
      }
    }
  }

  /**
   * What the flattened binary image is: `height * width` bits, entry `k` is
   * the bit of pixel (k % width, k / width), and every entry is 0 or 1.
   */
  lemma FlattenedBinarized(img: Image, threshold: int)
    requires img.Valid()
    ensures |FlattenImage(Binarized(img, threshold))| == img.height * img.width
    ensures img.width > 0 ==> forall k :: 0 <= k < |FlattenImage(Binarized(img, threshold))| ==>
      0 <= k / img.width < img.height &&
      FlattenImage(Binarized(img, threshold))[k] == BinaryPixel(img.red[k / img.width][k % img.width], threshold)
    ensures forall k :: 0 <= k < |FlattenImage(Binarized(img, threshold))| ==>
      FlattenImage(Binarized(img, threshold))[k] == 0 || FlattenImage(Binarized(img, threshold))[k] == 1
  {
    var b := Binarized(img, threshold);
    FlattenBits(b);
    FlattenLength(b, img.width);
    if img.width > 0 {
      forall k | 0 <= k < |FlattenImage(b)|
        ensures 0 <= k / img.width < img.height &&
          FlattenImage(b)[k] == BinaryPixel(img.red[k / img.width][k % img.width], threshold)
      {
        FlattenIndex(b, img.width, k);
      }
    }
  }

  /** Pixel (x, y) lands at entry `y * width + x` of the flattened binary image. */
  lemma FlattenedBinarizedAt(img: Image, threshold: int, y: int, x: int)
    requires img.Valid()
    requires 0 <= y < img.height && 0 <= x < img.width
    ensures y * img.width + x < |FlattenImage(Binarized(img, threshold))|
    ensures FlattenImage(Binarized(img, threshold))[y * img.width + x] == BinaryPixel(img.red[y][x], threshold)
  {
    FlattenAt(Binarized(img, threshold), img.width, y, x);
  }

  /** Flattening keeps exactly the entries of the rows, so 0/1 rows give a 0/1 vector. */
  lemma {:induction false} FlattenBits(rows: seq<seq<int>>)
    requires forall y, x :: 0 <= y < |rows| && 0 <= x < |rows[y]| ==> rows[y][x] == 0 || rows[y][x] == 1
    ensures forall k :: 0 <= k < |FlattenImage(rows)| ==> FlattenImage(rows)[k] == 0 || FlattenImage(rows)[k] == 1
  {
    if rows != [] {
      FlattenBits(rows[1..]);
      assert FlattenImage(rows) == rows[0] + FlattenImage(rows[1..]);
    }
  }

  /** Raising the threshold never turns a 1 into a 0. */
  lemma ThresholdMonotone(img: Image, t1: int, t2: int)
    requires img.Valid() && t1 <= t2
    ensures forall y, x :: 0 <= y < img.height && 0 <= x < img.width ==>
      Binarized(img, t1)[y][x] <= Binarized(img, t2)[y][x]
  {
  }

  /** A threshold of 255 or more marks every pixel 1; a negative one marks every pixel 0. */
  lemma ThresholdExtremes(img: Image, t: int)
    requires img.Valid()
    ensures t >= 255 ==> forall y, x :: 0 <= y < img.height && 0 <= x < img.width ==> Binarized(img, t)[y][x] == 1
    ensures t < 0 ==> forall y, x :: 0 <= y < img.height && 0 <= x < img.width ==> Binarized(img, t)[y][x] == 0
  {
  }
}
