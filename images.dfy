/**
 * A decoded bitmap as the thresholding code sees it: the red channel of every
 * pixel, a value in [0, 255], stored row by row (`red[y][x]` is
 * `Color.red(image.getPixel(x, y))`).
 */
module Images {

  type Gray = v: int | 0 <= v < 256

  datatype Image = Image(width: nat, height: nat, red: seq<seq<Gray>>) {

    /** The grid is `height` rows of `width` pixels each. */
    predicate Valid() {
      |red| == height && forall y :: 0 <= y < height ==> |red[y]| == width
    }
  }

  /** A row of `w` pixels that all have intensity `v`. */
  function ConstRow(w: nat, v: Gray): (row: seq<Gray>)
    ensures |row| == w && forall x :: 0 <= x < w ==> row[x] == v
  {
    seq(w, _ => v)
  }
}
