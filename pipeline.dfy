/**
 * A composition of the pieces in the order the camera screen applies them:
 * threshold, binarize, flatten, convert to doubles, ask the bank of models.
 * The helper the screen really calls (`processImageToFlattenedVector`) is not
 * part of this model, so this composition is an assumption about it, not a
 * model of it.
 */
module Pipeline {
  import opened Images
  import opened ImageUtils
  import Otsu
  import Int32
  import opened ModeleSvm
  import opened ListModeleSvm

  /** `map { it.toDouble() }` (CameraViewModel.kt:42). */
  function ToReal(bits: seq<int>): (v: seq<real>)
    ensures |v| == |bits|
    ensures forall k :: 0 <= k < |bits| ==> v[k] == bits[k] as real
  {
    seq(|bits|, k requires 0 <= k < |bits| => bits[k] as real)
  }

  /** The vector the bank sees for an image and a threshold. */
  function ClassifierInput(img: Image, threshold: int): seq<real>
    requires img.Valid()
  {
    ToReal(FlattenImage(Binarized(img, threshold)))
  }

  /**
   * The bank sees one entry per pixel, row by row: entry `k` is 1.0 when
   * pixel (k % width, k / width) is not brighter than the threshold, and 0.0
   * otherwise.
   */
  lemma ClassifierInputSpec(img: Image, threshold: int)
    requires img.Valid() && img.width > 0
    ensures |ClassifierInput(img, threshold)| == img.height * img.width
    ensures forall k :: 0 <= k < |ClassifierInput(img, threshold)| ==>
      0 <= k / img.width < img.height &&
      (ClassifierInput(img, threshold)[k] == 1.0 <==> img.red[k / img.width][k % img.width] <= threshold) &&
      (ClassifierInput(img, threshold)[k] == 0.0 <==> img.red[k / img.width][k % img.width] > threshold)
  {
    FlattenedBinarized(img, threshold);
  }

  /**
   * Threshold, binarize, flatten and classify one image, with the threshold
   * `calculateThreshold` computes in 32-bit arithmetic.
   */
  method ClassifyDigit(img: Image, bank: ListModeleSVM, exp: real -> real) returns (threshold: int, chiffre: int)
    requires img.Valid()
    requires img.width * img.height * 255 <= Int32.Max
    requires AllWellSized(bank.listesDeModeleSVM)
    ensures Otsu.IsOtsuThreshold(Otsu.Histogram(img), img.width * img.height, threshold, Otsu.Wrapping32)
    ensures 0 <= threshold <= 254
    ensures chiffre == bank.PredictChiffre(ClassifierInput(img, threshold), exp)
    ensures bank.listesDeModeleSVM != [] ==> 0 <= chiffre < |bank.listesDeModeleSVM|
  {
    threshold := Otsu.CalculateThreshold(img);
    var binarized := BinarizeImage(img, threshold);
    var flat := FlattenImage(Matrix(binarized));
    chiffre := bank.PredictChiffre(ToReal(flat), exp);
  }
}
