# Ma-Number classifier core, in Dafny

Ma-Number is an Android app that reads a handwritten digit from a camera frame. The frame is turned into a grey-level grid. Otsu's method picks a grey threshold for it. The grid is binarized (dark pixels become 1), flattened row by row, and handed to a bank of ten RBF-kernel SVMs. The bank answers with the digit whose model scores highest. The repository also has a separate linear SVM (`SVMModel` / `predictSVM`) that gives a 0/1 decision.

This project models that core and proves properties of it. The files are:

- `otsu.dfy`: `OtsuThreshold.calculateThreshold`. It builds the histogram in place in an `array`, then runs the scan loop with its `continue` and `break`.
- `image_utils.dfy`: `binarizeImage` fills an `array2` cell by cell, and `flattenImage` is a pure `flatMap`.
- `modele_svm.dfy`: `ModeleSVM`, which covers the RBF kernel, the scoring loop and the three text loaders.
- `tokenizer.dfy`: Kotlin's `split(Regex("\\s+"))`.
- `list_modele_svm.dfy`: `ListModeleSVM`, which covers the ten-model bank, its asset names and `predictChiffre`.
- `svm_model.dfy`: `SVMModel` and `predictSVM`.
- `pipeline.dfy`: one composition of these pieces.
- `int32.dfy`, `images.dfy` and `wrappers.dfy`: support modules for Kotlin `Int` arithmetic, the grey-level image and `Option`/`Result`.

Modelling choices:

- A Kotlin `Double` is a `real`.
- `kotlin.math.exp` is a parameter `exp`. Lemmas that need its shape require `ExpLike`: exp(0) = 1, it is positive and it is increasing.
- `String.toDouble` is a parameter `parse`, which returns `None` where Kotlin throws.
- The app's assets are a map from file name to the file's lines.
- A crash in a loader (a missing asset, `readLine()` returning null, a bad number) is a `LoadError`.

## Behaviour worth noting

- **Pixel polarity.** A pixel becomes 1 exactly when its intensity is not above the threshold (`gray <= t`, ImageUtils.kt:37).
- **Loader size checks.** The loaders check nothing about sizes. A coefficient count that differs from the number of support vectors is not an error at load time. Too few coefficients makes `predictScore` index out of bounds (the `WellSized` precondition), and extra coefficients are ignored (`ModeleSvm.ExtraCoefficientsIgnored`).
- **Two-level images.** Take an image with exactly two intensities a < b, with h[a] and h[b] pixels.
  - When h[a] * h[b] * (b - a)^2 fits in an `Int`, the threshold is `a` itself, not a value strictly between the two (`Otsu.TwoLevelThresholdNoOverflow`). Binarization keeps `<= a` as 1, so the two levels are still separated.
  - When that product does not fit, the 32-bit product can wrap to a non-positive value, and the threshold is then 0 (`Otsu.TwoLevelThreshold`; see Findings).
  - Evaluated without overflow, the threshold is always `a` (`Otsu.TwoLevelThresholdIntended`).
- **Empty images.** An image with no pixels gives threshold 0. It is not rejected (`Otsu.UniformImageThreshold`).

## Model

| member | source | states |
|---|---|---|
| Int32.Wrap | app/src/main/java/fr/mastersd/sime/rabah/manumber/utils/OtsuThreshold.kt:37 | the 32-bit value is in Int range, is congruent to x modulo 2^32, and equals x when x fits |
| Int32.Mul | app/src/main/java/fr/mastersd/sime/rabah/manumber/utils/OtsuThreshold.kt:37 | Kotlin `Int` multiplication: in range, congruent to the true product, exact when the product fits |
| Images.ConstRow | app/src/main/java/fr/mastersd/sime/rabah/manumber/utils/OtsuThreshold.kt:11-13 | a row of w pixels all of intensity v |
| Otsu.CountIn | app/src/main/java/fr/mastersd/sime/rabah/manumber/utils/OtsuThreshold.kt:12-14 | the count of one intensity in a row never exceeds the row's length |
| Otsu.Histogram | app/src/main/java/fr/mastersd/sime/rabah/manumber/utils/OtsuThreshold.kt:9 | the histogram has 256 bins |
| Otsu.BuildHistogram | app/src/main/java/fr/mastersd/sime/rabah/manumber/utils/OtsuThreshold.kt:9-16 | the fresh array is the histogram: bin v counts the pixels of intensity v, over all rows |
| Otsu.HistogramTotal | app/src/main/java/fr/mastersd/sime/rabah/manumber/utils/OtsuThreshold.kt:9-18 | the bins add up to width * height: each pixel lands in exactly one bin |
| Otsu.SumIntensities | app/src/main/java/fr/mastersd/sime/rabah/manumber/utils/OtsuThreshold.kt:19-20 | `sum` is the sum over all bins of i * histogram[i] |
| Otsu.Variance | app/src/main/java/fr/mastersd/sime/rabah/manumber/utils/OtsuThreshold.kt:31-37 | the variance at an evaluated bin is a 32-bit value on Kotlin `Int`; evaluated exactly it is >= 0, and > 0 exactly when the truncated background and foreground means differ |
| Otsu.ExactProductSign | app/src/main/java/fr/mastersd/sime/rabah/manumber/utils/OtsuThreshold.kt:37 | with both class weights positive, the exact product is positive when the mean difference is non-zero and 0 when it is zero |
| Otsu.IsOtsuThreshold | app/src/main/java/fr/mastersd/sime/rabah/manumber/utils/OtsuThreshold.kt:24-44 | what the scan returns: the lowest evaluated bin of maximal variance when some variance is positive, else 0; such a bin is never 255, since bin 255 leaves no pixel in the foreground |
| Otsu.ScanThreshold | app/src/main/java/fr/mastersd/sime/rabah/manumber/utils/OtsuThreshold.kt:18-44 | the scan returns the lowest evaluated bin of maximal between-class variance when some variance is positive, else 0; the result is at most 254 |
| Otsu.CalculateThreshold | app/src/main/java/fr/mastersd/sime/rabah/manumber/utils/OtsuThreshold.kt:8-45 | the threshold of the image, with the variance product on wrapping 32-bit `Int`, as written; it lies in [0, 254] |
| Otsu.CalculateThresholdIntended | app/src/main/java/fr/mastersd/sime/rabah/manumber/utils/OtsuThreshold.kt:8-45 | the same threshold with the variance product evaluated without overflow |
| Otsu.PrefixMonotone | app/src/main/java/fr/mastersd/sime/rabah/manumber/utils/OtsuThreshold.kt:28 | the background weight `wB` never decreases along the scan |
| Otsu.VarianceAt | app/src/main/java/fr/mastersd/sime/rabah/manumber/utils/OtsuThreshold.kt:31-37 | from its running sums, the loop body computes the variance defined from the histogram, at a bin that is evaluated |
| Otsu.BestSoFarSkip | app/src/main/java/fr/mastersd/sime/rabah/manumber/utils/OtsuThreshold.kt:28-29 | a bin that `continue`s because the background is empty changes neither the best bin nor `sumB` |
| Otsu.BestSoFarAfterBreak | app/src/main/java/fr/mastersd/sime/rabah/manumber/utils/OtsuThreshold.kt:31-32 | after the bin that `break`s, no later bin could have been evaluated, so stopping loses nothing |
| Otsu.BestSoFarStep | app/src/main/java/fr/mastersd/sime/rabah/manumber/utils/OtsuThreshold.kt:39-42 | an evaluated bin replaces the best bin exactly when its variance is strictly greater, so ties keep the earlier bin |
| Otsu.ScanStep | app/src/main/java/fr/mastersd/sime/rabah/manumber/utils/OtsuThreshold.kt:34-42 | one evaluated bin, stated on the loop's running sums, keeps the best-so-far invariant |
| Otsu.BestSoFarIsThreshold | app/src/main/java/fr/mastersd/sime/rabah/manumber/utils/OtsuThreshold.kt:24-44 | the scan state after bin 255 is the Otsu threshold: maxVariance starting at 0 means "0 unless some variance is positive" |
| Otsu.ThresholdUnique | app/src/main/java/fr/mastersd/sime/rabah/manumber/utils/OtsuThreshold.kt:39-42 | at most one bin meets the threshold's definition, so the result is determined |
| Otsu.PrefixIsGridBelow | app/src/main/java/fr/mastersd/sime/rabah/manumber/utils/OtsuThreshold.kt:9-16 | the bins below n hold exactly the pixels of intensity below n |
| Otsu.GridBelowAll | app/src/main/java/fr/mastersd/sime/rabah/manumber/utils/OtsuThreshold.kt:11-12 | every pixel of an n x w grid is below 256 |
| Otsu.CountGridAbsent | app/src/main/java/fr/mastersd/sime/rabah/manumber/utils/OtsuThreshold.kt:13-14 | a bin that no pixel falls into stays 0 |
| Otsu.PrefixTwoBins | app/src/main/java/fr/mastersd/sime/rabah/manumber/utils/OtsuThreshold.kt:20-34 | the cumulative weight and weighted sum of a histogram with two non-empty bins |
| Otsu.PrefixOneBin | app/src/main/java/fr/mastersd/sime/rabah/manumber/utils/OtsuThreshold.kt:28 | the cumulative weight of a histogram with one non-empty bin |
| Otsu.UniformImageThreshold | app/src/main/java/fr/mastersd/sime/rabah/manumber/utils/OtsuThreshold.kt:27-32 | a uniform image, including one with no pixels, gets threshold 0: every bin either continues or breaks |
| Otsu.TwoLevelBin | app/src/main/java/fr/mastersd/sime/rabah/manumber/utils/OtsuThreshold.kt:28-37 | with two intensities a < b, bin j is evaluated exactly when a <= j < b, always with the same variance |
| Otsu.TwoLevelThreshold | app/src/main/java/fr/mastersd/sime/rabah/manumber/utils/OtsuThreshold.kt:27-43 | with two intensities a < b, the threshold is a if the computed product is positive, else 0 |
| Otsu.TwoLevelThresholdNoOverflow | app/src/main/java/fr/mastersd/sime/rabah/manumber/utils/OtsuThreshold.kt:27-43 | as written, a two-level image whose variance fits in an `Int` is split at its darker level a |
| Otsu.TwoLevelThresholdIntended | app/src/main/java/fr/mastersd/sime/rabah/manumber/utils/OtsuThreshold.kt:27-43 | without overflow, every two-level image is split at its darker level a |
| Otsu.ProductNoOverflow | app/src/main/java/fr/mastersd/sime/rabah/manumber/utils/OtsuThreshold.kt:37 | when the full variance fits in an `Int`, the wrapped product equals the exact one and is positive |
| Otsu.ProductBound | app/src/main/java/fr/mastersd/sime/rabah/manumber/utils/OtsuThreshold.kt:37 | each partial product of the left-to-right evaluation is bounded by the full product |
| Otsu.Stripes | app/src/main/java/fr/mastersd/sime/rabah/manumber/utils/OtsuThreshold.kt:11-13 | n rows of width w: the first k at intensity a, the rest at b |
| Otsu.StripedDigit | app/src/main/java/fr/mastersd/sime/rabah/manumber/utils/OtsuThreshold.kt:8 | the 28 x 28 counterexample picture is a valid image of 784 pixels |
| Otsu.CountStripes | app/src/main/java/fr/mastersd/sime/rabah/manumber/utils/OtsuThreshold.kt:9-16 | the striped grid's histogram has k * w pixels at a and (n - k) * w at b |
| Otsu.StripesThreshold | app/src/main/java/fr/mastersd/sime/rabah/manumber/utils/OtsuThreshold.kt:27-43 | a striped picture, k rows at a above n - k rows at b, gets threshold a when the computed product for k * w and (n - k) * w pixels is positive, and 0 otherwise |
| Otsu.StripedTwoLevel | app/src/main/java/fr/mastersd/sime/rabah/manumber/utils/OtsuThreshold.kt:27-43 | the striped digit gets threshold 10 when the computed product for 392 and 392 pixels and the gap 230 is positive, and 0 otherwise |
| Otsu.StripedDigitThresholdAsWritten | app/src/main/java/fr/mastersd/sime/rabah/manumber/utils/OtsuThreshold.kt:37-42 | as written, the striped digit gets threshold 0, which marks every pixel as background |
| Otsu.StripedProductWraps | app/src/main/java/fr/mastersd/sime/rabah/manumber/utils/OtsuThreshold.kt:37 | 392 * 392 * (-230) * (-230) wraps to the negative Int -461108992 |
| Otsu.StripedDigitThresholdIntended | app/src/main/java/fr/mastersd/sime/rabah/manumber/utils/OtsuThreshold.kt:27-43 | evaluated exactly, the striped digit gets threshold 10, which keeps exactly the dark upper half as 1 |
| ImageUtils.BinaryPixel | app/src/main/java/fr/mastersd/sime/rabah/manumber/utils/ImageUtils.kt:37 | a pixel becomes 0 or 1, and 1 exactly when its intensity is <= threshold |
| ImageUtils.Binarized | app/src/main/java/fr/mastersd/sime/rabah/manumber/utils/ImageUtils.kt:33-37 | height rows of width entries, entry [y][x] being the binary value of pixel (x, y) |
| ImageUtils.Matrix | app/src/main/java/fr/mastersd/sime/rabah/manumber/utils/ImageUtils.kt:33 | the rows of a matrix, with its dimensions and entries |
| ImageUtils.BinarizeImage | app/src/main/java/fr/mastersd/sime/rabah/manumber/utils/ImageUtils.kt:32-41 | a fresh height x width matrix whose cell [y][x] is 1 iff pixel (x, y) is <= threshold |
| ImageUtils.MatrixOfBinarized | app/src/main/java/fr/mastersd/sime/rabah/manumber/utils/ImageUtils.kt:33-40 | a matrix filled cell by cell with the binary values is the binarized image |
| ImageUtils.FlattenTotalLength | app/src/main/java/fr/mastersd/sime/rabah/manumber/utils/ImageUtils.kt:43-45 | the flattened vector is as long as all rows together, whatever their widths, and starts with the first row |
| ImageUtils.FlattenAppend | app/src/main/java/fr/mastersd/sime/rabah/manumber/utils/ImageUtils.kt:44 | flattening two blocks of rows one after the other is flattening each and concatenating, so rows keep their order |
| ImageUtils.FlattenLength | app/src/main/java/fr/mastersd/sime/rabah/manumber/utils/ImageUtils.kt:44 | for rows of one width w, the flattened length is rows times w |
| ImageUtils.FlattenAt | app/src/main/java/fr/mastersd/sime/rabah/manumber/utils/ImageUtils.kt:44 | entry [y][x] sits at index y * w + x |
| ImageUtils.FlattenIndex | app/src/main/java/fr/mastersd/sime/rabah/manumber/utils/ImageUtils.kt:44 | conversely, index k holds entry [k / w][k % w] |
| ImageUtils.RowMajorBound | app/src/main/java/fr/mastersd/sime/rabah/manumber/utils/ImageUtils.kt:44 | a row-major index of an n x w grid lies in [0, n * w) |
| ImageUtils.RowOfIndex | app/src/main/java/fr/mastersd/sime/rabah/manumber/utils/ImageUtils.kt:44 | the row and column of an index lie inside the grid and recompose the index |
| ImageUtils.FlattenedBinarized | app/src/main/java/fr/mastersd/sime/rabah/manumber/utils/ImageUtils.kt:32-45 | the flattened binary image has height * width entries, each 0 or 1, and entry k is 1 iff pixel (k % w, k / w) is <= threshold |
| ImageUtils.FlattenedBinarizedAt | app/src/main/java/fr/mastersd/sime/rabah/manumber/utils/ImageUtils.kt:32-45 | pixel (x, y) lands at index y * width + x with its binary value |
| ImageUtils.FlattenBits | app/src/main/java/fr/mastersd/sime/rabah/manumber/utils/ImageUtils.kt:44 | flattening a 0/1 matrix gives a 0/1 vector |
| ImageUtils.ThresholdMonotone | app/src/main/java/fr/mastersd/sime/rabah/manumber/utils/ImageUtils.kt:37 | raising the threshold never turns a 1 into a 0 |
| ImageUtils.ThresholdExtremes | app/src/main/java/fr/mastersd/sime/rabah/manumber/utils/ImageUtils.kt:37 | a threshold >= 255 gives all 1s and a negative threshold gives all 0s |
| Tokenizer.SkipWhitespaceRun | app/src/main/java/fr/mastersd/sime/rabah/manumber/backend/svm/ModeleSVM.kt:40 | `SkipWhitespace` removes exactly the maximal whitespace run at the front: what it drops is whitespace, what remains is a suffix that does not start with whitespace |
| Tokenizer.SplitWhitespace | app/src/main/java/fr/mastersd/sime/rabah/manumber/backend/svm/ModeleSVM.kt:40 | at least one token, none holding whitespace |
| Tokenizer.RemoveWhitespace | app/src/main/java/fr/mastersd/sime/rabah/manumber/backend/svm/ModeleSVM.kt:40 | the line's non-whitespace characters, none of them whitespace |
| Tokenizer.SplitEdges | app/src/main/java/fr/mastersd/sime/rabah/manumber/backend/svm/ModeleSVM.kt:40 | the first or last token is empty exactly when the line is empty or starts or ends with whitespace; inner tokens are never empty |
| Tokenizer.SplitLast | app/src/main/java/fr/mastersd/sime/rabah/manumber/backend/svm/ModeleSVM.kt:40 | the last token is empty exactly when the line is empty or ends with whitespace |
| Tokenizer.SplitInner | app/src/main/java/fr/mastersd/sime/rabah/manumber/backend/svm/ModeleSVM.kt:40 | no token strictly between the first and the last is empty |
| Tokenizer.SplitHead | app/src/main/java/fr/mastersd/sime/rabah/manumber/backend/svm/ModeleSVM.kt:40 | a nonempty line starting with whitespace gives an empty first token and at least one more; otherwise the first token is not empty |
| Tokenizer.SplitWellFormed | app/src/main/java/fr/mastersd/sime/rabah/manumber/backend/svm/ModeleSVM.kt:40 | every split is a well-formed token list |
| Tokenizer.SplitContents | app/src/main/java/fr/mastersd/sime/rabah/manumber/backend/svm/ModeleSVM.kt:40 | the tokens hold exactly the non-whitespace characters of the line, in order |
| Tokenizer.SkipKeepsContents | app/src/main/java/fr/mastersd/sime/rabah/manumber/backend/svm/ModeleSVM.kt:40 | skipping whitespace loses no non-whitespace character |
| Tokenizer.SplitNoWhitespace | app/src/main/java/fr/mastersd/sime/rabah/manumber/backend/svm/ModeleSVM.kt:40 | a whitespace-free line is one token, itself |
| Tokenizer.SplitAfterToken | app/src/main/java/fr/mastersd/sime/rabah/manumber/backend/svm/ModeleSVM.kt:40 | a single space after a token ends exactly that token |
| Tokenizer.SplitJoin | app/src/main/java/fr/mastersd/sime/rabah/manumber/backend/svm/ModeleSVM.kt:40 | splitting undoes joining with single spaces, for every well-formed token list |
| ModeleSvm.SumNonNegative | app/src/main/java/fr/mastersd/sime/rabah/manumber/backend/svm/ModeleSVM.kt:33 | a sum of non-negative terms is non-negative, and zero exactly when every term is |
| ModeleSvm.SquaredDistanceZero | app/src/main/java/fr/mastersd/sime/rabah/manumber/backend/svm/ModeleSVM.kt:32-33 | the squared distance is >= 0, and 0 exactly when the vectors agree on the first min(len x, len sv) positions |
| ModeleSvm.SquareNonNegative | app/src/main/java/fr/mastersd/sime/rabah/manumber/backend/svm/ModeleSVM.kt:32 | `it * it` is never negative |
| ModeleSvm.SquarePositive | app/src/main/java/fr/mastersd/sime/rabah/manumber/backend/svm/ModeleSVM.kt:32 | the square of a non-zero difference is positive |
| ModeleSvm.ZipIgnoresTail | app/src/main/java/fr/mastersd/sime/rabah/manumber/backend/svm/ModeleSVM.kt:32 | `zip` pairs only the first min(len x, len sv) positions; the longer vector's tail is ignored |
| ModeleSvm.SquaredDiffsSymmetric | app/src/main/java/fr/mastersd/sime/rabah/manumber/backend/svm/ModeleSVM.kt:32 | the squared differences do not depend on argument order |
| ModeleSvm.NoyauRbf | app/src/main/java/fr/mastersd/sime/rabah/manumber/backend/svm/ModeleSVM.kt:31-34 | exp(-gamma * squared distance), with gamma the class constant 0.001 (ModeleSVM.kt:14); for an `exp` of the shape `ExpLike` the kernel lies in (0, 1] |
| ModeleSvm.ExpOfNonPositive | app/src/main/java/fr/mastersd/sime/rabah/manumber/backend/svm/ModeleSVM.kt:33 | an `ExpLike` exp maps a non-positive exponent into (0, 1] |
| ModeleSvm.KernelBounds | app/src/main/java/fr/mastersd/sime/rabah/manumber/backend/svm/ModeleSVM.kt:31-34 | the kernel lies in (0, 1], is symmetric, and is 1 exactly when the zipped positions agree |
| ModeleSvm.IdenticalSupportVectorTerm | app/src/main/java/fr/mastersd/sime/rabah/manumber/backend/svm/ModeleSVM.kt:26-33 | an image equal to support vector i gets exactly coefficients[i] from that term |
| ModeleSvm.Score | app/src/main/java/fr/mastersd/sime/rabah/manumber/backend/svm/ModeleSVM.kt:22-29 | for an `ExpLike` exp, the score lies between bias minus and bias plus the sum of the absolute coefficients |
| ModeleSvm.PredictScore | app/src/main/java/fr/mastersd/sime/rabah/manumber/backend/svm/ModeleSVM.kt:22-29 | the loop returns bias + sum over every support vector i of coefficients[i] * K(x, sv[i]) |
| ModeleSvm.ScoreWithoutSupportVectors | app/src/main/java/fr/mastersd/sime/rabah/manumber/backend/svm/ModeleSVM.kt:23-28 | with no support vectors the score is the bias |
| ModeleSvm.ExtraCoefficientsIgnored | app/src/main/java/fr/mastersd/sime/rabah/manumber/backend/svm/ModeleSVM.kt:24-26 | coefficients past the number of support vectors do not change the score |
| ModeleSvm.KernelSumPrefixIgnored | app/src/main/java/fr/mastersd/sime/rabah/manumber/backend/svm/ModeleSVM.kt:24-26 | each partial kernel sum ignores the extra coefficients |
| ModeleSvm.KernelSumBounds | app/src/main/java/fr/mastersd/sime/rabah/manumber/backend/svm/ModeleSVM.kt:24-27 | for an `ExpLike` exp, each partial kernel sum lies within the matching sum of absolute coefficients |
| ModeleSvm.KernelSumWithin | app/src/main/java/fr/mastersd/sime/rabah/manumber/backend/svm/ModeleSVM.kt:24-27 | with kernel values in (0, 1], the partial sum lies within the sum of absolute coefficients |
| ModeleSvm.TermBounds | app/src/main/java/fr/mastersd/sime/rabah/manumber/backend/svm/ModeleSVM.kt:26 | one term coefficients[i] * K lies within abs(coefficients[i]) |
| ModeleSvm.ProductBounds | app/src/main/java/fr/mastersd/sime/rabah/manumber/backend/svm/ModeleSVM.kt:26 | scaling by a factor in (0, 1] stays within the absolute value |
| ModeleSvm.AllOrFirstErrorSpec | app/src/main/java/fr/mastersd/sime/rabah/manumber/backend/svm/ModeleSVM.kt:39-42 | a run of steps succeeds iff every step does, keeps every value in order, and otherwise carries the first failure's error |
| ModeleSvm.AllOrFirstErrorNext | app/src/main/java/fr/mastersd/sime/rabah/manumber/backend/svm/ModeleSVM.kt:39-42 | one more step either fails the run with its error or appends its value |
| ModeleSvm.PrefixFailure | app/src/main/java/fr/mastersd/sime/rabah/manumber/backend/svm/ModeleSVM.kt:39-42 | once a prefix fails, the whole run fails with the same error (the exception ends the loop) |
| ModeleSvm.ParseTokensSpec | app/src/main/java/fr/mastersd/sime/rabah/manumber/backend/svm/ModeleSVM.kt:40 | `map { it.toDouble() }` succeeds iff every token parses, gives their values in order, else names the first bad token |
| ModeleSvm.ParseLineSpec | app/src/main/java/fr/mastersd/sime/rabah/manumber/backend/svm/ModeleSVM.kt:49 | a line loads exactly when each of its whitespace-separated tokens parses, and then holds their values in order |
| ModeleSvm.LineSteps | app/src/main/java/fr/mastersd/sime/rabah/manumber/backend/svm/ModeleSVM.kt:39-40 | one parse per line, for every line |
| ModeleSvm.ReadSupportVectors | app/src/main/java/fr/mastersd/sime/rabah/manumber/backend/svm/ModeleSVM.kt:36-45 | a missing file is its error; otherwise one vector per line in file order exactly when every line parses, else the error of the first line that does not |
| ModeleSvm.ChargerVecteursSupports | app/src/main/java/fr/mastersd/sime/rabah/manumber/backend/svm/ModeleSVM.kt:36-45 | the line-by-line loop returns one vector per line, or the missing-asset error, or the first line's parse error |
| ModeleSvm.ChargerCoefficients | app/src/main/java/fr/mastersd/sime/rabah/manumber/backend/svm/ModeleSVM.kt:47-51 | a missing or empty file is its error; otherwise it loads exactly when every whitespace-separated token of the first line parses, and then holds their values in order |
| ModeleSvm.ChargerBiais | app/src/main/java/fr/mastersd/sime/rabah/manumber/backend/svm/ModeleSVM.kt:53-57 | a missing or empty file is its error; otherwise it loads exactly when the whole first line parses as one number, which is the bias, and fails naming that line |
| ModeleSvm.LoadModeleSVM | app/src/main/java/fr/mastersd/sime/rabah/manumber/backend/svm/ModeleSVM.kt:11-20 | the model record (support vectors, coefficients, bias) is loaded iff all three loaders succeed and then holds their results; otherwise vectors' error first, then coefficients', then the bias's |
| ModeleSvm.NewModeleSVM | app/src/main/java/fr/mastersd/sime/rabah/manumber/backend/svm/ModeleSVM.kt:5-20 | the constructor, with the vector loop, gives what `LoadModeleSVM` specifies |
| ModeleSvm.SupportVectorCount | app/src/main/java/fr/mastersd/sime/rabah/manumber/backend/svm/ModeleSVM.kt:39-44 | a loaded model has exactly one support vector per line of its vector file, in file order |
| ModeleSvm.OnlyFirstLineRead | app/src/main/java/fr/mastersd/sime/rabah/manumber/backend/svm/ModeleSVM.kt:47-57 | coefficients and bias come from the first line only; later lines change nothing |
| ModeleSvm.PaddedLineFails | app/src/main/java/fr/mastersd/sime/rabah/manumber/backend/svm/ModeleSVM.kt:40 | an empty line, or one with leading or trailing whitespace, fails to load, since its empty token does not parse |
| ModeleSvm.CleanLineParses | app/src/main/java/fr/mastersd/sime/rabah/manumber/backend/svm/ModeleSVM.kt:40 | numerals joined by single spaces load as exactly those numbers |
| ListModeleSvm.DigitName | app/src/main/java/fr/mastersd/sime/rabah/manumber/backend/svm/ListModeleSVM.kt:11-13 | `"$i"` for a digit is one decimal character of value i |
| ListModeleSvm.PathsDistinct | app/src/main/java/fr/mastersd/sime/rabah/manumber/backend/svm/ListModeleSVM.kt:11-13 | the thirty asset names are pairwise distinct: equal only for the same digit and kind |
| ListModeleSvm.DigitSteps | app/src/main/java/fr/mastersd/sime/rabah/manumber/backend/svm/ListModeleSVM.kt:10-14 | ten loads, load i reading digit i's three files |
| ListModeleSvm.LoadBank | app/src/main/java/fr/mastersd/sime/rabah/manumber/backend/svm/ListModeleSVM.kt:7-17 | the bank loads iff all ten models do; it then holds ten models, model i from digit i's files; otherwise it fails with the lowest failing digit's error |
| ListModeleSvm.IndexOfMax | app/src/main/java/fr/mastersd/sime/rabah/manumber/backend/svm/ListModeleSVM.kt:21 | `maxByOrNull` over the indices: -1 iff there are no scores, else an in-range index of a maximal score, the lowest one |
| ListModeleSvm.ArgMaxUnique | app/src/main/java/fr/mastersd/sime/rabah/manumber/backend/svm/ListModeleSVM.kt:21 | any in-range first maximum is the index `IndexOfMax` returns |
| ListModeleSvm.Scores | app/src/main/java/fr/mastersd/sime/rabah/manumber/backend/svm/ListModeleSVM.kt:20 | one score per model, in list order |
| ListModeleSvm.ListModeleSVM.constructor | app/src/main/java/fr/mastersd/sime/rabah/manumber/backend/svm/ListModeleSVM.kt:7 | the list starts empty |
| ListModeleSvm.ListModeleSVM.Add | app/src/main/java/fr/mastersd/sime/rabah/manumber/backend/svm/ListModeleSVM.kt:15 | the model is appended at the end |
| ListModeleSvm.ListModeleSVM.PredictChiffre | app/src/main/java/fr/mastersd/sime/rabah/manumber/backend/svm/ListModeleSVM.kt:19-22 | -1 iff the bank is empty; otherwise the in-range index of a highest score, the lowest on a tie |
| ListModeleSvm.NewDigitModel | app/src/main/java/fr/mastersd/sime/rabah/manumber/backend/svm/ListModeleSVM.kt:11-14 | builds model i from the three file names of digit i |
| ListModeleSvm.NewListModeleSVM | app/src/main/java/fr/mastersd/sime/rabah/manumber/backend/svm/ListModeleSVM.kt:9-16 | the init loop gives a fresh bank holding the ten loaded models in digit order, or the error that `LoadBank` names |
| ListModeleSvm.LoadedBankAnswersDigit | app/src/main/java/fr/mastersd/sime/rabah/manumber/backend/svm/ListModeleSVM.kt:10-21 | a loaded bank always answers a digit in 0..9 |
| LinearSvm.PredictSVM | app/src/main/java/fr/mastersd/sime/rabah/manumber/backend/SVMModel.kt:6-21 | for the `SVMModel` record of weights and bias, the class is 0 or 1, and 1 iff the sum of input[i] * weights[0][i] plus the bias is > 0 |
| LinearSvm.OtherRowsIgnored | app/src/main/java/fr/mastersd/sime/rabah/manumber/backend/SVMModel.kt:9 | rows of the weight matrix other than the first do not matter |
| LinearSvm.ExtraWeightsIgnored | app/src/main/java/fr/mastersd/sime/rabah/manumber/backend/SVMModel.kt:14-16 | weights past the input's length do not matter |
| LinearSvm.WeightedSumPrefix | app/src/main/java/fr/mastersd/sime/rabah/manumber/backend/SVMModel.kt:14-16 | each partial sum ignores weights beyond its length |
| LinearSvm.ZeroInputDecision | app/src/main/java/fr/mastersd/sime/rabah/manumber/backend/SVMModel.kt:13-20 | an all-zero input has the bias as decision value, so it is class 1 iff bias > 0 |
| LinearSvm.ZeroInputSum | app/src/main/java/fr/mastersd/sime/rabah/manumber/backend/SVMModel.kt:14-16 | the weighted sum of zeros is 0 |
| LinearSvm.WeightedSumFromFront | app/src/main/java/fr/mastersd/sime/rabah/manumber/backend/SVMModel.kt:14-16 | the loop's accumulation equals the dot product defined from the front |
| LinearSvm.WeightedSumAgree | app/src/main/java/fr/mastersd/sime/rabah/manumber/backend/SVMModel.kt:14-16 | the first n products depend only on the first n inputs |
| LinearSvm.DotFromFrontSnoc | app/src/main/java/fr/mastersd/sime/rabah/manumber/backend/SVMModel.kt:14-16 | appending an input adds its product to the dot product |
| Pipeline.ToReal | app/src/main/java/fr/mastersd/sime/rabah/manumber/viewmodel/CameraViewModel.kt:42 | `map { it.toDouble() }` keeps the length and every value |
| Pipeline.ClassifierInputSpec | app/src/main/java/fr/mastersd/sime/rabah/manumber/viewmodel/CameraViewModel.kt:42 | the vector has height * width entries, and entry k is 1.0 iff pixel (k % w, k / w) is <= threshold, 0.0 iff it is above |
| Pipeline.ClassifyDigit | app/src/main/java/fr/mastersd/sime/rabah/manumber/viewmodel/CameraViewModel.kt:42-43 | threshold by Otsu, binarize, flatten, convert, classify: the threshold is the one `calculateThreshold` computes with its 32-bit variance product, as written (see Findings), lying in [0, 254], and the answer is the bank's prediction for that vector, a model index when the bank is not empty |

## Left out

- Bitmaps: `Color.red(image.getPixel(x, y))` is taken as given. An image is its grid of red-channel intensities in [0, 255]. `loadImage`, `rotateBitmap` and `resizeImage` (ImageUtils.kt:9-30) are Android library calls, so they are not modelled.
- Asset I/O: `context.assets.open`, `bufferedReader` and `use` become a map from file name to lines. A missing file is `AssetNotFound`, and a null `readLine()` on an empty file is `EmptyAsset`. Stream closing and character encodings are not modelled.
- `String.toDouble` is the parameter `parse`; the model does not fix its grammar. A failure is `NumberFormat` with the token. Only the fact that an empty token does not parse is assumed, where `PaddedLineFails` needs it.
- `loadSVMModel` (SVMModel.kt:23-40) is JSON parsing through `org.json`, a foreign library, so it is not modelled. `SVMModel` is taken as already built.
- Floating point: `Double` is a mathematical real. IEEE-754 rounding, overflow to infinity, NaN ordering inside `maxByOrNull` and the precision of `exp` are not modelled. `exp` is a parameter with the shape `ExpLike`.
- `ImageUtils.processImageToFlattenedVector` and `ImageUtils.binaryToBitmap` are called by the camera screen but are not part of this model. `Pipeline.ClassifyDigit` composes the modelled pieces in the order the camera screen applies them instead. It is not a model of that helper.
- The camera, the UI, LiveData and coroutine dispatch (CameraViewModel.kt and the other screens) are platform glue and concurrency, so they are not modelled.
- Otsu.ScanThreshold: requires `total * 255` to fit in an `Int` (at most 8421504 pixels). At that size `total`, `sum`, `sumB` and `wB` cannot wrap, so only the variance product is modelled with 32-bit wrap-around. The counters' own wrap-around on larger images is not modelled.
- Otsu.CalculateThreshold: carries the same pixel-count bound as `ScanThreshold`.
- Otsu.ScanThreshold: scans a copy of the histogram as a sequence. The array is not written after the histogram is built, so nothing in place is lost.
- `maxVariance` is a `Double` in the source and an `Int` in the model. Every value it holds is a converted `Int` variance, so the comparison is the same.
- ModeleSvm.PredictScore: requires `WellSized` (at least as many coefficients as support vectors). With fewer, Kotlin throws `ArrayIndexOutOfBoundsException`, and that crash is not modelled as a result.
- LinearSvm.PredictSVM: requires `Fits` (a first weight row at least as long as the input). The crash on a shorter row, or on an empty weight matrix, is not modelled.
- ModeleSvm.PaddedLineFails: for trailing whitespace it states only that the line fails. When an earlier token also fails, that token's error is reported, and the lemma does not name which.
- ListModeleSvm.LoadedBankAnswersDigit: states the range of the answer for a loaded bank. The maximality and tie rule are stated once, on `ListModeleSVM.PredictChiffre`.
- Blur or smoothing: no such code is in the modelled files.

## Findings

| source | as written | input that shows it | evidently intended | confidence | as-written member | corrected member |
|---|---|---|---|---|---|---|
| app/src/main/java/fr/mastersd/sime/rabah/manumber/utils/OtsuThreshold.kt:37 | `wB * wF * (mB - mF) * (mB - mF)` is evaluated in 32-bit `Int` and wraps. A large between-class variance can become negative and lose to `maxVariance = 0`. | A 28 x 28 image: rows 0-13 at intensity 10 and rows 14-27 at 240. At every bin 10..239 the product is 392 * 392 * 230 * 230 = 8128825600, which wraps to -461108992, so the threshold is 0 and every pixel binarizes to 0. | The variance computed without overflow: the running maximum is a `Double`, and the repository's other Otsu implementations compute this same product in floating point (`image processing/centralisation.kt:39` in `Double` over the same truncating means, `image processing/ImageProcessor.java:70` in `double`). That gives threshold 10, so the dark half becomes 1. | high (not executed) | Otsu.StripedDigitThresholdAsWritten | Otsu.StripedDigitThresholdIntended |
