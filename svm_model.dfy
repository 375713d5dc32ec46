/**
 * `SVMModel` and `predictSVM`: a linear classifier that weighs an integer
 * input vector with the first row of its weight matrix, adds the bias and
 * answers 1 for a positive decision value and 0 otherwise.
 */
module LinearSvm {

  /** The data class (SVMModel.kt:6); `loadSVMModel`'s JSON reading is not part of this model. */
  datatype SVMModel = SVMModel(weights: seq<seq<real>>, bias: real)
  {
    /** `predictSVM` reads `weights[0][i]` for every input position `i`. */
    predicate Fits(input: seq<int>) {
      |weights| > 0 && |weights[0]| >= |input|
    }
  }

  /** input[0] * w[0] + ... + input[n-1] * w[n-1], added up in loop order. */
  function WeightedSum(input: seq<int>, w: seq<real>, n: nat): real
    requires n <= |input| && n <= |w|
  {
    if n == 0 then 0.0 else WeightedSum(input, w, n - 1) + input[n - 1] as real * w[n - 1]
  }

  /** The value `predictSVM` compares with zero. */
  function Decision(input: seq<int>, model: SVMModel): real
    requires model.Fits(input)
  {
    WeightedSum(input, model.weights[0], |input|) + model.bias
  }

  /** `predictSVM` (SVMModel.kt:8-21). */
  method PredictSVM(input: seq<int>, model: SVMModel) returns (cls: int)
    requires model.Fits(input)
    ensures cls == 0 || cls == 1
    ensures cls == 1 <==> Decision(input, model) > 0.0
  {
    var weights := model.weights[0];
    var bias := model.bias;
    var decision := 0.0;
    for i := 0 to |input|
      invariant decision == WeightedSum(input, weights, i)
    {
      decision := decision + input[i] as real * weights[i];
    }
    decision := decision + bias;
    cls := if decision > 0.0 then 1 else 0;
  }

  /** Only the first row of the weight matrix is read: the other rows can be anything. */
  lemma OtherRowsIgnored(input: seq<int>, first: seq<real>, rest: seq<seq<real>>, others: seq<seq<real>>, bias: real)
    requires |first| >= |input|
    ensures Decision(input, SVMModel([first] + rest, bias)) == Decision(input, SVMModel([first] + others, bias))
  {
    assert ([first] + rest)[0] == first && ([first] + others)[0] == first;
  }

  /** Weights past the length of the input are never read. */
  lemma ExtraWeightsIgnored(input: seq<int>, model: SVMModel, extra: seq<real>)
    requires model.Fits(input)
    ensures Decision(input, model.(weights := [model.weights[0] + extra] + model.weights[1..])) == Decision(input, model)
  {
    WeightedSumPrefix(input, model.weights[0], extra, |input|);
  }

  lemma {:induction false} WeightedSumPrefix(input: seq<int>, w: seq<real>, extra: seq<real>, n: nat)
    requires n <= |input| && n <= |w|
    ensures WeightedSum(input, w + extra, n) == WeightedSum(input, w, n)
  {
    if n > 0 {
      WeightedSumPrefix(input, w, extra, n - 1);
      assert (w + extra)[n - 1] == w[n - 1];
    }
  }

  /** An all-zero input (a blank image) gets the bias as its decision value, whatever the weights. */
  lemma ZeroInputDecision(input: seq<int>, model: SVMModel)
    requires model.Fits(input)
    requires forall i :: 0 <= i < |input| ==> input[i] == 0
    ensures Decision(input, model) == model.bias
  {
    ZeroInputSum(input, model.weights[0], |input|);
  }

  lemma {:induction false} ZeroInputSum(input: seq<int>, w: seq<real>, n: nat)
    requires n <= |input| && n <= |w|
    requires forall i :: 0 <= i < n ==> input[i] == 0
    ensures WeightedSum(input, w, n) == 0.0
  {
    if n > 0 {
      ZeroInputSum(input, w, n - 1);
    }
  }

  /**
   * The same products folded from the front, an independent definition of the
   * dot product: `WeightedSum`, the loop's left-to-right accumulation, equals it.
   */
  function DotFromFront(input: seq<int>, w: seq<real>): real
    requires |input| <= |w|
  {
    if input == [] then 0.0 else input[0] as real * w[0] + DotFromFront(input[1..], w[1..])
  }

  lemma {:induction false} WeightedSumFromFront(input: seq<int>, w: seq<real>)
    requires |input| <= |w|
    ensures WeightedSum(input, w, |input|) == DotFromFront(input, w)
    decreases |input|
  {
    if input != [] {
      var n := |input|;
      WeightedSumFromFront(input[..n - 1], w);
      WeightedSumAgree(input[..n - 1], input, w, n - 1);
      DotFromFrontSnoc(input[..n - 1], input[n - 1], w);
      assert input[..n - 1] + [input[n - 1]] == input;
    }
  }

  /** Entries of the input past `n` do not affect the first `n` products. */
  lemma {:induction false} WeightedSumAgree(input: seq<int>, other: seq<int>, w: seq<real>, n: nat)
    requires n <= |input| && n <= |other| && n <= |w|
    requires forall i :: 0 <= i < n ==> input[i] == other[i]
    ensures WeightedSum(input, w, n) == WeightedSum(other, w, n)
  {
    if n > 0 {
      WeightedSumAgree(input, other, w, n - 1);
    }
  }

  lemma {:induction false} DotFromFrontSnoc(input: seq<int>, last: int, w: seq<real>)
    requires |input| < |w|
    ensures DotFromFront(input + [last], w) == DotFromFront(input, w) + last as real * w[|input|]
    decreases |input|
  {
    if input != [] {
      assert (input + [last])[1..] == input[1..] + [last];
      DotFromFrontSnoc(input[1..], last, w[1..]);
    }
  }
}
