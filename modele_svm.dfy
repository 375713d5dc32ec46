/**
 * `ModeleSVM`: one radial-basis-function SVM, scored as
 * bias + sum over support vectors i of coefficients[i] * exp(-gamma * |x - sv_i|^2),
 * and the three loaders that read its support vectors, coefficients and bias
 * from text assets.
 *
 * Doubles are modelled as `real`; `exp` is a parameter (any function with the
 * shape `ExpLike` states); `String.toDouble` is the parameter `parse`.
 */
module ModeleSvm {
  import opened Wrappers
  import opened Tokenizer

  /** The kernel width, a constant of the class (ModeleSVM.kt:14), never read from a file. */
  const Gamma: real := 0.001

  /** A loaded model; its fields are set once, by the loaders, and never changed. */
  datatype ModeleSVM = ModeleSVM(supportVectors: seq<seq<real>>, coefficients: seq<real>, bias: real)
  {
    /** `predictScore` reads `coefficients[i]` for every support vector `i`. */
    predicate WellSized() {
      |coefficients| >= |supportVectors|
    }
  }

  /** What the model relies on of `kotlin.math.exp`: exp(0) = 1, positive, increasing. */
  ghost predicate ExpLike(exp: real -> real) {
    exp(0.0) == 1.0 && (forall r :: exp(r) > 0.0) && (forall a, b :: a < b ==> exp(a) < exp(b))
  }

  function Min(a: int, b: int): int {
    if a <= b then a else b
  }

  function Square(r: real): real {
    r * r
  }

  /** `x.zip(sv) { a, b -> (a - b) * (a - b) }`: pairs up to the shorter of the two. */
  function SquaredDiffs(x: seq<real>, sv: seq<real>): seq<real> {
    seq(Min(|x|, |sv|), i requires 0 <= i < Min(|x|, |sv|) => Square(x[i] - sv[i]))
  }

  /** `List<Double>.sum()`, accumulated from the front. */
  function Sum(s: seq<real>): real {
    if s == [] then 0.0 else Sum(s[..|s| - 1]) + s[|s| - 1]
  }

  function SquaredDistance(x: seq<real>, sv: seq<real>): real {
    Sum(SquaredDiffs(x, sv))
  }

  /** `noyauRbf` (ModeleSVM.kt:31-34): for an `exp` of the right shape, a value in (0, 1]. */
  function NoyauRbf(x: seq<real>, sv: seq<real>, exp: real -> real): (k: real)
    ensures ExpLike(exp) ==> 0.0 < k <= 1.0
  {
    SquaredDistanceZero(x, sv);
    ExpOfNonPositive(exp, -Gamma * SquaredDistance(x, sv));
    exp(-Gamma * SquaredDistance(x, sv))
  }

  /** An increasing positive `exp` with exp(0) = 1 maps (-infinity, 0] into (0, 1]. */
  lemma ExpOfNonPositive(exp: real -> real, r: real)
    requires r <= 0.0
    ensures ExpLike(exp) ==> 0.0 < exp(r) <= 1.0
  {
    if ExpLike(exp) && r < 0.0 {
      assert exp(r) < exp(0.0);
    }
  }

  /** A sum of non-negative terms is non-negative, and zero exactly when every term is. */
  lemma {:induction false} SumNonNegative(s: seq<real>)
    requires forall i :: 0 <= i < |s| ==> s[i] >= 0.0
    ensures Sum(s) >= 0.0
    ensures Sum(s) == 0.0 <==> forall i :: 0 <= i < |s| ==> s[i] == 0.0
  {
    if s != [] {
      var init := s[..|s| - 1];
      SumNonNegative(init);
      assert forall i :: 0 <= i < |init| ==> init[i] == s[i];
    }
  }

  /**
   * The squared distance is never negative, and it is zero exactly when the
   * two vectors agree on the positions `zip` pairs up.
   */
  lemma SquaredDistanceZero(x: seq<real>, sv: seq<real>)
    ensures SquaredDistance(x, sv) >= 0.0
    ensures var n := Min(|x|, |sv|);
      SquaredDistance(x, sv) == 0.0 <==> x[..n] == sv[..n]
  {
    var d := SquaredDiffs(x, sv);
    var n := Min(|x|, |sv|);
    forall i | 0 <= i < |d| ensures d[i] >= 0.0 {
      SquareNonNegative(x[i] - sv[i]);
    }
    SumNonNegative(d);
    if SquaredDistance(x, sv) == 0.0 {
      forall i | 0 <= i < n ensures x[..n][i] == sv[..n][i] {
        assert d[i] == 0.0;
        if x[i] != sv[i] {
          SquarePositive(x[i] - sv[i]);
        }
      }
      assert x[..n] == sv[..n];
    } else {
      var i :| 0 <= i < |d| && d[i] != 0.0;
      assert x[..n][i] != sv[..n][i];
    }
  }

  lemma SquareNonNegative(r: real)
    ensures Square(r) >= 0.0
  {
  }

  lemma SquarePositive(r: real)
    requires r != 0.0
    ensures Square(r) > 0.0
  {
    ProductPositive(r, r, Square(r));
  }

  /** Stated on a named product so that the solver's sign rules for squares do not get in the way. */
  lemma ProductPositive(a: real, b: real, q: real)
    requires q == a * b && ((a > 0.0 && b > 0.0) || (a < 0.0 && b < 0.0))
    ensures q > 0.0
  {
  }

  /** `zip` ignores whatever one vector has beyond the other's length. */
  lemma ZipIgnoresTail(x: seq<real>, sv: seq<real>)
    ensures var n := Min(|x|, |sv|);
      SquaredDiffs(x, sv) == SquaredDiffs(x[..n], sv[..n])
  {
    var n := Min(|x|, |sv|);
    var d, e := SquaredDiffs(x, sv), SquaredDiffs(x[..n], sv[..n]);
    forall i | 0 <= i < n ensures d[i] == e[i] {
      assert x[..n][i] == x[i] && sv[..n][i] == sv[i];
    }
  }

  /** The squared distance does not depend on the order of its arguments. */
  lemma SquaredDiffsSymmetric(x: seq<real>, sv: seq<real>)
    ensures SquaredDiffs(x, sv) == SquaredDiffs(sv, x)
  {
    var d, e := SquaredDiffs(x, sv), SquaredDiffs(sv, x);
    forall i | 0 <= i < |d| ensures d[i] == e[i] {
      assert Square(x[i] - sv[i]) == Square(sv[i] - x[i]);
    }
  }

  /**
   * The kernel lies in (0, 1], is symmetric, and is exactly 1 when the image
   * vector and the support vector agree on the positions `zip` pairs up.
   */
  lemma KernelBounds(x: seq<real>, sv: seq<real>, exp: real -> real)
    requires ExpLike(exp)
    ensures 0.0 < NoyauRbf(x, sv, exp) <= 1.0
    ensures NoyauRbf(x, sv, exp) == NoyauRbf(sv, x, exp)
    ensures var n := Min(|x|, |sv|);
      NoyauRbf(x, sv, exp) == 1.0 <==> x[..n] == sv[..n]
  {
    SquaredDistanceZero(x, sv);
    SquaredDiffsSymmetric(x, sv);
    var d := SquaredDistance(x, sv);
    if d > 0.0 {
      assert -Gamma * d < 0.0;
      assert exp(-Gamma * d) < exp(0.0);
    } else {
      assert -Gamma * d == 0.0;
    }
  }

  /** An image vector equal to support vector `i` gets exactly that vector's coefficient from its term. */
  lemma IdenticalSupportVectorTerm(m: ModeleSVM, x: seq<real>, exp: real -> real, i: int)
    requires ExpLike(exp) && m.WellSized()
    requires 0 <= i < |m.supportVectors| && x == m.supportVectors[i]
    ensures m.coefficients[i] * NoyauRbf(x, m.supportVectors[i], exp) == m.coefficients[i]
  {
    KernelBounds(x, m.supportVectors[i], exp);
  }

  /** coefficients[0] * K(x, sv_0) + ... + coefficients[n-1] * K(x, sv_(n-1)), in loop order. */
  function KernelSum(m: ModeleSVM, x: seq<real>, exp: real -> real, n: nat): real
    requires m.WellSized() && n <= |m.supportVectors|
  {
    if n == 0 then 0.0
    else KernelSum(m, x, exp, n - 1) + Term(m, x, exp, n - 1)
  }

  /** One step of the loop: `coefficients[i] * valeurNoyau`. */
  function Term(m: ModeleSVM, x: seq<real>, exp: real -> real, i: nat): real
    requires m.WellSized() && i < |m.supportVectors|
  {
    m.coefficients[i] * NoyauRbf(x, m.supportVectors[i], exp)
  }

  /**
   * The score `predictScore` returns. Since every kernel value lies in (0, 1],
   * it is within the sum of the absolute coefficients of the bias.
   */
  function Score(m: ModeleSVM, x: seq<real>, exp: real -> real): (score: real)
    requires m.WellSized()
    ensures ExpLike(exp) ==> m.bias - AbsSum(m.coefficients, |m.supportVectors|) <= score
    ensures ExpLike(exp) ==> score <= m.bias + AbsSum(m.coefficients, |m.supportVectors|)
  {
    KernelSumBounds(m, x, exp, |m.supportVectors|);
    KernelSum(m, x, exp, |m.supportVectors|) + m.bias
  }

  /** `predictScore` (ModeleSVM.kt:22-29). */
  method PredictScore(m: ModeleSVM, vecteurImage: seq<real>, exp: real -> real) returns (score: real)
    requires m.WellSized()
    ensures score == Score(m, vecteurImage, exp)
  {
    score := 0.0;
    for i := 0 to |m.supportVectors|
      invariant score == KernelSum(m, vecteurImage, exp, i)
    {
      var valeurNoyau := NoyauRbf(vecteurImage, m.supportVectors[i], exp);
      score := score + m.coefficients[i] * valeurNoyau;
    }
    score := score + m.bias;
  }

  /** With no support vectors the score is the bias. */
  lemma ScoreWithoutSupportVectors(m: ModeleSVM, x: seq<real>, exp: real -> real)
    requires m.supportVectors == []
    ensures Score(m, x, exp) == m.bias
  {
  }

  /** Coefficients past the number of support vectors are never read. */
  lemma ExtraCoefficientsIgnored(m: ModeleSVM, extra: seq<real>, x: seq<real>, exp: real -> real)
    requires m.WellSized()
    ensures Score(m.(coefficients := m.coefficients + extra), x, exp) == Score(m, x, exp)
  {
    KernelSumPrefixIgnored(m, extra, x, exp, |m.supportVectors|);
  }

  lemma {:induction false} KernelSumPrefixIgnored(m: ModeleSVM, extra: seq<real>, x: seq<real>, exp: real -> real, n: nat)
    requires m.WellSized() && n <= |m.supportVectors|
    ensures KernelSum(m.(coefficients := m.coefficients + extra), x, exp, n) == KernelSum(m, x, exp, n)
  {
    if n > 0 {
      KernelSumPrefixIgnored(m, extra, x, exp, n - 1);
      assert (m.coefficients + extra)[n - 1] == m.coefficients[n - 1];
    }
  }

  /** |c_0| + ... + |c_(n-1)|. */
  function AbsSum(c: seq<real>, n: nat): real
    requires n <= |c|
  {
    if n == 0 then 0.0 else AbsSum(c, n - 1) + Abs(c[n - 1])
  }

  function Abs(r: real): real {
    if r < 0.0 then -r else r
  }

  /** For an `exp` of the right shape, the first `n` terms add up to at most the first `n` absolute coefficients. */
  lemma KernelSumBounds(m: ModeleSVM, x: seq<real>, exp: real -> real, n: nat)
    requires m.WellSized() && n <= |m.supportVectors|
    ensures ExpLike(exp) ==> -AbsSum(m.coefficients, n) <= KernelSum(m, x, exp, n) <= AbsSum(m.coefficients, n)
  {
    if ExpLike(exp) {
      KernelSumWithin(m, x, exp, n);
    }
  }

  /** With kernel values in (0, 1], the partial sum stays within the partial sum of absolute coefficients. */
  lemma {:induction false} KernelSumWithin(m: ModeleSVM, x: seq<real>, exp: real -> real, n: nat)
    requires m.WellSized() && n <= |m.supportVectors|
    requires forall i :: 0 <= i < n ==> 0.0 < NoyauRbf(x, m.supportVectors[i], exp) <= 1.0
    ensures -AbsSum(m.coefficients, n) <= KernelSum(m, x, exp, n) <= AbsSum(m.coefficients, n)
  {
    if n > 0 {
      KernelSumWithin(m, x, exp, n - 1);
      TermBounds(m, x, exp, n - 1);
    }
  }

  lemma TermBounds(m: ModeleSVM, x: seq<real>, exp: real -> real, i: nat)
    requires m.WellSized() && i < |m.supportVectors|
    requires 0.0 < NoyauRbf(x, m.supportVectors[i], exp) <= 1.0
    ensures -Abs(m.coefficients[i]) <= Term(m, x, exp, i) <= Abs(m.coefficients[i])
  {
    ProductBounds(m.coefficients[i], NoyauRbf(x, m.supportVectors[i], exp), Term(m, x, exp, i));
  }

  /** Scaling by a factor in (0, 1] cannot push a number past its absolute value. */
  lemma ProductBounds(c: real, k: real, q: real)
    requires 0.0 < k <= 1.0 && q == c * k
    ensures -Abs(c) <= q <= Abs(c)
  {
    if c >= 0.0 {
      assert c * k <= c * 1.0;
    } else {
      assert c * k >= c * 1.0;
    }
  }

  // ---------------------------------------------------------------------
  // Loaders (ModeleSVM.kt:36-57)
  // ---------------------------------------------------------------------

  /** Why building a model fails: a missing asset, `readLine()` returning null, or `toDouble` throwing. */
  datatype LoadError = AssetNotFound(path: string) | EmptyAsset(path: string) | NumberFormat(token: string)

  /** The application's assets: each file name mapped to the file's lines. */
  type Assets = map<string, seq<string>>

  /** `token.toDouble()`, which throws on a token that is not a number. */
  function ParseNumber(token: string, parse: string -> Option<real>): Result<real, LoadError> {
    match parse(token)
    case None => Failure(NumberFormat(token))
    case Some(v) => Success(v)
  }

  /** Steps run in order, each keeping its value; the first failing step stops the run with its error. */
  function AllOrFirstError<T>(steps: seq<Result<T, LoadError>>): Result<seq<T>, LoadError> {
    if steps == [] then Success([])
    else
      var r := AllOrFirstError(steps[..|steps| - 1]);
      var last := steps[|steps| - 1];
      if r.Failure? then r
      else if last.Failure? then Failure(last.error)
      else Success(r.value + [last.value])
  }

  /**
   * A run succeeds exactly when every step does, and then holds every step's
   * value in order; a failed run carries the error of the first failing step.
   */
  lemma {:induction false} AllOrFirstErrorSpec<T>(steps: seq<Result<T, LoadError>>)
    ensures var r := AllOrFirstError(steps);
      r.Success? <==> forall i :: 0 <= i < |steps| ==> steps[i].Success?
    ensures var r := AllOrFirstError(steps);
      r.Success? ==> (|r.value| == |steps| && forall i :: 0 <= i < |steps| ==> r.value[i] == steps[i].value)
    ensures var r := AllOrFirstError(steps);
      r.Failure? ==> exists i :: (0 <= i < |steps| && steps[i].Failure? && r.error == steps[i].error &&
        forall j :: 0 <= j < i ==> steps[j].Success?)
  {
    if steps != [] {
      var init := steps[..|steps| - 1];
      AllOrFirstErrorSpec(init);
      assert forall i :: 0 <= i < |init| ==> init[i] == steps[i];
      var r := AllOrFirstError(init);
      if r.Failure? {
        var i :| 0 <= i < |init| && init[i].Failure? && r.error == init[i].error &&
          forall j :: 0 <= j < i ==> init[j].Success?;
        assert steps[i].Failure?;
      }
    }
  }

  /** Running one more step: the run so far fails on, or it takes that step's failure or value. */
  lemma AllOrFirstErrorNext<T>(steps: seq<Result<T, LoadError>>, i: nat, sofar: seq<T>)
    requires i < |steps| && AllOrFirstError(steps[..i]) == Success(sofar)
    ensures steps[i].Failure? ==> AllOrFirstError(steps[..i + 1]) == Failure(steps[i].error)
    ensures steps[i].Success? ==> AllOrFirstError(steps[..i + 1]) == Success(sofar + [steps[i].value])
  {
    assert steps[..i + 1][..i] == steps[..i];
  }

  /** Once a prefix of the steps fails, the whole run fails with the same error. */
  lemma {:induction false} PrefixFailure<T>(steps: seq<Result<T, LoadError>>, n: nat)
    requires n <= |steps| && AllOrFirstError(steps[..n]).Failure?
    ensures AllOrFirstError(steps) == AllOrFirstError(steps[..n])
    decreases |steps| - n
  {
    if n < |steps| {
      assert steps[..n + 1][..n] == steps[..n];
      PrefixFailure(steps, n + 1);
    } else {
      assert steps[..n] == steps;
    }
  }

  /** `tokens.map { it.toDouble() }`. */
  function ParseTokens(tokens: seq<string>, parse: string -> Option<real>): Result<seq<real>, LoadError> {
    AllOrFirstError(seq(|tokens|, i requires 0 <= i < |tokens| => ParseNumber(tokens[i], parse)))
  }

  /**
   * Parsing the tokens succeeds exactly when each token parses, giving their
   * values in order; otherwise it names the first token that does not parse.
   */
  lemma ParseTokensSpec(tokens: seq<string>, parse: string -> Option<real>)
    ensures var r := ParseTokens(tokens, parse);
      r.Success? <==> forall i :: 0 <= i < |tokens| ==> parse(tokens[i]).Some?
    ensures var r := ParseTokens(tokens, parse);
      r.Success? ==> (|r.value| == |tokens| && forall i :: 0 <= i < |tokens| ==> parse(tokens[i]) == Some(r.value[i]))
    ensures var r := ParseTokens(tokens, parse);
      r.Failure? ==> exists i :: (0 <= i < |tokens| && parse(tokens[i]).None? && r.error == NumberFormat(tokens[i]) &&
        forall j :: 0 <= j < i ==> parse(tokens[j]).Some?)
  {
    var steps := seq(|tokens|, i requires 0 <= i < |tokens| => ParseNumber(tokens[i], parse));
    AllOrFirstErrorSpec(steps);
    assert forall i :: 0 <= i < |tokens| ==> (steps[i].Success? <==> parse(tokens[i]).Some?);
  }

  /** One line of a model file: split on `\s+`, then every token parsed. */
  function ParseLine(line: string, parse: string -> Option<real>): Result<seq<real>, LoadError> {
    ParseTokens(SplitWhitespace(line), parse)
  }

  /** The steps `chargerVecteursSupports` runs: one parsed line each. */
  function LineSteps(lines: seq<string>, parse: string -> Option<real>): (steps: seq<Result<seq<real>, LoadError>>)
    ensures |steps| == |lines| && forall i :: 0 <= i < |lines| ==> steps[i] == ParseLine(lines[i], parse)
  {
    seq(|lines|, i requires 0 <= i < |lines| => ParseLine(lines[i], parse))
  }

  /**
   * What `chargerVecteursSupports` returns: without the file, its error; with
   * it, one vector per line in file order exactly when every line parses, and
   * otherwise the error of the first line that does not.
   */
  function ReadSupportVectors(assets: Assets, path: string, parse: string -> Option<real>): (r: Result<seq<seq<real>>, LoadError>)
    ensures path !in assets ==> r == Failure(AssetNotFound(path))
    ensures path in assets ==>
      (r.Success? <==> forall i :: 0 <= i < |assets[path]| ==> ParseLine(assets[path][i], parse).Success?)
    ensures r.Success? ==> (path in assets && |r.value| == |assets[path]| &&
      forall i :: 0 <= i < |assets[path]| ==> r.value[i] == ParseLine(assets[path][i], parse).value)
    ensures path in assets && r.Failure? ==> exists i :: (0 <= i < |assets[path]| &&
      ParseLine(assets[path][i], parse) == Failure(r.error) &&
      forall j :: 0 <= j < i ==> ParseLine(assets[path][j], parse).Success?)
  {
    if path !in assets then Failure(AssetNotFound(path))
    else
      AllOrFirstErrorSpec(LineSteps(assets[path], parse));
      AllOrFirstError(LineSteps(assets[path], parse))
  }

  /** `chargerVecteursSupports` (ModeleSVM.kt:36-45): the lines are read and appended one by one. */
  method ChargerVecteursSupports(assets: Assets, fichier: string, parse: string -> Option<real>)
    returns (r: Result<seq<seq<real>>, LoadError>)
    ensures r == ReadSupportVectors(assets, fichier, parse)
  {
    if fichier !in assets {
      return Failure(AssetNotFound(fichier));
    }
    var lines := assets[fichier];
    ghost var steps := LineSteps(lines, parse);
    var vecteursSupport: seq<seq<real>> := [];
    for i := 0 to |lines|
      invariant AllOrFirstError(steps[..i]) == Success(vecteursSupport)
    {
      var values := ParseLine(lines[i], parse);
      AllOrFirstErrorNext(steps, i, vecteursSupport);
      if values.Failure? {
        PrefixFailure(steps, i + 1);
        return Failure(values.error);
      }
      vecteursSupport := vecteursSupport + [values.value];
    }
    assert steps[..|lines|] == steps;
    r := Success(vecteursSupport);
  }

  /**
   * `chargerCoefficients` (ModeleSVM.kt:47-51): only the first line, split on
   * whitespace; it loads exactly when every token of that line parses, and
   * then holds their values in order.
   */
  function ChargerCoefficients(assets: Assets, fichier: string, parse: string -> Option<real>): (r: Result<seq<real>, LoadError>)
    ensures fichier !in assets ==> r == Failure(AssetNotFound(fichier))
    ensures fichier in assets && assets[fichier] == [] ==> r == Failure(EmptyAsset(fichier))
    ensures r.Success? ==> fichier in assets && assets[fichier] != []
    ensures fichier in assets && assets[fichier] != [] ==> var tokens := SplitWhitespace(assets[fichier][0]);
      (r.Success? <==> forall i :: 0 <= i < |tokens| ==> parse(tokens[i]).Some?)
    ensures r.Success? ==> var tokens := SplitWhitespace(assets[fichier][0]);
      |r.value| == |tokens| && forall i :: 0 <= i < |tokens| ==> parse(tokens[i]) == Some(r.value[i])
  {
    if fichier !in assets then Failure(AssetNotFound(fichier))
    else if assets[fichier] == [] then Failure(EmptyAsset(fichier))
    else
      ParseLineSpec(assets[fichier][0], SplitWhitespace(assets[fichier][0]), parse);
      ParseLine(assets[fichier][0], parse)
  }

  /** A line loads exactly when each of its whitespace-separated tokens parses, and then holds their values. */
  lemma ParseLineSpec(line: string, tokens: seq<string>, parse: string -> Option<real>)
    requires tokens == SplitWhitespace(line)
    ensures ParseLine(line, parse).Success? <==> forall i :: 0 <= i < |tokens| ==> parse(tokens[i]).Some?
    ensures ParseLine(line, parse).Success? ==>
      (|ParseLine(line, parse).value| == |tokens| &&
       forall i :: 0 <= i < |tokens| ==> parse(tokens[i]) == Some(ParseLine(line, parse).value[i]))
  {
    ParseTokensSpec(tokens, parse);
  }

  /**
   * `chargerBiais` (ModeleSVM.kt:53-57): the whole first line, parsed as one
   * number, without splitting; a line that does not parse names itself.
   */
  function ChargerBiais(assets: Assets, fichier: string, parse: string -> Option<real>): (r: Result<real, LoadError>)
    ensures fichier !in assets ==> r == Failure(AssetNotFound(fichier))
    ensures fichier in assets && assets[fichier] == [] ==> r == Failure(EmptyAsset(fichier))
    ensures r.Success? <==> fichier in assets && assets[fichier] != [] && parse(assets[fichier][0]).Some?
    ensures r.Success? ==> parse(assets[fichier][0]) == Some(r.value)
    ensures fichier in assets && assets[fichier] != [] && r.Failure? ==> r.error == NumberFormat(assets[fichier][0])
  {
    if fichier !in assets then Failure(AssetNotFound(fichier))
    else if assets[fichier] == [] then Failure(EmptyAsset(fichier))
    else ParseNumber(assets[fichier][0], parse)
  }

  /** The class's `init` (ModeleSVM.kt:16-20): vectors, then coefficients, then bias; the first failure is the error. */
  function LoadModeleSVM(assets: Assets, vecteurs: string, coefficients: string, biais: string,
                         parse: string -> Option<real>): (r: Result<ModeleSVM, LoadError>)
    ensures r.Success? <==>
      ReadSupportVectors(assets, vecteurs, parse).Success? &&
      ChargerCoefficients(assets, coefficients, parse).Success? &&
      ChargerBiais(assets, biais, parse).Success?
    ensures r.Success? ==> r.value == ModeleSVM(ReadSupportVectors(assets, vecteurs, parse).value,
      ChargerCoefficients(assets, coefficients, parse).value, ChargerBiais(assets, biais, parse).value)
    ensures ReadSupportVectors(assets, vecteurs, parse).Failure? ==>
      r == Failure(ReadSupportVectors(assets, vecteurs, parse).error)
    ensures ReadSupportVectors(assets, vecteurs, parse).Success? && ChargerCoefficients(assets, coefficients, parse).Failure? ==>
      r == Failure(ChargerCoefficients(assets, coefficients, parse).error)
    ensures (ReadSupportVectors(assets, vecteurs, parse).Success? && ChargerCoefficients(assets, coefficients, parse).Success? &&
             ChargerBiais(assets, biais, parse).Failure?) ==>
      r == Failure(ChargerBiais(assets, biais, parse).error)
  {
    var sv := ReadSupportVectors(assets, vecteurs, parse);
    var coef := ChargerCoefficients(assets, coefficients, parse);
    var b := ChargerBiais(assets, biais, parse);
    if sv.Failure? then Failure(sv.error)
    else if coef.Failure? then Failure(coef.error)
    else if b.Failure? then Failure(b.error)
    else Success(ModeleSVM(sv.value, coef.value, b.value))
  }

  /** The constructor, with the vector loader run as the loop it is. */
  method NewModeleSVM(assets: Assets, vecteurs: string, coefficients: string, biais: string,
                      parse: string -> Option<real>) returns (r: Result<ModeleSVM, LoadError>)
    ensures r == LoadModeleSVM(assets, vecteurs, coefficients, biais, parse)
  {
    var sv := ChargerVecteursSupports(assets, vecteurs, parse);
    if sv.Failure? {
      return Failure(sv.error);
    }
    var coef := ChargerCoefficients(assets, coefficients, parse);
    if coef.Failure? {
      return Failure(coef.error);
    }
    var b := ChargerBiais(assets, biais, parse);
    if b.Failure? {
      return Failure(b.error);
    }
    return Success(ModeleSVM(sv.value, coef.value, b.value));
  }

  /**
   * A model loads only if its vector file exists and every line of it parses;
   * it then has one support vector per line, in file order.
   */
  lemma SupportVectorCount(assets: Assets, vecteurs: string, coefficients: string, biais: string,
                           parse: string -> Option<real>)
    requires LoadModeleSVM(assets, vecteurs, coefficients, biais, parse).Success?
    ensures vecteurs in assets
    ensures forall i :: 0 <= i < |assets[vecteurs]| ==> ParseLine(assets[vecteurs][i], parse).Success?
    ensures var m := LoadModeleSVM(assets, vecteurs, coefficients, biais, parse).value;
      |m.supportVectors| == |assets[vecteurs]| &&
      forall i :: 0 <= i < |assets[vecteurs]| ==> m.supportVectors[i] == ParseLine(assets[vecteurs][i], parse).value
  {
    AllOrFirstErrorSpec(LineSteps(assets[vecteurs], parse));
  }

  /**
   * The coefficients are the numbers of the first line of their file and the
   * bias is the first line of its file read as one number: later lines are
   * never read.
   */
  lemma OnlyFirstLineRead(assets: Assets, fichier: string, first: string, more: seq<string>, parse: string -> Option<real>)
    requires fichier in assets && assets[fichier] == [first] + more
    ensures ChargerCoefficients(assets, fichier, parse) == ParseLine(first, parse)
    ensures ChargerBiais(assets, fichier, parse) == ParseNumber(first, parse)
    ensures var a := assets[fichier := [first]];
      ChargerCoefficients(a, fichier, parse) == ChargerCoefficients(assets, fichier, parse) &&
      ChargerBiais(a, fichier, parse) == ChargerBiais(assets, fichier, parse)
  {
  }

  /**
   * `toDouble` rejects the empty string, so a line that is empty or has
   * leading or trailing whitespace fails to load; when the blank is in front
   * the error names the empty token.
   */
  lemma PaddedLineFails(line: string, parse: string -> Option<real>)
    requires parse("") == None
    requires line == [] || IsWhitespace(line[0]) || IsWhitespace(line[|line| - 1])
    ensures ParseLine(line, parse).Failure?
    ensures line == [] || IsWhitespace(line[0]) ==> ParseLine(line, parse) == Failure(NumberFormat(""))
  {
    SplitEdges(line);
    var t := SplitWhitespace(line);
    ParseTokensSpec(t, parse);
    if line == [] || IsWhitespace(line[0]) {
      var r := ParseTokens(t, parse);
      var i :| 0 <= i < |t| && parse(t[i]).None? && r.error == NumberFormat(t[i]) &&
        forall j :: 0 <= j < i ==> parse(t[j]).Some?;
      assert i == 0;
    } else {
      assert parse(t[|t| - 1]).None?;
    }
  }

  /** A line of whitespace-free numerals joined by single spaces loads as exactly those numbers. */
  lemma CleanLineParses(tokens: seq<string>, values: seq<real>, parse: string -> Option<real>)
    requires WellFormed(tokens) && |values| == |tokens|
    requires forall i :: 0 <= i < |tokens| ==> parse(tokens[i]) == Some(values[i])
    ensures ParseLine(JoinSpace(tokens), parse) == Success(values)
  {
    SplitJoin(tokens);
    ParseTokensSpec(tokens, parse);
    var r := ParseTokens(tokens, parse);
    assert r.value == values;
  }
}
