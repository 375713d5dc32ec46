/**
 * `ListModeleSVM`: the bank of ten one-against-the-rest models, model `i`
 * scoring "the digit is i", and `predictChiffre`, which answers with the
 * index of the best score.
 */
module ListModeleSvm {
  import opened Wrappers
  import opened ModeleSvm

  /** The number of models the bank loads: one per decimal digit (ListModeleSVM.kt:10). */
  const DigitCount: nat := 10

  /** The digit `i` written in decimal, as `"$i"` does. */
  function DigitName(i: int): (s: string)
    requires 0 <= i < DigitCount
    ensures |s| == 1 && '0' <= s[0] <= '9' && s[0] as int - '0' as int == i
  {
    [('0' as int + i) as char]
  }

  function VecteursPath(i: int): string
    requires 0 <= i < DigitCount
  {
    "data/vecteur_support_" + DigitName(i) + ".txt"
  }

  function CoefficientsPath(i: int): string
    requires 0 <= i < DigitCount
  {
    "data/coefficients_" + DigitName(i) + ".txt"
  }

  function BiaisPath(i: int): string
    requires 0 <= i < DigitCount
  {
    "data/biais_" + DigitName(i) + ".txt"
  }

  /**
   * Every model reads its own three files: no two digits share a file, and
   * no file serves as two of the three kinds.
   */
  lemma PathsDistinct(i: int, j: int)
    requires 0 <= i < DigitCount && 0 <= j < DigitCount
    ensures VecteursPath(i) == VecteursPath(j) <==> i == j
    ensures CoefficientsPath(i) == CoefficientsPath(j) <==> i == j
    ensures BiaisPath(i) == BiaisPath(j) <==> i == j
    ensures VecteursPath(i) != CoefficientsPath(j)
    ensures VecteursPath(i) != BiaisPath(j)
    ensures CoefficientsPath(i) != BiaisPath(j)
  {
    if i != j {
      assert VecteursPath(i)[21] != VecteursPath(j)[21];
      assert CoefficientsPath(i)[18] != CoefficientsPath(j)[18];
      assert BiaisPath(i)[11] != BiaisPath(j)[11];
    }
    assert VecteursPath(i)[5] != CoefficientsPath(j)[5];
    assert VecteursPath(i)[5] != BiaisPath(j)[5];
    assert CoefficientsPath(i)[5] != BiaisPath(j)[5];
  }

  /** What loading model `i` gives (ListModeleSVM.kt:11-14). */
  function LoadDigit(assets: Assets, parse: string -> Option<real>, i: int): Result<ModeleSVM, LoadError>
    requires 0 <= i < DigitCount
  {
    LoadModeleSVM(assets, VecteursPath(i), CoefficientsPath(i), BiaisPath(i), parse)
  }

  /** The ten loads, in digit order. */
  function DigitSteps(assets: Assets, parse: string -> Option<real>): (steps: seq<Result<ModeleSVM, LoadError>>)
    ensures |steps| == DigitCount
    ensures forall i :: 0 <= i < DigitCount ==> steps[i] == LoadDigit(assets, parse, i)
  {
    seq(DigitCount, i requires 0 <= i < DigitCount => LoadDigit(assets, parse, i))
  }

  /**
   * What the bank's `init` produces. It loads exactly when all ten models do;
   * it then holds ten models, model `i` read from digit `i`'s files;
   * otherwise the error is that of the lowest digit whose model fails to load.
   */
  function LoadBank(assets: Assets, parse: string -> Option<real>): (r: Result<seq<ModeleSVM>, LoadError>)
    ensures r.Success? <==> forall i :: 0 <= i < DigitCount ==> LoadDigit(assets, parse, i).Success?
    ensures r.Success? ==> (|r.value| == DigitCount &&
      forall i :: 0 <= i < DigitCount ==> r.value[i] == LoadDigit(assets, parse, i).value)
    ensures r.Failure? ==> exists i :: (0 <= i < DigitCount && LoadDigit(assets, parse, i) == Failure(r.error) &&
      forall j :: 0 <= j < i ==> LoadDigit(assets, parse, j).Success?)
  {
    AllOrFirstErrorSpec(DigitSteps(assets, parse));
    AllOrFirstError(DigitSteps(assets, parse))
  }

  /**
   * `maxByOrNull` over the indices: -1 for no scores; otherwise an index of
   * a largest score, and the first such index, since a later score replaces
   * the best one only when it is strictly larger.
   */
  function IndexOfMax(scores: seq<real>): (r: int)
    ensures r == -1 <==> scores == []
    ensures scores != [] ==> 0 <= r < |scores|
    ensures scores != [] ==> forall j :: 0 <= j < |scores| ==> scores[j] <= scores[r]
    ensures scores != [] ==> forall j :: 0 <= j < r ==> scores[j] < scores[r]
  {
    if scores == [] then -1
    else
      var r := IndexOfMax(scores[..|scores| - 1]);
      if r == -1 then 0
      else if scores[r] < scores[|scores| - 1] then |scores| - 1
      else r
  }

  /** There is only one index that is a first maximum, so `IndexOfMax` is the arg-max. */
  lemma ArgMaxUnique(scores: seq<real>, r: int)
    requires 0 <= r < |scores|
    requires forall j :: 0 <= j < |scores| ==> scores[j] <= scores[r]
    requires forall j :: 0 <= j < r ==> scores[j] < scores[r]
    ensures IndexOfMax(scores) == r
  {
    var m := IndexOfMax(scores);
    assert !(m < r) && !(r < m);
  }

  /** Every model can be scored: `predictScore` reads a coefficient for each support vector. */
  predicate AllWellSized(modeles: seq<ModeleSVM>) {
    forall i :: 0 <= i < |modeles| ==> modeles[i].WellSized()
  }

  /** `listesDeModeleSVM.map { it.predictScore(vecteurImage) }` (ListModeleSVM.kt:20). */
  function Scores(modeles: seq<ModeleSVM>, x: seq<real>, exp: real -> real): (scores: seq<real>)
    requires AllWellSized(modeles)
    ensures |scores| == |modeles|
    ensures forall i :: 0 <= i < |modeles| ==> scores[i] == Score(modeles[i], x, exp)
  {
    seq(|modeles|, i requires 0 <= i < |modeles| && AllWellSized(modeles) => Score(modeles[i], x, exp))
  }

  /** The bank of models; its list only grows, while the bank is being built. */
  class ListModeleSVM {
    var listesDeModeleSVM: seq<ModeleSVM>

    /** The empty `ArrayList` (ListModeleSVM.kt:7). */
    constructor ()
      ensures listesDeModeleSVM == []
    {
      listesDeModeleSVM := [];
    }

    /** `listesDeModeleSVM.add(modele)`. */
    method Add(modele: ModeleSVM)
      modifies this
      ensures listesDeModeleSVM == old(listesDeModeleSVM) + [modele]
    {
      listesDeModeleSVM := listesDeModeleSVM + [modele];
    }

    /**
     * `predictChiffre` (ListModeleSVM.kt:19-22): the digit whose model scores
     * highest, the lowest such digit on a tie, and -1 for an empty bank.
     */
    function PredictChiffre(vecteurImage: seq<real>, exp: real -> real): (chiffre: int)
      reads this
      requires AllWellSized(listesDeModeleSVM)
      ensures chiffre == -1 <==> listesDeModeleSVM == []
      ensures listesDeModeleSVM != [] ==> 0 <= chiffre < |listesDeModeleSVM|
      ensures forall j :: 0 <= j < |listesDeModeleSVM| ==>
        Score(listesDeModeleSVM[j], vecteurImage, exp) <= Score(listesDeModeleSVM[chiffre], vecteurImage, exp)
      ensures forall j :: 0 <= j < chiffre ==>
        Score(listesDeModeleSVM[j], vecteurImage, exp) < Score(listesDeModeleSVM[chiffre], vecteurImage, exp)
    {
      IndexOfMax(Scores(listesDeModeleSVM, vecteurImage, exp))
    }
  }

  /** `ModeleSVM(context, cheminVecteurs, cheminCoef, cheminBiais)` for digit `i` (ListModeleSVM.kt:11-14). */
  method NewDigitModel(assets: Assets, parse: string -> Option<real>, i: int) returns (modele: Result<ModeleSVM, LoadError>)
    requires 0 <= i < DigitCount
    ensures modele == LoadDigit(assets, parse, i)
  {
    var cheminBiais := BiaisPath(i);
    var cheminVecteurs := VecteursPath(i);
    var cheminCoef := CoefficientsPath(i);
    modele := NewModeleSVM(assets, cheminVecteurs, cheminCoef, cheminBiais, parse);
  }

  /**
   * The bank's `init` (ListModeleSVM.kt:9-16): for digits 0 to 9 in turn,
   * build the model from the digit's three files and append it; a model that
   * fails to load ends the construction with its error.
   */
  method NewListModeleSVM(assets: Assets, parse: string -> Option<real>) returns (r: Result<ListModeleSVM, LoadError>)
    ensures LoadBank(assets, parse).Failure? ==> r == Failure(LoadBank(assets, parse).error)
    ensures LoadBank(assets, parse).Success? ==>
      r.Success? && fresh(r.value) && r.value.listesDeModeleSVM == LoadBank(assets, parse).value
  {
    var bank := new ListModeleSVM();
    ghost var steps := DigitSteps(assets, parse);
    for i := 0 to DigitCount
      invariant fresh(bank)
      invariant AllOrFirstError(steps[..i]) == Success(bank.listesDeModeleSVM)
    {
      var modele := NewDigitModel(assets, parse, i);
      AllOrFirstErrorNext(steps, i, bank.listesDeModeleSVM);
      if modele.Failure? {
        PrefixFailure(steps, i + 1);
        return Failure(modele.error);
      }
      bank.Add(modele.value);
    }
    assert steps[..DigitCount] == steps;
    r := Success(bank);
  }

  /** A loaded bank always answers with a digit 0..9, whenever its models can be scored. */
  lemma LoadedBankAnswersDigit(assets: Assets, parse: string -> Option<real>, x: seq<real>, exp: real -> real)
    requires LoadBank(assets, parse).Success?
    requires AllWellSized(LoadBank(assets, parse).value)
    ensures 0 <= IndexOfMax(Scores(LoadBank(assets, parse).value, x, exp)) < DigitCount
  {
  }
}
