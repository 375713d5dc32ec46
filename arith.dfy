/** Facts about integer multiplication that the solver does not find by itself. */
module Arith {

  /** Multiplying by a positive `n` keeps a factor of at least 1, or at most -1, on the same side of `n`. */
  lemma MulSign(n: int, k: int)
    requires n > 0
    ensures k >= 1 ==> n * k >= n
    ensures k <= -1 ==> n * k <= -n
  {
    if k >= 1 {
      assert n * k == n + n * (k - 1);
    } else if k <= -1 {
      assert n * k == -n + n * (k + 1);
    }
  }

  /** One more copy of `w`: (m + 1) * w = m * w + w. */
  lemma MulSucc(m: int, w: int)
    ensures (m + 1) * w == m * w + w
  {
  }
}
