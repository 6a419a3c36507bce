/** Powers of two. */
module Powers {

  function Pow2(k: nat): (p: nat)
    ensures p > 0
  {
    if k == 0 then 1 else 2 * Pow2(k - 1)
  }

  lemma {:induction false} PowersGrow(start: nat, j: nat, k: nat)
    requires j <= k
    ensures start * Pow2(j) <= start * Pow2(k)
  {
    if j < k {
      PowersGrow(start, j, k - 1);
      assert start * Pow2(k) == 2 * (start * Pow2(k - 1));
    }
  }
}
