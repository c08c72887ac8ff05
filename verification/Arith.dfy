/** Small facts about products. */
module Arith {
  lemma MulLe(a: nat, b: nat, p: nat)
    requires a <= b
    ensures a * p <= b * p
  {
  }

  lemma MulCancel(a: nat, b: nat, p: nat)
    requires p > 0 && a * p <= b * p
    ensures a <= b
  {
    if a > b {
      assert (b + 1) * p == b * p + p;
      MulLe(b + 1, a, p);
      assert false;
    }
  }

  lemma MulTwo(h: nat, p: nat)
    ensures h * (2 * p) == 2 * (h * p)
  {
  }

  lemma DivMod(v: nat, p: nat)
    requires p > 0
    ensures v == v / p * p + v % p && 0 <= v % p < p && 0 <= v / p
  {
  }
}
