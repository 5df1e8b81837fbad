/** Division and remainder facts shared by the slot and timestamp arithmetic. */
module Arith {

  lemma MultipleIsFar(x: int, d: int)
    requires x != 0 && 0 < d
    ensures x * d <= -d || d <= x * d
  {
    if 1 <= x {
      assert (x - 1) * d >= 0;
    } else {
      assert (-x - 1) * d >= 0;
    }
  }

  /** Quotient and remainder are unique. */
  lemma DivModUnique(n: int, d: int, q: int, r: int)
    requires 0 <= r < d && n == q * d + r
    ensures n / d == q && n % d == r
  {
    var q', r' := n / d, n % d;
    assert n == d * q' + r';
    assert (q' - q) * d == r - r';
    if q' != q {
      MultipleIsFar(q' - q, d);
    }
  }

  /** The k-th multiple of d, by addition. */
  function Times(k: nat, d: nat): (r: nat) {
    if k == 0 then 0 else Times(k - 1, d) + d
  }

  lemma {:induction false} TimesIsProduct(k: nat, d: nat)
    ensures Times(k, d) == k * d
  {
    if 0 < k {
      TimesIsProduct(k - 1, d);
    }
  }

  lemma TimesDivMod(k: nat, d: nat, r: nat)
    requires r < d
    ensures (Times(k, d) + r) / d == k && (Times(k, d) + r) % d == r
  {
    TimesIsProduct(k, d);
    DivModUnique(k * d + r, d, k, r);
  }

  lemma DivModTimes(n: nat, d: nat)
    requires 0 < d
    ensures n == Times(n / d, d) + n % d
  {
    TimesIsProduct(n / d, d);
  }
}
