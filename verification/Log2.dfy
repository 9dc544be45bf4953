/** Ceiling of the base-2 logarithm, by repeated halving. */
module Log2 {

  function Pow2(k: nat): nat {
    if k == 0 then 1 else 2 * Pow2(k - 1)
  }

  function CeilLog2(n: nat): nat {
    if n <= 1 then 0 else 1 + CeilLog2((n + 1) / 2)
  }

  lemma Doubling(n: nat, m: nat)
    requires n > 2 && m == (n + 1) / 2
    ensures 2 * m - 1 <= n <= 2 * m
    ensures CeilLog2(n) == CeilLog2(m) + 1 && CeilLog2(m) >= 1
    ensures Pow2(CeilLog2(n)) == 2 * Pow2(CeilLog2(m))
    ensures Pow2(CeilLog2(n) - 1) == 2 * Pow2(CeilLog2(m) - 1)
  {
  }

  /** CeilLog2(n) is the least k with n <= 2^k. */
  lemma {:induction false} CeilLog2IsLeast(n: nat)
    requires n >= 1
    ensures n <= Pow2(CeilLog2(n))
    ensures n > 1 ==> Pow2(CeilLog2(n) - 1) < n
  {
    if n > 2 {
      hide Pow2, CeilLog2;
      var m := (n + 1) / 2;
      CeilLog2IsLeast(m);
      Doubling(n, m);
    } else if n == 2 {
      assert CeilLog2(2) == 1 + CeilLog2(1) && Pow2(1) == 2;
    }
  }

  lemma {:induction false} CeilLog2Monotone(a: nat, b: nat)
    requires a <= b
    ensures CeilLog2(a) <= CeilLog2(b)
  {
    if a > 1 {
      CeilLog2Monotone((a + 1) / 2, (b + 1) / 2);
    }
  }
}
