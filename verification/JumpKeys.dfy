/** The key sequence of jump consistent hash: a linear congruential generator modulo 2^64. After 2^63
    steps exactly the top bit has changed, so a key below 2^63 always lies ahead. */
module JumpKeys {
  import opened Log2

  const TWO63: nat := 0x8000_0000_0000_0000
  const TWO64: nat := 0x1_0000_0000_0000_0000
  const MULTIPLIER: nat := 2862933555777941757

  type u64 = x: int | 0 <= x < 0x1_0000_0000_0000_0000

  function NextKey(key: u64): u64 {
    (key * MULTIPLIER + 1) % TWO64
  }

  ghost function KeyAfter(key: u64, t: nat): u64
    decreases t
  {
    if t == 0 then key else KeyAfter(NextKey(key), t - 1)
  }

  lemma {:induction false} KeyAfterSum(key: u64, s: nat, t: nat)
    ensures KeyAfter(key, s + t) == KeyAfter(KeyAfter(key, s), t)
    decreases s
  {
    if s > 0 {
      KeyAfterSum(NextKey(key), s - 1, t);
    }
  }

  // ---------- 2^k steps at once ----------

  /** 2^k steps are x -> Factor(k) * x + Offset(k). */
  ghost function Factor(k: nat): nat {
    if k == 0 then MULTIPLIER else Factor(k - 1) * Factor(k - 1)
  }

  ghost function Offset(k: nat): nat {
    if k == 0 then 1 else Factor(k - 1) * Offset(k - 1) + Offset(k - 1)
  }

  lemma ModAbsorbs(a: nat, x: nat, c: nat, m: nat)
    requires m > 0
    ensures (a * (x % m) + c) % m == (a * x + c) % m
  {
    var q, r := x / m, x % m;
    assert x == q * m + r;
    assert a * x + c == (a * q) * m + (a * r + c) by {
      assert a * (q * m + r) == (a * q) * m + a * r;
    }
    AddMultiple(a * r + c, a * q, m);
  }

  lemma {:induction false} AddMultiple(x: nat, q: nat, m: nat)
    requires m > 0
    ensures (q * m + x) % m == x % m
  {
    if q > 0 {
      AddMultiple(x, q - 1, m);
      assert q * m + x == m + ((q - 1) * m + x);
      AddOne((q - 1) * m + x, m);
    }
  }

  lemma AddOne(y: nat, m: nat)
    requires m > 0
    ensures (m + y) % m == y % m
  {
    var q, r := y / m, y % m;
    assert m + y == (q + 1) * m + r;
    QuotientUnique(m + y, m, q + 1, r);
  }

  lemma QuotientUnique(x: nat, m: nat, q: nat, r: nat)
    requires m > 0 && r < m && x == q * m + r
    ensures x % m == r
  {
    var q', r' := x / m, x % m;
    SameQuotient(m, q, r, q', r');
    SameQuotient(m, q', r', q, r);
  }

  lemma SameQuotient(m: nat, q: nat, r: nat, q': nat, r': nat)
    requires r < m && r' < m && q * m + r == q' * m + r'
    ensures q <= q' && (q == q' ==> r == r')
  {
    if q > q' {
      MultiplesGrow(q' + 1, q, m);
    }
  }

  lemma MultiplesGrow(a: nat, b: nat, m: nat)
    requires a <= b
    ensures a * m <= b * m
  {
  }

  /** One affine step. */
  ghost function Affine(f: nat, c: nat, x: nat): u64 {
    (f * x + c) % TWO64
  }

  lemma AffineTwice(f: nat, c: nat, x: nat)
    ensures Affine(f, c, Affine(f, c, x)) == Affine(f * f, f * c + c, x)
  {
    ModAbsorbs(f, f * x + c, c, TWO64);
    TwoSteps(f, c, x);
  }

  lemma NextKeyIsAffine(key: u64)
    ensures KeyAfter(key, 1) == NextKey(key) == Affine(MULTIPLIER, 1, key)
  {
    assert KeyAfter(key, 1) == KeyAfter(NextKey(key), 0);
    assert key * MULTIPLIER == MULTIPLIER * key;
  }

  lemma {:induction false} PowerOfTwoSteps(key: u64, k: nat)
    ensures KeyAfter(key, Pow2(k)) == Affine(Factor(k), Offset(k), key)
    decreases k
  {
    hide Affine, KeyAfter;
    if k == 0 {
      NextKeyIsAffine(key);
    } else {
      var p := Pow2(k - 1);
      PowerOfTwoSteps(key, k - 1);
      PowerOfTwoSteps(KeyAfter(key, p), k - 1);
      assert Pow2(k) == p + p;
      KeyAfterSum(key, p, p);
      AffineTwice(Factor(k - 1), Offset(k - 1), key);
    }
  }

  lemma TwoSteps(f: nat, c: nat, x: nat)
    ensures f * (f * x + c) + c == (f * f) * x + (f * c + c)
  {
    assert f * (f * x) == (f * f) * x;
  }

  /** The factor is 1 up to a multiple of 2^(k+2), the offset an odd multiple of 2^k. */
  lemma {:induction false} Shape(k: nat) returns (u: nat, w: nat)
    ensures Factor(k) == 1 + Pow2(k + 2) * u && Offset(k) == Pow2(k) * (1 + 2 * w)
  {
    if k == 0 {
      u, w := 715733388944485439, 0;
      assert Pow2(2) == 2 * Pow2(1) == 2 * (2 * Pow2(0)) == 4;
    } else {
      var u0, w0 := Shape(k - 1);
      var p := Pow2(k - 1);
      assert Pow2(k + 1) == 2 * Pow2(k) == 4 * p && Pow2(k + 2) == 2 * Pow2(k + 1) == 8 * p;
      u := u0 + 2 * p * (u0 * u0);
      FactorStep(p, u0);
      w := w0 + p * u0 * (1 + 2 * w0);
      OffsetStep(p, u0, w0);
    }
  }

  lemma FactorStep(p: nat, u: nat)
    ensures (1 + 4 * p * u) * (1 + 4 * p * u) == 1 + 8 * p * (u + 2 * p * (u * u))
  {
    var x := 4 * p * u;
    assert (1 + x) * (1 + x) == 1 + 2 * x + x * x;
    assert x * x == 16 * (p * p * (u * u)) by {
      assert x == 4 * (p * u);
      assert (4 * (p * u)) * (4 * (p * u)) == 16 * ((p * u) * (p * u));
      assert (p * u) * (p * u) == p * p * (u * u);
    }
    assert 8 * p * (2 * p * (u * u)) == 16 * (p * p * (u * u));
    assert 8 * p * (u + 2 * p * (u * u)) == 8 * p * u + 8 * p * (2 * p * (u * u));
    assert 8 * p * u == 2 * x;
  }

  lemma OffsetStep(p: nat, u: nat, w: nat)
    ensures (1 + 4 * p * u) * (p * (1 + 2 * w)) + p * (1 + 2 * w) == 2 * p * (1 + 2 * (w + p * u * (1 + 2 * w)))
  {
    var o, z := 1 + 2 * w, p * u;
    assert 4 * p * u == 4 * z;
    assert (1 + 4 * z) * (p * o) + p * o == 2 * (p * o) + 4 * z * (p * o);
    assert 4 * z * (p * o) == 4 * (p * (z * o));
    assert 2 * p * (1 + 2 * (w + z * o)) == 2 * p * o + 2 * p * (2 * (z * o)) by {
      assert 1 + 2 * (w + z * o) == o + 2 * (z * o);
    }
    assert 2 * p * (2 * (z * o)) == 4 * (p * (z * o));
    assert 2 * p * o == 2 * (p * o);
  }

  lemma Powers()
    ensures Pow2(63) == TWO63 && Pow2(65) == 2 * TWO64
  {
    SmallPowers();
    hide Pow2;
    PowerSum(4, 4);
    PowerSum(8, 8);
    PowerSum(16, 16);
    PowerSum(32, 32);
    PowerSum(1, 63);
    PowerSum(1, 64);
  }

  lemma SmallPowers()
    ensures Pow2(1) == 2 && Pow2(4) == 16
  {
    assert Pow2(4) == 2 * Pow2(3) == 4 * Pow2(2) == 8 * Pow2(1);
  }

  lemma {:induction false} PowerSum(a: nat, b: nat)
    ensures Pow2(a + b) == Pow2(a) * Pow2(b)
  {
    if a == 0 {
      assert Pow2(0) == 1;
    } else {
      hide Pow2;
      PowerSum(a - 1, b);
      Pow2Step(a - 1 + b);
      Pow2Step(a - 1);
      assert 2 * (Pow2(a - 1) * Pow2(b)) == (2 * Pow2(a - 1)) * Pow2(b);
    }
  }

  lemma Pow2Step(k: nat)
    ensures Pow2(k + 1) == 2 * Pow2(k)
  {
  }

  /** After 2^63 steps the top bit is the other one and nothing else has changed. */
  lemma HalfCycle(key: u64)
    ensures KeyAfter(key, TWO63) == (key + TWO63) % TWO64
  {
    hide Factor, Offset, KeyAfter, Pow2;
    PowerOfTwoSteps(key, 63);
    Powers();
    var u, w := Shape(63);
    TopBitShift(Factor(63), Offset(63), key, TWO63, TWO64, u, w);
  }

  lemma TopBitShift(f: nat, c: nat, x: nat, h: nat, m: nat, u: nat, w: nat)
    requires m > 0 && m == 2 * h && f == 1 + 2 * m * u && c == h * (1 + 2 * w)
    ensures (f * x + c) % m == (x + h) % m
  {
    Regroup(u, w, x, h, m);
    AddMultiple(x + h, 2 * u * x + w, m);
  }

  lemma Regroup(u: nat, w: nat, x: nat, h: nat, m: nat)
    requires m == 2 * h
    ensures (1 + 2 * m * u) * x + h * (1 + 2 * w) == (2 * u * x + w) * m + (x + h)
  {
    assert (1 + 2 * m * u) * x == x + 2 * m * u * x;
    assert 2 * m * u * x == (2 * u * x) * m;
    assert h * (1 + 2 * w) == h + 2 * h * w;
    assert 2 * h * w == w * m;
    assert (2 * u * x + w) * m == (2 * u * x) * m + w * m;
  }

  // ---------- the next key below 2^63 ----------

  ghost predicate LowAt(key: u64, t: nat) {
    t >= 1 && KeyAfter(key, t) < TWO63
  }

  lemma LowAhead(key: u64) returns (t: nat)
    ensures LowAt(key, t)
  {
    var k := NextKey(key);
    NextKeyIsAffine(key);
    hide NextKey, KeyAfter, Affine;
    if k < TWO63 {
      t := 1;
    } else {
      HalfCycle(k);
      KeyAfterSum(key, 1, TWO63);
      t := 1 + TWO63;
    }
  }

  /** The first t from `from` on with a low key. */
  ghost function FirstLow(key: u64, from: nat, last: nat): (t: nat)
    requires 1 <= from <= last && LowAt(key, last)
    ensures from <= t <= last && LowAt(key, t) && forall s :: from <= s < t ==> !LowAt(key, s)
    decreases last - from
  {
    if LowAt(key, from) then from else FirstLow(key, from + 1, last)
  }

  /** Steps until the next low key. */
  ghost function Wait(key: u64): (t: nat)
    ensures LowAt(key, t) && forall s :: LowAt(key, s) ==> t <= s
  {
    LowExists(key);
    var last :| LowAt(key, last);
    FirstLow(key, 1, last)
  }

  lemma LowExists(key: u64)
    ensures exists t :: LowAt(key, t)
  {
    var t := LowAhead(key);
  }

  lemma WaitDecreases(key: u64)
    requires NextKey(key) >= TWO63
    ensures Wait(NextKey(key)) < Wait(key)
  {
    var t := Wait(key);
    assert KeyAfter(key, 1) == KeyAfter(NextKey(key), 0) == NextKey(key);
    assert t != 1;
    assert KeyAfter(key, t) == KeyAfter(NextKey(key), t - 1);
    assert LowAt(NextKey(key), t - 1);
  }
}
