/** Jump consistent hash (Lamping and Veach, arXiv:1406.2294), with its step in 64-bit floating point.

    Rounding is a parameter: any function with the properties of `Rounding`, which rounding to an IEEE
    double has in every rounding mode. From 2^53 on a step may stand still (`StandsStill`), but the key
    sequence cannot keep it there for ever, so the loop ends for every number of buckets. */
module JumpHash {
  import opened Log2
  import opened JumpKeys

  const TWO31: nat := 0x8000_0000
  const TWO33: nat := 0x2_0000_0000
  const TWO53: nat := 0x20_0000_0000_0000
  const RANGE: real := 79228162514264337593543950336.0   // 2^96: above every value of the loop

  type Round = real -> real

  // ---------- rounding ----------

  /** x is a floating-point number. */
  ghost predicate Double(round: Round, x: real) {
    round(x) == x
  }

  ghost predicate Integral(x: real) {
    x.Floor as real == x
  }

  /** Monotone, idempotent, exact on integers up to 2^53; from 2^53 on all doubles are integers, and
      twice a double is a double. */
  ghost predicate Rounding(round: Round) {
    && (forall x, y :: 0.0 <= x <= y <= RANGE ==> round(x) <= round(y))
    && (forall x :: 0.0 <= x <= RANGE ==> Double(round, round(x)))
    && (forall x :: 0.0 <= x <= TWO53 as real && Integral(x) ==> Double(round, x))
    && (forall x :: TWO53 as real <= x <= RANGE && Double(round, x) ==> Integral(x))
    && (forall x :: 1.0 <= x <= RANGE / 2.0 && Double(round, x) ==> Double(round, 2.0 * x))
  }

  /** Rounds down to an integer, and to an even one from 2^53 on. */
  function RoundDown(x: real): real {
    if x < TWO53 as real then x.Floor as real else 2.0 * (x / 2.0).Floor as real
  }

  lemma WholeIsIntegral(i: int)
    ensures Integral(i as real)
  {
  }

  lemma RoundingMonotone(round: Round, x: real, y: real)
    requires Rounding(round) && 0.0 <= x <= y <= RANGE
    ensures round(x) <= round(y)
  {
  }

  lemma WholeIsDouble(round: Round, i: nat)
    requires Rounding(round) && i <= TWO53
    ensures Double(round, i as real)
  {
    WholeIsIntegral(i);
  }

  lemma RoundedIsDouble(round: Round, x: real)
    requires Rounding(round) && 0.0 <= x <= RANGE
    ensures Double(round, round(x))
  {
  }

  lemma DoubleDoubled(round: Round, x: real)
    requires Rounding(round) && 1.0 <= x <= RANGE / 2.0 && Double(round, x)
    ensures Double(round, 2.0 * x)
  {
  }

  lemma LargeIsIntegral(round: Round, x: real)
    requires Rounding(round) && TWO53 as real <= x <= RANGE && Double(round, x)
    ensures Integral(x)
  {
  }

  /** x times 2^k. */
  ghost function Scaled(x: real, k: nat): real {
    if k == 0 then x else 2.0 * Scaled(x, k - 1)
  }

  lemma {:induction false} ScaledDouble(round: Round, x: real, k: nat)
    requires Rounding(round) && Double(round, x) && x >= 1.0 && Scaled(x, k) <= RANGE
    ensures Double(round, Scaled(x, k)) && Scaled(x, k) >= 1.0
  {
    hide Rounding, Double;
    if k > 0 {
      ScaledAtLeast(x, k - 1);
      ScaledDouble(round, x, k - 1);
      DoubleDoubled(round, Scaled(x, k - 1));
    }
  }

  lemma {:induction false} ScaledAtLeast(x: real, k: nat)
    requires x >= 1.0
    ensures Scaled(x, k) >= 1.0
  {
    if k > 0 {
      ScaledAtLeast(x, k - 1);
    }
  }

  lemma {:induction false} ScaledIsProduct(x: real, k: nat)
    ensures Scaled(x, k) == x * Pow2(k) as real
  {
    if k > 0 {
      ScaledIsProduct(x, k - 1);
      var p := Pow2(k - 1) as real;
      assert Pow2(k) as real == 2.0 * p;
      assert x * (2.0 * p) == 2.0 * (x * p);
    }
  }

  lemma Pow2Of31()
    ensures Pow2(31) == TWO31
  {
    SmallPowers();
    hide Pow2;
    PowerSum(1, 1);
    PowerSum(2, 1);
    PowerSum(4, 4);
    PowerSum(8, 8);
    PowerSum(16, 8);
    PowerSum(24, 4);
    PowerSum(28, 3);
  }

  /** Scaling a double by 2^31 is exact. */
  lemma Scaled31(round: Round, x: real)
    requires Rounding(round) && Double(round, x) && 1.0 <= x <= TWO63 as real
    ensures round(x * TWO31 as real) == x * TWO31 as real <= RANGE
  {
    hide Rounding;
    ScaledIsProduct(x, 31);
    Pow2Of31();
    ProductBound(x);
    ScaledDouble(round, x, 31);
  }

  lemma ProductBound(x: real)
    requires x <= TWO63 as real
    ensures x * TWO31 as real <= RANGE
  {
  }

  lemma TwoTo63IsDouble(round: Round)
    requires Rounding(round)
    ensures Double(round, TWO63 as real)
  {
    hide Rounding;
    WholeIsDouble(round, 1);
    ScaledIsProduct(1.0, 63);
    Powers();
    ScaledDouble(round, 1.0, 63);
  }

  // ---------- one step ----------

  /** The float quotient: the successor of b, scaled by 2^31 and divided by the top 31 bits plus one. */
  function Quotient(round: Round, b: nat, key: u64): real {
    var x := round((b + 1) as real);
    var p := round(x * TWO31 as real);
    round(p / (key / TWO33 + 1) as real)
  }

  /** The cast to a signed 64-bit integer truncates and saturates. */
  function Truncated(q: real): nat {
    if q < 0.0 then 0 else if q < TWO63 as real then q.Floor else TWO63 - 1
  }

  function NextBucket(round: Round, b: nat, key: u64): nat {
    Truncated(Quotient(round, b, key))
  }

  /** The rounded successor of b: at least 1, at most 2^63, exact below 2^53, no smaller than a double b. */
  lemma Successor(round: Round, b: nat)
    requires Rounding(round) && b < TWO63
    ensures var x := round((b + 1) as real);
            && Double(round, x) && 1.0 <= x <= TWO63 as real
            && (b < TWO53 ==> x == (b + 1) as real)
            && (Double(round, b as real) ==> b as real <= x)
  {
    hide Rounding;
    WholeIsDouble(round, 1);
    RoundingMonotone(round, 1.0, (b + 1) as real);
    RoundingMonotone(round, b as real, (b + 1) as real);
    RoundingMonotone(round, (b + 1) as real, TWO63 as real);
    TwoTo63IsDouble(round);
    RoundedIsDouble(round, (b + 1) as real);
    if b < TWO53 {
      WholeIsDouble(round, b + 1);
    }
  }

  /** The divisor is between 1 and 2^31, and at most 2^30 for a key below 2^63. */
  lemma Divisor(key: u64)
    ensures 1 <= key / TWO33 + 1 <= TWO31
    ensures key < TWO63 ==> 2 * (key / TWO33 + 1) <= TWO31
  {
  }

  lemma QuotientBounds(x: real, t: real, k: real)
    requires x >= 0.0 && 1.0 <= k <= t
    ensures x <= x * t / k <= x * t
    ensures 2.0 * k <= t ==> 2.0 * x <= x * t / k
  {
    var q := x * t / k;
    assert q * k == x * t;
    assert x * (t - k) >= 0.0;
    AtLeast(q, x, k);
    AtMost(q, x * t, k);
    if 2.0 * k <= t {
      assert x * (t - 2.0 * k) >= 0.0;
      AtLeast(q, 2.0 * x, k);
    }
  }

  lemma AtLeast(q: real, x: real, k: real)
    requires k > 0.0 && q * k >= x * k
    ensures q >= x
  {
  }

  lemma AtMost(q: real, y: real, k: real)
    requires k >= 1.0 && q * k == y && y >= 0.0
    ensures q <= y
  {
  }

  /** What one step does, with x the rounded successor. */
  lemma StepBounds(round: Round, b: nat, key: u64)
    requires Rounding(round) && b < TWO63
    ensures var x := round((b + 1) as real); var q := Quotient(round, b, key);
            && Double(round, q) && round(x) <= q && 0.0 <= q <= RANGE
            && (key < TWO63 ==> round(2.0 * x) <= q)
  {
    hide Rounding, Double;
    Successor(round, b);
    var x, t, k := round((b + 1) as real), TWO31 as real, (key / TWO33 + 1) as real;
    Scaled31(round, x);
    Divisor(key);
    QuotientBounds(x, t, k);
    var y := x * t / k;
    RoundingMonotone(round, x, y);
    RoundingMonotone(round, y, x * t);
    RoundedIsDouble(round, y);
    RoundedNonNegative(round, y);
    if key < TWO63 {
      RoundingMonotone(round, 2.0 * x, y);
    }
  }

  lemma RoundedNonNegative(round: Round, y: real)
    requires Rounding(round) && 0.0 <= y <= RANGE
    ensures 0.0 <= round(y)
  {
    hide Rounding;
    WholeIsDouble(round, 0);
    RoundingMonotone(round, 0.0, y);
  }

  /** A bucket the loop can stand at: a double, or saturated. */
  ghost predicate Reached(round: Round, b: nat) {
    b < TWO63 && (Double(round, b as real) || b == TWO63 - 1)
  }

  lemma TruncatedReached(round: Round, q: real)
    requires Rounding(round) && Double(round, q) && 0.0 <= q <= RANGE
    ensures Reached(round, Truncated(q))
  {
    hide Rounding;
    if q < TWO53 as real {
      WholeIsDouble(round, q.Floor);
    } else if q < TWO63 as real {
      LargeIsIntegral(round, q);
    }
  }

  lemma TruncatedAtLeast(q: real, b: nat)
    requires b as real <= q && b < TWO63
    ensures Truncated(q) >= b
  {
  }

  /** A step never goes back, and goes forward below 2^53 or with a key below 2^63. */
  lemma StepForward(round: Round, b: nat, key: u64)
    requires Rounding(round) && b < TWO63 - 1 && Double(round, b as real)
    ensures Reached(round, NextBucket(round, b, key)) && NextBucket(round, b, key) >= b
    ensures b < TWO53 || key < TWO63 ==> NextBucket(round, b, key) > b
  {
    hide Rounding, Truncated, Quotient;
    Successor(round, b);
    StepBounds(round, b, key);
    var x, q := round((b + 1) as real), Quotient(round, b, key);
    TruncatedReached(round, q);
    TruncatedAtLeast(q, b);
    if b < TWO53 {
      TruncatedAtLeast(q, b + 1);
    } else if key < TWO63 {
      DoubleDoubled(round, x);
      TruncatedAtLeast(q, b + 1);
    }
  }

  // ---------- the loop ----------

  /** The loop, from last bucket `b` and candidate `j`. A step that stands still shortens the wait for a
      key that cannot. */
  function JumpFrom(round: Round, key: u64, b: int, j: nat, n: nat): int
    requires Rounding(round) && n < TWO63 && Reached(round, j)
    decreases n - j, Wait(key)
  {
    if j >= n then b
    else
      var key' := NextKey(key);
      StepForward(round, j, key');
      var j' := NextBucket(round, j, key');
      assert j' == j ==> Wait(key') < Wait(key) by {
        if j' == j {
          WaitDecreases(key);
        }
      }
      JumpFrom(round, key', j, j', n)
  }

  lemma Start(round: Round)
    requires Rounding(round)
    ensures Reached(round, 0)
  {
    WholeIsDouble(round, 0);
  }

  /** The hash, with the two casts between signed and unsigned at its ends. */
  function Bucket(round: Round, key: u64, n: u64): u64
    requires Rounding(round)
  {
    if n == 0 then 0
    else if n >= TWO63 then TWO64 - 1   // the bound casts to a negative number: no iteration
    else
      Start(round);
      InRange(round, key, -1, 0, n);
      JumpFrom(round, key, -1, 0, n)
  }

  lemma {:induction false} InRange(round: Round, key: u64, b: int, j: nat, n: nat)
    requires Rounding(round) && n < TWO63 && Reached(round, j) && b < n && b <= j
    ensures b <= JumpFrom(round, key, b, j, n) < n
    ensures j < n ==> JumpFrom(round, key, b, j, n) >= j
    decreases n - j, Wait(key)
  {
    hide Rounding, Reached, NextBucket, NextKey;
    if j < n {
      Advance(round, key, b, j, n);
      InRange(round, NextKey(key), j, NextBucket(round, j, NextKey(key)), n);
    }
  }

  /** One round of the loop, with what makes it end. */
  lemma Advance(round: Round, key: u64, b: int, j: nat, n: nat)
    requires Rounding(round) && j < n < TWO63 && Reached(round, j)
    ensures var key' := NextKey(key); var j' := NextBucket(round, j, key');
            && Reached(round, j') && j' >= j && (j' == j ==> Wait(key') < Wait(key))
            && JumpFrom(round, key, b, j, n) == JumpFrom(round, key', j, j', n)
  {
    StepForward(round, j, NextKey(key));
    if NextBucket(round, j, NextKey(key)) == j {
      WaitDecreases(key);
    }
  }

  method ComputeBucket(round: Round, key: u64, numBuckets: u64) returns (bucket: u64)
    requires Rounding(round)
    ensures bucket == Bucket(round, key, numBuckets)
    ensures numBuckets == 0 ==> bucket == 0
    ensures numBuckets >= 0x8000_0000_0000_0000 ==> bucket == 0xFFFF_FFFF_FFFF_FFFF
  {
    hide Rounding, Reached, NextBucket, NextKey;
    if numBuckets == 0 {
      return 0;
    }
    var bound: int := if numBuckets >= TWO63 then numBuckets - TWO64 else numBuckets;
    var k := key;
    var b, j := -1, 0;
    Start(round);
    while j < bound
      invariant b <= j && 0 <= j && Reached(round, j)
      invariant b >= 0 || (b == -1 && j == 0)
      invariant bound <= 0 ==> b == -1
      invariant 0 < bound ==> b < bound && JumpFrom(round, k, b, j, bound) == JumpFrom(round, key, -1, 0, bound)
      decreases bound - j, Wait(k)
    {
      Advance(round, k, b, j, bound);
      b := j;
      k := NextKey(k);
      j := NextBucket(round, b, k);
    }
    if 0 < bound {
      InRange(round, key, -1, 0, bound);
    }
    bucket := if b < 0 then b + TWO64 else b;
  }

  /** The result is a bucket exactly for bucket counts that a signed 64-bit integer can hold. */
  lemma ValidBucketIff(round: Round, key: u64, n: u64)
    requires Rounding(round)
    ensures Bucket(round, key, n) < n <==> 0 < n < TWO63
  {
    hide Rounding, Reached;
    if 0 < n < TWO63 {
      Start(round);
      InRange(round, key, -1, 0, n);
    }
  }

  lemma {:induction false} FewerBuckets(round: Round, key: u64, b: int, j: nat, m: nat, n: nat)
    requires Rounding(round) && m <= n < TWO63 && Reached(round, j) && b < m && b <= j
    ensures var r := JumpFrom(round, key, b, j, n); r < m ==> r == JumpFrom(round, key, b, j, m)
    ensures JumpFrom(round, key, b, j, m) <= JumpFrom(round, key, b, j, n)
    decreases n - j, Wait(key)
  {
    hide Rounding, Reached, NextBucket, NextKey;
    if j < m {
      Advance(round, key, b, j, m);
      Advance(round, key, b, j, n);
      FewerBuckets(round, NextKey(key), j, NextBucket(round, j, NextKey(key)), m, n);
    } else {
      InRange(round, key, b, j, n);
    }
  }

  /** Consistency: a key that does not land in one of the added buckets keeps its bucket. */
  lemma Consistent(round: Round, key: u64, m: u64, n: u64)
    requires Rounding(round) && 0 < m <= n < TWO63
    ensures Bucket(round, key, n) < m ==> Bucket(round, key, n) == Bucket(round, key, m)
    ensures Bucket(round, key, m) <= Bucket(round, key, n)
  {
    hide Rounding, Reached;
    Start(round);
    FewerBuckets(round, key, -1, 0, m, n);
  }

  /** Growing by one bucket moves a key only to the new bucket. */
  lemma GrowByOne(round: Round, key: u64, n: u64)
    requires Rounding(round) && 0 < n < TWO63 - 1
    ensures Bucket(round, key, n + 1) == Bucket(round, key, n) || Bucket(round, key, n + 1) == n
  {
    hide Rounding, Bucket;
    Consistent(round, key, n, n + 1);
    ValidBucketIff(round, key, n + 1);
  }

  // ---------- which candidates a key has ----------

  /** The step as arithmetic. With k the top 31 bits of the next key plus one, the next candidate is
      (b + 1) * 2^31 / k, up to rounding: at least every integer up to the quotient, at most the next
      integer, and the quotient itself where that is an integer. */
  lemma StepIs(round: Round, b: nat, key: u64, i: nat)
    requires Rounding(round) && b < TWO53 && i <= TWO53
    ensures var k, next := key / 0x2_0000_0000 + 1, NextBucket(round, b, key);
            && (i * k <= (b + 1) * 0x8000_0000 ==> i <= next)
            && ((b + 1) * 0x8000_0000 < i * k ==> next <= i)
            && (i * k == (b + 1) * 0x8000_0000 ==> next == i)
  {
    hide Rounding, NextBucket;
    var k := key / TWO33 + 1;
    WholeProduct(i, k);
    WholeProduct(b + 1, TWO31);
    StepAgainst(round, b, key, i, (b + 1) as real * TWO31 as real, k as real);
  }

  lemma WholeProduct(a: nat, b: nat)
    ensures (a * b) as real == a as real * b as real
  {
  }

  lemma StepAgainst(round: Round, b: nat, key: u64, i: nat, p: real, k: real)
    requires Rounding(round) && b < TWO53 && i <= TWO53
    requires p == (b + 1) as real * TWO31 as real && k == (key / TWO33 + 1) as real
    ensures i as real * k <= p ==> i <= NextBucket(round, b, key)
    ensures p <= i as real * k ==> NextBucket(round, b, key) <= i
  {
    hide Rounding, Truncated;
    Successor(round, b);
    Scaled31(round, (b + 1) as real);
    assert NextBucket(round, b, key) == Truncated(round(p / k));
    StepBounds(round, b, key);
    Divisor(key);
    WholeIsDouble(round, i);
    hide NextBucket, Quotient;
    QuotientBounds((b + 1) as real, TWO31 as real, k);
    RoundAgainst(round, i, p, k);
  }

  lemma RoundAgainst(round: Round, i: nat, p: real, k: real)
    requires Rounding(round) && i <= TWO53 && k >= 1.0 && 0.0 <= p / k <= RANGE
    ensures i as real * k <= p ==> i <= Truncated(round(p / k))
    ensures p <= i as real * k ==> Truncated(round(p / k)) <= i
  {
    hide Rounding, Truncated;
    WholeIsDouble(round, i);
    if i as real * k <= p {
      NotBelow(p, i as real, k);
      RoundingMonotone(round, i as real, p / k);
      TruncatedAtLeast(round(p / k), i);
    }
    if p <= i as real * k {
      NotAbove(p, i as real, k);
      RoundingMonotone(round, p / k, i as real);
      RoundedNonNegative(round, p / k);
      TruncatedAtMost(round(p / k), i);
    }
  }

  lemma NotBelow(p: real, i: real, k: real)
    requires k > 0.0 && i * k <= p
    ensures i <= p / k
  {
    var q := p / k;
    assert q * k == p;
    AtLeast(q, i, k);
  }

  lemma NotAbove(p: real, i: real, k: real)
    requires k > 0.0 && p <= i * k
    ensures p / k <= i
  {
    var q := p / k;
    assert q * k == p;
  }

  lemma TruncatedAtMost(q: real, i: nat)
    requires 0.0 <= q <= i as real && i < TWO63
    ensures Truncated(q) <= i
  {
  }

  lemma KeyIs(key: u64)
    ensures NextKey(key) == (2862933555777941757 * key + 1) % 0x1_0000_0000_0000_0000
  {
    assert key * MULTIPLIER == MULTIPLIER * key;
  }

  /** The candidate after t further steps. */
  ghost function CandidateFrom(round: Round, key: u64, j: nat, t: nat): nat
    decreases t
  {
    if t == 0 then j else CandidateFrom(round, NextKey(key), NextBucket(round, j, NextKey(key)), t - 1)
  }

  /** The t-th candidate of a key: 0 at first, then step by step. */
  ghost function Candidate(round: Round, key: u64, t: nat): nat {
    CandidateFrom(round, key, 0, t)
  }

  /** Each candidate is the step from the one before, with the next key. */
  lemma {:induction false} CandidateStep(round: Round, key: u64, j: nat, t: nat)
    ensures CandidateFrom(round, key, j, t + 1) ==
            NextBucket(round, CandidateFrom(round, key, j, t), KeyAfter(key, t + 1))
    decreases t
  {
    hide NextBucket, NextKey;
    var key' := NextKey(key);
    if t > 0 {
      CandidateStep(round, key', NextBucket(round, j, key'), t - 1);
    } else {
      assert KeyAfter(key, 1) == KeyAfter(key', 0) == key';
      assert CandidateFrom(round, key, j, 1) == CandidateFrom(round, key', NextBucket(round, j, key'), 0);
    }
  }

  /** Over the whole sequence of a key: keys follow the linear recurrence, candidates start at 0, and each
      next one is the quotient of StepIs. */
  lemma CandidatesAre(round: Round, key: u64, t: nat, i: nat)
    requires Rounding(round) && i <= TWO53
    ensures KeyAfter(key, 0) == key && Candidate(round, key, 0) == 0
    ensures KeyAfter(key, t + 1) == (2862933555777941757 * KeyAfter(key, t) + 1) % 0x1_0000_0000_0000_0000
    ensures var b, next := Candidate(round, key, t), Candidate(round, key, t + 1);
            var k := KeyAfter(key, t + 1) / 0x2_0000_0000 + 1;
            b < TWO53 ==>
              && (i * k <= (b + 1) * 0x8000_0000 ==> i <= next)
              && ((b + 1) * 0x8000_0000 < i * k ==> next <= i)
              && (i * k == (b + 1) * 0x8000_0000 ==> next == i)
  {
    hide Rounding, NextBucket;
    KeyAfterSum(key, t, 1);
    assert KeyAfter(KeyAfter(key, t), 1) == NextKey(KeyAfter(key, t)) by {
      NextKeyIsAffine(KeyAfter(key, t));
    }
    KeyIs(KeyAfter(key, t));
    CandidateStep(round, key, 0, t);
    if Candidate(round, key, t) < TWO53 {
      StepIs(round, Candidate(round, key, t), KeyAfter(key, t + 1), i);
    }
  }

  lemma {:induction false} LandsAt(round: Round, key: u64, b: int, j: nat, n: nat) returns (t: nat)
    requires Rounding(round) && j < n < TWO63 && Reached(round, j)
    ensures CandidateFrom(round, key, j, t) == JumpFrom(round, key, b, j, n)
    ensures CandidateFrom(round, key, j, t) < n <= CandidateFrom(round, key, j, t + 1)
    decreases n - j, Wait(key)
  {
    hide Rounding, Reached, NextBucket, NextKey;
    Advance(round, key, b, j, n);
    var key' := NextKey(key);
    var j' := NextBucket(round, j, key');
    if j' < n {
      var s := LandsAt(round, key', j, j', n);
      t := s + 1;
    } else {
      t := 0;
      assert CandidateFrom(round, key, j, 1) == CandidateFrom(round, key', j', 0) == j';
    }
  }

  /** A candidate below n that a key passes is not beyond its bucket among n. */
  lemma {:induction false} PassedBefore(round: Round, key: u64, b: int, j: nat, n: nat, t: nat)
    requires Rounding(round) && j < n < TWO63 && Reached(round, j) && b <= j && b < n
    requires CandidateFrom(round, key, j, t) < n
    ensures CandidateFrom(round, key, j, t) <= JumpFrom(round, key, b, j, n)
    decreases t
  {
    hide Rounding, Reached, NextBucket, NextKey;
    if t == 0 {
      InRange(round, key, b, j, n);
    } else {
      Advance(round, key, b, j, n);
      var key' := NextKey(key);
      var j' := NextBucket(round, j, key');
      if j' < n {
        PassedBefore(round, key', j, j', n, t - 1);
      } else {
        StaysBeyond(round, key', j', n, t - 1);
      }
    }
  }

  lemma {:induction false} StaysBeyond(round: Round, key: u64, j: nat, n: nat, t: nat)
    requires Rounding(round) && n <= j && n < TWO63 && Reached(round, j)
    ensures CandidateFrom(round, key, j, t) >= n
    decreases t
  {
    hide Rounding, Reached, NextBucket, NextKey;
    if t > 0 {
      var key' := NextKey(key);
      BeyondStep(round, key', j, n);
      StaysBeyond(round, key', NextBucket(round, j, key'), n, t - 1);
    }
  }

  lemma BeyondStep(round: Round, key: u64, j: nat, n: nat)
    requires Rounding(round) && n <= j && n < TWO63 && Reached(round, j)
    ensures n <= NextBucket(round, j, key) && Reached(round, NextBucket(round, j, key))
  {
    hide Rounding, Truncated, Quotient;
    if j < TWO63 - 1 {
      StepForward(round, j, key);
    } else {
      Saturated(round, key);
    }
  }

  lemma Saturated(round: Round, key: u64)
    requires Rounding(round)
    ensures NextBucket(round, TWO63 - 1, key) == TWO63 - 1
  {
    hide Rounding, Truncated, Quotient;
    var b := TWO63 - 1;
    SaturatedSuccessor(round);
    StepBounds(round, b, key);
    TwoTo63IsDouble(round);
    TruncatedLarge(Quotient(round, b, key));
  }

  lemma SaturatedSuccessor(round: Round)
    requires Rounding(round)
    ensures round((TWO63 - 1 + 1) as real) == TWO63 as real && round(TWO63 as real) == TWO63 as real
  {
    hide Rounding;
    TwoTo63IsDouble(round);
  }

  lemma TruncatedLarge(q: real)
    requires q >= TWO63 as real
    ensures Truncated(q) == TWO63 - 1
  {
  }

  /** The bucket among n is the last candidate below n. */
  lemma BucketIsCandidate(round: Round, key: u64, n: u64) returns (t: nat)
    requires Rounding(round) && 0 < n < TWO63
    ensures Bucket(round, key, n) == Candidate(round, key, t) < n <= Candidate(round, key, t + 1)
  {
    hide Rounding, Reached, NextBucket;
    Start(round);
    InRange(round, key, -1, 0, n);
    t := LandsAt(round, key, -1, 0, n);
  }

  /** Growing by one bucket moves a key exactly if the new bucket is one of its candidates. */
  lemma GrowMovesIff(round: Round, key: u64, n: u64)
    requires Rounding(round) && 0 < n < TWO63 - 1
    ensures Bucket(round, key, n + 1) == n <==> exists t :: Candidate(round, key, t) == n
    ensures Bucket(round, key, n + 1) != n ==> Bucket(round, key, n + 1) == Bucket(round, key, n)
  {
    hide Rounding, Reached, NextBucket, JumpFrom;
    GrowByOne(round, key, n);
    Start(round);
    InRange(round, key, -1, 0, n + 1);
    var t := BucketIsCandidate(round, key, n + 1);
    if s :| Candidate(round, key, s) == n {
      PassedBefore(round, key, -1, 0, n + 1, s);
    }
  }

  // ---------- where the step stands still ----------

  /** At 2^53, if its successor rounds to it, the step stands still for the largest divisor and for no
      other. */
  lemma StandsStillIff(round: Round, key: u64)
    requires Rounding(round) && round((TWO53 + 1) as real) == TWO53 as real
    ensures NextBucket(round, TWO53, key) == TWO53 <==> key / TWO33 == TWO31 - 1
  {
    if key / TWO33 == TWO31 - 1 {
      StandsStill(round, key);
    } else {
      MovesOn(round, key);
    }
  }

  /** Two above 2^53 is a double, and any smaller divisor reaches it. */
  lemma MovesOn(round: Round, key: u64)
    requires Rounding(round) && round((TWO53 + 1) as real) == TWO53 as real && key / TWO33 < TWO31 - 1
    ensures NextBucket(round, TWO53, key) > TWO53
  {
    hide Rounding;
    var x, k := TWO53 as real, (key / TWO33 + 1) as real;
    var y := x * TWO31 as real / k;
    WholeIsDouble(round, TWO53);
    WholeIsDouble(round, TWO53 / 2 + 1);
    DoubleDoubled(round, (TWO53 / 2 + 1) as real);
    Scaled31(round, x);
    SmallerDivisor(k);
    QuotientBounds(x, TWO31 as real, k);
    RoundingMonotone(round, (TWO53 + 2) as real, y);
    TruncatedAtLeast(round(y), TWO53 + 1);
  }

  lemma SmallerDivisor(k: real)
    requires 1.0 <= k <= (TWO31 - 1) as real
    ensures TWO53 as real * TWO31 as real / k >= (TWO53 + 2) as real
  {
    var a, b := TWO53 as real * TWO31 as real, (TWO53 + 2) as real;
    assert b * k <= b * (TWO31 - 1) as real <= a;
    AtLeast(a / k, b, k);
  }

  lemma StandsStill(round: Round, key: u64)
    requires Rounding(round) && round((TWO53 + 1) as real) == TWO53 as real && key / TWO33 == TWO31 - 1
    ensures NextBucket(round, TWO53, key) == TWO53
  {
    var x := TWO53 as real;
    WholeIsDouble(round, TWO53);
    Scaled31(round, x);
    assert x * TWO31 as real / TWO31 as real == x;
    hide Rounding;
    assert Quotient(round, TWO53, key) == x;
    assert x.Floor == TWO53;
  }

  /** Such roundings exist. */
  lemma RoundDownStandsStill()
    ensures Rounding(RoundDown) && RoundDown((TWO53 + 1) as real) == TWO53 as real
  {
    forall x, y | 0.0 <= x <= y <= RANGE ensures RoundDown(x) <= RoundDown(y) {
      RoundDownMonotone(x, y);
    }
    forall x | 0.0 <= x <= RANGE ensures Double(RoundDown, RoundDown(x)) {
      RoundDownIdempotent(x);
    }
    forall x | TWO53 as real <= x <= RANGE && Double(RoundDown, x) ensures Integral(x) {
      WholeIsIntegral(2 * (x / 2.0).Floor);
    }
    forall x | 1.0 <= x <= RANGE / 2.0 && Double(RoundDown, x) ensures Double(RoundDown, 2.0 * x) {
      RoundDownDoubles(x);
    }
    assert ((TWO53 + 1) as real / 2.0).Floor == TWO53 / 2;
  }

  lemma RoundDownMonotone(x: real, y: real)
    requires 0.0 <= x <= y
    ensures RoundDown(x) <= RoundDown(y)
  {
    assert (x / 2.0).Floor <= (y / 2.0).Floor && x.Floor <= y.Floor;
    assert y >= TWO53 as real ==> (y / 2.0).Floor >= TWO53 / 2;
    assert x < TWO53 as real ==> x.Floor < TWO53;
  }

  lemma RoundDownOfWhole(i: nat)
    ensures i < TWO53 ==> RoundDown(i as real) == i as real
    ensures 2 * i >= TWO53 ==> RoundDown((2 * i) as real) == (2 * i) as real
  {
    assert (i as real).Floor == i;
    assert (2 * i) as real / 2.0 == i as real;
  }

  lemma RoundDownIdempotent(x: real)
    requires 0.0 <= x
    ensures Double(RoundDown, RoundDown(x))
  {
    RoundDownOfWhole(x.Floor);
    RoundDownOfWhole((x / 2.0).Floor);
    assert x >= TWO53 as real ==> (x / 2.0).Floor >= TWO53 / 2;
  }

  lemma RoundDownDoubles(x: real)
    requires 1.0 <= x && Double(RoundDown, x)
    ensures Double(RoundDown, 2.0 * x)
  {
    var i := if x < TWO53 as real then x.Floor else 2 * (x / 2.0).Floor;
    assert x == i as real;
    assert (2.0 * x / 2.0).Floor == i;
    assert 2.0 * x == (2 * i) as real && (2.0 * x).Floor == 2 * i;
  }
}
