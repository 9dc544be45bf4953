/** Welford's online statistics against their two-pass definitions, over the reals, and the bound
    that makes the correlation's clamp a no-op. */
module Statistics {

  // ---------- two-pass definitions ----------

  function Sum(xs: seq<real>): real {
    if xs == [] then 0.0 else Sum(xs[..|xs| - 1]) + xs[|xs| - 1]
  }

  function Mean(xs: seq<real>): real
    requires xs != []
  {
    Sum(xs) / |xs| as real
  }

  function Product(u: real, v: real): real {
    u * v
  }

  /** Sum of (x - a)(y - b). */
  function CrossAbout(xs: seq<real>, ys: seq<real>, a: real, b: real): real
    requires |xs| == |ys|
  {
    if xs == [] then 0.0
    else CrossAbout(xs[..|xs| - 1], ys[..|xs| - 1], a, b) + Product(xs[|xs| - 1] - a, ys[|xs| - 1] - b)
  }

  /** Sum of (x - mean)(y - mean); with ys == xs, the sum of squared deviations. */
  function Cross(xs: seq<real>, ys: seq<real>): real
    requires |xs| == |ys| > 0
  {
    CrossAbout(xs, ys, Mean(xs), Mean(ys))
  }

  // ---------- the update identities ----------

  lemma SumSnoc(xs: seq<real>, x: real)
    ensures Sum(xs + [x]) == Sum(xs) + x
  {
    assert (xs + [x])[..|xs|] == xs;
  }

  lemma MeanTimesCount(xs: seq<real>)
    requires xs != []
    ensures |xs| as real * Mean(xs) == Sum(xs)
  {
  }

  lemma MeanUpdate(xs: seq<real>, x: real)
    requires xs != []
    ensures Mean(xs + [x]) == Mean(xs) + (x - Mean(xs)) / (|xs| + 1) as real
  {
    var n, m := |xs| as real, Mean(xs);
    SumSnoc(xs, x);
    MeanTimesCount(xs);
    assert (n + 1.0) * m + (x - m) == Sum(xs) + x;
    QuotientSplit(m, x - m, n + 1.0);
  }

  lemma QuotientSplit(m: real, d: real, k: real)
    requires k > 0.0
    ensures (k * m + d) / k == m + d / k
  {
    assert (m + d / k) * k == k * m + d;
  }

  /** What moving the centres by (p, q) adds to a cross sum of n terms with deviations dx, dy from them. */
  ghost function Shift(p: real, q: real, dx: real, dy: real, n: real): real {
    p * dy + q * dx + n * (p * q)
  }

  ghost function Deviation(xs: seq<real>, a: real): real {
    if xs == [] then 0.0 else Deviation(xs[..|xs| - 1], a) + (xs[|xs| - 1] - a)
  }

  lemma {:induction false} DeviationFromMean(xs: seq<real>, a: real, n: real)
    requires n == |xs| as real
    ensures Deviation(xs, a) == Sum(xs) - n * a
  {
    if xs != [] {
      DeviationFromMean(xs[..|xs| - 1], a, n - 1.0);
      assert (n - 1.0) * a == n * a - a;
    }
  }

  /** Moving the centres of a cross sum. */
  lemma {:induction false} Recentre(xs: seq<real>, ys: seq<real>, a: real, b: real, a': real, b': real)
    requires |xs| == |ys|
    ensures CrossAbout(xs, ys, a', b') ==
            CrossAbout(xs, ys, a, b) + Shift(a - a', b - b', Deviation(xs, a), Deviation(ys, b), |xs| as real)
  {
    if xs != [] {
      hide Shift, Product;
      var k := |xs| - 1;
      Recentre(xs[..k], ys[..k], a, b, a', b');
      RecentreStep(xs[k], ys[k], a, b, a', b', Deviation(xs[..k], a), Deviation(ys[..k], b), k as real);
    }
  }

  lemma RecentreStep(x: real, y: real, a: real, b: real, a': real, b': real, dx: real, dy: real, k: real)
    ensures Shift(a - a', b - b', dx, dy, k) + Product(x - a', y - b')
         == Product(x - a, y - b) + Shift(a - a', b - b', dx + (x - a), dy + (y - b), k + 1.0)
  {
    var p, q, u, v := a - a', b - b', x - a, y - b;
    assert (x - a') * (y - b') == (u + p) * (v + q);
    assert (u + p) * (v + q) == u * v + u * q + p * v + p * q;
    assert p * (dy + v) == p * dy + p * v;
    assert q * (dx + u) == q * dx + q * u;
    assert (k + 1.0) * (p * q) == k * (p * q) + p * q;
  }

  /** About the means the linear terms vanish. */
  lemma RecentreFromMeans(xs: seq<real>, ys: seq<real>, a': real, b': real)
    requires |xs| == |ys| > 0
    ensures CrossAbout(xs, ys, a', b') == Cross(xs, ys) + |xs| as real * ((Mean(xs) - a') * (Mean(ys) - b'))
  {
    hide CrossAbout, Mean;
    Recentre(xs, ys, Mean(xs), Mean(ys), a', b');
    DeviationFromMean(xs, Mean(xs), |xs| as real);
    DeviationFromMean(ys, Mean(ys), |ys| as real);
    MeanTimesCount(xs);
    MeanTimesCount(ys);
  }

  /** Sum of products. */
  function Products(xs: seq<real>, ys: seq<real>): real
    requires |xs| == |ys|
  {
    if xs == [] then 0.0 else Products(xs[..|xs| - 1], ys[..|xs| - 1]) + xs[|xs| - 1] * ys[|xs| - 1]
  }

  lemma {:induction false} CrossAboutZero(xs: seq<real>, ys: seq<real>)
    requires |xs| == |ys|
    ensures CrossAbout(xs, ys, 0.0, 0.0) == Products(xs, ys)
  {
    if xs != [] {
      CrossAboutZero(xs[..|xs| - 1], ys[..|xs| - 1]);
    }
  }

  /** The cross sum is the sum of products less n times the product of the means. */
  lemma CrossMoments(xs: seq<real>, ys: seq<real>)
    requires |xs| == |ys| > 0
    ensures Cross(xs, ys) == Products(xs, ys) - |xs| as real * (Mean(xs) * Mean(ys))
  {
    hide Mean, Cross;
    CrossAboutZero(xs, ys);
    RecentreFromMeans(xs, ys, 0.0, 0.0);
  }

  /** Welford: the cross sum grows by dx * dy * n / (n + 1). */
  lemma CrossUpdate(xs: seq<real>, ys: seq<real>, x: real, y: real)
    requires |xs| == |ys| > 0
    ensures Cross(xs + [x], ys + [y]) ==
            Cross(xs, ys) + (x - Mean(xs)) * (y - Mean(ys)) * (|xs| as real / (|xs| + 1) as real)
  {
    var n := |xs| as real;
    var dx, dy := x - Mean(xs), y - Mean(ys);
    var a', b' := Mean(xs + [x]), Mean(ys + [y]);
    assert (xs + [x])[..|xs|] == xs && (ys + [y])[..|xs|] == ys;
    MeanUpdate(xs, x);
    MeanUpdate(ys, y);
    RecentreFromMeans(xs, ys, a', b');
    assert Mean(xs) - a' == -(dx / (n + 1.0)) && Mean(ys) - b' == -(dy / (n + 1.0));
    assert x - a' == dx - dx / (n + 1.0) && y - b' == dy - dy / (n + 1.0);
    GrowthTerm(dx, dy, n);
  }

  lemma GrowthTerm(dx: real, dy: real, n: real)
    requires n > 0.0
    ensures var u, v := dx / (n + 1.0), dy / (n + 1.0);
            n * ((-u) * (-v)) + (dx - u) * (dy - v) == dx * dy * (n / (n + 1.0))
  {
    var k := n + 1.0;
    var u, v := dx / k, dy / k;
    assert dx == k * u && dy == k * v;
    assert dx - u == n * u && dy - v == n * v;
    assert (n * u) * (n * v) == n * (n * (u * v));
    assert n * (u * v) + n * (n * (u * v)) == n * (k * (u * v));
    assert dx * dy == k * (k * (u * v));
    var w := k * (u * v);
    assert (k * w) * (n / k) == n * w by {
      assert (n / k) * k == n;
      assert (k * w) * (n / k) == w * ((n / k) * k);
    }
  }

  // ---------- Cauchy-Schwarz ----------

  lemma SquareSign(p: real)
    ensures p * p >= 0.0
  {
  }

  lemma DivideBack(p: real, z: real)
    requires p != 0.0 && z == p * p
    ensures z / p == p
  {
  }

  lemma SquareZero(p: real, z: real)
    requires z == p * p && z <= 0.0
    ensures p == 0.0
  {
    if p != 0.0 {
      DivideBack(p, z);
    }
  }

  lemma NonNegativeProduct(x: real, y: real)
    requires x >= 0.0 && y >= 0.0
    ensures x * y >= 0.0
  {
  }

  /** A polynomial identity behind the mixed-term bound. */
  lemma CompleteSquare(p: real, q: real, r: real, u: real, v: real)
    ensures q * (q * (v * v) + r * (u * u) - 2.0 * p * (u * v))
         == (q * v - p * u) * (q * v - p * u) + (q * r - p * p) * (u * u)
  {
    var x, y := q * v, p * u;
    assert (x - y) * (x - y) == x * x - 2.0 * (x * y) + y * y;
    assert x * x == q * (q * (v * v));
    assert y * y == (p * p) * (u * u);
    assert x * y == q * (p * (u * v));
    assert 2.0 * p * (u * v) == 2.0 * (p * (u * v));
    assert q * (2.0 * (p * (u * v))) == 2.0 * (q * (p * (u * v)));
    assert q * (r * (u * u)) == (q * r) * (u * u);
    assert (q * r - p * p) * (u * u) == (q * r) * (u * u) - (p * p) * (u * u);
  }

  lemma SignOfFactor(q: real, e: real)
    requires q > 0.0
    ensures q * e >= 0.0 ==> e >= 0.0
  {
    if e < 0.0 {
      assert q * e < 0.0;
    }
  }

  lemma FlatMixedTerm(p: real, q: real, r: real, u: real, v: real)
    requires q == 0.0 && r >= 0.0 && p * p <= q * r
    ensures 2.0 * p * (u * v) <= q * (v * v) + r * (u * u)
  {
    assert q * r == 0.0;
    SquareZero(p, p * p);
    SquareSign(u);
    NonNegativeProduct(r, u * u);
  }

  lemma MixedTerm(p: real, q: real, r: real, u: real, v: real)
    requires q >= 0.0 && r >= 0.0 && p * p <= q * r
    ensures 2.0 * p * (u * v) <= q * (v * v) + r * (u * u)
  {
    SquareSign(p);
    SquareSign(u);
    NonNegativeProduct(r, u * u);
    if q > 0.0 {
      var e := q * (v * v) + r * (u * u) - 2.0 * p * (u * v);
      var s := q * v - p * u;
      NonNegativeProduct(q * r - p * p, u * u);
      CompleteSquare(p, q, r, u, v);
      SquareSign(s);
      SignOfFactor(q, e);
    } else {
      FlatMixedTerm(p, q, r, u, v);
    }
  }

  /** The Cauchy-Schwarz relation between a cross sum and two sums of squares. */
  ghost predicate Dominated(p: real, q: real, r: real) {
    q >= 0.0 && r >= 0.0 && p * p <= q * r
  }

  /** One more term: if p^2 <= q * r with q, r >= 0, the same holds after adding uv, u^2, v^2. */
  lemma CauchyStep(p: real, q: real, r: real, u: real, v: real, p': real, q': real, r': real)
    requires Dominated(p, q, r)
    requires p' == p + u * v && q' == q + u * u && r' == r + v * v
    ensures Dominated(p', q', r')
  {
    SquareSign(u);
    SquareSign(v);
    MixedTerm(p, q, r, u, v);
    assert p' * p' == p * p + 2.0 * p * (u * v) + (u * v) * (u * v);
    assert q' * r' == q * r + q * (v * v) + r * (u * u) + (u * u) * (v * v);
    assert (u * v) * (u * v) == (u * u) * (v * v);
  }

  lemma {:induction false} CauchySchwarz(xs: seq<real>, ys: seq<real>, a: real, b: real)
    requires |xs| == |ys|
    ensures Dominated(CrossAbout(xs, ys, a, b), CrossAbout(xs, xs, a, a), CrossAbout(ys, ys, b, b))
  {
    hide Dominated, CrossAbout;
    if xs == [] {
      NothingDominated(xs, ys, a, b);
    } else {
      var k := |xs| - 1;
      CauchySchwarz(xs[..k], ys[..k], a, b);
      CrossSnoc(xs, ys, a, b);
      CrossSnoc(xs, xs, a, a);
      CrossSnoc(ys, ys, b, b);
      CauchyStep(CrossAbout(xs[..k], ys[..k], a, b), CrossAbout(xs[..k], xs[..k], a, a),
                 CrossAbout(ys[..k], ys[..k], b, b), xs[k] - a, ys[k] - b,
                 CrossAbout(xs, ys, a, b), CrossAbout(xs, xs, a, a), CrossAbout(ys, ys, b, b));
    }
  }

  lemma NothingDominated(xs: seq<real>, ys: seq<real>, a: real, b: real)
    requires xs == [] && ys == []
    ensures Dominated(CrossAbout(xs, ys, a, b), CrossAbout(xs, xs, a, a), CrossAbout(ys, ys, b, b))
  {
  }

  lemma CrossSnoc(xs: seq<real>, ys: seq<real>, a: real, b: real)
    requires |xs| == |ys| > 0
    ensures var k := |xs| - 1;
            CrossAbout(xs, ys, a, b) == CrossAbout(xs[..k], ys[..k], a, b) + (xs[k] - a) * (ys[k] - b)
  {
  }

  // ---------- the tracker ----------

  datatype Obs = Obs(field: real, vector: seq<real>)

  function Fields(obs: seq<Obs>): (r: seq<real>)
    ensures |r| == |obs|
  {
    if obs == [] then [] else Fields(obs[..|obs| - 1]) + [obs[|obs| - 1].field]
  }

  ghost predicate Uniform(obs: seq<Obs>, dim: nat) {
    forall i :: 0 <= i < |obs| ==> |obs[i].vector| == dim
  }

  function Column(obs: seq<Obs>, dim: nat, d: nat): (r: seq<real>)
    requires Uniform(obs, dim) && d < dim
    ensures |r| == |obs|
  {
    if obs == [] then [] else Column(obs[..|obs| - 1], dim, d) + [obs[|obs| - 1].vector[d]]
  }

  /** Fields and columns are those of the observations, in order. */
  lemma {:induction false} ColumnsAre(obs: seq<Obs>, dim: nat, d: nat, i: nat)
    requires Uniform(obs, dim) && d < dim && i < |obs|
    ensures Fields(obs)[i] == obs[i].field && Column(obs, dim, d)[i] == obs[i].vector[d]
    decreases |obs|
  {
    if i < |obs| - 1 {
      ColumnsAre(obs[..|obs| - 1], dim, d, i);
    }
  }

  datatype Stats = Stats(count: nat, fieldMean: real, fieldM2: real,
                         dimMeans: seq<real>, dimM2: seq<real>, dimCross: seq<real>)

  /** The running statistics are the two-pass ones of everything observed. */
  ghost predicate Exact(s: Stats, dim: nat, obs: seq<Obs>) {
    && Uniform(obs, dim)
    && s.count == |obs|
    && |s.dimMeans| == |s.dimM2| == |s.dimCross| == dim
    && (if obs == [] then s.fieldM2 == 0.0 && forall d :: 0 <= d < dim ==> s.dimM2[d] == 0.0 && s.dimCross[d] == 0.0
        else && s.fieldMean == Mean(Fields(obs)) && s.fieldM2 == Cross(Fields(obs), Fields(obs))
             && forall d :: 0 <= d < dim ==> ExactAt(s, dim, obs, d))
  }

  ghost predicate ExactAt(s: Stats, dim: nat, obs: seq<Obs>, d: nat)
    requires Uniform(obs, dim) && obs != [] && d < dim && |s.dimMeans| == |s.dimM2| == |s.dimCross| == dim
  {
    Moments(Fields(obs), Column(obs, dim, d), s.dimMeans[d], s.dimM2[d], s.dimCross[d])
  }

  /** The mean, the sum of squares and the cross sum of a column c beside the field values f. */
  ghost predicate Moments(f: seq<real>, c: seq<real>, mean: real, m2: real, cross: real)
    requires |f| == |c| > 0
  {
    mean == Mean(c) && m2 == Cross(c, c) && cross == Cross(f, c)
  }

  lemma ObsSnoc(obs: seq<Obs>, o: Obs, dim: nat)
    requires Uniform(obs, dim) && |o.vector| == dim
    ensures Uniform(obs + [o], dim) && Fields(obs + [o]) == Fields(obs) + [o.field]
    ensures forall d :: 0 <= d < dim ==> Column(obs + [o], dim, d) == Column(obs, dim, d) + [o.vector[d]]
  {
    assert (obs + [o])[..|obs|] == obs;
    assert Uniform(obs + [o], dim);
  }

  lemma SingleCross(x: real, y: real)
    ensures Mean([x]) == x && Cross([x], [y]) == 0.0
  {
    assert [x][..0] == [] && [y][..0] == [];
    assert Sum([x]) == x && Sum([y]) == y;
    assert Mean([x]) == x && Mean([y]) == y;
    assert CrossAbout([x], [y], x, y) == CrossAbout([], [], x, y) + (x - x) * (y - y) == 0.0;
  }

  class NumericalStats {
    const dim: nat
    var count: nat
    var fieldMean: real
    var fieldM2: real
    var dimMeans: seq<real>
    var dimM2: seq<real>
    var dimCross: seq<real>
    ghost var observed: seq<Obs>

    function View(): Stats
      reads this
    {
      Stats(count, fieldMean, fieldM2, dimMeans, dimM2, dimCross)
    }

    ghost predicate Valid()
      reads this
    {
      Exact(View(), dim, observed)
    }

    constructor (dim: nat)
      ensures Valid() && this.dim == dim && observed == []
    {
      this.dim := dim;
      count, fieldMean, fieldM2 := 0, 0.0, 0.0;
      dimMeans, dimM2, dimCross := seq(dim, _ => 0.0), seq(dim, _ => 0.0), seq(dim, _ => 0.0);
      observed := [];
    }

    method Update(fieldValue: real, vector: seq<real>)
      requires Valid() && |vector| == dim
      modifies this
      ensures Valid() && observed == old(observed) + [Obs(fieldValue, vector)]
    {
      hide Exact, Advanced;
      ghost var o, obs, before := Obs(fieldValue, vector), observed, View();
      observed := observed + [o];
      if count == 0 {
        count := 1;
        fieldMean := fieldValue;
        dimMeans := vector;
        CountIsLength(before, dim, obs);
        FirstObservation(before, dim, o, View());
        assert obs + [o] == [o];
        return;
      }
      CountIsLength(before, dim, obs);
      var nOld := count;
      count := count + 1;
      var ratio := nOld as real / count as real;
      var deltaF := fieldValue - fieldMean;
      dimMeans, dimM2, dimCross := AdvanceDims(before, dimMeans, dimM2, dimCross, fieldMean, fieldValue, vector, nOld);
      fieldM2 := fieldM2 + deltaF * deltaF * ratio;
      fieldMean := fieldMean + deltaF / count as real;
      NextObservation(before, dim, obs, o, View());
    }
  }

  /** The loop over dimensions: cross sum, M2 and mean of each, from the old means. */
  method AdvanceDims(ghost s: Stats, means0: seq<real>, m20: seq<real>, cross0: seq<real>,
                     fieldMean: real, fieldValue: real, vector: seq<real>, nOld: nat)
    returns (means: seq<real>, m2: seq<real>, cross: seq<real>)
    requires s.count == nOld && s.fieldMean == fieldMean && s.dimMeans == means0 && s.dimM2 == m20
             && s.dimCross == cross0
    requires |means0| == |m20| == |cross0| == |vector|
    ensures |means| == |m2| == |cross| == |vector|
    ensures forall i :: 0 <= i < |vector| ==> Advanced(s, Obs(fieldValue, vector), i, means[i], m2[i], cross[i])
  {
    hide Advanced;
    means, m2, cross := means0, m20, cross0;
    var nNew := nOld + 1;
    var ratio := nOld as real / nNew as real;
    var deltaF := fieldValue - fieldMean;
    for d := 0 to |vector|
      invariant |means| == |m2| == |cross| == |vector|
      invariant forall i :: d <= i < |vector| ==> means[i] == means0[i] && m2[i] == m20[i] && cross[i] == cross0[i]
      invariant forall i :: 0 <= i < d ==> Advanced(s, Obs(fieldValue, vector), i, means[i], m2[i], cross[i])
    {
      var deltaD := vector[d] - means[d];
      cross := cross[d := cross[d] + deltaF * deltaD * ratio];
      m2 := m2[d := m2[d] + deltaD * deltaD * ratio];
      means := means[d := means[d] + deltaD / nNew as real];
      DimensionAdvanced(s, Obs(fieldValue, vector), d, deltaF, deltaD, ratio, means[d], m2[d], cross[d]);
    }
  }

  lemma CountIsLength(s: Stats, dim: nat, obs: seq<Obs>)
    requires Exact(s, dim, obs)
    ensures s.count == |obs| && |s.dimMeans| == |s.dimM2| == |s.dimCross| == dim && Uniform(obs, dim)
  {
  }

  /** A mean of n terms after one more. */
  function Nudged(mean: real, x: real, n: nat): real {
    mean + (x - mean) / (n + 1) as real
  }

  /** A cross sum of n terms after one more with deviations dx, dy from the old means. */
  function Grown(cross: real, dx: real, dy: real, n: nat): real {
    cross + dx * dy * (n as real / (n + 1) as real)
  }

  lemma MeanNudged(xs: seq<real>, x: real)
    requires xs != []
    ensures Mean(xs + [x]) == Nudged(Mean(xs), x, |xs|)
  {
    hide Mean;
    MeanUpdate(xs, x);
  }

  lemma CrossGrown(xs: seq<real>, ys: seq<real>, x: real, y: real)
    requires |xs| == |ys| > 0
    ensures Cross(xs + [x], ys + [y]) == Grown(Cross(xs, ys), x - Mean(xs), y - Mean(ys), |xs|)
  {
    hide Mean, Cross;
    CrossUpdate(xs, ys, x, y);
  }

  /** One dimension after Welford's update. */
  ghost predicate Advanced(s: Stats, o: Obs, i: nat, mean: real, m2: real, cross: real)
    requires i < |o.vector| && i < |s.dimMeans| && i < |s.dimM2| && i < |s.dimCross|
  {
    var df, dd := o.field - s.fieldMean, o.vector[i] - s.dimMeans[i];
    && mean == Nudged(s.dimMeans[i], o.vector[i], s.count)
    && m2 == Grown(s.dimM2[i], dd, dd, s.count)
    && cross == Grown(s.dimCross[i], df, dd, s.count)
  }

  lemma NudgedBy(mean: real, x: real, n: nat, d: real)
    requires d == x - mean
    ensures Nudged(mean, x, n) == mean + d / (n + 1) as real
  {
  }

  lemma GrownBy(cross: real, dx: real, dy: real, n: nat, ratio: real)
    requires ratio == n as real / (n + 1) as real
    ensures Grown(cross, dx, dy, n) == cross + dx * dy * ratio
  {
  }

  lemma DimensionAdvanced(s: Stats, o: Obs, i: nat, df: real, dd: real, ratio: real, mean: real, m2: real, cross: real)
    requires i < |o.vector| && i < |s.dimMeans| && i < |s.dimM2| && i < |s.dimCross|
    requires df == o.field - s.fieldMean && dd == o.vector[i] - s.dimMeans[i]
    requires ratio == s.count as real / (s.count + 1) as real
    requires mean == s.dimMeans[i] + dd / (s.count + 1) as real
    requires m2 == s.dimM2[i] + dd * dd * ratio && cross == s.dimCross[i] + df * dd * ratio
    ensures Advanced(s, o, i, mean, m2, cross)
  {
    hide Nudged, Grown;
    NudgedBy(s.dimMeans[i], o.vector[i], s.count, dd);
    GrownBy(s.dimM2[i], dd, dd, s.count, ratio);
    GrownBy(s.dimCross[i], df, dd, s.count, ratio);
  }

  lemma FirstObservation(s: Stats, dim: nat, o: Obs, s': Stats)
    requires Exact(s, dim, []) && |o.vector| == dim
    requires s' == Stats(1, o.field, s.fieldM2, o.vector, s.dimM2, s.dimCross)
    ensures Exact(s', dim, [o])
  {
    ObsSnoc([], o, dim);
    assert [] + [o] == [o];
    SingleCross(o.field, o.field);
    assert Fields([o]) == [o.field];
    forall d | 0 <= d < dim ensures ExactAt(s', dim, [o], d) {
      assert Column([o], dim, d) == [o.vector[d]];
      SingleCross(o.vector[d], o.vector[d]);
      SingleCross(o.field, o.vector[d]);
    }
  }

  lemma NextObservation(s: Stats, dim: nat, obs: seq<Obs>, o: Obs, s': Stats)
    requires obs != [] && Exact(s, dim, obs) && |o.vector| == dim
    requires s'.count == s.count + 1 && |s'.dimMeans| == |s'.dimM2| == |s'.dimCross| == dim
    requires forall i :: 0 <= i < dim ==> Advanced(s, o, i, s'.dimMeans[i], s'.dimM2[i], s'.dimCross[i])
    requires s'.fieldMean == Nudged(s.fieldMean, o.field, s.count)
    requires s'.fieldM2 == Grown(s.fieldM2, o.field - s.fieldMean, o.field - s.fieldMean, s.count)
    ensures Exact(s', dim, obs + [o])
  {
    hide Mean, Cross, ExactAt, Advanced, Nudged, Grown;
    ObsSnoc(obs, o, dim);
    var f := Fields(obs);
    MeanNudged(f, o.field);
    CrossGrown(f, f, o.field, o.field);
    forall d | 0 <= d < dim ensures ExactAt(s', dim, obs + [o], d) {
      assert ExactAt(s, dim, obs, d);
      assert Advanced(s, o, d, s'.dimMeans[d], s'.dimM2[d], s'.dimCross[d]);
      NextInDimension(s, dim, obs, o, s', d);
    }
  }

  lemma MomentsStep(f: seq<real>, c: seq<real>, x: real, y: real, fm: real, mean: real, m2: real, cross: real)
    requires |f| == |c| > 0 && fm == Mean(f) && Moments(f, c, mean, m2, cross)
    ensures Moments(f + [x], c + [y], Nudged(mean, y, |c|), Grown(m2, y - mean, y - mean, |c|),
                    Grown(cross, x - fm, y - mean, |c|))
  {
    hide Mean, Cross, Nudged, Grown;
    MeanNudged(c, y);
    CrossGrown(c, c, y, y);
    CrossGrown(f, c, x, y);
  }

  lemma NextInDimension(s: Stats, dim: nat, obs: seq<Obs>, o: Obs, s': Stats, d: nat)
    requires obs != [] && Uniform(obs, dim) && |o.vector| == dim && Uniform(obs + [o], dim) && d < dim
    requires |s.dimMeans| == |s.dimM2| == |s.dimCross| == |s'.dimMeans| == |s'.dimM2| == |s'.dimCross| == dim
    requires s.count == |obs| && s.fieldMean == Mean(Fields(obs)) && ExactAt(s, dim, obs, d)
    requires Advanced(s, o, d, s'.dimMeans[d], s'.dimM2[d], s'.dimCross[d])
    ensures ExactAt(s', dim, obs + [o], d)
  {
    hide Mean, Moments, Nudged, Grown, Fields, Column, Uniform;
    ObsSnoc(obs, o, dim);
    MomentsStep(Fields(obs), Column(obs, dim, d), o.field, o.vector[d], s.fieldMean,
                s.dimMeans[d], s.dimM2[d], s.dimCross[d]);
  }

  // ---------- correlations ----------

  ghost predicate SquareRoot(root: real -> real) {
    forall x: real :: x >= 0.0 ==> root(x) >= 0.0 && root(x) * root(x) == x
  }

  function Clamp(r: real): real {
    if r < -1.0 then -1.0 else if r > 1.0 then 1.0 else r
  }

  /** Cross sums never exceed what the two variances allow. */
  lemma CrossBound(s: Stats, dim: nat, obs: seq<Obs>, d: nat)
    requires Exact(s, dim, obs) && obs != [] && d < dim
    ensures Dominated(s.dimCross[d], s.fieldM2, s.dimM2[d])
  {
    assert ExactAt(s, dim, obs, d);
    var f, c := Fields(obs), Column(obs, dim, d);
    CauchySchwarz(f, c, Mean(f), Mean(c));
  }

  /** With exact statistics the quotient lies in [-1, 1] before it is clamped. */
  lemma QuotientBound(root: real -> real, n: real, fm: real, dm: real, cross: real, scale: real)
    requires SquareRoot(root) && n > 0.0 && fm / n > 0.0 && dm / n > 0.0 && Dominated(cross, fm, dm)
    requires scale == n * root(fm / n) * root(dm / n)
    ensures scale > 0.0 && -1.0 <= cross / scale <= 1.0
  {
    hide Dominated;
    var x, y := root(fm / n), root(dm / n);
    Rescale(n, fm);
    Rescale(n, dm);
    ScaleDominates(n, fm, dm, x, y, cross);
    QuotientInUnit(cross, scale);
  }

  lemma Rescale(n: real, m: real)
    requires n > 0.0
    ensures n * (m / n) == m
  {
  }

  lemma ScaleDominates(n: real, fm: real, dm: real, x: real, y: real, cross: real)
    requires n > 0.0 && x >= 0.0 && y >= 0.0 && x * x > 0.0 && y * y > 0.0
    requires n * (x * x) == fm && n * (y * y) == dm && Dominated(cross, fm, dm)
    ensures n * x * y > 0.0 && -(n * x * y) <= cross <= n * x * y
  {
    var q := n * x * y;
    ScaleSquared(n, x, y);
    SquareGrows(cross, q);
  }

  lemma ScaleSquared(n: real, x: real, y: real)
    requires n > 0.0 && x >= 0.0 && y >= 0.0 && x * x > 0.0 && y * y > 0.0
    ensures n * x * y > 0.0
    ensures (n * x * y) * (n * x * y) == (n * (x * x)) * (n * (y * y))
  {
    assert x > 0.0 && y > 0.0;
    var u, v := x * y, n * n;
    assert u > 0.0;
    assert n * x * y == n * u > 0.0;
    assert (n * u) * (n * u) == v * (u * u);
    assert (n * (x * x)) * (n * (y * y)) == v * ((x * x) * (y * y));
    assert u * u == (x * x) * (y * y);
  }

  lemma SquareGrows(c: real, q: real)
    requires q > 0.0
    ensures c > q ==> c * c > q * q
    ensures c < -q ==> c * c > q * q
  {
    if c > q {
      assert c * c > q * c;
      assert q * c > q * q;
    } else if c < -q {
      assert (-c) * (-c) > q * (-c);
      assert q * (-c) > q * q;
    }
  }

  lemma QuotientInUnit(c: real, q: real)
    requires q > 0.0 && -q <= c <= q
    ensures -1.0 <= c / q <= 1.0
  {
  }

  /** The two-pass Pearson coefficient of two columns, 0 where a variance vanishes. */
  ghost function Pearson(root: real -> real, xs: seq<real>, ys: seq<real>): real
    requires |xs| == |ys|
  {
    if |xs| < 2 then 0.0 else
      var n := |xs| as real;
      var xVar, yVar := Cross(xs, xs) / n, Cross(ys, ys) / n;
      var scale := n * root(xVar) * root(yVar);
      if xVar <= 0.0 || yVar <= 0.0 || scale == 0.0 then 0.0 else Cross(xs, ys) / scale
  }

  ghost function PearsonAt(root: real -> real, dim: nat, obs: seq<Obs>, d: nat): real
    requires Uniform(obs, dim) && d < dim
  {
    Pearson(root, Fields(obs), Column(obs, dim, d))
  }

  function Variance(m2: real, n: nat): real
    requires n > 0
  {
    m2 / n as real
  }

  /** Correlations of exact statistics are the two-pass coefficients: the clamp changed nothing. */
  method Correlations(root: real -> real, s: Stats, dim: nat, ghost obs: seq<Obs>) returns (r: seq<real>)
    requires SquareRoot(root) && Exact(s, dim, obs)
    ensures |r| == dim && Uniform(obs, dim)
    ensures forall d :: 0 <= d < dim ==> r[d] == PearsonAt(root, dim, obs, d) && -1.0 <= r[d] <= 1.0
  {
    hide *;
    CountIsLength(s, dim, obs);
    if s.count < 2 {
      FewObservations(root, dim, obs);
      return seq(dim, _ => 0.0);
    }
    var fieldVar := Variance(s.fieldM2, s.count);
    if fieldVar <= 0.0 {
      FlatField(root, s, dim, obs);
      return seq(dim, _ => 0.0);
    }
    var fieldStd := root(fieldVar);
    r := [];
    for d := 0 to dim
      invariant |r| == d
      invariant forall i :: 0 <= i < d ==> r[i] == PearsonAt(root, dim, obs, i) && -1.0 <= r[i] <= 1.0
    {
      var q := Coefficient(root, s, dim, obs, d, fieldStd);
      r := r + [q];
    }
  }

  lemma FewObservations(root: real -> real, dim: nat, obs: seq<Obs>)
    requires Uniform(obs, dim) && |obs| < 2
    ensures forall d :: 0 <= d < dim ==> PearsonAt(root, dim, obs, d) == 0.0
  {
  }

  lemma FlatField(root: real -> real, s: Stats, dim: nat, obs: seq<Obs>)
    requires Exact(s, dim, obs) && s.count >= 2 && Variance(s.fieldM2, s.count) <= 0.0
    ensures forall d :: 0 <= d < dim ==> PearsonAt(root, dim, obs, d) == 0.0
  {
    hide Cross;
  }

  method Coefficient(root: real -> real, s: Stats, dim: nat, ghost obs: seq<Obs>, d: nat, fieldStd: real)
    returns (q: real)
    requires SquareRoot(root) && Exact(s, dim, obs) && s.count >= 2 && d < dim
    requires |s.dimM2| == |s.dimCross| == dim && Uniform(obs, dim)
    requires Variance(s.fieldM2, s.count) > 0.0 && fieldStd == root(Variance(s.fieldM2, s.count))
    ensures q == PearsonAt(root, dim, obs, d) && -1.0 <= q <= 1.0
  {
    CountIsLength(s, dim, obs);
    hide Exact, Pearson, SquareRoot, Uniform, Dominated;
    var n := s.count as real;
    var dimVar := s.dimM2[d] / n;
    if dimVar <= 0.0 {
      FlatColumn(root, s, dim, obs, d);
      return 0.0;
    }
    CrossBound(s, dim, obs, d);
    var dimStd := root(dimVar);
    var scale := n * fieldStd * dimStd;
    QuotientBound(root, n, s.fieldM2, s.dimM2[d], s.dimCross[d], scale);
    q := Clamp(s.dimCross[d] / scale);
    PearsonValue(root, s, dim, obs, d, scale);
  }

  lemma FlatColumn(root: real -> real, s: Stats, dim: nat, obs: seq<Obs>, d: nat)
    requires Exact(s, dim, obs) && s.count >= 2 && d < dim && s.dimM2[d] / s.count as real <= 0.0
    ensures PearsonAt(root, dim, obs, d) == 0.0
  {
    hide Cross;
    assert ExactAt(s, dim, obs, d);
  }

  lemma PearsonValue(root: real -> real, s: Stats, dim: nat, obs: seq<Obs>, d: nat, scale: real)
    requires Exact(s, dim, obs) && s.count >= 2 && d < dim
    requires s.fieldM2 / s.count as real > 0.0 && s.dimM2[d] / s.count as real > 0.0 && scale != 0.0
    requires scale == s.count as real * root(s.fieldM2 / s.count as real) * root(s.dimM2[d] / s.count as real)
    ensures PearsonAt(root, dim, obs, d) == s.dimCross[d] / scale
  {
    hide Cross;
    assert ExactAt(s, dim, obs, d);
  }
}
