/** Merging batches of vectors into the Merkle tree: assignment to the nearest centroid, weighted
    updates, splitting of overfull clusters, rebuilding; and the hot buffer that feeds it. */
module MerkleTree {
  import opened MerkleNode

  const EPSILON: real := 0.01

  /** `distance(centroid, vector)` is the assignment metric. */
  datatype Params = Params(hasher: Hasher, dim: nat, maxClusterSize: nat, distance: (Vector, Vector) -> real)

  // ---------- sums of vectors ----------

  ghost predicate Uniform(vs: seq<Vector>, dim: nat) {
    forall i :: 0 <= i < |vs| ==> |vs[i]| == dim
  }

  function Total(vs: seq<Vector>, dim: nat, d: nat): real
    requires Uniform(vs, dim) && d < dim
  {
    if vs == [] then 0.0 else Total(vs[..|vs| - 1], dim, d) + vs[|vs| - 1][d]
  }

  lemma TotalSnoc(vs: seq<Vector>, v: Vector, dim: nat, d: nat)
    requires Uniform(vs, dim) && |v| == dim && d < dim
    ensures Uniform(vs + [v], dim) && Total(vs + [v], dim, d) == Total(vs, dim, d) + v[d]
  {
    assert (vs + [v])[..|vs|] == vs;
  }

  lemma {:induction false} TotalConcat(a: seq<Vector>, b: seq<Vector>, dim: nat, d: nat)
    requires Uniform(a, dim) && Uniform(b, dim) && d < dim
    ensures Uniform(a + b, dim) && Total(a + b, dim, d) == Total(a, dim, d) + Total(b, dim, d)
  {
    if b == [] {
      assert a + b == a;
    } else {
      var n := |b| - 1;
      TotalConcat(a, b[..n], dim, d);
      assert a + b == (a + b[..n]) + [b[n]];
      TotalSnoc(a + b[..n], b[n], dim, d);
    }
  }

  /** Vectors whose length differs from the first one's are skipped. */
  function Accepted(vs: seq<Vector>, dim: nat): (r: seq<Vector>)
    ensures Uniform(r, dim)
  {
    if vs == [] then []
    else if |vs[|vs| - 1]| == dim then Accepted(vs[..|vs| - 1], dim) + [vs[|vs| - 1]]
    else Accepted(vs[..|vs| - 1], dim)
  }

  lemma AcceptedSnoc(vs: seq<Vector>, v: Vector, dim: nat)
    ensures Accepted(vs + [v], dim) == if |v| == dim then Accepted(vs, dim) + [v] else Accepted(vs, dim)
  {
    assert (vs + [v])[..|vs|] == vs;
  }

  // ---------- nearest centroid ----------

  ghost predicate AllLeavesOk(p: Params, ls: seq<Node>) {
    forall i :: 0 <= i < |ls| ==> ls[i].Leaf? && |ls[i].centroid| == p.dim && ls[i].count > 0
  }

  /** Index of the first leaf at minimal distance. */
  function NearestIndex(p: Params, ls: seq<Node>, v: Vector): (r: nat)
    requires ls != []
    ensures r < |ls|
  {
    if |ls| == 1 then 0
    else
      var k := NearestIndex(p, ls[..|ls| - 1], v);
      if p.distance(ls[|ls| - 1].centroid, v) < p.distance(ls[k].centroid, v) then |ls| - 1 else k
  }

  /** It is a minimum, and every earlier leaf is strictly farther. */
  lemma {:induction false} NearestIsFirstMinimum(p: Params, ls: seq<Node>, v: Vector)
    requires ls != []
    ensures var r := NearestIndex(p, ls, v);
            && (forall j :: 0 <= j < |ls| ==> p.distance(ls[r].centroid, v) <= p.distance(ls[j].centroid, v))
            && (forall j :: 0 <= j < r ==> p.distance(ls[r].centroid, v) < p.distance(ls[j].centroid, v))
  {
    if |ls| > 1 {
      var init := ls[..|ls| - 1];
      NearestIsFirstMinimum(p, init, v);
      assert forall j :: 0 <= j < |init| ==> init[j] == ls[j];
    }
  }

  /** The accepted vectors that go to leaf `i`. */
  function AssignedTo(p: Params, ls: seq<Node>, vs: seq<Vector>, i: nat): (r: seq<Vector>)
    requires ls != []
    ensures Uniform(vs, p.dim) ==> Uniform(r, p.dim)
  {
    if vs == [] then []
    else
      var v, rest := vs[|vs| - 1], AssignedTo(p, ls, vs[..|vs| - 1], i);
      if NearestIndex(p, ls, v) == i then rest + [v] else rest
  }

  /** Leaf i is the first of those nearest to v. */
  ghost predicate FirstNearest(p: Params, ls: seq<Node>, i: nat, v: Vector) {
    && i < |ls|
    && (forall j :: 0 <= j < |ls| ==> p.distance(ls[i].centroid, v) <= p.distance(ls[j].centroid, v))
    && (forall j :: 0 <= j < i ==> p.distance(ls[i].centroid, v) < p.distance(ls[j].centroid, v))
  }

  lemma FirstNearestIff(p: Params, ls: seq<Node>, i: nat, v: Vector)
    requires ls != []
    ensures FirstNearest(p, ls, i, v) <==> NearestIndex(p, ls, v) == i
  {
    NearestIsFirstMinimum(p, ls, v);
    var k := NearestIndex(p, ls, v);
    NotBothFirst(p, ls, i, k, v);
    NotBothFirst(p, ls, k, i, v);
  }

  lemma NotBothFirst(p: Params, ls: seq<Node>, i: nat, k: nat, v: Vector)
    ensures FirstNearest(p, ls, i, v) && i < k ==> !FirstNearest(p, ls, k, v)
  {
    if FirstNearest(p, ls, i, v) && i < k < |ls| {
      assert p.distance(ls[i].centroid, v) <= p.distance(ls[k].centroid, v);
    }
  }

  /** The group of leaf i: of every vector as many as there are, if the leaf is the first nearest to it. */
  lemma {:induction false} AssignedAre(p: Params, ls: seq<Node>, vs: seq<Vector>, i: nat, v: Vector)
    requires ls != []
    ensures multiset(AssignedTo(p, ls, vs, i))[v] == if FirstNearest(p, ls, i, v) then multiset(vs)[v] else 0
    decreases |vs|
  {
    FirstNearestIff(p, ls, i, v);
    hide FirstNearest, NearestIndex;
    if vs != [] {
      var n := |vs| - 1;
      AssignedAre(p, ls, vs[..n], i, v);
      assert vs == vs[..n] + [vs[n]];
      AssignedSnoc(p, ls, vs[..n], vs[n], i);
    }
  }

  /** Of every accepted vector as many are kept as there are. */
  lemma {:induction false} AcceptedAre(vs: seq<Vector>, dim: nat, v: Vector)
    ensures multiset(Accepted(vs, dim))[v] == if |v| == dim then multiset(vs)[v] else 0
    decreases |vs|
  {
    if vs != [] {
      var n := |vs| - 1;
      AcceptedAre(vs[..n], dim, v);
      assert vs == vs[..n] + [vs[n]];
      AcceptedSnoc(vs[..n], vs[n], dim);
    }
  }

  lemma AssignedSnoc(p: Params, ls: seq<Node>, vs: seq<Vector>, v: Vector, i: nat)
    requires ls != []
    ensures AssignedTo(p, ls, vs + [v], i) ==
              if NearestIndex(p, ls, v) == i then AssignedTo(p, ls, vs, i) + [v] else AssignedTo(p, ls, vs, i)
  {
    assert (vs + [v])[..|vs|] == vs;
  }

  ghost predicate Gains(p: Params, leaf: Node, vs: seq<Vector>, leaf': Node)
    requires |leaf.centroid| == |leaf'.centroid| == p.dim && Uniform(vs, p.dim)
  {
    forall d :: 0 <= d < p.dim ==> NodeMass(leaf', d) == NodeMass(leaf, d) + Total(vs, p.dim, d)
  }

  /** A leaf after absorbing vectors: exact new count and mass, same id, fresh hash. */
  ghost predicate Absorbed(p: Params, leaf: Node, vs: seq<Vector>, leaf': Node)
    requires leaf.Leaf? && |leaf.centroid| == p.dim && Uniform(vs, p.dim)
  {
    && leaf'.Leaf? && leaf'.clusterId == leaf.clusterId
    && leaf'.count == leaf.count + |vs|
    && |leaf'.centroid| == p.dim
    && Gains(p, leaf, vs, leaf')
    && leaf'.hash == p.hasher.leaf(leaf'.centroid, leaf'.count, leaf'.clusterId)
  }

  ghost predicate DistinctIds(ls: seq<Node>) {
    forall i, j :: 0 <= i < j < |ls| ==> ls[i].Leaf? && ls[j].Leaf? ==> ls[i].clusterId != ls[j].clusterId
  }

  ghost predicate IdsBelow(ls: seq<Node>, next: nat) {
    forall i :: 0 <= i < |ls| ==> ls[i].Leaf? ==> ls[i].clusterId < next
  }

  /** Every existing leaf absorbs exactly the vectors nearest to it. */
  ghost predicate Merged(p: Params, ls: seq<Node>, vs: seq<Vector>, ls': seq<Node>)
    requires ls != [] && AllLeavesOk(p, ls) && Uniform(vs, p.dim)
  {
    |ls'| == |ls| && forall i :: 0 <= i < |ls| ==> Absorbed(p, ls[i], AssignedTo(p, ls, vs, i), ls'[i])
  }

  // ---------- assignment conserves count and mass ----------

  function SumAssigned(p: Params, ls: seq<Node>, vs: seq<Vector>, n: nat): nat
    requires ls != []
  {
    if n == 0 then 0 else SumAssigned(p, ls, vs, n - 1) + |AssignedTo(p, ls, vs, n - 1)|
  }

  function SumTotals(p: Params, ls: seq<Node>, vs: seq<Vector>, n: nat, d: nat): real
    requires ls != [] && Uniform(vs, p.dim) && d < p.dim
  {
    if n == 0 then 0.0 else SumTotals(p, ls, vs, n - 1, d) + Total(AssignedTo(p, ls, vs, n - 1), p.dim, d)
  }

  lemma {:induction false} SumAssignedSnoc(p: Params, ls: seq<Node>, vs: seq<Vector>, v: Vector, n: nat)
    requires ls != []
    ensures SumAssigned(p, ls, vs + [v], n) ==
            SumAssigned(p, ls, vs, n) + if NearestIndex(p, ls, v) < n then 1 else 0
  {
    if n > 0 {
      SumAssignedSnoc(p, ls, vs, v, n - 1);
      AssignedSnoc(p, ls, vs, v, n - 1);
    }
  }

  lemma {:induction false} SumTotalsSnoc(p: Params, ls: seq<Node>, vs: seq<Vector>, v: Vector, n: nat, d: nat)
    requires ls != [] && Uniform(vs, p.dim) && |v| == p.dim && d < p.dim
    ensures Uniform(vs + [v], p.dim)
    ensures SumTotals(p, ls, vs + [v], n, d) ==
            SumTotals(p, ls, vs, n, d) + if NearestIndex(p, ls, v) < n then v[d] else 0.0
  {
    assert Uniform(vs + [v], p.dim);
    if n > 0 {
      SumTotalsSnoc(p, ls, vs, v, n - 1, d);
      AssignedSnoc(p, ls, vs, v, n - 1);
      TotalSnoc(AssignedTo(p, ls, vs, n - 1), v, p.dim, d);
    }
  }

  lemma {:induction false} NothingAssigned(p: Params, ls: seq<Node>, n: nat)
    requires ls != []
    ensures SumAssigned(p, ls, [], n) == 0
    ensures forall d :: 0 <= d < p.dim ==> SumTotals(p, ls, [], n, d) == 0.0
  {
    if n > 0 {
      NothingAssigned(p, ls, n - 1);
    }
  }

  /** Every vector goes to exactly one leaf. */
  lemma {:induction false} AssignmentIsPartition(p: Params, ls: seq<Node>, vs: seq<Vector>)
    requires ls != [] && Uniform(vs, p.dim)
    ensures SumAssigned(p, ls, vs, |ls|) == |vs|
    ensures forall d :: 0 <= d < p.dim ==> SumTotals(p, ls, vs, |ls|, d) == Total(vs, p.dim, d)
    decreases |vs|
  {
    if vs == [] {
      NothingAssigned(p, ls, |ls|);
    } else {
      var k := |vs| - 1;
      AssignmentIsPartition(p, ls, vs[..k]);
      assert vs == vs[..k] + [vs[k]];
      SumAssignedSnoc(p, ls, vs[..k], vs[k], |ls|);
      forall d | 0 <= d < p.dim ensures SumTotals(p, ls, vs, |ls|, d) == Total(vs, p.dim, d) {
        SumTotalsSnoc(p, ls, vs[..k], vs[k], |ls|, d);
      }
    }
  }

  lemma TotalCountTake(ns: seq<Node>, n: nat)
    requires n < |ns|
    ensures TotalCount(ns[..n + 1]) == TotalCount(ns[..n]) + ns[n].count
  {
    assert ns[..n + 1] == ns[..n] + [ns[n]];
    TotalCountConcat(ns[..n], [ns[n]]);
    assert TotalCount([ns[n]]) == ns[n].count + TotalCount([ns[n]][1..]);
  }

  lemma MassTake(ns: seq<Node>, n: nat, dim: nat, d: nat)
    requires n < |ns| && Dims(ns, dim) && d < dim
    ensures Mass(ns[..n + 1], dim, d) == Mass(ns[..n], dim, d) + NodeMass(ns[n], d)
  {
    assert ns[..n + 1] == ns[..n] + [ns[n]];
    MassConcat(ns[..n], [ns[n]], dim, d);
    assert Mass([ns[n]], dim, d) == NodeMass(ns[n], d) + Mass([ns[n]][1..], dim, d);
  }

  lemma {:induction false} MergedCounts(p: Params, ls: seq<Node>, vs: seq<Vector>, ls': seq<Node>, n: nat)
    requires ls != [] && AllLeavesOk(p, ls) && Uniform(vs, p.dim) && Merged(p, ls, vs, ls') && n <= |ls|
    ensures TotalCount(ls'[..n]) == TotalCount(ls[..n]) + SumAssigned(p, ls, vs, n)
  {
    if n > 0 {
      MergedCounts(p, ls, vs, ls', n - 1);
      TotalCountTake(ls, n - 1);
      TotalCountTake(ls', n - 1);
      assert Absorbed(p, ls[n - 1], AssignedTo(p, ls, vs, n - 1), ls'[n - 1]);
    }
  }

  lemma {:induction false} MergedMasses(p: Params, ls: seq<Node>, vs: seq<Vector>, ls': seq<Node>, n: nat, d: nat)
    requires ls != [] && AllLeavesOk(p, ls) && Uniform(vs, p.dim) && Merged(p, ls, vs, ls') && n <= |ls| && d < p.dim
    requires Dims(ls, p.dim) && Dims(ls', p.dim)
    ensures Mass(ls'[..n], p.dim, d) == Mass(ls[..n], p.dim, d) + SumTotals(p, ls, vs, n, d)
  {
    if n > 0 {
      MergedMasses(p, ls, vs, ls', n - 1, d);
      MassTake(ls, n - 1, p.dim, d);
      MassTake(ls', n - 1, p.dim, d);
      assert Absorbed(p, ls[n - 1], AssignedTo(p, ls, vs, n - 1), ls'[n - 1]);
    }
  }

  /** Merging a batch adds its size to the total count and its vectors to the total mass. */
  lemma MergeConserves(p: Params, ls: seq<Node>, vs: seq<Vector>, ls': seq<Node>)
    requires ls != [] && AllLeavesOk(p, ls) && Uniform(vs, p.dim) && Merged(p, ls, vs, ls')
    ensures Dims(ls, p.dim) && Dims(ls', p.dim)
    ensures TotalCount(ls') == TotalCount(ls) + |vs|
    ensures forall d :: 0 <= d < p.dim ==> Mass(ls', p.dim, d) == Mass(ls, p.dim, d) + Total(vs, p.dim, d)
  {
    forall i | 0 <= i < |ls'| ensures |ls'[i].centroid| == p.dim {
      assert Absorbed(p, ls[i], AssignedTo(p, ls, vs, i), ls'[i]);
    }
    MergedCounts(p, ls, vs, ls', |ls|);
    AssignmentIsPartition(p, ls, vs);
    assert ls[..|ls|] == ls && ls'[..|ls|] == ls';
    forall d | 0 <= d < p.dim ensures Mass(ls', p.dim, d) == Mass(ls, p.dim, d) + Total(vs, p.dim, d) {
      MergedMasses(p, ls, vs, ls', |ls|, d);
    }
  }

  // ---------- splitting ----------

  function SplitCentroid(c: Vector): (r: (Vector, Vector))
    ensures |r.0| == |c| && |r.1| == |c|
    ensures forall d :: 0 <= d < |c| ==> r.0[d] == c[d] + EPSILON && r.1[d] == c[d] - EPSILON
  {
    (seq(|c|, d requires 0 <= d < |c| => c[d] + EPSILON), seq(|c|, d requires 0 <= d < |c| => c[d] - EPSILON))
  }

  function FreshLeaf(p: Params, c: Vector, id: nat, count: nat): Node {
    RecomputeHash(p.hasher, Leaf(c, id, count, 0))
  }

  function Halves(p: Params, leaf: Node, next: nat): (r: (Node, Node))
    requires leaf.Leaf?
  {
    var (c1, c2) := SplitCentroid(leaf.centroid);
    (FreshLeaf(p, c1, next, leaf.count / 2), FreshLeaf(p, c2, next + 1, leaf.count - leaf.count / 2))
  }

  /** The halves of a cluster: counts n / 2 and the rest, the next two ids, centroids 0.01 above and below. */
  lemma HalvesAre(p: Params, leaf: Node, next: nat)
    requires leaf.Leaf?
    ensures var (a, b) := Halves(p, leaf, next);
            && a.Leaf? && b.Leaf? && a.clusterId == next && b.clusterId == next + 1
            && a.count == leaf.count / 2 && a.count + b.count == leaf.count
            && |a.centroid| == |b.centroid| == |leaf.centroid|
            && (forall d :: 0 <= d < |leaf.centroid| ==>
                  a.centroid[d] == leaf.centroid[d] + 0.01 && b.centroid[d] == leaf.centroid[d] - 0.01)
            && a.hash == p.hasher.leaf(a.centroid, a.count, a.clusterId)
            && b.hash == p.hasher.leaf(b.centroid, b.count, b.clusterId)
  {
  }

  /** How many splits a cluster of `count` vectors undergoes in all, and how many of odd size. */
  function Splits(count: nat, max: nat): nat
    requires max > 0
  {
    if count <= max then 0 else 1 + Splits(count / 2, max) + Splits(count - count / 2, max)
  }

  function OddSplits(count: nat, max: nat): nat
    requires max > 0
  {
    if count <= max then 0 else count % 2 + OddSplits(count / 2, max) + OddSplits(count - count / 2, max)
  }

  function SumSplits(ls: seq<Node>, max: nat): nat
    requires max > 0
  {
    if ls == [] then 0 else Splits(ls[0].count, max) + SumSplits(ls[1..], max)
  }

  function SumOdd(ls: seq<Node>, max: nat): nat
    requires max > 0
  {
    if ls == [] then 0 else OddSplits(ls[0].count, max) + SumOdd(ls[1..], max)
  }

  /** One pass over the leaves: each overfull one is replaced by its two halves. */
  function SplitRound(p: Params, ls: seq<Node>, next: nat): (r: (seq<Node>, nat))
    requires forall i :: 0 <= i < |ls| ==> ls[i].Leaf?
    ensures r.1 >= next
  {
    if ls == [] then ([], next)
    else if ls[0].count > p.maxClusterSize then
      var (a, b) := Halves(p, ls[0], next);
      var (rest, next') := SplitRound(p, ls[1..], next + 2);
      ([a, b] + rest, next')
    else
      var (rest, next') := SplitRound(p, ls[1..], next);
      ([ls[0]] + rest, next')
  }

  predicate Overfull(p: Params, ls: seq<Node>) {
    exists i :: 0 <= i < |ls| && ls[i].count > p.maxClusterSize
  }

  /** Leaves as the tree keeps them: sound, with distinct ids below the next free one. */
  ghost predicate LeafState(p: Params, ls: seq<Node>, next: nat) {
    && (forall i :: 0 <= i < |ls| ==> ls[i].Leaf?)
    && AllSound(p.hasher, p.dim, ls)
    && DistinctIds(ls) && IdsBelow(ls, next)
  }

  /** The mass that will remain once all splits have been carried out. */
  function Settled(ls: seq<Node>, dim: nat, max: nat, d: nat): real
    requires Dims(ls, dim) && d < dim && max > 0
  {
    Mass(ls, dim, d) - EPSILON * SumOdd(ls, max) as real
  }

  lemma HalvesSettle(p: Params, leaf: Node, next: nat, d: nat)
    requires leaf.Leaf? && |leaf.centroid| == p.dim && d < p.dim && leaf.count > p.maxClusterSize > 0
    ensures var (a, b) := Halves(p, leaf, next); var m := p.maxClusterSize;
            NodeMass(a, d) + NodeMass(b, d) - EPSILON * (OddSplits(a.count, m) + OddSplits(b.count, m)) as real
            == NodeMass(leaf, d) - EPSILON * OddSplits(leaf.count, m) as real
  {
    hide OddSplits, Halves, NodeMass;
    var n, m := leaf.count, p.maxClusterSize;
    var h := n / 2;
    HalvesMass(p, leaf, next, d);
    OddSplitsOf(n, m);
    var o := OddSplits(h, m) + OddSplits(n - h, m);
    var x, y, r := h as real, (n - h) as real, (n % 2) as real;
    assert n == 2 * h + n % 2;
    assert y == x + r && x + y == n as real;
    SplitArithmetic(x, y, leaf.centroid[d], r, o as real);
  }

  lemma OddSplitsOf(n: nat, m: nat)
    requires n > m > 0
    ensures OddSplits(n, m) == n % 2 + (OddSplits(n / 2, m) + OddSplits(n - n / 2, m))
  {
  }

  lemma HalvesMass(p: Params, leaf: Node, next: nat, d: nat)
    requires leaf.Leaf? && |leaf.centroid| == p.dim && d < p.dim && leaf.count > p.maxClusterSize > 0
    ensures var (a, b) := Halves(p, leaf, next);
            && a.count == leaf.count / 2 && b.count == leaf.count - leaf.count / 2
            && |a.centroid| == |b.centroid| == p.dim
            && NodeMass(a, d) == a.count as real * (leaf.centroid[d] + EPSILON)
            && NodeMass(b, d) == b.count as real * (leaf.centroid[d] - EPSILON)
            && NodeMass(leaf, d) == leaf.count as real * leaf.centroid[d]
  {
  }

  lemma SplitArithmetic(x: real, y: real, c: real, r: real, o: real)
    requires y == x + r
    ensures x * (c + EPSILON) + y * (c - EPSILON) - EPSILON * o == (x + y) * c - EPSILON * (r + o)
  {
    assert x * (c + EPSILON) == x * c + x * EPSILON;
    assert y * (c - EPSILON) == y * c - y * EPSILON;
    assert (x + y) * c == x * c + y * c;
  }

  lemma {:induction false} RoundFacts(p: Params, ls: seq<Node>, next: nat)
    requires forall i :: 0 <= i < |ls| ==> ls[i].Leaf?
    requires AllSound(p.hasher, p.dim, ls) && p.maxClusterSize > 0
    ensures var ls' := SplitRound(p, ls, next).0;
            && (forall i :: 0 <= i < |ls'| ==> ls'[i].Leaf?)
            && AllSound(p.hasher, p.dim, ls')
            && TotalCount(ls') == TotalCount(ls)
  {
    if ls != [] {
      var split := ls[0].count > p.maxClusterSize;
      var next' := if split then next + 2 else next;
      RoundFacts(p, ls[1..], next');
      assert Sound(p.hasher, p.dim, ls[0]);
      var rest := SplitRound(p, ls[1..], next').0;
      if split {
        var (a, b) := Halves(p, ls[0], next);
        assert ([a, b] + rest)[1..] == [b] + rest && ([b] + rest)[1..] == rest;
      } else {
        assert ([ls[0]] + rest)[1..] == rest;
      }
    }
  }

  /** A round that splits anything uses up at least one of the splits still due. */
  lemma {:induction false} RoundProgress(p: Params, ls: seq<Node>, next: nat)
    requires (forall i :: 0 <= i < |ls| ==> ls[i].Leaf?) && p.maxClusterSize > 0
    ensures var ls' := SplitRound(p, ls, next).0;
            SumSplits(ls', p.maxClusterSize) + (if Overfull(p, ls) then 1 else 0) <= SumSplits(ls, p.maxClusterSize)
  {
    if ls != [] {
      var split := ls[0].count > p.maxClusterSize;
      var next' := if split then next + 2 else next;
      RoundProgress(p, ls[1..], next');
      var rest := SplitRound(p, ls[1..], next').0;
      if split {
        var (a, b) := Halves(p, ls[0], next);
        assert ([a, b] + rest)[1..] == [b] + rest && ([b] + rest)[1..] == rest;
      } else {
        OverfullTail(p, ls[0], ls[1..]);
        assert ls == [ls[0]] + ls[1..] && ([ls[0]] + rest)[1..] == rest;
      }
    }
  }

  lemma {:induction false} RoundSettles(p: Params, ls: seq<Node>, next: nat, d: nat)
    requires forall i :: 0 <= i < |ls| ==> ls[i].Leaf?
    requires Dims(ls, p.dim) && p.maxClusterSize > 0 && d < p.dim
    ensures var ls' := SplitRound(p, ls, next).0;
            Dims(ls', p.dim) && Settled(ls', p.dim, p.maxClusterSize, d) == Settled(ls, p.dim, p.maxClusterSize, d)
  {
    if ls != [] {
      var m := p.maxClusterSize;
      var split := ls[0].count > m;
      var next' := if split then next + 2 else next;
      RoundSettles(p, ls[1..], next', d);
      var rest := SplitRound(p, ls[1..], next').0;
      if split {
        var (a, b) := Halves(p, ls[0], next);
        var all := [a, b] + rest;
        assert all[1..] == [b] + rest && all[1..][1..] == rest;
        assert Dims(all, p.dim);
        HalvesSettle(p, ls[0], next, d);
        assert Mass(all, p.dim, d) == NodeMass(a, d) + (NodeMass(b, d) + Mass(rest, p.dim, d));
        assert SumOdd(all, m) == OddSplits(a.count, m) + (OddSplits(b.count, m) + SumOdd(rest, m));
      } else {
        var all := [ls[0]] + rest;
        assert all[1..] == rest;
        assert Dims(all, p.dim);
      }
    }
  }

  /** How many clusters are overfull and of odd size. */
  function OddOverfull(p: Params, ls: seq<Node>): nat {
    if ls == [] then 0
    else (if ls[0].count > p.maxClusterSize && ls[0].count % 2 == 1 then 1 else 0) + OddOverfull(p, ls[1..])
  }

  /** One round takes 0.01 per coordinate from the mass for every overfull cluster of odd size. */
  lemma {:induction false} RoundMass(p: Params, ls: seq<Node>, next: nat, d: nat)
    requires forall i :: 0 <= i < |ls| ==> ls[i].Leaf?
    requires Dims(ls, p.dim) && p.maxClusterSize > 0 && d < p.dim
    ensures var ls' := SplitRound(p, ls, next).0;
            Dims(ls', p.dim) && Mass(ls', p.dim, d) == Mass(ls, p.dim, d) - 0.01 * OddOverfull(p, ls) as real
  {
    if ls != [] {
      hide NodeMass, Halves;
      var split := ls[0].count > p.maxClusterSize;
      var next' := if split then next + 2 else next;
      RoundMass(p, ls[1..], next', d);
      var rest := SplitRound(p, ls[1..], next').0;
      if split {
        var (a, b) := Halves(p, ls[0], next);
        var all := [a, b] + rest;
        assert all[1..] == [b] + rest && all[1..][1..] == rest;
        OddHalves(p, ls[0], next, d);
        assert Dims(all, p.dim);
        assert Mass(all, p.dim, d) == NodeMass(a, d) + (NodeMass(b, d) + Mass(rest, p.dim, d));
      } else {
        var all := [ls[0]] + rest;
        assert all[1..] == rest;
        assert Dims(all, p.dim);
      }
    }
  }

  lemma OddHalves(p: Params, leaf: Node, next: nat, d: nat)
    requires leaf.Leaf? && |leaf.centroid| == p.dim && d < p.dim && leaf.count > p.maxClusterSize > 0
    ensures var (a, b) := Halves(p, leaf, next);
            && |a.centroid| == |b.centroid| == p.dim
            && NodeMass(a, d) + NodeMass(b, d) == NodeMass(leaf, d) - (if leaf.count % 2 == 1 then 0.01 else 0.0)
  {
    hide NodeMass, Halves;
    var n := leaf.count;
    HalvesMass(p, leaf, next, d);
    var x, y, r := (n / 2) as real, (n - n / 2) as real, (n % 2) as real;
    assert y == x + r && x + y == n as real;
    SplitArithmetic(x, y, leaf.centroid[d], r, 0.0);
  }

  /** Ids after a round: old ones that were kept, and fresh ones at or above `next`. */
  lemma {:induction false} RoundIds(p: Params, ls: seq<Node>, next: nat, low: nat)
    requires forall i :: 0 <= i < |ls| ==> ls[i].Leaf?
    requires DistinctIds(ls) && IdsBelow(ls, low) && low <= next
    ensures var (ls', next') := SplitRound(p, ls, next);
            && DistinctIds(ls') && IdsBelow(ls', next')
            && (forall i :: 0 <= i < |ls'| ==> ls'[i].Leaf?)
            && forall i :: 0 <= i < |ls'| ==> KeptOrFresh(ls, next, ls'[i])
  {
    if ls != [] {
      var split := ls[0].count > p.maxClusterSize;
      var next1 := if split then next + 2 else next;
      RoundIds(p, ls[1..], next1, low);
      var (rest, next') := SplitRound(p, ls[1..], next1);
      forall i | 0 <= i < |rest|
        ensures KeptOrFresh(ls, next, rest[i]) && rest[i].clusterId != ls[0].clusterId
        ensures rest[i].clusterId != next || !split
        ensures rest[i].clusterId != next + 1 || !split
      {
        KeptFromTail(ls, next1, low, rest[i]);
      }
    }
  }

  ghost predicate KeptOrFresh(ls: seq<Node>, next: nat, n: Node)
    requires n.Leaf? && forall i :: 0 <= i < |ls| ==> ls[i].Leaf?
  {
    n.clusterId >= next || exists j :: 0 <= j < |ls| && n.clusterId == ls[j].clusterId
  }

  lemma KeptFromTail(ls: seq<Node>, next: nat, low: nat, n: Node)
    requires ls != [] && n.Leaf? && (forall i :: 0 <= i < |ls| ==> ls[i].Leaf?)
    requires DistinctIds(ls) && IdsBelow(ls, low) && low <= next && KeptOrFresh(ls[1..], next, n)
    ensures KeptOrFresh(ls, next, n) && n.clusterId != ls[0].clusterId
    ensures n.clusterId >= next || n.clusterId < low
  {
    if n.clusterId < next {
      var j :| 0 <= j < |ls[1..]| && n.clusterId == ls[1..][j].clusterId;
      assert ls[j + 1] == ls[1..][j];
    }
  }

  /** With a limit of zero a round leaves some cluster overfull if one was. */
  lemma {:induction false} ZeroLimitRound(p: Params, ls: seq<Node>, next: nat)
    requires p.maxClusterSize == 0 && (forall i :: 0 <= i < |ls| ==> ls[i].Leaf?)
    ensures Overfull(p, SplitRound(p, ls, next).0) <==> Overfull(p, ls)
    ensures forall i :: 0 <= i < |SplitRound(p, ls, next).0| ==> SplitRound(p, ls, next).0[i].Leaf?
  {
    if ls != [] {
      var split := ls[0].count > 0;
      ZeroLimitRound(p, ls[1..], if split then next + 2 else next);
      var rest := SplitRound(p, ls[1..], if split then next + 2 else next).0;
      if split {
        var (a, b) := Halves(p, ls[0], next);
        assert ([a, b] + rest)[1].count > 0;
        assert Overfull(p, ls);
      } else {
        assert Overfull(p, ls[1..]) <==> Overfull(p, ls) by {
          OverfullTail(p, ls[0], ls[1..]);
          assert ls == [ls[0]] + ls[1..];
        }
        OverfullTail(p, ls[0], rest);
      }
    }
  }

  /** ls' and next' are the state after n rounds of the split loop. */
  ghost predicate AfterRounds(p: Params, ls: seq<Node>, next: nat, n: nat, ls': seq<Node>, next': nat)
    requires forall i :: 0 <= i < |ls| ==> ls[i].Leaf?
    decreases n
  {
    if n == 0 then ls' == ls && next' == next
    else
      var (ls1, next1) := SplitRound(p, ls, next);
      (forall i :: 0 <= i < |ls1| ==> ls1[i].Leaf?) && AfterRounds(p, ls1, next1, n - 1, ls', next')
  }

  /** With a limit of zero the loop runs for ever: however many rounds have passed, there is a next
      state, and it has an overfull cluster exactly if the first one had. */
  lemma {:induction false} ZeroLimitNeverSettles(p: Params, ls: seq<Node>, next: nat, n: nat)
    returns (ls': seq<Node>, next': nat)
    requires p.maxClusterSize == 0 && (forall i :: 0 <= i < |ls| ==> ls[i].Leaf?)
    ensures AfterRounds(p, ls, next, n, ls', next') && (Overfull(p, ls') <==> Overfull(p, ls))
    decreases n
  {
    hide Overfull;
    if n == 0 {
      ls', next' := ls, next;
    } else {
      ZeroLimitRound(p, ls, next);
      var (ls1, next1) := SplitRound(p, ls, next);
      ls', next' := ZeroLimitNeverSettles(p, ls1, next1, n - 1);
    }
  }

  lemma OverfullTail(p: Params, n: Node, rest: seq<Node>)
    requires n.count <= p.maxClusterSize
    ensures Overfull(p, [n] + rest) <==> Overfull(p, rest)
  {
    if i :| 0 <= i < |rest| && rest[i].count > p.maxClusterSize {
      assert ([n] + rest)[i + 1] == rest[i];
    }
    if i :| 0 <= i < |[n] + rest| && ([n] + rest)[i].count > p.maxClusterSize {
      assert rest[i - 1] == ([n] + rest)[i];
    }
  }
}
