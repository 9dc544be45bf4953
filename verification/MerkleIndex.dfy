/** The tree object: batch merges over any number of batches, and the hot buffer that feeds it. */
module MerkleIndex {
  import opened Options
  import opened MerkleNode
  import opened MerkleTree
  import opened Log2
  import opened Seqs
  import opened Sorting

  // ---------- phase 1: assignment ----------

  /** The two hash maps agree with the assignment of `vs` to the leaves. */
  ghost predicate Tally(p: Params, ls: seq<Node>, vs: seq<Vector>, additions: map<nat, nat>, sums: map<nat, Vector>)
    requires ls != [] && AllLeavesOk(p, ls) && Uniform(vs, p.dim)
  {
    && additions.Keys == sums.Keys
    && forall i :: 0 <= i < |ls| ==> TallyAt(p, ls[i].clusterId, AssignedTo(p, ls, vs, i), additions, sums)
  }

  ghost predicate TallyAt(p: Params, id: nat, a: seq<Vector>, additions: map<nat, nat>, sums: map<nat, Vector>)
    requires Uniform(a, p.dim)
  {
    && (id in additions <==> a != [])
    && (id in sums <==> a != [])
    && (a != [] ==> && additions[id] == |a| && |sums[id]| == p.dim
                    && forall d :: 0 <= d < p.dim ==> sums[id][d] == Total(a, p.dim, d))
  }

  function AddVectors(a: Vector, b: Vector): (r: Vector)
    requires |a| == |b|
    ensures |r| == |a| && forall d :: 0 <= d < |a| ==> r[d] == a[d] + b[d]
  {
    seq(|a|, d requires 0 <= d < |a| => a[d] + b[d])
  }

  function Zero(dim: nat): (r: Vector)
    ensures |r| == dim && forall d :: 0 <= d < dim ==> r[d] == 0.0
  {
    seq(dim, _ => 0.0)
  }

  function AddOne(additions: map<nat, nat>, id: nat): map<nat, nat> {
    additions[id := (if id in additions then additions[id] else 0) + 1]
  }

  function AddSum(p: Params, sums: map<nat, Vector>, id: nat, v: Vector): map<nat, Vector>
    requires |v| == p.dim && (id in sums ==> |sums[id]| == p.dim)
  {
    sums[id := AddVectors(if id in sums then sums[id] else Zero(p.dim), v)]
  }

  lemma TallyHit(p: Params, id: nat, a: seq<Vector>, v: Vector, additions: map<nat, nat>, sums: map<nat, Vector>)
    requires Uniform(a, p.dim) && |v| == p.dim && TallyAt(p, id, a, additions, sums)
    ensures Uniform(a + [v], p.dim) && TallyAt(p, id, a + [v], AddOne(additions, id), AddSum(p, sums, id, v))
  {
    forall d | 0 <= d < p.dim ensures Total(a + [v], p.dim, d) == Total(a, p.dim, d) + v[d] {
      TotalSnoc(a, v, p.dim, d);
    }
  }

  lemma TallyMiss(p: Params, id: nat, other: nat, a: seq<Vector>, v: Vector,
                  additions: map<nat, nat>, sums: map<nat, Vector>)
    requires Uniform(a, p.dim) && |v| == p.dim && TallyAt(p, other, a, additions, sums) && id != other
    requires id in sums ==> |sums[id]| == p.dim
    ensures TallyAt(p, other, a, AddOne(additions, id), AddSum(p, sums, id, v))
  {
    hide Total;
  }

  lemma TallyStep(p: Params, ls: seq<Node>, vs: seq<Vector>, v: Vector, additions: map<nat, nat>,
                  sums: map<nat, Vector>)
    requires ls != [] && AllLeavesOk(p, ls) && DistinctIds(ls) && Uniform(vs, p.dim) && |v| == p.dim
    requires Tally(p, ls, vs, additions, sums)
    ensures Uniform(vs + [v], p.dim)
    ensures var id := ls[NearestIndex(p, ls, v)].clusterId;
            && (id in sums ==> |sums[id]| == p.dim)
            && Tally(p, ls, vs + [v], AddOne(additions, id), AddSum(p, sums, id, v))
  {
    hide Total, NodeMass, NearestIndex;
    var k := NearestIndex(p, ls, v);
    var id := ls[k].clusterId;
    assert TallyAt(p, id, AssignedTo(p, ls, vs, k), additions, sums);
    forall i | 0 <= i < |ls|
      ensures TallyAt(p, ls[i].clusterId, AssignedTo(p, ls, vs + [v], i), AddOne(additions, id), AddSum(p, sums, id, v))
    {
      assert TallyAt(p, ls[i].clusterId, AssignedTo(p, ls, vs, i), additions, sums);
      hide *;
      TallyEach(p, ls, vs, v, additions, sums, i);
    }
  }

  lemma TallyEach(p: Params, ls: seq<Node>, vs: seq<Vector>, v: Vector, additions: map<nat, nat>,
                  sums: map<nat, Vector>, i: nat)
    requires ls != [] && AllLeavesOk(p, ls) && DistinctIds(ls) && Uniform(vs, p.dim) && |v| == p.dim && i < |ls|
    requires TallyAt(p, ls[i].clusterId, AssignedTo(p, ls, vs, i), additions, sums)
    requires var id := ls[NearestIndex(p, ls, v)].clusterId; id in sums ==> |sums[id]| == p.dim
    ensures var id := ls[NearestIndex(p, ls, v)].clusterId;
            TallyAt(p, ls[i].clusterId, AssignedTo(p, ls, vs + [v], i), AddOne(additions, id), AddSum(p, sums, id, v))
  {
    var k := NearestIndex(p, ls, v);
    AssignedSnoc(p, ls, vs, v, i);
    if i == k {
      TallyHit(p, ls[k].clusterId, AssignedTo(p, ls, vs, k), v, additions, sums);
    } else {
      assert ls[i].clusterId != ls[k].clusterId;
      TallyMiss(p, ls[k].clusterId, ls[i].clusterId, AssignedTo(p, ls, vs, i), v, additions, sums);
    }
  }

  method AssignBatch(p: Params, ls: seq<Node>, vs: seq<Vector>)
    returns (additions: map<nat, nat>, sums: map<nat, Vector>)
    requires ls != [] && AllLeavesOk(p, ls) && DistinctIds(ls)
    ensures Tally(p, ls, Accepted(vs, p.dim), additions, sums)
  {
    additions, sums := map[], map[];
    for n := 0 to |vs|
      invariant Tally(p, ls, Accepted(vs[..n], p.dim), additions, sums)
    {
      var v := vs[n];
      assert vs[..n + 1] == vs[..n] + [v];
      AcceptedSnoc(vs[..n], v, p.dim);
      if |v| != p.dim {
        continue;
      }
      TallyStep(p, ls, Accepted(vs[..n], p.dim), v, additions, sums);
      var id := ls[NearestIndex(p, ls, v)].clusterId;
      additions := AddOne(additions, id);
      sums := AddSum(p, sums, id, v);
    }
    assert vs[..|vs|] == vs;
  }

  // ---------- phases 2 and 3: weighted update, fresh hashes ----------

  function Blend(c: Vector, old': nat, sum: Vector, total: nat): (r: Vector)
    requires |c| == |sum| && total > 0
    ensures |r| == |c|
  {
    seq(|c|, d requires 0 <= d < |c| => (c[d] * old' as real + sum[d]) / total as real)
  }

  lemma BlendAbsorbs(p: Params, leaf: Node, a: seq<Vector>, sum: Vector)
    requires leaf.Leaf? && |leaf.centroid| == p.dim == |sum| && leaf.count > 0 && Uniform(a, p.dim)
    requires forall d :: 0 <= d < p.dim ==> sum[d] == Total(a, p.dim, d)
    ensures Absorbed(p, leaf, a, FreshLeaf(p, Blend(leaf.centroid, leaf.count, sum, leaf.count + |a|),
                                           leaf.clusterId, leaf.count + |a|))
  {
    hide *;
    BlendGains(p, leaf, a, sum, leaf.count + |a|);
    FreshAbsorbs(p, leaf, a, Blend(leaf.centroid, leaf.count, sum, leaf.count + |a|));
  }

  lemma FreshAbsorbs(p: Params, leaf: Node, a: seq<Vector>, c: Vector)
    requires leaf.Leaf? && |leaf.centroid| == p.dim == |c| && leaf.count > 0 && Uniform(a, p.dim)
    requires Gains(p, leaf, a, FreshLeaf(p, c, leaf.clusterId, leaf.count + |a|))
    ensures Absorbed(p, leaf, a, FreshLeaf(p, c, leaf.clusterId, leaf.count + |a|))
  {
    hide Gains, NodeMass, Total;
  }

  lemma BlendGains(p: Params, leaf: Node, a: seq<Vector>, sum: Vector, total: nat)
    requires leaf.Leaf? && |leaf.centroid| == p.dim == |sum| && Uniform(a, p.dim) && total > 0
    requires forall d :: 0 <= d < p.dim ==> sum[d] == Total(a, p.dim, d)
    ensures Gains(p, leaf, a, FreshLeaf(p, Blend(leaf.centroid, leaf.count, sum, total), leaf.clusterId, total))
  {
    var leaf' := FreshLeaf(p, Blend(leaf.centroid, leaf.count, sum, total), leaf.clusterId, total);
    forall d | 0 <= d < p.dim ensures NodeMass(leaf', d) == NodeMass(leaf, d) + Total(a, p.dim, d) {
      hide NodeMass, Total, Blend;
      BlendMass(p, leaf, sum, total, d);
    }
    hide NodeMass, Total, Blend;
  }

  lemma BlendMass(p: Params, leaf: Node, sum: Vector, total: nat, d: nat)
    requires leaf.Leaf? && |leaf.centroid| == |sum| && d < |sum| && total > 0
    ensures NodeMass(FreshLeaf(p, Blend(leaf.centroid, leaf.count, sum, total), leaf.clusterId, total), d)
            == NodeMass(leaf, d) + sum[d]
  {
    BlendOne(leaf.centroid[d], leaf.count as real, sum[d], total as real);
  }

  lemma BlendOne(c: real, n: real, s: real, t: real)
    requires t > 0.0
    ensures t * ((c * n + s) / t) == n * c + s
  {
    assert c * n == n * c;
  }

  lemma NothingAbsorbed(p: Params, leaf: Node)
    requires leaf.Leaf? && |leaf.centroid| == p.dim
    ensures Absorbed(p, leaf, [], RecomputeHash(p.hasher, leaf))
  {
  }

  method AbsorbSum(p: Params, leaf: Node, ghost a: seq<Vector>, added: nat, sum: Vector) returns (leaf': Node)
    requires leaf.Leaf? && |leaf.centroid| == p.dim == |sum| && leaf.count > 0 && Uniform(a, p.dim) && added == |a|
    requires forall d :: 0 <= d < p.dim ==> sum[d] == Total(a, p.dim, d)
    ensures Absorbed(p, leaf, a, leaf')
  {
    BlendAbsorbs(p, leaf, a, sum);
    var total := leaf.count + added;
    leaf' := FreshLeaf(p, Blend(leaf.centroid, leaf.count, sum, total), leaf.clusterId, total);
  }

  method UpdateCentroids(p: Params, ls: seq<Node>, ghost vs: seq<Vector>,
                         additions: map<nat, nat>, sums: map<nat, Vector>) returns (ls': seq<Node>)
    requires ls != [] && AllLeavesOk(p, ls) && DistinctIds(ls) && Uniform(vs, p.dim)
    requires Tally(p, ls, vs, additions, sums)
    ensures Merged(p, ls, vs, ls')
  {
    hide Absorbed, AssignedTo, Total;
    ls' := [];
    var remaining := sums;
    for i := 0 to |ls|
      invariant |ls'| == i
      invariant forall j :: 0 <= j < i ==> Absorbed(p, ls[j], AssignedTo(p, ls, vs, j), ls'[j])
      invariant forall j :: i <= j < |ls| && ls[j].clusterId in sums ==>
                  ls[j].clusterId in remaining && remaining[ls[j].clusterId] == sums[ls[j].clusterId]
    {
      var leaf := ls[i];
      ghost var a := AssignedTo(p, ls, vs, i);
      assert TallyAt(p, leaf.clusterId, a, additions, sums);
      if leaf.clusterId in additions {
        var sum := remaining[leaf.clusterId];
        remaining := remaining - {leaf.clusterId};
        var leaf' := AbsorbSum(p, leaf, a, additions[leaf.clusterId], sum);
        ls' := ls' + [leaf'];
      } else {
        NothingAbsorbed(p, leaf);
        ls' := ls' + [RecomputeHash(p.hasher, leaf)];
      }
    }
  }

  /** Leaf i is vector i alone, with id next + i. */
  ghost predicate Seeded(ls: seq<Node>, vs: seq<Vector>, next: nat) {
    |ls| == |vs| && forall i :: 0 <= i < |ls| ==>
      ls[i].Leaf? && ls[i].count == 1 && ls[i].centroid == vs[i] && ls[i].clusterId == next + i
  }

  lemma SeededMore(p: Params, ls: seq<Node>, vs: seq<Vector>, v: Vector, next: nat)
    requires Seeded(ls, vs, next)
    ensures Seeded(ls + [FreshLeaf(p, v, next + |ls|, 1)], vs + [v], next)
  {
  }

  /** Without leaves every accepted vector becomes its own centroid. */
  method SeedLeaves(p: Params, vs: seq<Vector>, next: nat) returns (ls: seq<Node>, next': nat)
    ensures LeafState(p, ls, next') && Dims(ls, p.dim)
    ensures TotalCount(ls) == |ls| == |Accepted(vs, p.dim)|
    ensures Seeded(ls, Accepted(vs, p.dim), next)
    ensures forall d :: 0 <= d < p.dim ==> Mass(ls, p.dim, d) == Total(Accepted(vs, p.dim), p.dim, d)
  {
    ls, next' := [], next;
    assert Seeded([], [], next);
    hide Seeded;
    for n := 0 to |vs|
      invariant LeafState(p, ls, next') && Dims(ls, p.dim)
      invariant TotalCount(ls) == |ls| == |Accepted(vs[..n], p.dim)|
      invariant next' == next + |ls|
      invariant Seeded(ls, Accepted(vs[..n], p.dim), next)
      invariant forall d :: 0 <= d < p.dim ==> Mass(ls, p.dim, d) == Total(Accepted(vs[..n], p.dim), p.dim, d)
    {
      var v := vs[n];
      assert vs[..n + 1] == vs[..n] + [v];
      AcceptedSnoc(vs[..n], v, p.dim);
      if |v| == p.dim {
        var leaf := FreshLeaf(p, v, next', 1);
        SeedStep(p, ls, Accepted(vs[..n], p.dim), v, next');
        SeededMore(p, ls, Accepted(vs[..n], p.dim), v, next);
        ls := ls + [leaf];
        next' := next' + 1;
      }
    }
    assert vs[..|vs|] == vs;
  }

  lemma SeedStep(p: Params, ls: seq<Node>, vs: seq<Vector>, v: Vector, next: nat)
    requires LeafState(p, ls, next) && Dims(ls, p.dim) && |v| == p.dim && Uniform(vs, p.dim)
    requires forall d :: 0 <= d < p.dim ==> Mass(ls, p.dim, d) == Total(vs, p.dim, d)
    ensures var ls' := ls + [FreshLeaf(p, v, next, 1)];
            && LeafState(p, ls', next + 1) && Dims(ls', p.dim) && Uniform(vs + [v], p.dim)
            && TotalCount(ls') == TotalCount(ls) + 1
            && forall d :: 0 <= d < p.dim ==> Mass(ls', p.dim, d) == Total(vs + [v], p.dim, d)
  {
    var leaf := FreshLeaf(p, v, next, 1);
    var ls' := ls + [leaf];
    assert Uniform(vs + [v], p.dim);
    assert ls'[..|ls|] == ls && ls'[..|ls| + 1] == ls';
    TotalCountTake(ls', |ls|);
    forall d | 0 <= d < p.dim ensures Mass(ls', p.dim, d) == Total(vs + [v], p.dim, d) {
      MassTake(ls', |ls|, p.dim, d);
      TotalSnoc(vs, v, p.dim, d);
    }
  }

  // ---------- phase 4: splitting ----------

  method SplitPass(p: Params, ls: seq<Node>, next: nat) returns (after: seq<Node>, next': nat, needsSplit: bool)
    requires forall i :: 0 <= i < |ls| ==> ls[i].Leaf?
    ensures (after, next') == SplitRound(p, ls, next)
    ensures needsSplit <==> Overfull(p, ls)
  {
    hide Halves;
    after, next', needsSplit := [], next, false;
    ghost var spec := SplitRound(p, ls, next);
    var i := 0;
    assert ls[0..] == ls;
    while i < |ls|
      invariant 0 <= i <= |ls|
      invariant after + SplitRound(p, ls[i..], next').0 == spec.0 && SplitRound(p, ls[i..], next').1 == spec.1
      invariant needsSplit <==> exists j :: 0 <= j < i && ls[j].count > p.maxClusterSize
    {
      var leaf := ls[i];
      assert ls[i..][1..] == ls[i + 1..] && ls[i..][0] == leaf;
      if leaf.count > p.maxClusterSize {
        needsSplit := true;
        var (leaf1, leaf2) := Halves(p, leaf, next');
        Assoc(after, [leaf1, leaf2], SplitRound(p, ls[i + 1..], next' + 2).0);
        after := after + [leaf1, leaf2];
        next' := next' + 2;
      } else {
        Assoc(after, [leaf], SplitRound(p, ls[i + 1..], next').0);
        after := after + [leaf];
      }
      i := i + 1;
    }
    assert ls[i..] == [] && after + [] == after;
  }

  lemma {:induction false} NothingToSplit(ls: seq<Node>, max: nat)
    requires max > 0 && forall i :: 0 <= i < |ls| ==> ls[i].count <= max
    ensures SumOdd(ls, max) == 0
  {
    if ls != [] {
      NothingToSplit(ls[1..], max);
    }
  }

  /** The loop ends, keeps the total count, bounds every cluster, and lowers each coordinate of the
      mass by EPSILON per odd-sized split. */
  method SplitOverfull(p: Params, leaves: seq<Node>, next: nat) returns (ls: seq<Node>, next': nat)
    requires p.maxClusterSize > 0 && LeafState(p, leaves, next) && Dims(leaves, p.dim)
    ensures LeafState(p, ls, next') && Dims(ls, p.dim) && (leaves != [] ==> ls != [])
    ensures forall i :: 0 <= i < |ls| ==> 0 < ls[i].count <= p.maxClusterSize
    ensures TotalCount(ls) == TotalCount(leaves)
    ensures forall d :: 0 <= d < p.dim ==>
              Mass(ls, p.dim, d) == Mass(leaves, p.dim, d) - EPSILON * SumOdd(leaves, p.maxClusterSize) as real
  {
    ls, next' := leaves, next;
    var needsSplit := true;
    while needsSplit
      invariant LeafState(p, ls, next') && Dims(ls, p.dim) && (leaves != [] ==> ls != [])
      invariant TotalCount(ls) == TotalCount(leaves)
      invariant forall d :: 0 <= d < p.dim ==>
                  Settled(ls, p.dim, p.maxClusterSize, d) == Settled(leaves, p.dim, p.maxClusterSize, d)
      invariant !needsSplit ==> !Overfull(p, ls)
      decreases SumSplits(ls, p.maxClusterSize), needsSplit
    {
      RoundKeeps(p, ls, next', leaves);
      ls, next', needsSplit := SplitPass(p, ls, next');
    }
    forall i | 0 <= i < |ls| ensures 0 < ls[i].count <= p.maxClusterSize {
      assert Sound(p.hasher, p.dim, ls[i]);
    }
    NothingToSplit(ls, p.maxClusterSize);
    assert forall d :: 0 <= d < p.dim ==> Settled(ls, p.dim, p.maxClusterSize, d) == Mass(ls, p.dim, d);
  }

  lemma RoundKeeps(p: Params, ls: seq<Node>, next: nat, leaves: seq<Node>)
    requires p.maxClusterSize > 0 && LeafState(p, ls, next) && Dims(ls, p.dim) && Dims(leaves, p.dim)
    requires forall d :: 0 <= d < p.dim ==>
               Settled(ls, p.dim, p.maxClusterSize, d) == Settled(leaves, p.dim, p.maxClusterSize, d)
    ensures var (ls', next') := SplitRound(p, ls, next);
            && LeafState(p, ls', next') && Dims(ls', p.dim) && (ls != [] ==> ls' != [])
            && TotalCount(ls') == TotalCount(ls)
            && (forall d :: 0 <= d < p.dim ==>
                  Settled(ls', p.dim, p.maxClusterSize, d) == Settled(leaves, p.dim, p.maxClusterSize, d))
            && SumSplits(ls', p.maxClusterSize) + (if Overfull(p, ls) then 1 else 0) <= SumSplits(ls, p.maxClusterSize)
            && (!Overfull(p, ls) ==> ls' == ls)
  {
    RoundFacts(p, ls, next);
    RoundProgress(p, ls, next);
    RoundIds(p, ls, next, next);
    RoundUnchanged(p, ls, next);
    assert ls != [] ==> SplitRound(p, ls, next).0 != [];
    hide SplitRound, Settled;
    var ls' := SplitRound(p, ls, next).0;
    assert Dims(ls', p.dim) by {
      forall i | 0 <= i < |ls'| ensures |ls'[i].centroid| == p.dim {
        assert Sound(p.hasher, p.dim, ls'[i]);
      }
    }
    forall d | 0 <= d < p.dim
      ensures Settled(ls', p.dim, p.maxClusterSize, d) == Settled(leaves, p.dim, p.maxClusterSize, d)
    {
      RoundSettles(p, ls, next, d);
    }
  }

  lemma {:induction false} RoundUnchanged(p: Params, ls: seq<Node>, next: nat)
    requires forall i :: 0 <= i < |ls| ==> ls[i].Leaf?
    ensures !Overfull(p, ls) ==> SplitRound(p, ls, next).0 == ls
  {
    if ls != [] && !Overfull(p, ls) {
      assert ls == [ls[0]] + ls[1..];
      OverfullTail(p, ls[0], ls[1..]);
      RoundUnchanged(p, ls[1..], next);
    }
  }

  // ---------- sorting by cluster id changes no total ----------

  lemma {:induction false} InsertTotals(x: Node, ns: seq<Node>, dim: nat)
    requires Dims(ns, dim) && |x.centroid| == dim
    ensures Dims(InsertBy(IdKey, x, ns), dim)
    ensures TotalCount(InsertBy(IdKey, x, ns)) == x.count + TotalCount(ns)
    ensures forall d :: 0 <= d < dim ==> Mass(InsertBy(IdKey, x, ns), dim, d) == NodeMass(x, d) + Mass(ns, dim, d)
  {
    hide NodeMass;
    var r := InsertBy(IdKey, x, ns);
    if ns == [] || IdKey(x) <= IdKey(ns[0]) {
      assert r[1..] == ns;
    } else {
      InsertTotals(x, ns[1..], dim);
      assert r[1..] == InsertBy(IdKey, x, ns[1..]);
    }
  }

  lemma {:induction false} SortTotals(ns: seq<Node>, dim: nat)
    requires Dims(ns, dim)
    ensures Dims(SortBy(IdKey, ns), dim)
    ensures TotalCount(SortBy(IdKey, ns)) == TotalCount(ns)
    ensures forall d :: 0 <= d < dim ==> Mass(SortBy(IdKey, ns), dim, d) == Mass(ns, dim, d)
  {
    hide NodeMass;
    if ns != [] {
      SortTotals(ns[1..], dim);
      InsertTotals(ns[0], SortBy(IdKey, ns[1..]), dim);
    }
  }

  ghost predicate IdsAscend(ls: seq<Node>) {
    forall i, j :: 0 <= i < j < |ls| ==> ls[i].Leaf? && ls[j].Leaf? && ls[i].clusterId < ls[j].clusterId
  }

  /** Sorted leaves with distinct ids are in strictly ascending id order. */
  lemma SortAscends(p: Params, ls: seq<Node>, next: nat)
    requires LeafState(p, ls, next)
    ensures LeafState(p, SortBy(IdKey, ls), next) && IdsAscend(SortBy(IdKey, ls))
  {
    var s := SortBy(IdKey, ls);
    SortedLeaves(p.hasher, p.dim, ls);
    SortBySorted(IdKey, ls);
    SameElements(IdKey, ls);
    assert Distinct(ls) by {
      forall i, j | 0 <= i < j < |ls| ensures ls[i] != ls[j] {
        assert ls[i].clusterId != ls[j].clusterId;
      }
    }
    SortKeepsDistinct(IdKey, ls);
    forall i, j | 0 <= i < j < |s| ensures s[i].clusterId < s[j].clusterId {
      assert s[i] in ls && s[j] in ls;
      var a :| 0 <= a < |ls| && ls[a] == s[i];
      var b :| 0 <= b < |ls| && ls[b] == s[j];
      assert a != b;
      assert IdKey(s[i]) <= IdKey(s[j]);
    }
    forall i | 0 <= i < |s| ensures s[i].clusterId < next {
      assert s[i] in ls;
    }
  }

  // ---------- one batch, end to end ----------

  /** Leaves hold exactly the mass of `vs`, less EPSILON per coordinate for each of `odd` splits. */
  ghost predicate Balance(p: Params, ls: seq<Node>, vs: seq<Vector>, odd: nat) {
    && Dims(ls, p.dim) && Uniform(vs, p.dim)
    && forall d :: 0 <= d < p.dim ==> Mass(ls, p.dim, d) == Total(vs, p.dim, d) - EPSILON * odd as real
  }

  /** What holds of a root after merging `vs`: balanced and sound, distinct ids below `next`, bounded
      clusters, exact count, and mass equal to the vectors' sum less EPSILON per odd split. */
  ghost predicate TreeOk(p: Params, r: Node, next: nat, vs: seq<Vector>, odd: nat) {
    && Sound(p.hasher, p.dim, r)
    && LeafState(p, Leaves(r), next) && IdsAscend(Leaves(r))
    && Depth(r) <= CeilLog2(|Leaves(r)|)
    && (forall i :: 0 <= i < |Leaves(r)| ==> 0 < Leaves(r)[i].count <= p.maxClusterSize)
    && r.count == |vs|
    && Uniform(vs, p.dim)
    && forall d :: 0 <= d < p.dim ==> NodeMass(r, d) == Total(vs, p.dim, d) - EPSILON * odd as real
  }

  /** Where the leaves after assignment come from. */
  ghost predicate MidLeaves(p: Params, root: Option<Node>, vs: seq<Vector>, mid: seq<Node>) {
    match root
    case None => forall i :: 0 <= i < |mid| ==> mid[i].count == 1
    case Some(r) => AllLeavesOk(p, Leaves(r)) && Leaves(r) != [] && Uniform(vs, p.dim) && Merged(p, Leaves(r), vs, mid)
  }

  lemma TreeBalance(p: Params, r: Node, next: nat, vs: seq<Vector>, odd: nat)
    requires TreeOk(p, r, next, vs, odd)
    ensures Leaves(r) != [] && AllLeavesOk(p, Leaves(r)) && DistinctIds(Leaves(r)) && LeafState(p, Leaves(r), next)
    ensures Balance(p, Leaves(r), vs, odd) && TotalCount(Leaves(r)) == |vs|
  {
    SoundTotals(p.hasher, p.dim, r);
    LeavesNonEmpty(r);
    LeafStateOk(p, Leaves(r), next);
  }

  lemma BalanceGrows(p: Params, ls: seq<Node>, ls': seq<Node>, vs: seq<Vector>, added: seq<Vector>, odd: nat)
    requires Balance(p, ls, vs, odd) && Uniform(added, p.dim) && Dims(ls', p.dim)
    requires forall d :: 0 <= d < p.dim ==> Mass(ls', p.dim, d) == Mass(ls, p.dim, d) + Total(added, p.dim, d)
    ensures Balance(p, ls', vs + added, odd)
  {
    hide Mass, NodeMass;
    assert Uniform(vs + added, p.dim);
    forall d | 0 <= d < p.dim
      ensures Mass(ls', p.dim, d) == Total(vs + added, p.dim, d) - EPSILON * odd as real
    {
      TotalConcat(vs, added, p.dim, d);
    }
  }

  lemma BalanceShrinks(p: Params, ls: seq<Node>, ls': seq<Node>, vs: seq<Vector>, odd: nat, more: nat)
    requires Balance(p, ls, vs, odd) && Dims(ls', p.dim)
    requires forall d :: 0 <= d < p.dim ==> Mass(ls', p.dim, d) == Mass(ls, p.dim, d) - EPSILON * more as real
    ensures Balance(p, ls', vs, odd + more)
  {
    hide Mass, NodeMass, Total;
    assert (odd + more) as real == odd as real + more as real;
  }

  /** Phases 1 to 3. */
  method MergeIntoLeaves(p: Params, root: Option<Node>, next: nat, vs: seq<Vector>, ghost merged: seq<Vector>,
                         ghost odd: nat)
    returns (ls: seq<Node>, next': nat)
    requires vs != [] && |vs[0]| == p.dim
    requires if root.None? then merged == [] && odd == 0 else TreeOk(p, root.value, next, merged, odd)
    ensures LeafState(p, ls, next') && ls != [] && MidLeaves(p, root, Accepted(vs, p.dim), ls)
    ensures Balance(p, ls, merged + Accepted(vs, p.dim), odd)
    ensures TotalCount(ls) == |merged| + |Accepted(vs, p.dim)|
  {
    ghost var added := Accepted(vs, p.dim);
    FirstAccepted(vs, p.dim);
    next' := next;
    if root.None? {
      ls, next' := SeedLeaves(p, vs, next);
      assert merged + added == added;
    } else {
      var current := Leaves(root.value);
      TreeBalance(p, root.value, next, merged, odd);
      var additions, sums := AssignBatch(p, current, vs);
      ls := UpdateCentroids(p, current, added, additions, sums);
      MergeConserves(p, current, added, ls);
      MergedState(p, current, added, ls, next);
      BalanceGrows(p, current, ls, merged, added, odd);
    }
  }

  lemma TreeFromLeaves(p: Params, ls: seq<Node>, r: Node, next: nat, vs: seq<Vector>, odd: nat)
    requires LeafState(p, ls, next) && Balance(p, ls, vs, odd) && TotalCount(ls) == |vs|
    requires forall i :: 0 <= i < |ls| ==> 0 < ls[i].count <= p.maxClusterSize
    requires TreeOver(p.hasher, p.dim, ls, r)
    ensures TreeOk(p, r, next, vs, odd)
  {
    hide Mass, NodeMass, Total, SortBy, Sound, LeafState, IdsAscend, Leaves, Depth, TotalCount;
    SortAscends(p, ls, next);
    SortTotals(ls, p.dim);
    SortedCounts(ls, p.maxClusterSize);
    SoundTotals(p.hasher, p.dim, r);
  }

  /** Phases 4 and 5. */
  method Rebuild(p: Params, mid: seq<Node>, next: nat, ghost vs: seq<Vector>, ghost odd: nat)
    returns (r: Node, next': nat)
    requires p.maxClusterSize > 0 && LeafState(p, mid, next) && mid != []
    requires Balance(p, mid, vs, odd) && TotalCount(mid) == |vs|
    ensures TreeOk(p, r, next', vs, odd + SumOdd(mid, p.maxClusterSize))
  {
    var ls;
    ls, next' := SplitOverfull(p, mid, next);
    BalanceShrinks(p, mid, ls, vs, odd, SumOdd(mid, p.maxClusterSize));
    r := BuildTree(p.hasher, p.dim, ls);
    TreeFromLeaves(p, ls, r, next', vs, odd + SumOdd(mid, p.maxClusterSize));
  }

  // ---------- the tree object ----------

  class ProgressiveTree {
    const p: Params
    var root: Option<Node>
    var nextClusterId: nat
    ghost var merged: seq<Vector>   // every vector merged so far
    ghost var oddSplits: nat        // splits of odd size so far

    ghost predicate Valid()
      reads this
    {
      && p.maxClusterSize > 0
      && match root
         case None => merged == [] && oddSplits == 0
         case Some(r) => TreeOk(p, r, nextClusterId, merged, oddSplits)
    }

    constructor (p: Params)
      requires p.maxClusterSize > 0
      ensures Valid() && this.p == p && root == None && nextClusterId == 1 && merged == []
    {
      this.p := p;
      root, nextClusterId := None, 1;
      merged, oddSplits := [], 0;
    }

    /** Merge a batch. Its vectors are all accounted for, and `mid` shows which splits occurred. */
    method InsertBatch(vs: seq<Vector>) returns (ghost mid: seq<Node>)
      requires Valid() && (vs != [] ==> |vs[0]| == p.dim)
      modifies this
      ensures Valid()
      ensures merged == old(merged) + Accepted(vs, p.dim)
      ensures vs == [] ==> root == old(root) && oddSplits == old(oddSplits)
      ensures vs != [] ==>
                && root.Some? && MidLeaves(p, old(root), Accepted(vs, p.dim), mid)
                && oddSplits == old(oddSplits) + SumOdd(mid, p.maxClusterSize)
    {
      hide TreeOk, Balance, MidLeaves, LeafState, SumOdd;
      mid := [];
      if vs == [] {
        return;
      }
      var leaves, next := MergeIntoLeaves(p, root, nextClusterId, vs, merged, oddSplits);
      mid := leaves;
      merged := merged + Accepted(vs, p.dim);
      var tree;
      tree, next := Rebuild(p, leaves, next, merged, oddSplits);
      root, nextClusterId := Some(tree), next;
      oddSplits := oddSplits + SumOdd(mid, p.maxClusterSize);
    }
  }

  lemma FirstAccepted(vs: seq<Vector>, dim: nat)
    requires vs != [] && |vs[0]| == dim
    ensures Accepted(vs, dim) != []
  {
    if |vs| == 1 {
      assert vs == [] + [vs[0]];
      AcceptedSnoc([], vs[0], dim);
    } else {
      FirstAccepted(vs[..|vs| - 1], dim);
    }
  }

  lemma {:induction false} LeavesNonEmpty(n: Node)
    ensures Leaves(n) != []
  {
    if n.Internal? {
      LeavesNonEmpty(n.left);
    }
  }

  lemma LeafStateOk(p: Params, ls: seq<Node>, next: nat)
    requires LeafState(p, ls, next)
    ensures AllLeavesOk(p, ls) && Dims(ls, p.dim)
  {
    forall i | 0 <= i < |ls| ensures |ls[i].centroid| == p.dim && ls[i].count > 0 {
      assert Sound(p.hasher, p.dim, ls[i]);
    }
  }

  lemma MergedState(p: Params, ls: seq<Node>, vs: seq<Vector>, ls': seq<Node>, next: nat)
    requires ls != [] && AllLeavesOk(p, ls) && Uniform(vs, p.dim) && Merged(p, ls, vs, ls') && LeafState(p, ls, next)
    ensures LeafState(p, ls', next)
  {
    hide NodeMass, Total, AssignedTo;
    forall i | 0 <= i < |ls'|
      ensures ls'[i].Leaf? && Sound(p.hasher, p.dim, ls'[i]) && ls'[i].clusterId == ls[i].clusterId
    {
      assert Absorbed(p, ls[i], AssignedTo(p, ls, vs, i), ls'[i]);
    }
  }

  lemma SortedCounts(ls: seq<Node>, max: nat)
    requires forall i :: 0 <= i < |ls| ==> 0 < ls[i].count <= max
    ensures var s := SortBy(IdKey, ls); forall i :: 0 <= i < |s| ==> 0 < s[i].count <= max
  {
    SameElements(IdKey, ls);
    var s := SortBy(IdKey, ls);
    forall i | 0 <= i < |s| ensures 0 < s[i].count <= max {
      assert s[i] in ls;
    }
  }

  /** What leaf i absorbs: exactly the vectors it is the first nearest to. */
  ghost predicate Group(p: Params, ls: seq<Node>, vs: seq<Vector>, i: nat, a: seq<Vector>) {
    Uniform(a, p.dim) && forall v :: multiset(a)[v] == if FirstNearest(p, ls, i, v) then multiset(vs)[v] else 0
  }

  /** The leaves after assignment: every cluster keeps its id and gains the count and the mass of its group. */
  lemma MergedGroups(p: Params, ls: seq<Node>, vs: seq<Vector>, ls': seq<Node>, i: nat) returns (a: seq<Vector>)
    requires ls != [] && AllLeavesOk(p, ls) && Uniform(vs, p.dim) && Merged(p, ls, vs, ls') && i < |ls|
    ensures Group(p, ls, vs, i, a) && i < |ls'|
    ensures ls'[i].Leaf? && ls'[i].clusterId == ls[i].clusterId && ls'[i].count == ls[i].count + |a|
    ensures |ls'[i].centroid| == p.dim
    ensures forall d :: 0 <= d < p.dim ==> NodeMass(ls'[i], d) == NodeMass(ls[i], d) + Total(a, p.dim, d)
  {
    a := AssignedTo(p, ls, vs, i);
    assert Absorbed(p, ls[i], a, ls'[i]);
    hide AssignedTo, FirstNearest;
    forall v ensures multiset(a)[v] == if FirstNearest(p, ls, i, v) then multiset(vs)[v] else 0 {
      AssignedAre(p, ls, vs, i, v);
    }
  }

  // ---------- the hot buffer in front of the tree ----------

  class HotTier {
    const capacity: nat
    const tree: ProgressiveTree
    var buffer: seq<Vector>
    ghost var inserted: seq<Vector>   // every vector accepted by the engine

    ghost predicate Valid()
      reads this, tree
    {
      && tree.Valid()
      && Uniform(buffer, tree.p.dim)
      && inserted == tree.merged + buffer
    }

    constructor (capacity: nat, p: Params)
      requires p.maxClusterSize > 0
      ensures Valid() && inserted == [] && fresh(tree) && this.capacity == capacity && tree.p == p
    {
      this.capacity := capacity;
      var t := new ProgressiveTree(p);
      tree := t;
      buffer, inserted := [], [];
    }

    /** Buffer a vector; when the buffer is full, drain it into the tree. Nothing is lost or counted
        twice: buffered vectors and the root count always add up to the number of inserts. */
    method Insert(v: Vector)
      requires Valid() && |v| == tree.p.dim
      modifies this, tree
      ensures Valid() && inserted == old(inserted) + [v]
      ensures |inserted| == |buffer| + (if tree.root.Some? then tree.root.value.count else 0)
      ensures buffer == if |old(buffer)| + 1 >= capacity then [] else old(buffer) + [v]
    {
      hide TreeOk;
      buffer := buffer + [v];
      inserted := inserted + [v];
      if |buffer| >= capacity {
        var snapshot := buffer;
        buffer := [];
        AllAccepted(snapshot, tree.p.dim);
        ghost var mid := tree.InsertBatch(snapshot);
      }
      RootCount(tree.p, tree.root, tree.nextClusterId, tree.merged, tree.oddSplits);
    }
  }

  lemma RootCount(p: Params, root: Option<Node>, next: nat, merged: seq<Vector>, odd: nat)
    requires if root.None? then merged == [] else TreeOk(p, root.value, next, merged, odd)
    ensures |merged| == if root.Some? then root.value.count else 0
  {
  }

  lemma AllAccepted(vs: seq<Vector>, dim: nat)
    requires Uniform(vs, dim)
    ensures Accepted(vs, dim) == vs
  {
    if vs != [] {
      AllAccepted(vs[..|vs| - 1], dim);
      assert vs == vs[..|vs| - 1] + [vs[|vs| - 1]];
    }
  }
}
