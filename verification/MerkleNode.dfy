/** Nodes of the progressive Merkle tree: counts, weighted centroids, hashes, and the bottom-up
    construction of a balanced tree. Centroids are vectors of reals. */
module MerkleNode {
  import opened Log2
  import opened Sorting

  type Vector = seq<real>
  type Digest = nat

  /** Leaf hash of (centroid, count, cluster id) and hash of two child hashes. */
  datatype Hasher = Hasher(leaf: (Vector, nat, nat) -> Digest, node: (Digest, Digest) -> Digest)

  datatype Node =
    | Leaf(centroid: Vector, clusterId: nat, count: nat, hash: Digest)
    | Internal(hash: Digest, left: Node, right: Node, centroid: Vector, count: nat)

  function RecomputeHash(h: Hasher, n: Node): Node {
    match n
    case Leaf(c, id, k, _) => Leaf(c, id, k, h.leaf(c, k, id))
    case Internal(_, l, r, c, k) => Internal(h.node(l.hash, r.hash), l, r, c, k)
  }

  function Leaves(n: Node): seq<Node> {
    match n
    case Leaf(_, _, _, _) => [n]
    case Internal(_, l, r, _, _) => Leaves(l) + Leaves(r)
  }

  function Max(a: nat, b: nat): nat {
    if a < b then b else a
  }

  function Depth(n: Node): nat {
    match n
    case Leaf(_, _, _, _) => 0
    case Internal(_, l, r, _, _) => 1 + Max(Depth(l), Depth(r))
  }

  // ---------- counts and masses ----------

  function TotalCount(ns: seq<Node>): nat {
    if ns == [] then 0 else ns[0].count + TotalCount(ns[1..])
  }

  /** Coordinate `d` of count times centroid. */
  function NodeMass(n: Node, d: nat): real
    requires d < |n.centroid|
  {
    n.count as real * n.centroid[d]
  }

  ghost predicate Dims(ns: seq<Node>, dim: nat) {
    forall i :: 0 <= i < |ns| ==> |ns[i].centroid| == dim
  }

  function Mass(ns: seq<Node>, dim: nat, d: nat): real
    requires Dims(ns, dim) && d < dim
  {
    if ns == [] then 0.0 else NodeMass(ns[0], d) + Mass(ns[1..], dim, d)
  }

  lemma {:induction false} TotalCountConcat(a: seq<Node>, b: seq<Node>)
    ensures TotalCount(a + b) == TotalCount(a) + TotalCount(b)
  {
    if a == [] {
      assert a + b == b;
    } else {
      TotalCountConcat(a[1..], b);
      assert (a + b)[1..] == a[1..] + b;
    }
  }

  lemma {:induction false} MassConcat(a: seq<Node>, b: seq<Node>, dim: nat, d: nat)
    requires Dims(a, dim) && Dims(b, dim) && d < dim
    ensures Mass(a + b, dim, d) == Mass(a, dim, d) + Mass(b, dim, d)
  {
    if a == [] {
      assert a + b == b;
    } else {
      MassConcat(a[1..], b, dim, d);
      assert (a + b)[1..] == a[1..] + b;
    }
  }

  // ---------- joining two nodes ----------

  function WeightedAverage(a: Vector, countA: nat, b: Vector, countB: nat): (r: Vector)
    requires countA + countB > 0 && |a| == |b|
    ensures |r| == |a|
    ensures forall d :: 0 <= d < |a| ==>
              r[d] == (a[d] * countA as real + b[d] * countB as real) / (countA + countB) as real
  {
    seq(|a|, d requires 0 <= d < |a| => (a[d] * countA as real + b[d] * countB as real) / (countA + countB) as real)
  }

  function Join(h: Hasher, l: Node, r: Node): Node
    requires l.count + r.count > 0 && |l.centroid| == |r.centroid|
  {
    RecomputeHash(h, Internal(0, l, r, WeightedAverage(l.centroid, l.count, r.centroid, r.count), l.count + r.count))
  }

  /** Hashes are up to date, every count is the children's sum, and every centroid their mean. */
  ghost predicate Sound(h: Hasher, dim: nat, n: Node) {
    && |n.centroid| == dim && n.count > 0
    && match n
       case Leaf(c, id, k, hash) => hash == h.leaf(c, k, id)
       case Internal(hash, l, r, _, k) =>
         && Sound(h, dim, l) && Sound(h, dim, r)
         && hash == h.node(l.hash, r.hash)
         && k == l.count + r.count
         && forall d :: 0 <= d < dim ==> NodeMass(n, d) == NodeMass(l, d) + NodeMass(r, d)
  }

  lemma AverageTimesCount(x: real, y: real, t: real)
    requires t > 0.0
    ensures t * ((x + y) / t) == x + y
  {
  }

  lemma JoinSound(h: Hasher, dim: nat, l: Node, r: Node)
    requires Sound(h, dim, l) && Sound(h, dim, r)
    ensures Sound(h, dim, Join(h, l, r))
  {
    var n := Join(h, l, r);
    forall d | 0 <= d < dim ensures NodeMass(n, d) == NodeMass(l, d) + NodeMass(r, d) {
      AverageTimesCount(l.centroid[d] * l.count as real, r.centroid[d] * r.count as real, n.count as real);
    }
  }

  /** A sound node holds the exact count and weighted mean of all its leaves. */
  lemma {:induction false} SoundTotals(h: Hasher, dim: nat, n: Node)
    requires Sound(h, dim, n)
    ensures Dims(Leaves(n), dim)
    ensures n.count == TotalCount(Leaves(n))
    ensures forall d :: 0 <= d < dim ==> NodeMass(n, d) == Mass(Leaves(n), dim, d)
  {
    match n
    case Leaf(_, _, _, _) =>
      assert Leaves(n)[1..] == [];
    case Internal(_, l, r, _, _) =>
      SoundTotals(h, dim, l);
      SoundTotals(h, dim, r);
      TotalCountConcat(Leaves(l), Leaves(r));
      forall d | 0 <= d < dim ensures NodeMass(n, d) == Mass(Leaves(n), dim, d) {
        MassConcat(Leaves(l), Leaves(r), dim, d);
      }
  }

  // ---------- bottom-up construction ----------

  ghost predicate AllSound(h: Hasher, dim: nat, ns: seq<Node>) {
    forall i :: 0 <= i < |ns| ==> Sound(h, dim, ns[i])
  }

  function AllLeaves(ns: seq<Node>): seq<Node> {
    if ns == [] then [] else Leaves(ns[0]) + AllLeaves(ns[1..])
  }

  /** One round: adjacent nodes are joined, an odd one out is promoted. */
  ghost function PairUp(h: Hasher, dim: nat, ns: seq<Node>): (r: seq<Node>)
    requires AllSound(h, dim, ns)
    ensures |r| == (|ns| + 1) / 2
  {
    if |ns| <= 1 then ns else [Join(h, ns[0], ns[1])] + PairUp(h, dim, ns[2..])
  }

  lemma {:induction false} PairUpFacts(h: Hasher, dim: nat, ns: seq<Node>, depth: nat)
    requires AllSound(h, dim, ns) && forall i :: 0 <= i < |ns| ==> Depth(ns[i]) <= depth
    ensures var r := PairUp(h, dim, ns);
            && AllSound(h, dim, r)
            && AllLeaves(r) == AllLeaves(ns)
            && forall i :: 0 <= i < |r| ==> Depth(r[i]) <= depth + 1
  {
    if |ns| > 1 {
      hide Sound;
      JoinSound(h, dim, ns[0], ns[1]);
      PairUpFacts(h, dim, ns[2..], depth);
      var j := Join(h, ns[0], ns[1]);
      assert ns[1..][1..] == ns[2..];
      assert AllLeaves(ns) == Leaves(ns[0]) + (Leaves(ns[1]) + AllLeaves(ns[2..]));
      assert Leaves(j) + AllLeaves(ns[2..]) == Leaves(ns[0]) + (Leaves(ns[1]) + AllLeaves(ns[2..]));
      var rest := PairUp(h, dim, ns[2..]);
      assert ([j] + rest)[1..] == rest;
    }
  }

  /** Node i of the next level joins nodes 2i and 2i + 1; the last of an odd number goes up as it is. */
  ghost predicate Paired(h: Hasher, ns: seq<Node>, r: seq<Node>) {
    && |r| == (|ns| + 1) / 2
    && (forall i: nat :: 2 * i + 1 < |ns| ==>
          && r[i].Internal? && r[i].left == ns[2 * i] && r[i].right == ns[2 * i + 1]
          && r[i].count == ns[2 * i].count + ns[2 * i + 1].count
          && r[i].hash == h.node(ns[2 * i].hash, ns[2 * i + 1].hash))
    && (|ns| % 2 == 1 ==> r[|ns| / 2] == ns[|ns| - 1])
  }

  lemma PairedMore(h: Hasher, ns: seq<Node>, first: Node, rest: seq<Node>)
    requires |ns| > 1 && Paired(h, ns[2..], rest) && first.Internal?
    requires first.left == ns[0] && first.right == ns[1] && first.count == ns[0].count + ns[1].count
    requires first.hash == h.node(ns[0].hash, ns[1].hash)
    ensures Paired(h, ns, [first] + rest)
  {
    var r := [first] + rest;
    forall i: nat | 2 * i + 1 < |ns|
      ensures && r[i].Internal? && r[i].left == ns[2 * i] && r[i].right == ns[2 * i + 1]
              && r[i].count == ns[2 * i].count + ns[2 * i + 1].count
              && r[i].hash == h.node(ns[2 * i].hash, ns[2 * i + 1].hash)
    {
      if i > 0 {
        var k := i - 1;
        assert r[i] == rest[k] && ns[2..][2 * k] == ns[2 * i] && ns[2..][2 * k + 1] == ns[2 * i + 1];
      }
    }
    assert |ns| % 2 == 1 ==> r[|ns| / 2] == rest[|ns[2..]| / 2];
  }

  lemma {:induction false} PairUpPairs(h: Hasher, dim: nat, ns: seq<Node>)
    requires AllSound(h, dim, ns)
    ensures Paired(h, ns, PairUp(h, dim, ns))
  {
    if |ns| > 1 {
      hide Paired, Sound;
      PairUpPairs(h, dim, ns[2..]);
      assert Sound(h, dim, ns[0]) && Sound(h, dim, ns[1]);
      PairedMore(h, ns, Join(h, ns[0], ns[1]), PairUp(h, dim, ns[2..]));
    }
  }

  /** Rounds until one node is left. */
  ghost function Build(h: Hasher, dim: nat, ns: seq<Node>): Node
    requires ns != [] && AllSound(h, dim, ns)
    decreases |ns|
  {
    if |ns| == 1 then ns[0]
    else
      PairUpSound(h, dim, ns);
      Build(h, dim, PairUp(h, dim, ns))
  }

  lemma {:induction false} PairUpSound(h: Hasher, dim: nat, ns: seq<Node>)
    requires AllSound(h, dim, ns)
    ensures AllSound(h, dim, PairUp(h, dim, ns))
  {
    if |ns| > 1 {
      JoinSound(h, dim, ns[0], ns[1]);
      PairUpSound(h, dim, ns[2..]);
    }
  }

  /** The built tree is sound, keeps the leaves in order, and is balanced. */
  lemma {:induction false} BuildFacts(h: Hasher, dim: nat, ns: seq<Node>, depth: nat)
    requires ns != [] && AllSound(h, dim, ns) && forall i :: 0 <= i < |ns| ==> Depth(ns[i]) <= depth
    ensures var t := Build(h, dim, ns);
            Sound(h, dim, t) && Leaves(t) == AllLeaves(ns) && Depth(t) <= depth + CeilLog2(|ns|)
    decreases |ns|
  {
    if |ns| == 1 {
      assert ns[1..] == [];
      assert Leaves(ns[0]) + [] == Leaves(ns[0]);
    } else {
      PairUpFacts(h, dim, ns, depth);
      BuildFacts(h, dim, PairUp(h, dim, ns), depth + 1);
    }
  }

  lemma {:induction false} LeavesOfLeaves(ns: seq<Node>)
    requires forall i :: 0 <= i < |ns| ==> ns[i].Leaf?
    ensures AllLeaves(ns) == ns
  {
    if ns != [] {
      LeavesOfLeaves(ns[1..]);
      assert ns == [ns[0]] + ns[1..];
    }
  }

  function IdKey(n: Node): real {
    if n.Leaf? then n.clusterId as real else 0.0
  }

  /** A tree over `leaves`: in-order leaves sorted by cluster id, logarithmic depth, everything exact. */
  ghost predicate TreeOver(h: Hasher, dim: nat, leaves: seq<Node>, root: Node) {
    && Sound(h, dim, root)
    && Leaves(root) == SortBy(IdKey, leaves)
    && Depth(root) <= CeilLog2(|leaves|)
  }

  method BuildTree(h: Hasher, ghost dim: nat, leaves: seq<Node>) returns (root: Node)
    requires leaves != [] && AllSound(h, dim, leaves) && forall i :: 0 <= i < |leaves| ==> leaves[i].Leaf?
    ensures TreeOver(h, dim, leaves, root)
    ensures AllSound(h, dim, SortBy(IdKey, leaves)) && root == Build(h, dim, SortBy(IdKey, leaves))
  {
    var nodes := SortBy(IdKey, leaves);
    ghost var sorted := nodes;
    SortedLeaves(h, dim, leaves);
    LeavesOfLeaves(sorted);
    BuildFacts(h, dim, sorted, 0);
    while |nodes| > 1
      invariant nodes != [] && AllSound(h, dim, nodes)
      invariant Build(h, dim, nodes) == Build(h, dim, sorted)
      decreases |nodes|
    {
      var parents := JoinPairs(h, dim, nodes);
      PairUpSound(h, dim, nodes);
      nodes := parents;
    }
    root := nodes[0];
  }

  lemma SortedLeaves(h: Hasher, dim: nat, leaves: seq<Node>)
    requires AllSound(h, dim, leaves) && forall i :: 0 <= i < |leaves| ==> leaves[i].Leaf?
    ensures var s := SortBy(IdKey, leaves);
            AllSound(h, dim, s) && (forall i :: 0 <= i < |s| ==> s[i].Leaf? && Depth(s[i]) == 0)
  {
    SameElements(IdKey, leaves);
    var s := SortBy(IdKey, leaves);
    forall i | 0 <= i < |s| ensures Sound(h, dim, s[i]) && s[i].Leaf? && Depth(s[i]) == 0 {
      assert s[i] in leaves;
    }
  }

  lemma SoundPair(h: Hasher, dim: nat, l: Node, r: Node)
    requires Sound(h, dim, l) && Sound(h, dim, r)
    ensures l.count + r.count > 0 && |l.centroid| == |r.centroid|
  {
  }

  method JoinPairs(h: Hasher, ghost dim: nat, nodes: seq<Node>) returns (parents: seq<Node>)
    requires AllSound(h, dim, nodes)
    ensures parents == PairUp(h, dim, nodes) && Paired(h, nodes, parents)
  {
    hide Paired, Sound, Join;
    PairUpPairs(h, dim, nodes);
    parents := [];
    var i := 0;
    assert nodes[0..] == nodes;
    while i < |nodes|
      invariant 0 <= i <= |nodes|
      invariant parents + PairUp(h, dim, nodes[i..]) == PairUp(h, dim, nodes)
    {
      var left := nodes[i];
      if i + 1 < |nodes| {
        var right := nodes[i + 1];
        assert nodes[i..][2..] == nodes[i + 2..];
        SoundPair(h, dim, left, right);
        parents := parents + [Join(h, left, right)];
        i := i + 2;
      } else {
        assert nodes[i..] == [left];
        parents := parents + [left];
        i := i + 1;
      }
    }
  }

  // ---------- the root hash binds the leaves ----------

  /** Two different inputs of the hash functions, at the same place of two trees, with equal output. */
  ghost predicate Clash(h: Hasher, a: Node, b: Node) {
    match (a, b)
    case (Leaf(c, i, k, _), Leaf(c', i', k', _)) =>
      (c, k, i) != (c', k', i') && h.leaf(c, k, i) == h.leaf(c', k', i')
    case (Internal(_, l, r, _, _), Internal(_, l', r', _, _)) =>
      || ((l.hash, r.hash) != (l'.hash, r'.hash) && h.node(l.hash, r.hash) == h.node(l'.hash, r'.hash))
      || Clash(h, l, l') || Clash(h, r, r')
    case _ => false
  }

  ghost predicate SameShape(a: Node, b: Node) {
    match (a, b)
    case (Leaf(_, _, _, _), Leaf(_, _, _, _)) => true
    case (Internal(_, l, r, _, _), Internal(_, l', r', _, _)) => SameShape(l, l') && SameShape(r, r')
    case _ => false
  }

  lemma {:induction false} PairUpShape(h: Hasher, dim: nat, ns: seq<Node>, ms: seq<Node>)
    requires AllSound(h, dim, ns) && AllSound(h, dim, ms) && |ns| == |ms|
    requires forall i :: 0 <= i < |ns| ==> SameShape(ns[i], ms[i])
    ensures forall i :: 0 <= i < |PairUp(h, dim, ns)| ==> SameShape(PairUp(h, dim, ns)[i], PairUp(h, dim, ms)[i])
  {
    if |ns| > 1 {
      PairUpShape(h, dim, ns[2..], ms[2..]);
    }
  }

  lemma {:induction false} BuildShape(h: Hasher, dim: nat, ns: seq<Node>, ms: seq<Node>)
    requires AllSound(h, dim, ns) && AllSound(h, dim, ms) && |ns| == |ms| > 0
    requires forall i :: 0 <= i < |ns| ==> SameShape(ns[i], ms[i])
    ensures SameShape(Build(h, dim, ns), Build(h, dim, ms))
    decreases |ns|
  {
    if |ns| > 1 {
      PairUpShape(h, dim, ns, ms);
      PairUpSound(h, dim, ns);
      PairUpSound(h, dim, ms);
      BuildShape(h, dim, PairUp(h, dim, ns), PairUp(h, dim, ms));
    }
  }

  lemma {:induction false} SameShapeLeaves(a: Node, b: Node)
    requires SameShape(a, b)
    ensures |Leaves(a)| == |Leaves(b)|
  {
    if a.Internal? {
      SameShapeLeaves(a.left, b.left);
      SameShapeLeaves(a.right, b.right);
    }
  }

  lemma SplitLeaves(a: Node, b: Node)
    requires SameShape(a, b) && a.Internal? && Leaves(a) == Leaves(b)
    ensures Leaves(a.left) == Leaves(b.left) && Leaves(a.right) == Leaves(b.right)
  {
    SameShapeLeaves(a.left, b.left);
    var n := |Leaves(a.left)|;
    assert Leaves(a)[..n] == Leaves(a.left) && Leaves(b)[..n] == Leaves(b.left);
    assert Leaves(a)[n..] == Leaves(a.right) && Leaves(b)[n..] == Leaves(b.right);
  }

  /** Equal leaves hash equally, and nothing clashes in trees that hold them. */
  lemma {:induction false} EqualLeavesEqualHash(h: Hasher, dim: nat, a: Node, b: Node)
    requires Sound(h, dim, a) && Sound(h, dim, b) && SameShape(a, b) && Leaves(a) == Leaves(b)
    ensures a.hash == b.hash && !Clash(h, a, b)
  {
    if a.Internal? {
      SplitLeaves(a, b);
      EqualLeavesEqualHash(h, dim, a.left, b.left);
      EqualLeavesEqualHash(h, dim, a.right, b.right);
    } else {
      assert Leaves(a) == [a] && Leaves(b) == [b];
      assert [a][0] == [b][0];
    }
  }

  /** Equal hashes mean equal leaves, unless the hash function itself collided. */
  lemma {:induction false} EqualHashEqualLeaves(h: Hasher, dim: nat, a: Node, b: Node)
    requires Sound(h, dim, a) && Sound(h, dim, b) && SameShape(a, b)
    ensures Leaves(a) == Leaves(b) <==> a.hash == b.hash && !Clash(h, a, b)
  {
    if Leaves(a) == Leaves(b) {
      EqualLeavesEqualHash(h, dim, a, b);
    } else if a.Internal? {
      EqualHashEqualLeaves(h, dim, a.left, b.left);
      EqualHashEqualLeaves(h, dim, a.right, b.right);
    }
  }

  /** Two trees over equally many leaves have the same root hash and no clash exactly when they were
      built from the same leaves. */
  lemma RootHashBindsLeaves(h: Hasher, dim: nat, ns: seq<Node>, ms: seq<Node>)
    requires |ns| == |ms| > 0
    requires AllSound(h, dim, ns) && AllSound(h, dim, ms)
    requires forall i :: 0 <= i < |ns| ==> ns[i].Leaf? && ms[i].Leaf?
    ensures var b, b' := Build(h, dim, ns), Build(h, dim, ms);
            ns == ms <==> b.hash == b'.hash && !Clash(h, b, b')
  {
    BuildShape(h, dim, ns, ms);
    BuildFacts(h, dim, ns, 0);
    BuildFacts(h, dim, ms, 0);
    EqualHashEqualLeaves(h, dim, Build(h, dim, ns), Build(h, dim, ms));
    LeavesOfLeaves(ns);
    LeavesOfLeaves(ms);
  }
}
