/** The layered graph of the HNSW index as a value, reachability in a layer, and ranked nodes. */
module HnswGraph {
  import opened Options

  type Vector = seq<real>
  type VectorId = nat

  /** A ranking: the distance of a stored vector to the query, plain or weighted. */
  type Rank = Vector -> real

  datatype Graph = Graph(
    nodes: seq<seq<seq<nat>>>,   // nodes[v][layer]: neighbours of v at that layer
    ids: seq<VectorId>,
    vectors: seq<Vector>,
    deleted: seq<bool>,
    entryPoint: Option<nat>,
    maxLayer: nat)

  predicate HasLayer(g: Graph, v: nat, layer: nat) {
    v < |g.nodes| && layer < |g.nodes[v]|
  }

  predicate Aligned(g: Graph) {
    |g.ids| == |g.vectors| == |g.deleted| == |g.nodes|
  }

  /** Every edge of the layer leads to a node that has the layer. */
  ghost predicate Navigable(g: Graph, layer: nat) {
    && Aligned(g)
    && forall v: nat, x: nat :: HasLayer(g, v, layer) && x in g.nodes[v][layer] ==> HasLayer(g, x, layer)
  }

  /** An edge a search may follow: tombstoned targets are skipped. */
  predicate Edge(g: Graph, layer: nat, u: nat, v: nat) {
    HasLayer(g, u, layer) && v in g.nodes[u][layer] && v < |g.deleted| && !g.deleted[v]
  }

  ghost predicate Path(g: Graph, layer: nat, p: seq<nat>) {
    |p| > 0 && forall i :: 0 <= i < |p| - 1 ==> Edge(g, layer, p[i], p[i + 1])
  }

  ghost predicate Reachable(g: Graph, layer: nat, s: nat, v: nat) {
    exists p :: Path(g, layer, p) && p[0] == s && p[|p| - 1] == v
  }

  lemma ReachSelf(g: Graph, layer: nat, s: nat)
    ensures Reachable(g, layer, s, s)
  {
    assert Path(g, layer, [s]);
  }

  lemma ReachStep(g: Graph, layer: nat, s: nat, u: nat, v: nat)
    requires Reachable(g, layer, s, u) && Edge(g, layer, u, v)
    ensures Reachable(g, layer, s, v)
  {
    var p :| Path(g, layer, p) && p[0] == s && p[|p| - 1] == u;
    assert Path(g, layer, p + [v]);
    assert (p + [v])[0] == s && (p + [v])[|p + [v]| - 1] == v;
  }

  ghost predicate Closed(g: Graph, layer: nat, S: set<nat>) {
    forall u, v :: u in S && Edge(g, layer, u, v) ==> v in S
  }

  lemma {:induction false} PathStaysIn(g: Graph, layer: nat, S: set<nat>, p: seq<nat>)
    requires Closed(g, layer, S) && Path(g, layer, p) && p[0] in S
    ensures p[|p| - 1] in S
    decreases |p|
  {
    if |p| > 1 {
      assert Edge(g, layer, p[0], p[1]);
      PathStaysIn(g, layer, S, p[1..]);
    }
  }

  lemma ReachStaysIn(g: Graph, layer: nat, S: set<nat>, s: nat)
    requires Closed(g, layer, S) && s in S
    ensures forall v :: Reachable(g, layer, s, v) ==> v in S
  {
    forall v | Reachable(g, layer, s, v) ensures v in S {
      var p :| Path(g, layer, p) && p[0] == s && p[|p| - 1] == v;
      PathStaysIn(g, layer, S, p);
    }
  }

  // ---------- ranked nodes ----------

  datatype Scored = Scored(dist: real, node: nat)

  /** The order of the source's heaps: by distance, then by node index. */
  predicate Before(a: Scored, b: Scored) {
    a.dist < b.dist || (a.dist == b.dist && a.node < b.node)
  }

  ghost predicate Ranked(s: seq<Scored>) {
    forall i, j :: 0 <= i < j < |s| ==> Before(s[i], s[j])
  }

  function Item(g: Graph, rank: Rank, v: nat): Scored
    requires v < |g.vectors|
  {
    Scored(rank(g.vectors[v]), v)
  }

  /** A heap is kept as its sorted contents; this is a push. */
  function Push(s: seq<Scored>, x: Scored): (r: seq<Scored>)
    ensures |r| == |s| + 1
    ensures forall y :: y in r <==> y == x || y in s
  {
    if s == [] || Before(x, s[0]) then [x] + s else [s[0]] + Push(s[1..], x)
  }

  lemma {:induction false} PushRanked(s: seq<Scored>, x: Scored)
    requires Ranked(s) && x !in s
    ensures Ranked(Push(s, x))
  {
    if s != [] && !Before(x, s[0]) {
      PushRanked(s[1..], x);
      var r := Push(s[1..], x);
      forall j | 0 <= j < |r| ensures Before(s[0], r[j]) {
        assert r[j] in r;
        if r[j] != x {
          var k :| 1 <= k < |s| && s[k] == r[j];
        }
      }
    }
  }

  function Last(s: seq<Scored>): Scored
    requires s != []
  {
    s[|s| - 1]
  }

  lemma LastIsFarthest(s: seq<Scored>, x: Scored)
    requires Ranked(s) && x in s
    ensures x == Last(s) || Before(x, Last(s))
  {
  }

  lemma FirstIsNearest(s: seq<Scored>, x: Scored)
    requires Ranked(s) && x in s
    ensures x == s[0] || Before(s[0], x)
  {
  }

  /** Ranked lists with the same elements are equal: a ranking has one sorted form. */
  lemma {:induction false} RankedUnique(s: seq<Scored>, t: seq<Scored>)
    requires Ranked(s) && Ranked(t)
    requires forall x :: x in s <==> x in t
    ensures s == t
  {
    assert s != [] ==> s[0] in t;
    assert t != [] ==> t[0] in s;
    if s != [] {
      FirstIsNearest(t, s[0]);
      FirstIsNearest(s, t[0]);
      assert s[0] == t[0];
      forall x ensures x in s[1..] <==> x in t[1..] {
        assert x in s[1..] <==> x in s && x != s[0];
        assert x in t[1..] <==> x in t && x != t[0];
      }
      RankedUnique(s[1..], t[1..]);
    }
  }

  // ---------- brute force ----------

  ghost function Nearest(g: Graph, rank: Rank, S: set<nat>): (v: nat)
    requires S != {} && forall u :: u in S ==> u < |g.vectors|
    ensures v in S
    ensures forall u :: u in S && u != v ==> Before(Item(g, rank, v), Item(g, rank, u))
    decreases |S|
  {
    var u: nat :| u in S;
    if S == {u} then u
    else
      var w := Nearest(g, rank, S - {u});
      assert forall x :: x in S && x != u ==> x in S - {u};
      if Before(Item(g, rank, u), Item(g, rank, w)) then u else w
  }

  /** Rank every node of S and sort: the reference every search is compared with. */
  ghost function BruteForce(g: Graph, rank: Rank, S: set<nat>): (r: seq<Scored>)
    requires forall u :: u in S ==> u < |g.vectors|
    ensures forall x :: x in r <==> x.node in S && x == Item(g, rank, x.node)
    decreases |S|
  {
    if S == {} then []
    else
      var v := Nearest(g, rank, S);
      [Item(g, rank, v)] + BruteForce(g, rank, S - {v})
  }

  lemma {:induction false} BruteForceRanked(g: Graph, rank: Rank, S: set<nat>)
    requires forall u :: u in S ==> u < |g.vectors|
    ensures Ranked(BruteForce(g, rank, S))
    decreases |S|
  {
    if S != {} {
      var v := Nearest(g, rank, S);
      BruteForceRanked(g, rank, S - {v});
      var r := BruteForce(g, rank, S - {v});
      forall j | 0 <= j < |r| ensures Before(Item(g, rank, v), r[j]) {
        assert r[j] in r;
      }
    }
  }
}
