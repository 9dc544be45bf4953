/** Inserting into and removing from the HNSW index. `Inserted` says exactly how the new graph
    differs from the old one; `WellFormed` is kept by it and hence by every run. */
module HnswInsert {
  import opened Options
  import opened HnswGraph
  import opened HnswSearch
  import opened HnswIndex
  import opened Log2
  import opened Sorting

  type Adjacency = seq<seq<seq<nat>>>

  // ---------- how one layer changes ----------

  function SelectNeighbors(beam: seq<Scored>, m: nat): (r: seq<nat>)
    ensures |r| == Min(m, |beam|)
    ensures forall i :: 0 <= i < |r| ==> r[i] == beam[i].node
  {
    if beam == [] || m == 0 then [] else [beam[0].node] + SelectNeighbors(beam[1..], m - 1)
  }

  function ByDistanceTo(cfg: Config, vectors: seq<Vector>, v: nat): nat -> real
    requires v < |vectors|
  {
    (x: nat) => if x < |vectors| then cfg.dist(vectors[v], vectors[x]) else 0.0
  }

  /** A connection list trimmed to its closest members when it is over the limit. */
  function Shrunk(cfg: Config, vectors: seq<Vector>, v: nat, list: seq<nat>, max: nat): (r: seq<nat>)
    requires v < |vectors|
    ensures |r| == Min(max, |list|)
  {
    if |list| <= max then list else SortBy(ByDistanceTo(cfg, vectors, v), list)[..max]
  }

  lemma ShrunkByKey(cfg: Config, vectors: seq<Vector>, v: nat, list: seq<nat>, max: nat)
    requires v < |vectors| && Distinct(list)
    ensures var r := Shrunk(cfg, vectors, v, list, max);
            var key := ByDistanceTo(cfg, vectors, v);
            && Distinct(r)
            && (forall x :: x in r ==> x in list)
            && (forall x, y :: x in r && y in list && y !in r ==> key(x) <= key(y))
  {
    if |list| > max {
      var key := ByDistanceTo(cfg, vectors, v);
      var sorted := SortBy(key, list);
      SortBySorted(key, list);
      SortKeepsDistinct(key, list);
      SameElements(key, list);
      forall x, y | x in sorted[..max] && y in list && y !in sorted[..max] ensures key(x) <= key(y) {
        assert y in sorted;
        var i :| 0 <= i < max && sorted[i] == x;
        var j :| 0 <= j < |sorted| && sorted[j] == y;
        assert forall k :: 0 <= k < max ==> sorted[k] in sorted[..max];
      }
    }
  }

  /** A list within the limit stays; else as many as allowed are kept, distinct, and no farther than any
      dropped. */
  lemma ShrunkFacts(cfg: Config, vectors: seq<Vector>, v: nat, list: seq<nat>, max: nat)
    requires v < |vectors| && Distinct(list) && forall x :: x in list ==> x < |vectors|
    ensures var r := Shrunk(cfg, vectors, v, list, max);
            && (if |list| <= max then r == list else |r| == max)
            && Distinct(r)
            && (forall x :: x in r ==> x in list)
            && (forall x, y :: x in r && y in list && y !in r ==>
                  cfg.dist(vectors[v], vectors[x]) <= cfg.dist(vectors[v], vectors[y]))
  {
    ShrunkByKey(cfg, vectors, v, list, max);
    var key := ByDistanceTo(cfg, vectors, v);
    assert forall x :: x in list ==> key(x) == cfg.dist(vectors[v], vectors[x]);
  }

  ghost predicate SameShape(a: Adjacency, b: Adjacency) {
    |a| == |b| && forall v :: 0 <= v < |a| ==> |a[v]| == |b[v]|
  }

  /** Every old node keeps its number of layers; the new node has `level + 1`. */
  ghost predicate Shaped(g: Graph, nodes: Adjacency, level: nat) {
    && |nodes| == |g.nodes| + 1 && |nodes[|g.nodes|]| == level + 1
    && forall v :: 0 <= v < |g.nodes| ==> |nodes[v]| == |g.nodes[v]|
  }

  /** Only lists of one layer differ. */
  ghost predicate OnlyLayer(before: Adjacency, after: Adjacency, layer: nat) {
    && SameShape(after, before)
    && forall u, l :: 0 <= u < |before| && 0 <= l < |before[u]| && l != layer ==> after[u][l] == before[u][l]
  }

  lemma ShapeStays(g: Graph, before: Adjacency, after: Adjacency, level: nat, layer: nat)
    requires Shaped(g, before, level) && OnlyLayer(before, after, layer)
    ensures Shaped(g, after, level)
  {
  }

  /** The search an insertion ran at one layer. */
  datatype Trail = Trail(start: nat, beam: seq<Scored>, seen: set<nat>)

  /** Old graph plus a fresh, unconnected node. */
  ghost function WithNode(g: Graph, id: VectorId, vector: Vector, level: nat): Graph {
    g.(nodes := g.nodes + [seq(level + 1, _ => [])], ids := g.ids + [id],
       vectors := g.vectors + [vector], deleted := g.deleted + [false])
  }

  /** At `layer`, the new node n = |g.nodes| is linked to the nearest results of a beam search over
      the old graph, each of which gains n and is trimmed; all other lists are as before. */
  ghost predicate LinkedAt(cfg: Config, g: Graph, vectors: seq<Vector>, nodes: Adjacency, layer: nat, t: Trail)
    requires Aligned(g) && |vectors| == |g.nodes| + 1 == |nodes|
    requires layer < |nodes[|g.nodes|]|
  {
    var n := |g.nodes|;
    && HasLayer(g, t.start, layer)
    && Certified(g, layer, RankTo(cfg, vectors[n]), t.start, cfg.efConstruction, t.beam, t.seen)
    && nodes[n][layer] == SelectNeighbors(t.beam, Cap(cfg, layer))
    && forall v :: 0 <= v < n && layer < |g.nodes[v]| && layer < |nodes[v]| ==>
         nodes[v][layer] == if v in nodes[n][layer]
                            then Shrunk(cfg, vectors, v, g.nodes[v][layer] + [n], Cap(cfg, layer))
                            else g.nodes[v][layer]
  }

  /** At `layer` nothing links to or from the new node yet. */
  ghost predicate UntouchedAt(g: Graph, nodes: Adjacency, layer: nat)
    requires |nodes| == |g.nodes| + 1
  {
    var n := |g.nodes|;
    && (layer < |nodes[n]| ==> nodes[n][layer] == [])
    && forall v :: 0 <= v < n && layer < |g.nodes[v]| && layer < |nodes[v]| ==>
         nodes[v][layer] == g.nodes[v][layer]
  }

  /** Where the search below continues: at the nearest neighbour linked, else where this one started. */
  function Onward(list: seq<nat>, t: Trail): nat {
    if list != [] then list[0] else t.start
  }

  /** The search at a layer starts where the one above leads. */
  ghost predicate StartsBelow(lists: seq<seq<nat>>, layer: nat, trails: map<nat, Trail>)
    requires layer in trails
  {
    layer + 1 in trails && layer + 1 < |lists| ==>
      trails[layer].start == Onward(lists[layer + 1], trails[layer + 1])
  }

  /** The whole effect of inserting a new id, with the searches that were run, one per layer. */
  ghost predicate Inserted(cfg: Config, g: Graph, g': Graph, id: VectorId, vector: Vector, level: nat,
                           trails: map<nat, Trail>)
    requires Aligned(g)
  {
    var n := |g.nodes|;
    && g'.ids == g.ids + [id] && g'.vectors == g.vectors + [vector] && g'.deleted == g.deleted + [false]
    && Shaped(g, g'.nodes, level)
    && (forall layer: nat :: layer in trails <==> n > 0 && layer <= Min(level, g.maxLayer))
    && (forall layer: nat :: layer in trails ==>
          && LinkedAt(cfg, g, g'.vectors, g'.nodes, layer, trails[layer])
          && StartsBelow(g'.nodes[n], layer, trails))
    && (n > 0 ==> DescentEnds(g, RankTo(cfg, vector), level, trails[Min(level, g.maxLayer)].start))
    && (forall layer: nat :: layer !in trails ==> UntouchedAt(g, g'.nodes, layer))
    && g'.maxLayer == Max(level, g.maxLayer)
    && g'.entryPoint == if n == 0 || level > g.maxLayer then Some(n) else g.entryPoint
  }

  // ---------- searching the graph under construction equals searching the old graph ----------

  ghost predicate SameLayer(g: Graph, h: Graph, layer: nat) {
    && Aligned(g) && Aligned(h) && |h.nodes| == |g.nodes| + 1
    && h.vectors[..|g.nodes|] == g.vectors && h.deleted[..|g.nodes|] == g.deleted
    && (HasLayer(h, |g.nodes|, layer) ==> h.nodes[|g.nodes|][layer] == [])
    && forall v :: 0 <= v < |g.nodes| ==>
         |h.nodes[v]| == |g.nodes[v]| && (layer < |g.nodes[v]| ==> h.nodes[v][layer] == g.nodes[v][layer])
  }

  lemma SameEdges(g: Graph, h: Graph, layer: nat, u: nat, v: nat)
    requires SameLayer(g, h, layer) && Navigable(g, layer)
    ensures Edge(g, layer, u, v) <==> Edge(h, layer, u, v)
  {
    if u < |g.nodes| && layer < |g.nodes[u]| && v in g.nodes[u][layer] {
      assert HasLayer(g, v, layer);
      assert h.deleted[v] == h.deleted[..|g.nodes|][v];
    }
  }

  lemma SamePaths(g: Graph, h: Graph, layer: nat, s: nat, v: nat)
    requires SameLayer(g, h, layer) && Navigable(g, layer)
    ensures Reachable(g, layer, s, v) <==> Reachable(h, layer, s, v)
  {
    forall p: seq<nat> ensures Path(g, layer, p) <==> Path(h, layer, p) {
      forall i | 0 <= i < |p| - 1 ensures Edge(g, layer, p[i], p[i + 1]) <==> Edge(h, layer, p[i], p[i + 1]) {
        SameEdges(g, h, layer, p[i], p[i + 1]);
      }
    }
  }

  lemma SameNavigable(g: Graph, h: Graph, layer: nat)
    requires SameLayer(g, h, layer) && Navigable(g, layer)
    ensures Navigable(h, layer)
  {
    forall v: nat, x: nat | HasLayer(h, v, layer) && x in h.nodes[v][layer] ensures HasLayer(h, x, layer) {
      assert HasLayer(g, v, layer) && HasLayer(g, x, layer);
    }
  }

  lemma CertificateTransfers(g: Graph, h: Graph, layer: nat, rank: Rank, start: nat, ef: nat,
                             beam: seq<Scored>, seen: set<nat>)
    requires SameLayer(g, h, layer) && Navigable(g, layer) && HasLayer(g, start, layer)
    requires Certified(h, layer, rank, start, ef, beam, seen)
    ensures Certified(g, layer, rank, start, ef, beam, seen)
  {
    var n := |g.nodes|;
    var inOld := set v | v in Below(n) && layer < |g.nodes[v]|;
    forall u, v | u in inOld && Edge(h, layer, u, v) ensures v in inOld {
      SameEdges(g, h, layer, u, v);
      assert HasLayer(g, v, layer);
    }
    ReachStaysIn(h, layer, inOld, start);
    forall v | v in seen
      ensures HasLayer(g, v, layer) && Reachable(g, layer, start, v) && h.vectors[v] == g.vectors[v]
    {
      SamePaths(g, h, layer, start, v);
      assert h.vectors[v] == h.vectors[..n][v];
    }
    forall x, v | x in beam && Edge(g, layer, x.node, v) ensures v in seen {
      SameEdges(g, h, layer, x.node, v);
    }
    forall v | v in seen ensures KeptOrFarther(g, rank, ef, beam, v) {
      assert KeptOrFarther(h, rank, ef, beam, v);
    }
  }

  // ---------- well-formedness ----------

  lemma CertifiedSeen(g: Graph, layer: nat, rank: Rank, start: nat, ef: nat, beam: seq<Scored>, seen: set<nat>)
    requires Aligned(g) && Certified(g, layer, rank, start, ef, beam, seen)
    ensures ItemsOf(g, rank, beam, seen) && forall v :: v in seen ==> HasLayer(g, v, layer)
  {
  }

  lemma SelectDistinct(g: Graph, rank: Rank, beam: seq<Scored>, seen: set<nat>, m: nat)
    requires ItemsOf(g, rank, beam, seen)
    ensures Distinct(SelectNeighbors(beam, m))
    ensures forall x :: x in SelectNeighbors(beam, m) ==> x in seen
  {
    var r := SelectNeighbors(beam, m);
    forall i, j | 0 <= i < j < |r| ensures r[i] != r[j] {
      assert Before(beam[i], beam[j]);
      assert beam[i] in beam && beam[j] in beam;
    }
    forall x | x in r ensures x in seen {
      var i :| 0 <= i < |r| && r[i] == x;
      assert beam[i] in beam;
    }
  }

  ghost predicate Insertable(cfg: Config, g: Graph, id: VectorId, vector: Vector, level: nat) {
    id !in g.ids && |vector| == cfg.dim && level <= LevelFor(level, |g.nodes|)
  }

  lemma GrownListOk(cfg: Config, g: Graph, g': Graph, v: nat, layer: nat)
    requires HasLayer(g, v, layer) && ListOk(cfg, g, v, layer) && HasLayer(g', v, layer)
    requires |g'.nodes| == |g'.vectors| == |g.nodes| + 1 && HasLayer(g', |g.nodes|, layer)
    requires forall u :: 0 <= u < |g.nodes| ==> |g'.nodes[u]| == |g.nodes[u]|
    requires g'.nodes[v][layer] ==
             Shrunk(cfg, g'.vectors, v, g.nodes[v][layer] + [|g.nodes|], Cap(cfg, layer))
    ensures ListOk(cfg, g', v, layer)
  {
    var grown := g.nodes[v][layer] + [|g.nodes|];
    assert |g.nodes| !in g.nodes[v][layer];
    assert Distinct(grown);
    assert forall x :: x in g.nodes[v][layer] ==> HasLayer(g, x, layer);
    ShrunkFacts(cfg, g'.vectors, v, grown, Cap(cfg, layer));
  }

  /** Lists of old nodes stay within their limit, free of repeats and self-loops. */
  lemma OldListOk(cfg: Config, g: Graph, g': Graph, id: VectorId, vector: Vector, level: nat,
                  trails: map<nat, Trail>, v: nat, layer: nat)
    requires WellFormed(cfg, g) && Insertable(cfg, g, id, vector, level)
             && Inserted(cfg, g, g', id, vector, level, trails)
    requires v < |g.nodes| && HasLayer(g', v, layer)
    ensures ListOk(cfg, g', v, layer)
  {
    hide StartsBelow, DescentEnds;
    var n := |g.nodes|;
    assert ListOk(cfg, g, v, layer);
    var list := g.nodes[v][layer];
    if layer in trails && v in g'.nodes[n][layer] {
      assert LinkedAt(cfg, g, g'.vectors, g'.nodes, layer, trails[layer]);
      GrownListOk(cfg, g, g', v, layer);
    } else {
      assert layer in trails ==> LinkedAt(cfg, g, g'.vectors, g'.nodes, layer, trails[layer]);
      assert layer !in trails ==> UntouchedAt(g, g'.nodes, layer);
      assert g'.nodes[v][layer] == list;
    }
  }

  lemma NewListOk(cfg: Config, g: Graph, g': Graph, id: VectorId, vector: Vector, level: nat,
                  trails: map<nat, Trail>, layer: nat)
    requires WellFormed(cfg, g) && Insertable(cfg, g, id, vector, level)
             && Inserted(cfg, g, g', id, vector, level, trails)
    requires HasLayer(g', |g.nodes|, layer)
    ensures ListOk(cfg, g', |g.nodes|, layer)
  {
    hide StartsBelow, DescentEnds;
    var n := |g.nodes|;
    if layer in trails {
      var t := trails[layer];
      assert LinkedAt(cfg, g, g'.vectors, g'.nodes, layer, t);
      SelectDistinct(g, RankTo(cfg, g'.vectors[n]), t.beam, t.seen, Cap(cfg, layer));
    } else {
      assert UntouchedAt(g, g'.nodes, layer);
    }
  }

  lemma MaxAllowedMonotone(a: nat, b: nat)
    requires a <= b
    ensures MaxAllowedLevel(a) <= MaxAllowedLevel(b)
  {
    CeilLog2Monotone(a, b);
  }

  lemma InsertKeepsWellFormed(cfg: Config, g: Graph, g': Graph, id: VectorId, vector: Vector, level: nat,
                              trails: map<nat, Trail>)
    requires WellFormed(cfg, g) && Insertable(cfg, g, id, vector, level)
             && Inserted(cfg, g, g', id, vector, level, trails)
    ensures WellFormed(cfg, g')
  {
    hide LinkedAt, UntouchedAt, StartsBelow, DescentEnds, ListOk;
    var n := |g.nodes|;
    forall v: nat, layer: nat | HasLayer(g', v, layer) ensures ListOk(cfg, g', v, layer) {
      if v < n {
        OldListOk(cfg, g, g', id, vector, level, trails, v, layer);
      } else {
        NewListOk(cfg, g, g', id, vector, level, trails, layer);
      }
    }
    if n > 0 {
      MaxAllowedMonotone(n - 1, n);
    }
  }

  // ---------- which links an insertion makes ----------

  /** The new node's list at a layer: the nearest results of the beam, as many as the layer allows. */
  ghost predicate LinksNearest(cfg: Config, g: Graph, vector: Vector, layer: nat, beam: seq<Scored>, list: seq<nat>)
    requires Aligned(g)
  {
    var cap := if layer == 0 then cfg.mMax0 else cfg.m;
    && |list| == (if cap < |beam| then cap else |beam|)
    && (forall i :: 0 <= i < |list| ==> list[i] == beam[i].node)
    && (forall x :: x in beam ==> x.node < |g.nodes| && x.dist == cfg.dist(g.vectors[x.node], vector))
    && (forall i, j :: 0 <= i < j < |beam| ==> beam[i].dist <= beam[j].dist)
  }

  /** A linked neighbour's list: the new node is added, and if that is one too many the farthest member
      is dropped. */
  ghost predicate GainsLink(cfg: Config, vectors: seq<Vector>, v: nat, layer: nat, n: nat, before: seq<nat>,
                            after: seq<nat>)
    requires v < |vectors| && forall x :: x in before + [n] ==> x < |vectors|
  {
    var cap := if layer == 0 then cfg.mMax0 else cfg.m;
    if |before| < cap then after == before + [n]
    else
      && |after| == cap
      && (forall x :: x in after ==> x in before + [n])
      && forall x, y :: x in after && y in before + [n] && y !in after ==>
           cfg.dist(vectors[v], vectors[x]) <= cfg.dist(vectors[v], vectors[y])
  }

  lemma LinkedNearest(cfg: Config, g: Graph, vectors: seq<Vector>, nodes: Adjacency, layer: nat, t: Trail)
    requires Aligned(g) && |vectors| == |g.nodes| + 1 == |nodes| && layer < |nodes[|g.nodes|]|
    requires LinkedAt(cfg, g, vectors, nodes, layer, t)
    ensures LinksNearest(cfg, g, vectors[|g.nodes|], layer, t.beam, nodes[|g.nodes|][layer])
  {
    hide Certified, Shrunk;
    CertifiedSeen(g, layer, RankTo(cfg, vectors[|g.nodes|]), t.start, cfg.efConstruction, t.beam, t.seen);
    hide LinkedAt;
    forall i, j | 0 <= i < j < |t.beam| ensures t.beam[i].dist <= t.beam[j].dist {
      assert Before(t.beam[i], t.beam[j]);
    }
  }

  lemma ListGainsLink(cfg: Config, vectors: seq<Vector>, v: nat, layer: nat, n: nat, list: seq<nat>)
    requires v < |vectors| && (forall x :: x in list + [n] ==> x < |vectors|) && Distinct(list) && n !in list
    requires |list| <= Cap(cfg, layer)
    ensures GainsLink(cfg, vectors, v, layer, n, list, Shrunk(cfg, vectors, v, list + [n], Cap(cfg, layer)))
  {
    hide Shrunk;
    assert Distinct(list + [n]);
    ShrunkFacts(cfg, vectors, v, list + [n], Cap(cfg, layer));
  }

  lemma NearestLinked(cfg: Config, g: Graph, g': Graph, id: VectorId, vector: Vector, level: nat,
                      trails: map<nat, Trail>, layer: nat)
    requires WellFormed(cfg, g) && Inserted(cfg, g, g', id, vector, level, trails) && layer in trails
    ensures layer < |g'.nodes[|g.nodes|]|
    ensures LinksNearest(cfg, g, vector, layer, trails[layer].beam, g'.nodes[|g.nodes|][layer])
  {
    hide DescentEnds, StartsBelow, UntouchedAt, LinkedAt, LinksNearest;
    assert LinkedAt(cfg, g, g'.vectors, g'.nodes, layer, trails[layer]);
    LinkedNearest(cfg, g, g'.vectors, g'.nodes, layer, trails[layer]);
  }

  lemma NeighbourLinked(cfg: Config, g: Graph, g': Graph, id: VectorId, vector: Vector, level: nat,
                        trails: map<nat, Trail>, layer: nat, v: nat)
    requires WellFormed(cfg, g) && Inserted(cfg, g, g', id, vector, level, trails)
    requires HasLayer(g, v, layer)
    ensures HasLayer(g', v, layer)
    ensures forall x :: x in g.nodes[v][layer] + [|g.nodes|] ==> x < |g'.vectors|
    ensures if layer in trails && v in g'.nodes[|g.nodes|][layer]
            then GainsLink(cfg, g'.vectors, v, layer, |g.nodes|, g.nodes[v][layer], g'.nodes[v][layer])
            else g'.nodes[v][layer] == g.nodes[v][layer]
  {
    hide DescentEnds, StartsBelow, Certified, Shrunk, SelectNeighbors, GainsLink;
    var n := |g.nodes|;
    assert ListOk(cfg, g, v, layer);
    assert layer in trails ==> LinkedAt(cfg, g, g'.vectors, g'.nodes, layer, trails[layer]);
    assert layer !in trails ==> UntouchedAt(g, g'.nodes, layer);
    ListGainsLink(cfg, g'.vectors, v, layer, n, g.nodes[v][layer]);
  }

  /** Which links an insertion makes: at every layer up to the lower of the two tops the nearest results
      of a beam search get a link from and to the new node, and no other list changes. */
  lemma LinksOfInsertion(cfg: Config, g: Graph, g': Graph, id: VectorId, vector: Vector, level: nat,
                         trails: map<nat, Trail>)
    requires WellFormed(cfg, g) && Insertable(cfg, g, id, vector, level)
             && Inserted(cfg, g, g', id, vector, level, trails)
    ensures Aligned(g') && |g'.nodes| == |g.nodes| + 1 && |g'.nodes[|g.nodes|]| == level + 1
    ensures forall layer: nat :: layer <= level ==>
              if g.nodes != [] && layer <= g.maxLayer
              then layer in trails
                   && LinksNearest(cfg, g, vector, layer, trails[layer].beam, g'.nodes[|g.nodes|][layer])
              else g'.nodes[|g.nodes|][layer] == []
    ensures forall v: nat, layer: nat :: HasLayer(g, v, layer) ==>
              && HasLayer(g', v, layer)
              && (forall x :: x in g.nodes[v][layer] + [|g.nodes|] ==> x < |g'.vectors|)
              && if layer <= level && v in g'.nodes[|g.nodes|][layer]
                 then GainsLink(cfg, g'.vectors, v, layer, |g.nodes|, g.nodes[v][layer], g'.nodes[v][layer])
                 else g'.nodes[v][layer] == g.nodes[v][layer]
  {
    hide LinkedAt, DescentEnds, StartsBelow, LinksNearest, GainsLink;
    var n := |g.nodes|;
    forall layer: nat | layer <= level
      ensures if n > 0 && layer <= g.maxLayer
              then layer in trails && LinksNearest(cfg, g, vector, layer, trails[layer].beam, g'.nodes[n][layer])
              else g'.nodes[n][layer] == []
    {
      if layer in trails {
        NearestLinked(cfg, g, g', id, vector, level, trails, layer);
      } else {
        assert UntouchedAt(g, g'.nodes, layer);
      }
    }
    forall v: nat, layer: nat | HasLayer(g, v, layer)
      ensures && HasLayer(g', v, layer)
              && (forall x :: x in g.nodes[v][layer] + [n] ==> x < |g'.vectors|)
              && if layer <= level && v in g'.nodes[n][layer]
                 then GainsLink(cfg, g'.vectors, v, layer, n, g.nodes[v][layer], g'.nodes[v][layer])
                 else g'.nodes[v][layer] == g.nodes[v][layer]
    {
      NeighbourLinked(cfg, g, g', id, vector, level, trails, layer, v);
    }
  }

  // ---------- whole runs ----------

  ghost predicate Replaced(cfg: Config, g: Graph, g': Graph, id: VectorId, vector: Vector) {
    exists i :: 0 <= i < |g.ids| && i < |g.vectors| && g.ids[i] == id && |vector| == cfg.dim
                && g' == g.(vectors := g.vectors[i := vector])
  }

  ghost predicate Removed(g: Graph, g': Graph, id: VectorId) {
    exists i :: 0 <= i < |g.ids| && i < |g.deleted| && g.ids[i] == id && g' == g.(deleted := g.deleted[i := true])
  }

  datatype Op = Insert(id: VectorId, vector: Vector, level: nat, trails: map<nat, Trail>) | Remove(id: VectorId)

  /** One call on parallel lists. A vector of the wrong dimension and an unknown id change nothing;
      inserting a known id replaces its vector and nothing else. */
  ghost predicate Effect(cfg: Config, g: Graph, op: Op, g': Graph) {
    Aligned(g) &&
    match op
    case Insert(id, vector, level, trails) =>
      if |vector| != cfg.dim then g' == g
      else if id in g.ids then Replaced(cfg, g, g', id, vector)
      else Insertable(cfg, g, id, vector, level) && Inserted(cfg, g, g', id, vector, level, trails)
    case Remove(id) =>
      if id !in g.ids then g' == g else Removed(g, g', id)
  }

  lemma SameListsOk(cfg: Config, g: Graph, g': Graph)
    requires WellFormed(cfg, g) && Aligned(g')
    requires g'.nodes == g.nodes && g'.ids == g.ids && g'.entryPoint == g.entryPoint && g'.maxLayer == g.maxLayer
    requires forall v :: 0 <= v < |g'.vectors| ==> |g'.vectors[v]| == cfg.dim
    ensures WellFormed(cfg, g')
  {
    forall v: nat, layer: nat | HasLayer(g', v, layer) ensures ListOk(cfg, g', v, layer) {
      assert ListOk(cfg, g, v, layer);
    }
  }

  lemma EffectKeepsWellFormed(cfg: Config, g: Graph, op: Op, g': Graph)
    requires WellFormed(cfg, g) && Effect(cfg, g, op, g')
    ensures WellFormed(cfg, g')
  {
    if op.Insert? && |op.vector| == cfg.dim && op.id !in g.ids {
      InsertKeepsWellFormed(cfg, g, g', op.id, op.vector, op.level, op.trails);
    } else {
      SameListsOk(cfg, g, g');
    }
  }

  /** Every graph in every run of inserts and removes from the empty index is well formed. */
  lemma {:induction false} RunWellFormed(cfg: Config, gs: seq<Graph>, ops: seq<Op>, k: nat)
    requires |gs| == |ops| + 1 && k < |gs| && gs[0] == Empty
    requires forall i :: 0 <= i < |ops| ==> Effect(cfg, gs[i], ops[i], gs[i + 1])
    ensures WellFormed(cfg, gs[k])
  {
    if k == 0 {
      EmptyWellFormed(cfg);
    } else {
      RunWellFormed(cfg, gs, ops, k - 1);
      EffectKeepsWellFormed(cfg, gs[k - 1], ops[k - 1], gs[k]);
    }
  }

  // ---------- the index object ----------

  /** What is known of a layer depends on that layer's lists only. */
  lemma LayerFrame(cfg: Config, g: Graph, vectors: seq<Vector>, before: Adjacency, after: Adjacency,
                   layer: nat, t: Trail)
    requires Aligned(g) && |vectors| == |g.nodes| + 1 == |before|
    requires SameShape(after, before)
    requires forall u :: 0 <= u < |before| && layer < |before[u]| ==> after[u][layer] == before[u][layer]
    ensures UntouchedAt(g, before, layer) ==> UntouchedAt(g, after, layer)
    ensures layer < |before[|g.nodes|]| && LinkedAt(cfg, g, vectors, before, layer, t) ==>
              LinkedAt(cfg, g, vectors, after, layer, t)
  {
  }

  /** Loop invariant of the linking phase: layers `layer..top` are linked, the others untouched. */
  ghost predicate Linking(cfg: Config, g: Graph, vectors: seq<Vector>, nodes: Adjacency,
                          layer: nat, top: nat, trails: map<nat, Trail>, start: nat, curr: nat)
    requires Aligned(g) && |vectors| == |g.nodes| + 1 == |nodes| && top < |nodes[|g.nodes|]|
  {
    var n := |g.nodes|;
    && (forall l: nat :: l in trails <==> layer <= l <= top)
    && (forall l: nat :: l in trails ==>
          LinkedAt(cfg, g, vectors, nodes, l, trails[l]) && StartsBelow(nodes[n], l, trails))
    && (forall l: nat :: l !in trails ==> UntouchedAt(g, nodes, l))
    && curr == (if layer <= top then Onward(nodes[n][layer], trails[layer]) else start)
    && (top in trails ==> trails[top].start == start)
  }

  lemma StartsStay(cfg: Config, g: Graph, vectors: seq<Vector>, before: Adjacency, after: Adjacency,
                   layer: nat, top: nat, trails: map<nat, Trail>, start: nat, curr: nat, t: Trail)
    requires Aligned(g) && |vectors| == |g.nodes| + 1 == |before| && top < |before[|g.nodes|]|
    requires layer <= top && OnlyLayer(before, after, layer) && t.start == curr
    requires Linking(cfg, g, vectors, before, layer + 1, top, trails, start, curr)
    ensures var trails' := trails[layer := t];
            && (forall l: nat :: l in trails' ==> StartsBelow(after[|g.nodes|], l, trails'))
            && (top in trails' ==> trails'[top].start == start)
  {
    hide LinkedAt, UntouchedAt;
    var n := |g.nodes|;
    var trails' := trails[layer := t];
    forall l: nat | l in trails' ensures StartsBelow(after[n], l, trails') {
      if l != layer {
        assert StartsBelow(before[n], l, trails);
      }
    }
  }

  lemma LinkedStays(cfg: Config, g: Graph, vectors: seq<Vector>, before: Adjacency, after: Adjacency,
                    layer: nat, top: nat, trails: map<nat, Trail>, start: nat, curr: nat, next: nat, t: Trail)
    requires Aligned(g) && |vectors| == |g.nodes| + 1 == |before| && top < |before[|g.nodes|]|
    requires layer <= top && OnlyLayer(before, after, layer)
    requires Linking(cfg, g, vectors, before, layer + 1, top, trails, start, curr)
    requires LinkedAt(cfg, g, vectors, after, layer, t) && t.start == curr
    requires next == Onward(after[|g.nodes|][layer], t)
    ensures var trails' := trails[layer := t];
            forall l: nat :: l in trails' ==> LinkedAt(cfg, g, vectors, after, l, trails'[l])
  {
    hide StartsBelow, UntouchedAt;
    var trails' := trails[layer := t];
    forall l: nat | l in trails' ensures LinkedAt(cfg, g, vectors, after, l, trails'[l]) {
      if l != layer {
        LayerFrame(cfg, g, vectors, before, after, l, trails[l]);
      }
    }
  }

  lemma UntouchedStays(cfg: Config, g: Graph, vectors: seq<Vector>, before: Adjacency, after: Adjacency,
                    layer: nat, top: nat, trails: map<nat, Trail>, start: nat, curr: nat, next: nat, t: Trail)
    requires Aligned(g) && |vectors| == |g.nodes| + 1 == |before| && top < |before[|g.nodes|]|
    requires layer <= top && OnlyLayer(before, after, layer)
    requires Linking(cfg, g, vectors, before, layer + 1, top, trails, start, curr)
    requires LinkedAt(cfg, g, vectors, after, layer, t) && t.start == curr
    requires next == Onward(after[|g.nodes|][layer], t)
    ensures var trails' := trails[layer := t]; forall l: nat :: l !in trails' ==> UntouchedAt(g, after, l)
  {
    hide StartsBelow, LinkedAt;
    var trails' := trails[layer := t];
    forall l: nat | l !in trails' ensures UntouchedAt(g, after, l) {
      LayerFrame(cfg, g, vectors, before, after, l, t);
    }
  }

  lemma LinkingStep(cfg: Config, g: Graph, vectors: seq<Vector>, before: Adjacency, after: Adjacency,
                    layer: nat, top: nat, trails: map<nat, Trail>, start: nat, curr: nat, next: nat, t: Trail)
    requires Aligned(g) && |vectors| == |g.nodes| + 1 == |before| && top < |before[|g.nodes|]|
    requires layer <= top && OnlyLayer(before, after, layer)
    requires Linking(cfg, g, vectors, before, layer + 1, top, trails, start, curr)
    requires LinkedAt(cfg, g, vectors, after, layer, t) && t.start == curr
    requires next == Onward(after[|g.nodes|][layer], t)
    ensures Linking(cfg, g, vectors, after, layer, top, trails[layer := t], start, next)
  {
    hide LinkedAt, UntouchedAt, StartsBelow;
    StartsStay(cfg, g, vectors, before, after, layer, top, trails, start, curr, t);
    LinkedStays(cfg, g, vectors, before, after, layer, top, trails, start, curr, next, t);
    UntouchedStays(cfg, g, vectors, before, after, layer, top, trails, start, curr, next, t);
  }

  /** The graph with the fresh node searches, at an untouched layer, like the old graph. */
  lemma UntouchedSameLayer(g: Graph, h: Graph, id: VectorId, vector: Vector, level: nat, layer: nat)
    requires Aligned(g) && Shaped(g, h.nodes, level)
    requires h.vectors == g.vectors + [vector] && h.deleted == g.deleted + [false] && h.ids == g.ids + [id]
    requires UntouchedAt(g, h.nodes, layer)
    ensures SameLayer(g, h, layer)
  {
  }

  lemma FreshUntouched(g: Graph, id: VectorId, vector: Vector, level: nat, layer: nat)
    requires Aligned(g)
    ensures UntouchedAt(g, WithNode(g, id, vector, level).nodes, layer)
  {
  }

  lemma FirstInserted(cfg: Config, g: Graph, g': Graph, id: VectorId, vector: Vector, level: nat)
    requires WellFormed(cfg, g) && g.nodes == []
    requires g' == WithNode(g, id, vector, level).(entryPoint := Some(0), maxLayer := level)
    ensures Inserted(cfg, g, g', id, vector, level, map[])
  {
  }

  lemma NothingLinked(cfg: Config, g: Graph, id: VectorId, vector: Vector, level: nat, top: nat, start: nat)
    requires Aligned(g) && top <= level
    ensures var h := WithNode(g, id, vector, level);
            Linking(cfg, g, h.vectors, h.nodes, top + 1, top, map[], start, start)
  {
    hide UntouchedAt, LinkedAt, StartsBelow;
    var h := WithNode(g, id, vector, level);
    forall l: nat ensures UntouchedAt(g, h.nodes, l) {
      FreshUntouched(g, id, vector, level, l);
    }
  }

  lemma LinkedIsInserted(cfg: Config, g: Graph, g': Graph, id: VectorId, vector: Vector, level: nat,
                         trails: map<nat, Trail>, start: nat, curr: nat)
    requires Aligned(g) && |g.nodes| > 0 && DescentEnds(g, RankTo(cfg, vector), level, start)
    requires g'.ids == g.ids + [id] && g'.vectors == g.vectors + [vector] && g'.deleted == g.deleted + [false]
    requires Shaped(g, g'.nodes, level)
    requires g'.maxLayer == Max(level, g.maxLayer)
    requires g'.entryPoint == if level > g.maxLayer then Some(|g.nodes|) else g.entryPoint
    requires Linking(cfg, g, g'.vectors, g'.nodes, 0, Min(level, g.maxLayer), trails, start, curr)
    ensures Inserted(cfg, g, g', id, vector, level, trails)
  {
  }

  /** A descent over layers that the fresh node does not touch is one over the old graph. */
  lemma DescentTransfers(cfg: Config, g: Graph, h: Graph, rank: Rank, from: nat, top: nat, bottom: nat,
                         stops: seq<nat>)
    requires WellFormed(cfg, g) && Aligned(h) && Descended(h, rank, from, top, bottom, stops) && HasLayer(g, from, top)
    requires forall layer: nat :: SameLayer(g, h, layer)
    ensures Descended(g, rank, from, top, bottom, stops)
  {
    assert Aligned(g);
    hide WellFormed, Walked;
    forall i: nat | i + 1 < |stops| ensures Walked(g, top - i, rank, stops[i], stops[i + 1]) {
      StopIsOld(cfg, g, h, rank, from, top, bottom, stops, i);
      assert Walked(h, top - i, rank, stops[i], stops[i + 1]);
      WalkTransfers(cfg, g, h, top - i, rank, stops[i], stops[i + 1]);
    }
  }

  lemma {:induction false} StopIsOld(cfg: Config, g: Graph, h: Graph, rank: Rank, from: nat, top: nat, bottom: nat,
                                     stops: seq<nat>, i: nat)
    requires WellFormed(cfg, g) && Aligned(h) && Descended(h, rank, from, top, bottom, stops) && HasLayer(g, from, top)
    requires (forall layer: nat :: SameLayer(g, h, layer)) && i < |stops|
    ensures stops[i] < |g.nodes|
  {
    hide WellFormed, Walked;
    if i > 0 {
      StopIsOld(cfg, g, h, rank, from, top, bottom, stops, i - 1);
      assert Walked(h, top - (i - 1), rank, stops[i - 1], stops[i]);
      WalkTransfers(cfg, g, h, top - (i - 1), rank, stops[i - 1], stops[i]);
    }
  }

  lemma WalkTransfers(cfg: Config, g: Graph, h: Graph, layer: nat, rank: Rank, u: nat, v: nat)
    requires WellFormed(cfg, g) && SameLayer(g, h, layer) && Walked(h, layer, rank, u, v) && u < |g.nodes|
    ensures v < |g.nodes| && Walked(g, layer, rank, u, v)
  {
    WellFormedNavigable(cfg, g, layer);
    var n := |g.nodes|;
    var old' := set x | x in Below(n) && layer < |g.nodes[x]|;
    forall x, y | x in old' && Edge(h, layer, x, y) ensures y in old' {
      SameEdges(g, h, layer, x, y);
      assert HasLayer(g, y, layer);
    }
    ReachStaysIn(h, layer, old', u);
    SamePaths(g, h, layer, u, v);
    assert forall x :: 0 <= x < n ==> h.vectors[x] == h.vectors[..n][x];
    forall x: nat | Edge(g, layer, v, x) ensures rank(g.vectors[v]) <= rank(g.vectors[x]) {
      SameEdges(g, h, layer, v, x);
      assert HasLayer(g, x, layer);
    }
  }

  function IndexOf(ids: seq<VectorId>, id: VectorId): (i: nat)
    ensures i <= |ids| && (i < |ids| ==> ids[i] == id) && (i == |ids| ==> id !in ids)
  {
    if ids == [] || ids[0] == id then 0 else 1 + IndexOf(ids[1..], id)
  }

  class Index {
    const cfg: Config
    var nodes: Adjacency
    var ids: seq<VectorId>
    var vectors: seq<Vector>
    var deleted: seq<bool>
    var entryPoint: Option<nat>
    var maxLayer: nat

    function View(): Graph
      reads this
    {
      Graph(nodes, ids, vectors, deleted, entryPoint, maxLayer)
    }

    ghost predicate Valid()
      reads this
    {
      WellFormed(cfg, View())
    }

    constructor (cfg: Config)
      ensures this.cfg == cfg && Valid() && View() == Empty
    {
      this.cfg := cfg;
      nodes, ids, vectors, deleted, entryPoint, maxLayer := [], [], [], [], None, 0;
    }

    method SetEdges(v: nat, layer: nat, list: seq<nat>)
      requires v < |nodes| && layer < |nodes[v]|
      modifies `nodes
      ensures SameShape(nodes, old(nodes))
      ensures forall u, l :: 0 <= u < |nodes| && 0 <= l < |nodes[u]| ==>
                nodes[u][l] == if u == v && l == layer then list else old(nodes)[u][l]
    {
      nodes := nodes[v := nodes[v][layer := list]];
    }

    method ShrinkConnections(v: nat, layer: nat)
      requires v < |nodes| == |vectors| && layer < |nodes[v]|
      modifies `nodes
      ensures SameShape(nodes, old(nodes))
      ensures forall u, l :: 0 <= u < |nodes| && 0 <= l < |nodes[u]| ==>
                nodes[u][l] == if u == v && l == layer
                               then Shrunk(cfg, vectors, v, old(nodes)[v][layer], Cap(cfg, layer))
                               else old(nodes)[u][l]
    {
      var max := Cap(cfg, layer);
      var edges := nodes[v][layer];
      if |edges| <= max {
        return;
      }
      var sorted := SortBy(ByDistanceTo(cfg, vectors, v), edges);
      SetEdges(v, layer, sorted[..max]);
    }

    /** Edges in both directions between the new node and each selected neighbour. */
    method LinkBoth(n: nat, nearest: seq<nat>, layer: nat)
      requires n < |nodes| && layer < |nodes[n]| && nodes[n][layer] == []
      requires Distinct(nearest) && n !in nearest
      requires forall x :: x in nearest ==> x < |nodes| && layer < |nodes[x]|
      modifies `nodes
      ensures SameShape(nodes, old(nodes))
      ensures nodes[n][layer] == nearest
      ensures forall u, l :: 0 <= u < |nodes| && 0 <= l < |nodes[u]| && (u != n || l != layer) ==>
                nodes[u][l] == if l == layer && u in nearest then old(nodes)[u][l] + [n] else old(nodes)[u][l]
    {
      for i := 0 to |nearest|
        invariant SameShape(nodes, old(nodes))
        invariant nodes[n][layer] == nearest[..i]
        invariant forall u, l :: 0 <= u < |nodes| && 0 <= l < |nodes[u]| && (u != n || l != layer) ==>
                    nodes[u][l] == if l == layer && u in nearest[..i] then old(nodes)[u][l] + [n] else old(nodes)[u][l]
      {
        var x := nearest[i];
        assert x !in nearest[..i] && x in nearest;
        assert nearest[..i + 1] == nearest[..i] + [x];
        SetEdges(n, layer, nodes[n][layer] + [x]);
        SetEdges(x, layer, nodes[x][layer] + [n]);
      }
      assert nearest[..|nearest|] == nearest;
    }

    /** Trims every neighbour that now has too many edges. */
    method TrimAll(n: nat, nearest: seq<nat>, layer: nat)
      requires n < |nodes| == |vectors| && layer < |nodes[n]|
      requires Distinct(nearest) && n !in nearest
      requires forall x :: x in nearest ==> x < |nodes| && layer < |nodes[x]|
      modifies `nodes
      ensures SameShape(nodes, old(nodes))
      ensures nodes[n][layer] == old(nodes)[n][layer]
      ensures forall u, l :: 0 <= u < |nodes| && 0 <= l < |nodes[u]| && (u != n || l != layer) ==>
                nodes[u][l] == if l == layer && u in nearest
                               then Shrunk(cfg, vectors, u, old(nodes)[u][l], Cap(cfg, layer))
                               else old(nodes)[u][l]
    {
      hide Shrunk;
      for i := 0 to |nearest|
        invariant SameShape(nodes, old(nodes))
        invariant nodes[n][layer] == old(nodes)[n][layer]
        invariant forall u, l :: 0 <= u < |nodes| && 0 <= l < |nodes[u]| && (u != n || l != layer) ==>
                    nodes[u][l] == if l == layer && u in nearest[..i]
                                   then Shrunk(cfg, vectors, u, old(nodes)[u][l], Cap(cfg, layer))
                                   else old(nodes)[u][l]
      {
        assert nearest[i] !in nearest[..i] && nearest[i] in nearest;
        assert nearest[..i + 1] == nearest[..i] + [nearest[i]];
        ShrinkConnections(nearest[i], layer);
      }
      assert nearest[..|nearest|] == nearest;
    }

    /** Bidirectional links between the new node and its selected neighbours, then trimming. */
    method Connect(n: nat, nearest: seq<nat>, layer: nat)
      requires n < |nodes| == |vectors| && layer < |nodes[n]| && nodes[n][layer] == []
      requires Distinct(nearest) && n !in nearest
      requires forall x :: x in nearest ==> x < |nodes| && layer < |nodes[x]|
      modifies `nodes
      ensures SameShape(nodes, old(nodes))
      ensures nodes[n][layer] == nearest
      ensures forall u, l :: 0 <= u < |nodes| && 0 <= l < |nodes[u]| && (u != n || l != layer) ==>
                nodes[u][l] == if l == layer && u in nearest
                               then Shrunk(cfg, vectors, u, old(nodes)[u][l] + [n], Cap(cfg, layer))
                               else old(nodes)[u][l]
    {
      hide Shrunk, Distinct;
      LinkBoth(n, nearest, layer);
      TrimAll(n, nearest, layer);
    }

    /** Beam search for the new node at one layer; the certificate is about the old graph. */
    method FindNeighbors(ghost g: Graph, curr: nat, layer: nat) returns (nearest: seq<nat>, ghost t: Trail)
      requires Navigable(g, layer) && SameLayer(g, View(), layer) && HasLayer(g, curr, layer)
      ensures Certified(g, layer, RankTo(cfg, vectors[|g.nodes|]), curr, cfg.efConstruction, t.beam, t.seen)
      ensures t.start == curr && nearest == SelectNeighbors(t.beam, Cap(cfg, layer))
      ensures Distinct(nearest) && forall x :: x in nearest ==> HasLayer(g, x, layer)
    {
      hide Certified, SelectNeighbors, Navigable;
      ghost var h := View();
      var rank := RankTo(cfg, vectors[|nodes| - 1]);
      SameNavigable(g, h, layer);
      var candidates, seen := SearchLayer(View(), rank, curr, cfg.efConstruction, layer);
      CertificateTransfers(g, h, layer, rank, curr, cfg.efConstruction, candidates, seen);
      t := Trail(curr, candidates, seen);
      nearest := SelectNeighbors(candidates, Cap(cfg, layer));
      CertifiedSeen(g, layer, rank, curr, cfg.efConstruction, candidates, seen);
      SelectDistinct(g, rank, candidates, seen, Cap(cfg, layer));
    }

    /** Search one layer for the new node's neighbours and link it there. */
    method LinkLayer(ghost g: Graph, curr: nat, layer: nat) returns (next: nat, ghost t: Trail)
      requires Navigable(g, layer) && SameLayer(g, View(), layer) && HasLayer(g, curr, layer)
      requires HasLayer(View(), |g.nodes|, layer)
      modifies `nodes
      ensures OnlyLayer(old(nodes), nodes, layer)
      ensures LinkedAt(cfg, g, vectors, nodes, layer, t) && t.start == curr
      ensures HasLayer(g, next, layer)
      ensures next == Onward(nodes[|g.nodes|][layer], t)
    {
      hide Certified, Navigable;
      var nearest;
      nearest, t := FindNeighbors(g, curr, layer);
      Connect(|nodes| - 1, nearest, layer);
      next := if nearest != [] then nearest[0] else curr;
    }

    /** The fields describe `g` plus the new node, up to edges. */
    ghost predicate Fresh(g: Graph, id: VectorId, vector: Vector, level: nat, nodes: Adjacency)
      reads `ids, `vectors, `deleted
    {
      && Aligned(g) && Shaped(g, nodes, level)
      && ids == g.ids + [id] && vectors == g.vectors + [vector] && deleted == g.deleted + [false]
    }

    /** Add the fresh, unconnected node. */
    method AddNode(id: VectorId, vector: Vector, level: nat)
      requires Aligned(View())
      modifies `nodes, `ids, `vectors, `deleted
      ensures View() == WithNode(old(View()), id, vector, level)
    {
      nodes := nodes + [seq(level + 1, _ => [])];
      ids := ids + [id];
      vectors := vectors + [vector];
      deleted := deleted + [false];
    }

    /** Phase 1: greedy descent from the entry point to the new node's level. */
    method FindStart(ghost g: Graph, ghost id: VectorId, vector: Vector, level: nat) returns (curr: nat)
      requires WellFormed(cfg, g) && g.nodes != [] && View() == WithNode(g, id, vector, level)
      ensures HasLayer(g, curr, Min(level, maxLayer)) && DescentEnds(g, RankTo(cfg, vector), level, curr)
    {
      ghost var h := View();
      forall layer: nat ensures Navigable(h, layer) {
        WellFormedNavigable(cfg, g, layer);
        FreshUntouched(g, id, vector, level, layer);
        UntouchedSameLayer(g, h, id, vector, level, layer);
        SameNavigable(g, h, layer);
      }
      ghost var stops;
      curr, stops := Descend(View(), RankTo(cfg, vector), entryPoint.value, maxLayer, level);
      if layer, u :| Edge(h, layer, u, curr) {
        WellFormedNavigable(cfg, g, layer);
        FreshUntouched(g, id, vector, level, layer);
        UntouchedSameLayer(g, h, id, vector, level, layer);
        SameEdges(g, h, layer, u, curr);
      }
      assert curr < |g.nodes|;
      DescentTransfers(cfg, g, h, RankTo(cfg, vector), entryPoint.value, maxLayer, level, stops);
    }

    method LinkNext(ghost g: Graph, ghost id: VectorId, ghost vector: Vector, ghost level: nat, layer: nat,
                    ghost top: nat, ghost trails: map<nat, Trail>, ghost start: nat, curr: nat)
      returns (next: nat, ghost trails': map<nat, Trail>)
      requires WellFormed(cfg, g) && Fresh(g, id, vector, level, nodes)
      requires layer <= top <= level && HasLayer(g, curr, layer)
      requires Linking(cfg, g, vectors, nodes, layer + 1, top, trails, start, curr)
      modifies `nodes
      ensures Fresh(g, id, vector, level, nodes)
      ensures HasLayer(g, next, layer)
      ensures Linking(cfg, g, vectors, nodes, layer, top, trails', start, next)
    {
      hide *;
      ghost var before, t := nodes, Trail(0, [], {});
      BeforeLinking(g, id, vector, level, layer, top, trails, start, curr);
      next, t := LinkLayer(g, curr, layer);
      trails' := trails[layer := t];
      AfterLinking(g, id, vector, level, layer, top, trails, before, start, curr, next, t);
    }

    lemma BeforeLinking(g: Graph, id: VectorId, vector: Vector, level: nat, layer: nat, top: nat,
                        trails: map<nat, Trail>, start: nat, curr: nat)
      requires WellFormed(cfg, g) && Fresh(g, id, vector, level, nodes) && layer <= top <= level
      requires Linking(cfg, g, vectors, nodes, layer + 1, top, trails, start, curr)
      ensures Navigable(g, layer) && SameLayer(g, View(), layer) && HasLayer(View(), |g.nodes|, layer)
    {
      assert UntouchedAt(g, nodes, layer);
      UntouchedSameLayer(g, View(), id, vector, level, layer);
      WellFormedNavigable(cfg, g, layer);
    }

    lemma AfterLinking(g: Graph, id: VectorId, vector: Vector, level: nat, layer: nat, top: nat,
                       trails: map<nat, Trail>, before: Adjacency, start: nat, curr: nat, next: nat, t: Trail)
      requires Fresh(g, id, vector, level, before) && layer <= top <= level
      requires Linking(cfg, g, vectors, before, layer + 1, top, trails, start, curr)
      requires OnlyLayer(before, nodes, layer)
      requires LinkedAt(cfg, g, vectors, nodes, layer, t) && t.start == curr
      requires next == Onward(nodes[|g.nodes|][layer], t)
      ensures Fresh(g, id, vector, level, nodes)
      ensures Linking(cfg, g, vectors, nodes, layer, top, trails[layer := t], start, next)
    {
      ShapeStays(g, before, nodes, level, layer);
      LinkingStep(cfg, g, vectors, before, nodes, layer, top, trails, start, curr, next, t);
    }

    lemma BeginLinking(g: Graph, id: VectorId, vector: Vector, level: nat, top: nat, start: nat)
      requires Aligned(g) && View() == WithNode(g, id, vector, level) && top <= level
      ensures Fresh(g, id, vector, level, nodes)
      ensures Linking(cfg, g, vectors, nodes, top + 1, top, map[], start, start)
    {
      hide Linking;
      NothingLinked(cfg, g, id, vector, level, top, start);
    }

    /** Phase 2: link the new node layer by layer, downwards. */
    method Link(ghost g: Graph, ghost id: VectorId, ghost vector: Vector, level: nat, start: nat)
      returns (ghost trails: map<nat, Trail>, ghost last: nat)
      requires WellFormed(cfg, g) && View() == WithNode(g, id, vector, level)
      requires HasLayer(g, start, Min(level, maxLayer))
      modifies `nodes
      ensures Fresh(g, id, vector, level, nodes)
      ensures Linking(cfg, g, vectors, nodes, 0, Min(level, maxLayer), trails, start, last)
    {
      hide WithNode, LinkedAt, UntouchedAt, Navigable, SameLayer, Linking, ListOk, StartsBelow;
      var top := Min(level, maxLayer);
      var layer := top + 1;
      var curr := start;
      trails := map[];
      BeginLinking(g, id, vector, level, top, start);
      hide WellFormed;
      while layer > 0
        invariant 0 <= layer <= top + 1
        invariant Fresh(g, id, vector, level, nodes)
        invariant HasLayer(g, curr, if layer == 0 then 0 else layer - 1)
        invariant Linking(cfg, g, vectors, nodes, layer, top, trails, start, curr)
      {
        layer := layer - 1;
        curr, trails := LinkNext(g, id, vector, level, layer, top, trails, start, curr);
      }
      last := curr;
    }

    /** Insert or replace. `draw` is the level the random generator produced before capping. */
    method InsertVector(id: VectorId, vector: Vector, draw: nat) returns (r: Result<()>, ghost trails: map<nat, Trail>)
      requires Valid()
      modifies this
      ensures Valid()
      ensures r == if |vector| != cfg.dim then DimensionMismatch(|vector|, cfg.dim) else Ok(())
      ensures Effect(cfg, old(View()), Insert(id, vector, LevelFor(draw, |old(nodes)|), trails), View())
    {
      hide Inserted, Linking;
      trails := map[];
      if |vector| != cfg.dim {
        return DimensionMismatch(|vector|, cfg.dim), trails;
      }
      ghost var g := View();
      var existing := IndexOf(ids, id);
      if existing < |ids| {
        vectors := vectors[existing := vector];
        SameListsOk(cfg, g, View());
        return Ok(()), trails;
      }
      var n := |nodes|;
      var level := LevelFor(draw, n);
      AddNode(id, vector, level);
      if n == 0 {
        entryPoint, maxLayer := Some(0), level;
        FirstInserted(cfg, g, View(), id, vector, level);
      } else {
        var start := FindStart(g, id, vector, level);
        ghost var last;
        trails, last := Link(g, id, vector, level, start);
        if level > maxLayer {
          maxLayer := level;
          entryPoint := Some(n);
        }
        LinkedIsInserted(cfg, g, View(), id, vector, level, trails, start, last);
      }
      InsertKeepsWellFormed(cfg, g, View(), id, vector, level, trails);
      r := Ok(());
    }

    method RemoveVector(id: VectorId) returns (r: Result<()>)
      requires Valid()
      modifies `deleted
      ensures Valid()
      ensures r == if id !in ids then NotFound(id) else Ok(())
      ensures Effect(cfg, old(View()), Remove(id), View())
    {
      ghost var g := View();
      var pos := IndexOf(ids, id);
      if pos == |ids| {
        return NotFound(id);
      }
      deleted := deleted[pos := true];
      SameListsOk(cfg, g, View());
      r := Ok(());
    }
  }
}
