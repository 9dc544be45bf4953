/** The HNSW index: search, insert, remove, and the invariants every run keeps. */
module HnswIndex {
  import opened Options
  import opened HnswGraph
  import opened HnswSearch
  import opened Log2
  import opened Sorting

  const MAX_LAYER: nat := 32

  datatype Config = Config(
    dim: nat, m: nat, mMax0: nat, efConstruction: nat,
    dist: (Vector, Vector) -> real,
    distWeighted: (Vector, Vector, Vector) -> real)

  datatype Result<T> = Ok(value: T) | DimensionMismatch(got: nat, want: nat) | NotFound(id: VectorId)

  /** Connections a node may have at a layer. */
  function Cap(cfg: Config, layer: nat): nat {
    if layer == 0 then cfg.mMax0 else cfg.m
  }

  /** Highest level a new node may get when `n` nodes exist. */
  function MaxAllowedLevel(n: nat): nat {
    if n == 0 then 0 else Max(1, CeilLog2(n))
  }

  function Min(a: nat, b: nat): nat {
    if a < b then a else b
  }

  function LevelFor(draw: nat, n: nat): nat {
    Min(Min(draw, MAX_LAYER), MaxAllowedLevel(n))
  }

  /** The level of a new node: what was drawn, at most 32 and at most max(1, ceil(log2 n)), and 0 for the
      first node. */
  lemma LevelIsCapped(draw: nat, n: nat)
    ensures var level := LevelFor(draw, n);
            && (n == 0 ==> level == 0)
            && (n > 0 ==> exists cap: nat ::
                  && cap >= 1 && n <= Pow2(cap) && (cap > 1 ==> Pow2(cap - 1) < n)
                  && level <= draw && level <= 32 && level <= cap && (level == draw || level == 32 || level == cap))
  {
    if n > 0 {
      hide Pow2, CeilLog2;
      var cap := MaxAllowedLevel(n);
      CeilLog2IsLeast(n);
      SmallPowers();
      assert n <= Pow2(cap);
    }
  }

  lemma SmallPowers()
    ensures Pow2(0) == 1 && Pow2(1) == 2 && CeilLog2(1) == 0
  {
  }

  // ---------- well-formed graphs ----------

  ghost predicate ListOk(cfg: Config, g: Graph, v: nat, layer: nat)
    requires HasLayer(g, v, layer)
  {
    var list := g.nodes[v][layer];
    && Distinct(list)
    && v !in list
    && |list| <= Cap(cfg, layer)
    && forall x :: x in list ==> HasLayer(g, x, layer)
  }

  ghost predicate WellFormed(cfg: Config, g: Graph) {
    && Aligned(g)
    && Distinct(g.ids)
    && (forall v :: 0 <= v < |g.vectors| ==> |g.vectors[v]| == cfg.dim)
    && (forall v :: 0 <= v < |g.nodes| ==> 0 < |g.nodes[v]| <= g.maxLayer + 1)
    && (forall v: nat, layer: nat :: HasLayer(g, v, layer) ==> ListOk(cfg, g, v, layer))
    && (if g.nodes == [] then g.entryPoint.None? && g.maxLayer == 0
        else g.entryPoint.Some? && HasLayer(g, g.entryPoint.value, g.maxLayer)
             && g.maxLayer <= Min(MAX_LAYER, MaxAllowedLevel(|g.nodes| - 1)))
  }

  const Empty := Graph([], [], [], [], None, 0)

  lemma EmptyWellFormed(cfg: Config)
    ensures WellFormed(cfg, Empty)
  {
  }

  lemma WellFormedNavigable(cfg: Config, g: Graph, layer: nat)
    requires WellFormed(cfg, g)
    ensures Navigable(g, layer)
  {
    forall v: nat, x: nat | HasLayer(g, v, layer) && x in g.nodes[v][layer]
      ensures HasLayer(g, x, layer)
    {
      assert ListOk(cfg, g, v, layer);
    }
  }

  // ---------- search ----------

  function RankTo(cfg: Config, target: Vector): Rank {
    v => cfg.dist(v, target)
  }

  function RankFor(cfg: Config, query: Vector, mask: Option<Vector>): Rank {
    if mask.Some? then v => cfg.distWeighted(v, query, mask.value) else RankTo(cfg, query)
  }

  function LiveOnly(g: Graph, s: seq<Scored>): (r: seq<Scored>)
    requires forall x :: x in s ==> x.node < |g.deleted|
    ensures |r| <= |s|
    ensures forall x :: x in r <==> x in s && !g.deleted[x.node]
  {
    if s == [] then []
    else if g.deleted[s[0].node] then LiveOnly(g, s[1..])
    else [s[0]] + LiveOnly(g, s[1..])
  }

  lemma {:induction false} LiveOnlyRanked(g: Graph, s: seq<Scored>)
    requires (forall x :: x in s ==> x.node < |g.deleted|) && Ranked(s)
    ensures Ranked(LiveOnly(g, s))
  {
    if s != [] {
      LiveOnlyRanked(g, s[1..]);
      var r := LiveOnly(g, s[1..]);
      forall j | 0 <= j < |r| ensures Before(s[0], r[j]) {
        assert r[j] in s[1..];
      }
    }
  }

  function Take<T>(s: seq<T>, k: nat): seq<T> {
    if k < |s| then s[..k] else s
  }

  /** External ids with distances. */
  function Answers(g: Graph, hits: seq<Scored>): (r: seq<(VectorId, real)>)
    requires forall x :: x in hits ==> x.node < |g.ids|
    ensures |r| == |hits|
    ensures forall i :: 0 <= i < |r| ==> r[i] == (g.ids[hits[i].node], hits[i].dist)
  {
    if hits == [] then [] else [(g.ids[hits[0].node], hits[0].dist)] + Answers(g, hits[1..])
  }

  /** Live nodes a layer-0 search from `end` can reach through live nodes. */
  ghost function LiveReach(g: Graph, end: nat): set<nat>
    requires Aligned(g)
  {
    set v | v in Below(|g.nodes|) && !g.deleted[v] && Reachable(g, 0, end, v)
  }

  /** A greedy walk at one layer leads from `u` to `v`. */
  ghost predicate Walked(g: Graph, layer: nat, rank: Rank, u: nat, v: nat)
    requires Aligned(g)
  {
    && HasLayer(g, u, layer) && HasLayer(g, v, layer)
    && Reachable(g, layer, u, v)
    && LocalMinimum(g, layer, rank, v)
    && rank(g.vectors[v]) <= rank(g.vectors[u])
  }

  /** One greedy walk at each layer from `top` down to `bottom + 1`, each from where the one above stopped. */
  ghost predicate Descended(g: Graph, rank: Rank, from: nat, top: nat, bottom: nat, stops: seq<nat>)
    requires Aligned(g)
  {
    && |stops| == 1 + (if top > bottom then top - bottom else 0)
    && stops[0] == from
    && forall i: nat :: i + 1 < |stops| ==> Walked(g, top - i, rank, stops[i], stops[i + 1])
  }

  /** Where such a descent from the entry point can end. */
  ghost predicate DescentEnds(g: Graph, rank: Rank, bottom: nat, end: nat)
    requires Aligned(g)
  {
    && g.entryPoint.Some?
    && exists stops :: Descended(g, rank, g.entryPoint.value, g.maxLayer, bottom, stops) && stops[|stops| - 1] == end
  }

  /** What a finished search reports. `end` is where the descent stopped, `hits` the ranked answer. */
  ghost predicate SearchReport(cfg: Config, g: Graph, rank: Rank, ef: nat, end: nat, hits: seq<Scored>)
    requires WellFormed(cfg, g) && g.nodes != []
  {
    && HasLayer(g, end, 0)
    && DescentEnds(g, rank, 0, end)
    && (exists beam, seen :: Certified(g, 0, rank, end, ef, beam, seen) && hits == Take(LiveOnly(g, beam), ef))
    && Ranked(hits) && |hits| <= ef
    && (forall x :: x in hits ==> x.node in LiveReach(g, end) && x == Item(g, rank, x.node))
    && (|g.nodes| <= ef ==> hits == BruteForce(g, rank, LiveReach(g, end)))
  }

  lemma ReportHolds(cfg: Config, g: Graph, rank: Rank, ef: nat, end: nat, beam: seq<Scored>, seen: set<nat>)
    requires WellFormed(cfg, g) && g.nodes != []
    requires HasLayer(g, end, 0) && DescentEnds(g, rank, 0, end)
    requires Certified(g, 0, rank, end, ef, beam, seen)
    ensures SearchReport(cfg, g, rank, ef, end, Take(LiveOnly(g, beam), ef))
  {
    var live := LiveOnly(g, beam);
    var hits := Take(live, ef);
    LiveOnlyRanked(g, beam);
    if |g.nodes| <= ef {
      Exhaustive(g, 0, rank, end, ef, beam, seen);
      NodesCount(beam, rank, g);
      SubsetCount(NodesOf(beam), Below(|g.nodes|));
      assert hits == live;
      var S := LiveReach(g, end);
      forall x ensures x in hits <==> x in BruteForce(g, rank, S) {
        if x.node in S && x == Item(g, rank, x.node) {
          assert x.node in NodesOf(beam);
          var y :| y in beam && y.node == x.node;
        }
      }
      BruteForceRanked(g, rank, S);
      RankedUnique(hits, BruteForce(g, rank, S));
    }
  }

  /** Greedy descent through the layers above `bottom`. */
  method Descend(g: Graph, rank: Rank, from: nat, top: nat, bottom: nat) returns (curr: nat, ghost stops: seq<nat>)
    requires forall layer: nat :: Navigable(g, layer)
    requires HasLayer(g, from, top)
    ensures Aligned(g) && HasLayer(g, curr, Min(top, bottom))
    ensures Descended(g, rank, from, top, bottom, stops) && curr == stops[|stops| - 1]
    ensures curr == from || exists layer, u :: Edge(g, layer, u, curr)
  {
    assert Navigable(g, 0);
    curr, stops := from, [from];
    var layer := top;
    while layer > bottom
      invariant Min(top, bottom) <= layer <= top
      invariant HasLayer(g, curr, layer)
      invariant Descended(g, rank, from, top, layer, stops) && curr == stops[|stops| - 1]
      invariant curr == from || exists l, u :: Edge(g, l, u, curr)
    {
      assert Navigable(g, layer);
      var next, _ := GreedySearchLayer(g, rank, curr, layer);
      WalkedOn(g, rank, from, top, layer, stops, next);
      curr, stops := next, stops + [next];
      layer := layer - 1;
    }
  }

  lemma WalkedOn(g: Graph, rank: Rank, from: nat, top: nat, layer: nat, stops: seq<nat>, next: nat)
    requires Aligned(g) && 0 < layer <= top && Descended(g, rank, from, top, layer, stops)
    requires Walked(g, layer, rank, stops[|stops| - 1], next)
    ensures Descended(g, rank, from, top, layer - 1, stops + [next])
  {
    hide Walked;
    var stops' := stops + [next];
    forall i: nat | i + 1 < |stops'| ensures Walked(g, top - i, rank, stops'[i], stops'[i + 1]) {
      if i + 1 < |stops| {
        assert Walked(g, top - i, rank, stops[i], stops[i + 1]);
      }
    }
  }

  lemma AnswersSorted(g: Graph, hits: seq<Scored>)
    requires (forall x :: x in hits ==> x.node < |g.ids|) && Ranked(hits)
    ensures SortBy((p: (VectorId, real)) => p.1, Answers(g, hits)) == Answers(g, hits)
  {
    var key := (p: (VectorId, real)) => p.1;
    var r := Answers(g, hits);
    forall i, j | 0 <= i < j < |r| ensures key(r[i]) <= key(r[j]) {
      assert Before(hits[i], hits[j]);
    }
    SortOfSorted(key, r);
  }

  /** An answer comes from a live node that the search can reach, with its distance. */
  ghost predicate AnswerOf(g: Graph, distance: Rank, end: nat, v: nat, answer: (VectorId, real))
    requires Aligned(g)
  {
    && v < |g.nodes| && !g.deleted[v] && Reachable(g, 0, end, v)
    && answer == (g.ids[v], distance(g.vectors[v]))
  }

  /** Every live node that can be reached is answered. */
  ghost predicate AllAnswered(g: Graph, distance: Rank, end: nat, answers: seq<(VectorId, real)>)
    requires Aligned(g)
  {
    forall v: nat :: v < |g.nodes| && !g.deleted[v] && Reachable(g, 0, end, v) ==>
      (g.ids[v], distance(g.vectors[v])) in answers
  }

  /** The answers of a search in terms of ids and distances: at most `ef`, ascending, of different
      vectors, and all that can be reached if `ef` is at least the number of nodes. */
  ghost predicate Answered(g: Graph, distance: Rank, ef: nat, end: nat, answers: seq<(VectorId, real)>)
    requires Aligned(g)
  {
    && |answers| <= ef
    && (forall i, j :: 0 <= i < j < |answers| ==> answers[i].1 <= answers[j].1 && answers[i].0 != answers[j].0)
    && (forall a :: a in answers ==> exists v: nat :: AnswerOf(g, distance, end, v, a))
    && (|g.nodes| <= ef ==> AllAnswered(g, distance, end, answers))
  }

  lemma HitsAnswer(cfg: Config, g: Graph, rank: Rank, distance: Rank, ef: nat, end: nat, hits: seq<Scored>)
    requires WellFormed(cfg, g) && g.nodes != [] && SearchReport(cfg, g, rank, ef, end, hits)
    requires forall x :: rank(x) == distance(x)
    requires forall x :: x in hits ==> x.node < |g.ids|
    ensures Answered(g, distance, ef, end, Answers(g, hits))
  {
    assert Aligned(g) && Ranked(hits) && |hits| <= ef && |Answers(g, hits)| == |hits|;
    assert |g.nodes| <= ef ==> hits == BruteForce(g, rank, LiveReach(g, end));
    assert forall x :: x in hits ==> x.node in LiveReach(g, end) && x == Item(g, rank, x.node);
    hide *;
    HitsDiffer(cfg, g, rank, hits);
    HitsComeFrom(g, rank, distance, end, hits);
    if |g.nodes| <= ef {
      ReachedAreAnswered(g, rank, distance, end, hits);
    }
    AnsweredParts(g, distance, ef, end, Answers(g, hits));
  }

  lemma AnsweredParts(g: Graph, distance: Rank, ef: nat, end: nat, answers: seq<(VectorId, real)>)
    requires Aligned(g) && |answers| <= ef
    requires forall i, j :: 0 <= i < j < |answers| ==> answers[i].1 <= answers[j].1 && answers[i].0 != answers[j].0
    requires forall a :: a in answers ==> exists v: nat :: AnswerOf(g, distance, end, v, a)
    requires |g.nodes| <= ef ==> AllAnswered(g, distance, end, answers)
    ensures Answered(g, distance, ef, end, answers)
  {
    hide Reachable;
  }

  lemma HitsComeFrom(g: Graph, rank: Rank, distance: Rank, end: nat, hits: seq<Scored>)
    requires Aligned(g) && forall x :: rank(x) == distance(x)
    requires forall x :: x in hits ==> x.node < |g.ids| && x.node in LiveReach(g, end) && x == Item(g, rank, x.node)
    ensures forall a :: a in Answers(g, hits) ==> exists v: nat :: AnswerOf(g, distance, end, v, a)
  {
    hide Reachable;
    var answers := Answers(g, hits);
    forall a | a in answers ensures exists v: nat :: AnswerOf(g, distance, end, v, a) {
      var i :| 0 <= i < |answers| && answers[i] == a;
      assert hits[i] in hits;
      assert AnswerOf(g, distance, end, hits[i].node, a);
    }
  }

  lemma ReachedAreAnswered(g: Graph, rank: Rank, distance: Rank, end: nat, hits: seq<Scored>)
    requires Aligned(g) && hits == BruteForce(g, rank, LiveReach(g, end)) && forall x :: x in hits ==> x.node < |g.ids|
    requires forall x :: rank(x) == distance(x)
    ensures AllAnswered(g, distance, end, Answers(g, hits))
  {
    hide Reachable;
    forall v: nat | v < |g.nodes| && !g.deleted[v] && Reachable(g, 0, end, v)
      ensures (g.ids[v], distance(g.vectors[v])) in Answers(g, hits)
    {
      var x := Item(g, rank, v);
      assert v in LiveReach(g, end);
      var i :| 0 <= i < |hits| && hits[i] == x;
      assert Answers(g, hits)[i] == (g.ids[v], distance(g.vectors[v]));
    }
  }

  lemma HitsDiffer(cfg: Config, g: Graph, rank: Rank, hits: seq<Scored>)
    requires WellFormed(cfg, g) && Ranked(hits)
    requires forall x :: x in hits ==> x.node < |g.ids| && x == Item(g, rank, x.node)
    ensures var answers := Answers(g, hits);
            forall i, j :: 0 <= i < j < |answers| ==> answers[i].1 <= answers[j].1 && answers[i].0 != answers[j].0
  {
    forall i, j | 0 <= i < j < |hits|
      ensures hits[i].dist <= hits[j].dist && g.ids[hits[i].node] != g.ids[hits[j].node]
    {
      assert Before(hits[i], hits[j]);
      assert hits[i] in hits && hits[j] in hits;
    }
  }

  method Search(cfg: Config, g: Graph, query: Vector, ef: nat, mask: Option<Vector>)
    returns (r: Result<seq<(VectorId, real)>>, ghost end: nat, ghost hits: seq<Scored>)
    requires WellFormed(cfg, g)
    ensures |query| != cfg.dim ==> r == DimensionMismatch(|query|, cfg.dim)
    ensures |query| == cfg.dim && g.nodes == [] ==> r == Ok([])
    ensures |query| == cfg.dim && g.nodes != [] ==>
              && SearchReport(cfg, g, RankFor(cfg, query, mask), ef, end, hits)
              && (forall x :: x in hits ==> x.node < |g.ids|)
              && r == Ok(Answers(g, hits))
    ensures forall v: Vector :: RankFor(cfg, query, mask)(v) ==
              if mask.Some? then cfg.distWeighted(v, query, mask.value) else cfg.dist(v, query)
    ensures |query| == cfg.dim && g.nodes != [] ==>
              var distance := (v: Vector) => if mask.Some? then cfg.distWeighted(v, query, mask.value)
                                             else cfg.dist(v, query);
              r.Ok? && Answered(g, distance, ef, end, r.value)
  {
    end, hits := 0, [];
    if |query| != cfg.dim {
      return DimensionMismatch(|query|, cfg.dim), end, hits;
    }
    if g.nodes == [] {
      return Ok([]), end, hits;
    }
    var rank := RankFor(cfg, query, mask);
    forall layer: nat ensures Navigable(g, layer) {
      WellFormedNavigable(cfg, g, layer);
    }
    var curr, stops := Descend(g, rank, g.entryPoint.value, g.maxLayer, 0);
    end := curr;
    var beam, seen := SearchLayer(g, rank, curr, ef, 0);
    ReportHolds(cfg, g, rank, ef, end, beam, seen);
    hits := Take(LiveOnly(g, beam), ef);
    var results := Answers(g, Take(LiveOnly(g, beam), ef));
    AnswersSorted(g, hits);
    r := Ok(SortBy((p: (VectorId, real)) => p.1, results));
    ghost var distance := (v: Vector) => if mask.Some? then cfg.distWeighted(v, query, mask.value)
                                         else cfg.dist(v, query);
    HitsAnswer(cfg, g, rank, distance, ef, end, hits);
  }
}
