/** Searching one layer: the two-heap beam search and the greedy walk, with their certificates. */
module HnswSearch {
  import opened HnswGraph

  function Max(a: nat, b: nat): nat {
    if a < b then b else a
  }

  // ---------- what a beam search guarantees ----------

  ghost predicate SeenFrom(g: Graph, layer: nat, start: nat, seen: set<nat>) {
    start in seen && forall v :: v in seen ==> HasLayer(g, v, layer) && Reachable(g, layer, start, v)
  }

  ghost predicate ItemsOf(g: Graph, rank: Rank, s: seq<Scored>, seen: set<nat>) {
    Ranked(s) && forall x :: x in s ==> x.node in seen && x.node < |g.vectors| && x == Item(g, rank, x.node)
  }

  /** A seen node that is not among the results is no closer than the farthest of `ef` results. */
  ghost predicate KeptOrFarther(g: Graph, rank: Rank, ef: nat, res: seq<Scored>, v: nat)
    requires v < |g.vectors| && res != []
  {
    Item(g, rank, v) in res || (|res| >= ef && Item(g, rank, v).dist >= Last(res).dist)
  }

  /** The certificate of a finished beam search: the results are ranked with true distances, every
      seen node is kept or no closer than the farthest result, and every live neighbour of a result
      was seen. */
  ghost predicate Certified(g: Graph, layer: nat, rank: Rank, start: nat, ef: nat,
                            res: seq<Scored>, seen: set<nat>)
    requires Aligned(g)
  {
    && SeenFrom(g, layer, start, seen)
    && ItemsOf(g, rank, res, seen)
    && 0 < |res| <= Max(1, ef)
    && (forall v :: v in seen ==> KeptOrFarther(g, rank, ef, res, v))
    && forall x, v :: x in res && Edge(g, layer, x.node, v) ==> v in seen
  }

  function NodesOf(s: seq<Scored>): set<nat> {
    set x | x in s :: x.node
  }

  lemma {:induction false} NodesCount(s: seq<Scored>, rank: Rank, g: Graph)
    requires forall x :: x in s ==> x.node < |g.vectors| && x == Item(g, rank, x.node)
    requires Ranked(s)
    ensures |NodesOf(s)| == |s|
  {
    if s != [] {
      NodesCount(s[1..], rank, g);
      assert s == [s[0]] + s[1..];
      assert NodesOf(s) == {s[0].node} + NodesOf(s[1..]);
      forall x | x in s[1..] ensures x.node != s[0].node {
        assert Before(s[0], x);
      }
    }
  }

  /** All node indices below `n`. */
  function Below(n: nat): (r: set<nat>)
    ensures |r| == n && forall v: nat :: v in r <==> v < n
  {
    if n == 0 then {} else Below(n - 1) + {n - 1}
  }

  lemma SubsetCount(a: set<nat>, b: set<nat>)
    requires a <= b
    ensures |a| <= |b| && (|a| == |b| ==> a == b)
  {
    assert b == a + (b - a);
  }

  /** A beam that did not fill up, or that is as wide as the graph, found everything reachable. */
  lemma Exhaustive(g: Graph, layer: nat, rank: Rank, start: nat, ef: nat, res: seq<Scored>, seen: set<nat>)
    requires Aligned(g) && Certified(g, layer, rank, start, ef, res, seen)
    requires |res| < ef || |g.nodes| <= ef
    ensures forall v :: v in NodesOf(res) <==> Reachable(g, layer, start, v)
  {
    var all := Below(|g.nodes|);
    var found := NodesOf(res);
    NodesCount(res, rank, g);
    SubsetCount(found, all);
    forall v | v in seen ensures v in found {
      if Item(g, rank, v) !in res {
        assert |res| >= ef;
        assert found == all;
        assert v in all;
      }
    }
    assert found == seen;
    forall u, v | u in found && Edge(g, layer, u, v) ensures v in found {
      var x :| x in res && x.node == u;
      assert Edge(g, layer, x.node, v);
    }
    ReachStaysIn(g, layer, found, start);
  }

  // ---------- the beam search loop ----------

  /** Loop invariant: `done` nodes have been expanded, the node of `current` is being expanded. */
  ghost predicate Progress(g: Graph, layer: nat, rank: Rank, start: nat, ef: nat, cand: seq<Scored>,
                           res: seq<Scored>, seen: set<nat>, done: set<nat>, current: set<nat>)
    requires Aligned(g)
  {
    && SeenFrom(g, layer, start, seen)
    && ItemsOf(g, rank, cand, seen)
    && ItemsOf(g, rank, res, seen)
    && 0 < |res| <= Max(1, ef)
    && (forall v :: v in seen ==> KeptOrFarther(g, rank, ef, res, v))
    && (forall x :: x in res ==> x in cand || x.node in done || x.node in current)
    && (forall u, v :: u in done && Edge(g, layer, u, v) ==> v in seen)
  }

  /** The result heap after a push and, when it overflows, a pop of the farthest. */
  function Keep(res: seq<Scored>, x: Scored, ef: nat): (r: seq<Scored>)
    requires res != []
    ensures r != []
  {
    var pushed := Push(res, x);
    if |pushed| > ef then pushed[..|pushed| - 1] else pushed
  }

  lemma KeepFacts(res: seq<Scored>, x: Scored, ef: nat)
    requires res != [] && Ranked(res) && x !in res
    requires |res| <= Max(1, ef)
    requires |res| < ef || x.dist < Last(res).dist
    ensures var r := Keep(res, x, ef);
            && Ranked(r) && 0 < |r| <= Max(1, ef) && |r| >= |res|
            && (forall y :: y in r ==> y == x || y in res)
            && (|res| >= ef ==> Last(r).dist <= Last(res).dist)
            && (forall y :: y in res || y == x ==> y in r || (|r| >= ef && y.dist >= Last(r).dist))
  {
    PushRanked(res, x);
    var pushed := Push(res, x);
    var r := Keep(res, x, ef);
    if |pushed| > ef {
      forall y | y in pushed ensures y in r || y == Last(pushed) {
        var i :| 0 <= i < |pushed| && pushed[i] == y;
        assert i < |pushed| - 1 ==> r[i] == y;
      }
      assert Before(Last(r), Last(pushed));
      assert Last(res) in pushed;
      LastIsFarthest(pushed, Last(res));
      assert Last(r) in pushed;
      if |res| >= ef && Last(r) != x {
        LastIsFarthest(res, Last(r));
      }
    }
  }

  lemma OfferKeepsProgress(g: Graph, layer: nat, rank: Rank, start: nat, ef: nat, cand: seq<Scored>,
                           res: seq<Scored>, seen: set<nat>, done: set<nat>, u: nat, v: nat)
    requires Aligned(g)
    requires Progress(g, layer, rank, start, ef, cand, res, seen, done, {u})
    requires u in seen && Edge(g, layer, u, v) && HasLayer(g, v, layer) && v !in seen
    ensures var x := Item(g, rank, v);
            if |res| < ef || x.dist < Last(res).dist
            then Progress(g, layer, rank, start, ef, Push(cand, x), Keep(res, x, ef), seen + {v}, done, {u})
            else Progress(g, layer, rank, start, ef, cand, res, seen + {v}, done, {u})
  {
    var x := Item(g, rank, v);
    ReachStep(g, layer, start, u, v);
    assert x !in res && x !in cand;
    if |res| < ef || x.dist < Last(res).dist {
      PushRanked(cand, x);
      KeepFacts(res, x, ef);
      StillKeptOrFarther(g, rank, ef, res, seen, v);
    }
  }

  lemma StillKeptOrFarther(g: Graph, rank: Rank, ef: nat, res: seq<Scored>, seen: set<nat>, v: nat)
    requires Aligned(g) && ItemsOf(g, rank, res, seen) && 0 < |res| <= Max(1, ef)
    requires v < |g.nodes| && v !in seen
             && forall w :: w in seen ==> w < |g.nodes| && KeptOrFarther(g, rank, ef, res, w)
    requires |res| < ef || Item(g, rank, v).dist < Last(res).dist
    ensures forall w :: w in seen + {v} ==> KeptOrFarther(g, rank, ef, Keep(res, Item(g, rank, v), ef), w)
  {
    var x := Item(g, rank, v);
    assert x !in res;
    KeepFacts(res, x, ef);
    hide Keep;
    forall w | w in seen + {v} ensures KeptOrFarther(g, rank, ef, Keep(res, x, ef), w) {
      var y := Item(g, rank, w);
      if w != v && y !in res {
        assert KeptOrFarther(g, rank, ef, res, w);
      }
    }
  }

  /** The nearest candidate is farther than every result, so all results have been expanded. */
  lemma Stopped(g: Graph, layer: nat, rank: Rank, start: nat, ef: nat, cand: seq<Scored>,
                res: seq<Scored>, seen: set<nat>, done: set<nat>)
    requires Aligned(g) && Progress(g, layer, rank, start, ef, cand, res, seen, done, {})
    requires cand != [] && res != [] && cand[0].dist > Last(res).dist
    ensures Certified(g, layer, rank, start, ef, res, seen)
  {
    forall y | y in res ensures y.node in done {
      LastIsFarthest(res, y);
      if y in cand {
        FirstIsNearest(cand, y);
      }
    }
  }

  lemma Started(g: Graph, layer: nat, rank: Rank, start: nat, ef: nat)
    requires Aligned(g) && HasLayer(g, start, layer)
    ensures var x := [Item(g, rank, start)]; Progress(g, layer, rank, start, ef, x, x, {start}, {}, {})
  {
    ReachSelf(g, layer, start);
  }

  lemma Exhausted(g: Graph, layer: nat, rank: Rank, start: nat, ef: nat, res: seq<Scored>, seen: set<nat>,
                  done: set<nat>)
    requires Aligned(g) && Progress(g, layer, rank, start, ef, [], res, seen, done, {})
    ensures Certified(g, layer, rank, start, ef, res, seen)
  {
  }

  /** The first candidate is taken out to be expanded. */
  lemma Taken(g: Graph, layer: nat, rank: Rank, start: nat, ef: nat, cand: seq<Scored>,
              res: seq<Scored>, seen: set<nat>, done: set<nat>)
    requires Aligned(g) && cand != [] && Progress(g, layer, rank, start, ef, cand, res, seen, done, {})
    ensures Progress(g, layer, rank, start, ef, cand[1..], res, seen, done, {cand[0].node})
    ensures res != [] && cand[0].node in seen
  {
    assert cand == [cand[0]] + cand[1..];
  }

  method SearchLayer(g: Graph, rank: Rank, start: nat, ef: nat, layer: nat)
    returns (results: seq<Scored>, ghost seen: set<nat>)
    requires Navigable(g, layer) && HasLayer(g, start, layer)
    ensures Certified(g, layer, rank, start, ef, results, seen)
  {
    hide Progress, Certified, Item;
    var n := |g.nodes|;
    var visited := new bool[n](_ => false);
    var candidates := [Item(g, rank, start)];
    results := [Item(g, rank, start)];
    visited[start] := true;
    seen := {start};
    ghost var done: set<nat> := {};
    Started(g, layer, rank, start, ef);
    while candidates != []
      invariant forall v :: 0 <= v < n ==> (visited[v] <==> v in seen)
      invariant Progress(g, layer, rank, start, ef, candidates, results, seen, done, {})
      decreases Below(n) - seen, |candidates|
    {
      var x := candidates[0];
      ghost var before := candidates;
      Taken(g, layer, rank, start, ef, candidates, results, seen, done);
      candidates := candidates[1..];
      if x.dist > Last(results).dist && |results| >= ef {
        Stopped(g, layer, rank, start, ef, before, results, seen, done);
        return;
      }
      ghost var seen0 := seen;
      candidates, results, seen :=
        Expand(g, rank, start, ef, layer, x.node, visited, candidates, results, seen, done);
      done := done + {x.node};
      NonEmpty(g, layer, rank, start, ef, candidates, results, seen, done, {});
      assert seen == seen0 ==> |candidates| < |before|;
    }
    Exhausted(g, layer, rank, start, ef, results, seen, done);
  }

  lemma NonEmpty(g: Graph, layer: nat, rank: Rank, start: nat, ef: nat, cand: seq<Scored>,
                 res: seq<Scored>, seen: set<nat>, done: set<nat>, current: set<nat>)
    requires Aligned(g) && Progress(g, layer, rank, start, ef, cand, res, seen, done, current)
    ensures res != [] && forall v :: v in seen ==> HasLayer(g, v, layer)
  {
  }

  lemma Expanded(g: Graph, layer: nat, rank: Rank, start: nat, ef: nat, cand: seq<Scored>,
                 res: seq<Scored>, seen: set<nat>, done: set<nat>, u: nat)
    requires Aligned(g) && Progress(g, layer, rank, start, ef, cand, res, seen, done, {u})
    requires forall v :: Edge(g, layer, u, v) ==> v in seen
    ensures Progress(g, layer, rank, start, ef, cand, res, seen, done + {u}, {})
  {
  }

  /** Offer every live, unvisited neighbour of `u` to both heaps. */
  method Expand(g: Graph, rank: Rank, ghost start: nat, ef: nat, layer: nat, u: nat, visited: array<bool>,
                cand: seq<Scored>, res: seq<Scored>, ghost seen: set<nat>, ghost done: set<nat>)
    returns (candidates: seq<Scored>, results: seq<Scored>, ghost seen': set<nat>)
    requires Navigable(g, layer) && u in seen && visited.Length == |g.nodes|
    requires forall v :: 0 <= v < |g.nodes| ==> (visited[v] <==> v in seen)
    requires Progress(g, layer, rank, start, ef, cand, res, seen, done, {u})
    modifies visited
    ensures forall v :: 0 <= v < |g.nodes| ==> (visited[v] <==> v in seen')
    ensures Progress(g, layer, rank, start, ef, candidates, results, seen', done + {u}, {})
    ensures seen <= seen' && (seen' == seen ==> candidates == cand)
  {
    hide Progress;
    NonEmpty(g, layer, rank, start, ef, cand, res, seen, done, {u});
    var edges := g.nodes[u][layer];
    candidates, results, seen' := cand, res, seen;
    for i := 0 to |edges|
      invariant seen <= seen' && (seen' == seen ==> candidates == cand)
      invariant forall v :: 0 <= v < |g.nodes| ==> (visited[v] <==> v in seen')
      invariant Progress(g, layer, rank, start, ef, candidates, results, seen', done, {u})
      invariant results != []
      invariant forall j :: 0 <= j < i && Edge(g, layer, u, edges[j]) ==> edges[j] in seen'
    {
      var neighbor := edges[i];
      assert HasLayer(g, neighbor, layer);
      if !visited[neighbor] && !g.deleted[neighbor] {
        assert Edge(g, layer, u, neighbor);
        OfferKeepsProgress(g, layer, rank, start, ef, candidates, results, seen', done, u, neighbor);
        visited[neighbor] := true;
        seen' := seen' + {neighbor};
        var x := Item(g, rank, neighbor);
        if |results| < ef || x.dist < Last(results).dist {
          candidates := Push(candidates, x);
          results := Keep(results, x, ef);
        }
      }
    }
    forall v | Edge(g, layer, u, v) ensures v in seen' {
      var j :| 0 <= j < |edges| && edges[j] == v;
    }
    Expanded(g, layer, rank, start, ef, candidates, results, seen', done, u);
  }

  // ---------- greedy walk ----------

  ghost predicate LocalMinimum(g: Graph, layer: nat, rank: Rank, v: nat)
    requires Aligned(g) && v < |g.nodes|
  {
    forall x: nat :: Edge(g, layer, v, x) ==> rank(g.vectors[v]) <= rank(g.vectors[x])
  }

  ghost function Closer(g: Graph, rank: Rank, d: real): set<nat>
    requires Aligned(g)
  {
    set v | 0 <= v < |g.nodes| && rank(g.vectors[v]) < d
  }

  method GreedySearchLayer(g: Graph, rank: Rank, start: nat, layer: nat) returns (curr: nat, currDist: real)
    requires Navigable(g, layer) && HasLayer(g, start, layer)
    ensures HasLayer(g, curr, layer) && Reachable(g, layer, start, curr)
    ensures currDist == rank(g.vectors[curr]) <= rank(g.vectors[start])
    ensures LocalMinimum(g, layer, rank, curr)
    ensures curr == start || exists u :: Edge(g, layer, u, curr)
  {
    curr := start;
    currDist := rank(g.vectors[curr]);
    ReachSelf(g, layer, start);
    var changed := true;
    while changed
      invariant HasLayer(g, curr, layer) && Reachable(g, layer, start, curr)
      invariant currDist == rank(g.vectors[curr]) <= rank(g.vectors[start])
      invariant !changed ==> LocalMinimum(g, layer, rank, curr)
      invariant curr == start || exists u :: Edge(g, layer, u, curr)
      decreases Closer(g, rank, currDist), changed
    {
      changed := false;
      var from := curr;
      ghost var fromDist := currDist;
      var edges := g.nodes[from][layer];
      for i := 0 to |edges|
        invariant HasLayer(g, curr, layer) && Reachable(g, layer, start, curr)
        invariant currDist == rank(g.vectors[curr]) <= fromDist
        invariant if changed then currDist < fromDist && Edge(g, layer, from, curr) else curr == from
        invariant forall j :: 0 <= j < i && Edge(g, layer, from, edges[j]) ==> currDist <= rank(g.vectors[edges[j]])
      {
        var neighbor := edges[i];
        assert HasLayer(g, neighbor, layer);
        if g.deleted[neighbor] {
          continue;
        }
        var dist := rank(g.vectors[neighbor]);
        if dist < currDist {
          assert Edge(g, layer, from, neighbor);
          ReachStep(g, layer, start, from, neighbor);
          curr, currDist, changed := neighbor, dist, true;
        }
      }
      if changed {
        assert curr in Closer(g, rank, fromDist) && curr !in Closer(g, rank, currDist);
      } else {
        forall x: nat | Edge(g, layer, curr, x) ensures currDist <= rank(g.vectors[x]) {
          var j :| 0 <= j < |edges| && edges[j] == x;
        }
      }
    }
  }
}
