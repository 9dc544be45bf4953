/** Leader election state, shard assignments, and failover of timed-out shards. */
module Failover {
  import opened Options
  import opened Replication
  import Protocol = ReplicationProtocol
  import ReplicationFailures

  type ShardId = nat
  type Millis = nat

  const U64_MAX: nat := 0xFFFF_FFFF_FFFF_FFFF

  datatype ElectionState = Leader | Candidate | Follower(leaderId: NodeId) | NoLeader

  datatype Assignment = Assignment(leader: NodeId, replicas: seq<NodeId>)

  datatype Config = Config(electionTimeout: Millis, maxPromotionLag: nat)

  datatype Result<T> = Ok(value: T) | ServiceError

  /** Election map, heartbeats, shard map: everything failover may change. */
  datatype View = View(
    states: map<ShardId, ElectionState>,
    heartbeats: map<ShardId, Millis>,
    assignments: map<ShardId, Assignment>)

  predicate TimedOut(cfg: Config, v: View, shard: ShardId, now: Millis) {
    shard in v.heartbeats ==> now > v.heartbeats[shard] + cfg.electionTimeout
  }

  predicate Eligible(cfg: Config, engines: map<ShardId, Engine>, node: NodeId, shard: ShardId) {
    && shard in engines
    && var lag := Lag(engines[shard], node);
       (if lag.Some? then lag.value else U64_MAX) <= cfg.maxPromotionLag
  }

  predicate Promotable(cfg: Config, v: View, engines: map<ShardId, Engine>, node: NodeId, shard: ShardId, now: Millis) {
    && shard in v.states && v.states[shard].Follower?
    && TimedOut(cfg, v, shard, now)
    && Eligible(cfg, engines, node, shard)
  }

  /** The shards a failover check takes over. */
  ghost function Targets(cfg: Config, v: View, engines: map<ShardId, Engine>, node: NodeId, now: Millis): set<ShardId> {
    set s | s in v.states && Promotable(cfg, v, engines, node, s, now)
  }

  /** `list` names every shard of `shards` once. */
  ghost predicate Enumerates(list: seq<ShardId>, shards: set<ShardId>) {
    (forall s :: s in list <==> s in shards) && |list| == |shards|
  }

  lemma EnumeratesNone()
    ensures Enumerates([], {})
  {
  }

  /** For a followed shard, being a target is decided by the timeout and the lag. */
  ghost predicate Decides(cfg: Config, v: View, engines: map<ShardId, Engine>, node: NodeId, now: Millis, s: ShardId) {
    s in Targets(cfg, v, engines, node, now) <==> TimedOut(cfg, v, s, now) && Eligible(cfg, engines, node, s)
  }

  lemma EnumeratesOneMore(list: seq<ShardId>, shards: set<ShardId>, s: ShardId)
    requires Enumerates(list, shards) && s !in shards
    ensures Enumerates(list + [s], shards + {s})
  {
  }

  /** The assignment that makes `node` leader, keeping the recorded replicas. */
  function LedBy(v: View, node: NodeId, shard: ShardId): Assignment {
    Assignment(node, if shard in v.assignments then v.assignments[shard].replicas else [])
  }

  /** `m'` is `m` with the keys of `keys` set to `val`. */
  ghost predicate Updated<V>(m: map<ShardId, V>, m': map<ShardId, V>, keys: set<ShardId>, val: ShardId -> V) {
    m'.Keys == m.Keys + keys && forall s :: s in m' ==> m'[s] == if s in keys then val(s) else m[s]
  }

  lemma UpdatedOneMore<V>(m: map<ShardId, V>, m': map<ShardId, V>, keys: set<ShardId>, val: ShardId -> V, s: ShardId)
    requires Updated(m, m', keys, val)
    ensures Updated(m, m'[s := val(s)], keys + {s}, val)
  {
  }

  /** `v'` is `v` with exactly the shards of `promoted` taken over by `node`. */
  ghost predicate TookOver(v: View, v': View, node: NodeId, promoted: set<ShardId>, now: Millis) {
    && Updated(v.states, v'.states, promoted, _ => Leader)
    && Updated(v.heartbeats, v'.heartbeats, promoted, _ => now)
    && Updated(v.assignments, v'.assignments, promoted, s => LedBy(v, node, s))
  }

  lemma OneMore(v: View, v': View, node: NodeId, promoted: set<ShardId>, shard: ShardId, now: Millis)
    requires TookOver(v, v', node, promoted, now) && shard !in promoted
    ensures TookOver(v, View(v'.states[shard := Leader], v'.heartbeats[shard := now],
                             v'.assignments[shard := LedBy(v', node, shard)]),
                     node, promoted + {shard}, now)
  {
    assert LedBy(v', node, shard) == LedBy(v, node, shard);
    UpdatedOneMore(v.states, v'.states, promoted, _ => Leader, shard);
    UpdatedOneMore(v.heartbeats, v'.heartbeats, promoted, _ => now, shard);
    UpdatedOneMore(v.assignments, v'.assignments, promoted, s => LedBy(v, node, s), shard);
    hide Updated;
  }

  lemma SameVerdict(cfg: Config, v: View, v': View, node: NodeId, promoted: set<ShardId>, shard: ShardId, now: Millis)
    requires TookOver(v, v', node, promoted, now) && shard !in promoted
    ensures TimedOut(cfg, v', shard, now) <==> TimedOut(cfg, v, shard, now)
  {
  }

  lemma StartCheck(cfg: Config, v: View, engines: map<ShardId, Engine>, node: NodeId, now: Millis, rest: set<ShardId>)
    requires rest == set s | s in v.states && v.states[s].Follower?
    ensures forall s :: s in rest ==> Decides(cfg, v, engines, node, now, s)
    ensures Targets(cfg, v, engines, node, now) <= rest
    ensures TookOver(v, v, node, {}, now)
  {
  }

  /** The shard keeps its value, or stays without one. */
  ghost predicate Kept<V>(m: map<ShardId, V>, m': map<ShardId, V>, s: ShardId) {
    (s in m' <==> s in m) && (s in m ==> m'[s] == m[s])
  }

  /** Exactly the shards of `taken` are now led by `node`, with the replicas recorded before, heard just
      now; every other shard keeps its state, heartbeat and assignment. */
  ghost predicate Leads(v: View, v': View, node: NodeId, taken: set<ShardId>, now: Millis) {
    && (forall s :: s in taken ==>
          && s in v'.states && v'.states[s] == Leader
          && s in v'.heartbeats && v'.heartbeats[s] == now
          && s in v'.assignments && v'.assignments[s].leader == node
          && v'.assignments[s].replicas == if s in v.assignments then v.assignments[s].replicas else [])
    && (forall s :: s !in taken ==>
          && Kept(v.states, v'.states, s)
          && Kept(v.heartbeats, v'.heartbeats, s)
          && Kept(v.assignments, v'.assignments, s))
  }

  lemma TookOverLeads(v: View, v': View, node: NodeId, promoted: set<ShardId>, now: Millis)
    requires TookOver(v, v', node, promoted, now)
    ensures Leads(v, v', node, promoted, now)
  {
  }

  function Listed(list: seq<ShardId>): set<ShardId> {
    set s | s in list
  }

  lemma NothingTaken(v: View, node: NodeId, now: Millis)
    ensures TookOver(v, v, node, {}, now)
  {
  }

  lemma TargetsAre(cfg: Config, v: View, engines: map<ShardId, Engine>, node: NodeId, now: Millis)
    ensures forall s :: s in Targets(cfg, v, engines, node, now) <==>
              && s in v.states && v.states[s].Follower?
              && (s in v.heartbeats ==> now > v.heartbeats[s] + cfg.electionTimeout)
              && Eligible(cfg, engines, node, s)
  {
    hide Eligible;
  }

  // ---------- election histories ----------

  /** One transition of a shard's election state or heartbeat. */
  datatype Act =
    | Follow(shard: ShardId, leader: NodeId)
    | Stand(shard: ShardId)
    | Win(shard: ShardId, at: Millis)
    | Hear(shard: ShardId, at: Millis)

  /** Any state may become follower or candidate; only a candidate becomes leader. */
  function Acted(v: View, a: Act): View {
    match a
    case Follow(s, leader) => v.(states := v.states[s := Follower(leader)])
    case Stand(s) => v.(states := v.states[s := Candidate])
    case Win(s, at) =>
      if s in v.states && v.states[s].Candidate? then
        v.(states := v.states[s := Leader], heartbeats := v.heartbeats[s := at])
      else v
    case Hear(s, at) => v.(heartbeats := v.heartbeats[s := at])
  }

  function After(acts: seq<Act>): View {
    if acts == [] then View(map[], map[], map[]) else Acted(After(acts[..|acts| - 1]), acts[|acts| - 1])
  }

  /** Learning of a leader, or standing for election. */
  predicate Decision(a: Act, shard: ShardId) {
    a.shard == shard && (a.Follow? || a.Stand?)
  }

  ghost predicate LastDecision(acts: seq<Act>, shard: ShardId, j: nat) {
    j < |acts| && Decision(acts[j], shard) && forall i :: j < i < |acts| ==> !Decision(acts[i], shard)
  }

  ghost predicate WonAfter(acts: seq<Act>, shard: ShardId, j: nat) {
    exists i :: j < i < |acts| && acts[i].Win? && acts[i].shard == shard
  }

  ghost predicate Decided(acts: seq<Act>, shard: ShardId) {
    exists j: nat :: LastDecision(acts, shard, j)
  }

  ghost function StateBy(acts: seq<Act>, shard: ShardId, j: nat): ElectionState
    requires LastDecision(acts, shard, j)
  {
    match acts[j]
    case Follow(_, leader) => Follower(leader)
    case _ => if WonAfter(acts, shard, j) then Leader else Candidate
  }

  /** Over every history: a shard's state is given by its last decision, so this node leads exactly the
      shards for which it stood last and has won since. */
  lemma {:induction false} StateIsLastDecision(acts: seq<Act>, shard: ShardId)
    ensures shard in After(acts).states <==> Decided(acts, shard)
    ensures forall j: nat :: LastDecision(acts, shard, j) ==> After(acts).states[shard] == StateBy(acts, shard, j)
    decreases |acts|
  {
    if acts != [] {
      var k := |acts| - 1;
      var init, a := acts[..k], acts[k];
      StateIsLastDecision(init, shard);
      if Decision(a, shard) {
        assert LastDecision(acts, shard, k);
        forall j: nat | LastDecision(acts, shard, j) ensures j == k {
          assert !(j < k);
        }
        assert !WonAfter(acts, shard, k);
      } else {
        DecisionKept(acts, shard);
        forall j: nat | LastDecision(acts, shard, j) ensures After(acts).states[shard] == StateBy(acts, shard, j) {
          assert LastDecision(init, shard, j);
          WinCounts(acts, shard, j);
        }
      }
    }
  }

  lemma DecisionKept(acts: seq<Act>, shard: ShardId)
    requires acts != [] && !Decision(acts[|acts| - 1], shard)
    ensures forall j: nat :: LastDecision(acts, shard, j) <==> LastDecision(acts[..|acts| - 1], shard, j)
    ensures Decided(acts, shard) <==> Decided(acts[..|acts| - 1], shard)
  {
    var init := acts[..|acts| - 1];
    forall j: nat ensures LastDecision(acts, shard, j) <==> LastDecision(init, shard, j) {
      assert forall i :: 0 <= i < |init| ==> init[i] == acts[i];
    }
  }

  lemma WinCounts(acts: seq<Act>, shard: ShardId, j: nat)
    requires acts != [] && j < |acts| - 1
    ensures var a := acts[|acts| - 1];
            WonAfter(acts, shard, j) <==> WonAfter(acts[..|acts| - 1], shard, j) || (a.Win? && a.shard == shard)
  {
    var init := acts[..|acts| - 1];
    if WonAfter(init, shard, j) {
      var i :| j < i < |init| && init[i].Win? && init[i].shard == shard;
      assert acts[i].Win?;
    }
    if WonAfter(acts, shard, j) {
      var i :| j < i < |acts| && acts[i].Win? && acts[i].shard == shard;
      assert i < |init| ==> init[i].Win? && init[i].shard == shard;
    }
  }

  /** A heartbeat was heard, or the election won, at step j. */
  ghost predicate HeardAt(acts: seq<Act>, shard: ShardId, j: nat) {
    && j < |acts| && acts[j].shard == shard
    && (acts[j].Hear?
        || (acts[j].Win? && shard in After(acts[..j]).states && After(acts[..j]).states[shard].Candidate?))
  }

  ghost predicate LastHeard(acts: seq<Act>, shard: ShardId, j: nat) {
    HeardAt(acts, shard, j) && forall i: nat :: j < i ==> !HeardAt(acts, shard, i)
  }

  /** Over every history: the recorded heartbeat is the last one heard. */
  lemma {:induction false} HeartbeatIsLastHeard(acts: seq<Act>, shard: ShardId)
    ensures shard in After(acts).heartbeats <==> exists j: nat :: LastHeard(acts, shard, j)
    ensures forall j: nat :: LastHeard(acts, shard, j) ==> After(acts).heartbeats[shard] == acts[j].at
    decreases |acts|
  {
    if acts != [] {
      var k := |acts| - 1;
      var init := acts[..k];
      HeartbeatIsLastHeard(init, shard);
      assert acts[..k] == init;
      forall j: nat | j < k ensures HeardAt(acts, shard, j) <==> HeardAt(init, shard, j) {
        assert acts[..j] == init[..j] && acts[j] == init[j];
      }
      if HeardAt(acts, shard, k) {
        assert LastHeard(acts, shard, k);
        forall j: nat | LastHeard(acts, shard, j) ensures j == k {
          assert !(j < k);
        }
      } else {
        forall j: nat ensures LastHeard(acts, shard, j) <==> LastHeard(init, shard, j) {
          SameLastHeard(acts, shard, j);
        }
      }
    }
  }

  /** Over every history: a leader has timed out exactly if it was never heard, or was last heard longer
      ago than the timeout. */
  lemma TimedOutIff(cfg: Config, acts: seq<Act>, shard: ShardId, now: Millis)
    ensures TimedOut(cfg, After(acts), shard, now) <==>
            forall j: nat :: LastHeard(acts, shard, j) ==> now > acts[j].at + cfg.electionTimeout
  {
    hide After, LastHeard;
    HeartbeatIsLastHeard(acts, shard);
  }

  lemma SameLastHeard(acts: seq<Act>, shard: ShardId, j: nat)
    requires acts != [] && !HeardAt(acts, shard, |acts| - 1)
    requires forall i: nat :: i < |acts| - 1 ==> (HeardAt(acts, shard, i) <==> HeardAt(acts[..|acts| - 1], shard, i))
    ensures LastHeard(acts, shard, j) <==> LastHeard(acts[..|acts| - 1], shard, j)
  {
    hide After;
    var init := acts[..|acts| - 1];
    forall i: nat ensures HeardAt(acts, shard, i) <==> HeardAt(init, shard, i) {
      assert i == |acts| - 1 || i >= |acts| || i < |acts| - 1;
    }
  }

  class FailoverManager {
    const cfg: Config
    const nodeId: NodeId
    var states: map<ShardId, ElectionState>
    var heartbeats: map<ShardId, Millis>
    var assignments: map<ShardId, Assignment>
    var engines: map<ShardId, Engine>

    function Now(): View
      reads this
    {
      View(states, heartbeats, assignments)
    }

    constructor (nodeId: NodeId, cfg: Config)
      ensures this.nodeId == nodeId && this.cfg == cfg && Now() == View(map[], map[], map[]) && engines == map[]
    {
      this.nodeId, this.cfg := nodeId, cfg;
      states, heartbeats, assignments, engines := map[], map[], map[], map[];
    }

    method SetLeader(shard: ShardId, leader: NodeId)
      modifies `states
      ensures Now() == Acted(old(Now()), Follow(shard, leader))
    {
      states := states[shard := Follower(leader)];
    }

    method BecomeCandidate(shard: ShardId)
      modifies `states
      ensures Now() == Acted(old(Now()), Stand(shard))
    {
      states := states[shard := Candidate];
    }

    /** Only a candidate wins; a leader stays one; anything else is an error. */
    method WinElection(shard: ShardId, now: Millis) returns (r: Result<()>)
      modifies `states, `heartbeats
      ensures r.Ok? <==> shard in old(states) && (old(states)[shard].Candidate? || old(states)[shard].Leader?)
      ensures Now() == Acted(old(Now()), Win(shard, now))
    {
      if shard in states && states[shard].Candidate? {
        states := states[shard := Leader];
        heartbeats := heartbeats[shard := now];
        return Ok(());
      }
      if shard in states && states[shard].Leader? {
        return Ok(());
      }
      return ServiceError;
    }

    method RecordLeaderHeartbeat(shard: ShardId, now: Millis)
      modifies `heartbeats
      ensures Now() == Acted(old(Now()), Hear(shard, now))
    {
      heartbeats := heartbeats[shard := now];
    }

    method AssignShard(shard: ShardId, leader: NodeId)
      modifies `assignments
      ensures Now() == old(Now()).(assignments := old(assignments)[shard := LedBy(old(Now()), leader, shard)])
    {
      var replicas := if shard in assignments then assignments[shard].replicas else [];
      assignments := assignments[shard := Assignment(leader, replicas)];
    }

    method TakeOver(shard: ShardId, now: Millis) returns (r: Result<()>)
      modifies `states, `heartbeats, `assignments
      ensures r.Ok?
      ensures Now() == View(old(states)[shard := Leader], old(heartbeats)[shard := now],
                            old(assignments)[shard := LedBy(old(Now()), nodeId, shard)])
    {
      BecomeCandidate(shard);
      r := WinElection(shard, now);
      AssignShard(shard, nodeId);
    }

    method CheckShard(ghost before: View, ghost promoted: set<ShardId>, shard: ShardId, now: Millis)
      returns (won: bool)
      requires TookOver(before, Now(), nodeId, promoted, now) && shard !in promoted
      modifies `states, `heartbeats, `assignments
      ensures won <==> TimedOut(cfg, before, shard, now) && Eligible(cfg, engines, nodeId, shard)
      ensures TookOver(before, Now(), nodeId, if won then promoted + {shard} else promoted, now)
      ensures Leads(before, Now(), nodeId, if won then promoted + {shard} else promoted, now)
    {
      SameVerdict(cfg, before, Now(), nodeId, promoted, shard, now);
      OneMore(before, Now(), nodeId, promoted, shard, now);
      won := TimedOut(cfg, Now(), shard, now) && Eligible(cfg, engines, nodeId, shard);
      hide TookOver, Leads;
      if won {
        var r := TakeOver(shard, now);
      }
      TookOverLeads(before, Now(), nodeId, if won then promoted + {shard} else promoted, now);
    }

    /** Promote this node for every shard it follows whose leader timed out and whose replication
        lag is small enough, and for no other. */
    method CheckAndFailover(now: Millis) returns (r: Result<seq<ShardId>>)
      modifies `states, `heartbeats, `assignments
      ensures r.Ok? && Enumerates(r.value, Targets(cfg, old(Now()), engines, nodeId, now))
      ensures TookOver(old(Now()), Now(), nodeId, Targets(cfg, old(Now()), engines, nodeId, now), now)
      ensures forall s :: s in r.value <==>
                && s in old(states) && old(states)[s].Follower?
                && (s in old(heartbeats) ==> now > old(heartbeats)[s] + cfg.electionTimeout)
                && Eligible(cfg, engines, nodeId, s)
      ensures Leads(old(Now()), Now(), nodeId, Listed(r.value), now)
    {
      hide TookOver, Leads, Decides, Targets, Eligible, TimedOut;
      ghost var before := Now();
      var rest := set s | s in states && states[s].Follower?;
      StartCheck(cfg, before, engines, nodeId, now, rest);
      r := CheckAll(before, rest, now);
      TargetsAre(cfg, before, engines, nodeId, now);
      assert Listed(r.value) == Targets(cfg, before, engines, nodeId, now);
      TookOverLeads(before, Now(), nodeId, Targets(cfg, before, engines, nodeId, now), now);
    }

    method CheckAll(ghost before: View, followerships: set<ShardId>, now: Millis) returns (r: Result<seq<ShardId>>)
      requires before == Now()
      requires forall s :: s in followerships ==> Decides(cfg, before, engines, nodeId, now, s)
      requires Targets(cfg, before, engines, nodeId, now) <= followerships
      requires TookOver(before, before, nodeId, {}, now)
      modifies `states, `heartbeats, `assignments
      ensures r.Ok? && Enumerates(r.value, Targets(cfg, before, engines, nodeId, now))
      ensures TookOver(before, Now(), nodeId, Targets(cfg, before, engines, nodeId, now), now)
    {
      hide TookOver, Targets, Enumerates, TimedOut, Eligible;
      ghost var targets := Targets(cfg, before, engines, nodeId, now);
      var list: seq<ShardId> := [];
      ghost var done: set<ShardId> := {};
      var rest := followerships;
      EnumeratesNone();
      while rest != {}
        invariant rest <= followerships && done == targets - rest
        invariant TookOver(before, Now(), nodeId, done, now)
        invariant Enumerates(list, done)
        decreases |rest|
      {
        var shard :| shard in rest;
        rest := rest - {shard};
        assert Decides(cfg, before, engines, nodeId, now, shard);
        var won := CheckShard(before, done, shard, now);
        if won {
          EnumeratesOneMore(list, done, shard);
          list := list + [shard];
          done := done + {shard};
        }
      }
      assert done == targets;
      r := Ok(list);
    }

    /** Manual promotion: only the lag test applies. */
    method PromoteToLeader(shard: ShardId, now: Millis) returns (r: Result<bool>)
      modifies `states, `heartbeats, `assignments
      ensures r == Ok(Eligible(cfg, engines, nodeId, shard))
      ensures TookOver(old(Now()), Now(), nodeId,
                       if Eligible(cfg, engines, nodeId, shard) then {shard} else {}, now)
      ensures Leads(old(Now()), Now(), nodeId, if r.value then {shard} else {}, now)
    {
      hide TookOver, Leads, Eligible, LedBy;
      ghost var before := Now();
      NothingTaken(before, nodeId, now);
      TookOverLeads(before, before, nodeId, {}, now);
      if !Eligible(cfg, engines, nodeId, shard) {
        return Ok(false);
      }
      OneMore(before, before, nodeId, {}, shard, now);
      var won := TakeOver(shard, now);
      assert {} + {shard} == {shard};
      TookOverLeads(before, Now(), nodeId, {shard}, now);
      r := Ok(true);
    }
  }

  /** Shards whose leader was heard from within the timeout keep all their state. */
  lemma HealthyShardsKeepState(cfg: Config, v: View, v': View, engines: map<ShardId, Engine>, node: NodeId,
                               now: Millis, shard: ShardId)
    requires TookOver(v, v', node, Targets(cfg, v, engines, node, now), now)
    requires shard in v.heartbeats && now <= v.heartbeats[shard] + cfg.electionTimeout
    ensures shard in v'.heartbeats && v'.heartbeats[shard] == v.heartbeats[shard]
    ensures (shard in v'.states <==> shard in v.states) && (shard in v.states ==> v'.states[shard] == v.states[shard])
    ensures (shard in v'.assignments <==> shard in v.assignments)
            && (shard in v.assignments ==> v'.assignments[shard] == v.assignments[shard])
  {
    assert shard !in Targets(cfg, v, engines, node, now);
  }

  /** Loss bound, for a takeover by the failover check and by hand alike: if a shard's engine is the
      engine of a run of the replication protocol in which this node is registered and was never
      registered across a gap, an eligible node lacks at most `maxPromotionLag` recorded entries. */
  lemma PromotionLossBound(cfg: Config, engines: map<ShardId, Engine>, node: NodeId, shard: ShardId,
                           p: Protocol.Params, evs: seq<Protocol.Event>, c: Protocol.Cluster)
    requires Eligible(cfg, engines, node, shard)
    requires Protocol.Reaches(p, Protocol.Initial, evs, c) && c.engine == engines[shard]
    requires node in c.engine.replicas && node !in c.gapped && Protocol.Fits(p, c.log)
    ensures var n := Protocol.AppliedOf(c, node);
            && n <= |c.log| && |c.log| - n <= cfg.maxPromotionLag
            && Protocol.StoreOf(c, node) == Protocol.Replay(p, c.log[..n])
  {
    Protocol.LagBoundsLoss(p, evs, c, node);
    Protocol.ReplicationSafety(p, evs, c, node);
  }

  /** The lag test lets a node lead that has applied nothing: one registered after everything was trimmed. */
  lemma EmptyJoinerIsEligible(cfg: Config, shard: ShardId) returns (evs: seq<Protocol.Event>, c: Protocol.Cluster)
    ensures Protocol.Reaches(ReplicationFailures.Follower(0), Protocol.Initial, evs, c)
    ensures var b := NodeId("b");
            && Eligible(cfg, map[shard := c.engine], b, shard)
            && Protocol.PositionsOf(c, b) == {} && |c.log| == 1
  {
    evs, c := ReplicationFailures.EmptyJoinerHasNoLag();
  }

  /** Over every run: a registered node that has acknowledged the newest entry is eligible under every
      configuration. */
  lemma CaughtUpIsEligible(cfg: Config, engines: map<ShardId, Engine>, node: NodeId, shard: ShardId,
                           p: Protocol.Params, evs: seq<Protocol.Event>, c: Protocol.Cluster)
    requires Protocol.Reaches(p, Protocol.Initial, evs, c) && shard in engines && c.engine == engines[shard]
    requires node in c.engine.replicas && c.engine.replicas[node].lastAcked >= LastTxn(c.log)
    ensures Lag(c.engine, node) == Some(0) && Eligible(cfg, engines, node, shard)
  {
    Protocol.LagIs(p, evs, c, node);
  }

  /** Eligibility in terms of the queue: a registered node at most `maxPromotionLag` ids behind the newest
      queued entry; without registration only the largest limit lets a node lead. */
  lemma EligibleIff(cfg: Config, engines: map<ShardId, Engine>, node: NodeId, shard: ShardId)
    ensures Eligible(cfg, engines, node, shard) <==>
              && shard in engines
              && var e := engines[shard];
                 if node in e.replicas
                 then e.pending == [] ||
                      e.pending[|e.pending| - 1].txnId <= e.replicas[node].lastAcked + cfg.maxPromotionLag
                 else cfg.maxPromotionLag >= 0xFFFF_FFFF_FFFF_FFFF
  {
  }
}
