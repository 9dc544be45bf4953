/** Nodes that join late, or again: exactly when their acknowledgements can be trusted from then on. */
module ReplicationJoins {
  import opened Options
  import opened WalCodec
  import opened Replication
  import opened ReplicationProtocol

  /** Every acknowledgement of `r` in the network covers only entries `r` has applied. */
  ghost predicate AcksCovered(c: Cluster, r: NodeId) {
    forall t, i :: Acknowledge(r, t) in c.network && 0 <= i < |c.log| && c.log[i].txnId <= t ==> i in PositionsOf(c, r)
  }

  ghost predicate NoJoin(evs: seq<Event>, r: NodeId) {
    forall i :: 0 <= i < |evs| ==> evs[i] != Join(r)
  }

  /** A continuation in which `r` does not join again and the log fits. */
  ghost predicate Continues(p: Params, c: Cluster, r: NodeId, evs: seq<Event>, c': Cluster) {
    Reaches(p, c, evs, c') && NoJoin(evs, r) && Fits(p, c'.log)
  }

  ghost predicate StaysCovered(p: Params, c: Cluster, r: NodeId) {
    forall evs, c' :: Continues(p, c, r, evs, c') ==> AcksCovered(c', r)
  }

  ghost predicate NeverFails(p: Params) {
    forall payload :: p.decode(payload).Some?
  }

  // ---------- nothing it lacks was trimmed ----------

  lemma {:induction false} StaysUngapped(p: Params, c: Cluster, evs: seq<Event>, c': Cluster, r: NodeId)
    requires Reaches(p, c, evs, c') && NoJoin(evs, r) && r !in c.gapped
    ensures r !in c'.gapped
    decreases |evs|
  {
    if evs != [] {
      assert evs[0] != Join(r);
      assert NoJoin(evs[1..], r);
      StaysUngapped(p, Next(p, c, evs[0]), evs[1..], c', r);
    }
  }

  lemma UngappedIsCovered(p: Params, c: Cluster, r: NodeId)
    requires Inv(p, c) && Fits(p, c.log) && r !in c.gapped
    ensures AcksCovered(c, r)
  {
    hide Replay, Fits, Increasing, QueueOk, AppliedOf;
    assert SafeOk(p, c, r);
    forall t, i | Acknowledge(r, t) in c.network && 0 <= i < |c.log| && c.log[i].txnId <= t
      ensures i in PositionsOf(c, r)
    {
      assert MessageOk(c.log, AppliedOf(c, r), r, Acknowledge(r, t));
    }
  }

  lemma UngappedStaysCovered(p: Params, c: Cluster, r: NodeId)
    requires Inv(p, c) && r !in c.gapped
    ensures StaysCovered(p, c, r)
  {
    hide Inv, AcksCovered, Reaches;
    forall evs, c' | Continues(p, c, r, evs, c') ensures AcksCovered(c', r) {
      RunKeeps(p, c, evs, c');
      StaysUngapped(p, c, evs, c', r);
      UngappedIsCovered(p, c', r);
    }
  }

  // ---------- something it lacks was trimmed ----------

  /** A node registered with nothing acknowledged while the queue starts above an entry it lacks. */
  ghost predicate AcrossGap(c: Cluster, r: NodeId, missing: nat) {
    && r in c.engine.replicas && c.engine.replicas[r].lastAcked == 0
    && Increasing(c.log) && |c.engine.pending| <= |c.log|
    && c.engine.pending == c.log[|c.log| - |c.engine.pending|..]
    && missing < |c.log| - |c.engine.pending| && missing !in PositionsOf(c, r)
  }

  lemma JoinAcrossGap(p: Params, c: Cluster, r: NodeId)
    requires Inv(p, c) && Trimmed(c) > AppliedOf(c, r)
    ensures AcrossGap(Next(p, c, Join(r)), r, AppliedOf(c, r))
  {
    hide Fits, SafeOk, Increasing, AppliedOf;
  }

  /** An entry without effect on any store. */
  function Marker(c: Cluster): LogEntry {
    LogEntry(LastTxn(c.log) + 1, 0, 0, [])
  }

  /** If nothing is queued, one more entry is recorded. */
  lemma SomethingQueued(p: Params, c: Cluster, r: NodeId, missing: nat) returns (evs: seq<Event>, c': Cluster)
    requires AcrossGap(c, r, missing) && Fits(p, c.log)
    ensures Continues(p, c, r, evs, c') && AcrossGap(c', r, missing) && c'.engine.pending != []
  {
    hide Replay;
    if c.engine.pending != [] {
      evs, c' := [], c;
      assert Reaches(p, c, [], c);
    } else {
      var e := Marker(c);
      evs, c' := [RecordNew(e)], Next(p, c, RecordNew(e));
      OneStep(p, c, RecordNew(e));
      MarkerFits(p, c);
      IncreasingSnoc(c.log, e);
      assert c'.engine.pending == [e] && c'.log[|c.log|..] == [e];
    }
  }

  lemma MarkerFits(p: Params, c: Cluster)
    requires Fits(p, c.log)
    ensures Fits(p, c.log + [Marker(c)])
  {
    ReplaySnoc(p, c.log, Marker(c));
  }

  lemma OneStep(p: Params, c: Cluster, e: Event)
    requires Enabled(p, c, e)
    ensures Reaches(p, c, [e], Next(p, c, e))
  {
    hide Next, Enabled;
    assert [e][1..] == [];
    assert Reaches(p, Next(p, c, e), [], Next(p, c, e));
  }

  lemma {:induction false} ReachesThrough(p: Params, a: Cluster, evs: seq<Event>, b: Cluster, fs: seq<Event>,
                                          c: Cluster)
    requires Reaches(p, a, evs, b) && Reaches(p, b, fs, c)
    ensures Reaches(p, a, evs + fs, c)
    decreases |evs|
  {
    hide Next, Enabled;
    if evs == [] {
      assert evs + fs == fs;
    } else {
      assert (evs + fs)[1..] == evs[1..] + fs;
      ReachesThrough(p, Next(p, a, evs[0]), evs[1..], b, fs, c);
    }
  }

  /** The first queued entry is sent, applied and acknowledged, the missing one is not. */
  lemma AcknowledgesAcrossGap(p: Params, c: Cluster, r: NodeId, missing: nat) returns (evs: seq<Event>, c': Cluster)
    requires AcrossGap(c, r, missing) && c.engine.pending != [] && NeverFails(p) && Fits(p, c.log)
    ensures Continues(p, c, r, evs, c') && !AcksCovered(c', r)
  {
    hide Replay, Fits, ApplyBatch, Above, Increasing, NeverFails;
    var cut := |c.log| - |c.engine.pending|;
    var x := c.log[cut];
    LaterIsHigher(c.log, missing, cut);
    assert c.engine.pending[..1] == [x];
    QueueAboveZero(c);
    var batch := Batch(r, [x], cut);
    var c1 := Next(p, c, Send(r, 1));
    OneStep(p, c, Send(r, 1));
    assert batch in c1.network && StoreOf(c1, r) == StoreOf(c, r);
    SingleApplied(p, StoreOf(c, r), x);
    c' := Next(p, c1, Deliver(batch));
    OneStep(p, c1, Deliver(batch));
    ReachesThrough(p, c, [Send(r, 1)], c1, [Deliver(batch)], c');
    evs := [Send(r, 1)] + [Deliver(batch)];
    assert missing !in PositionsOf(c', r) && Acknowledge(r, x.txnId) in c'.network;
    assert c'.log[missing].txnId <= x.txnId;
  }

  lemma LaterIsHigher(log: seq<LogEntry>, i: nat, j: nat)
    requires Increasing(log) && i < j < |log|
    ensures log[i].txnId < log[j].txnId
  {
  }

  lemma QueueAboveZero(c: Cluster)
    requires Increasing(c.log) && |c.engine.pending| <= |c.log|
    requires c.engine.pending == c.log[|c.log| - |c.engine.pending|..]
    ensures Above(c.engine.pending, 0) == c.engine.pending
  {
    AboveAll(c.engine.pending, 0);
  }

  lemma SingleApplied(p: Params, s: Store, x: LogEntry)
    requires NeverFails(p)
    ensures ApplyBatch(p, s, [x], 0).count == 1 && ApplyBatch(p, s, [x], 0).ack == Some(x.txnId)
  {
    assert p.decode(x.payload).Some?;
    assert ApplyEntry(p, s, x).Some?;
    assert [x][1..] == [];
    ApplyCons(p, s, [x], 0);
    ApplyCons(p, ApplyEntry(p, s, x).value, [], x.txnId);
  }

  lemma GapIsNotCovered(p: Params, c: Cluster, r: NodeId, missing: nat)
    requires AcrossGap(c, r, missing) && NeverFails(p) && Fits(p, c.log)
    ensures !StaysCovered(p, c, r)
  {
    hide AcrossGap, AcksCovered, Reaches, Fits, NeverFails;
    var evs, c1 := SomethingQueued(p, c, r, missing);
    var fs, c2 := AcknowledgesAcrossGap(p, c1, r, missing);
    ReachesThrough(p, c, evs, c1, fs, c2);
    assert NoJoin(evs + fs, r);
    assert Continues(p, c, r, evs + fs, c2);
  }

  /** Over every run: if a node outside `gapped` joins, late or again, all its later acknowledgements can
      be trusted exactly when nothing it lacks had been trimmed. */
  lemma LateJoinerSafeIff(p: Params, evs: seq<Event>, c: Cluster, r: NodeId)
    requires Reaches(p, Initial, evs, c) && r !in c.gapped && Fits(p, c.log) && NeverFails(p)
    ensures StaysCovered(p, Next(p, c, Join(r)), r) <==> Trimmed(c) <= AppliedOf(c, r)
  {
    hide Inv, StaysCovered, NeverFails, Fits, Reaches, AppliedOf;
    InitialInv(p);
    RunKeeps(p, Initial, evs, c);
    if Trimmed(c) <= AppliedOf(c, r) {
      JoinKeeps(p, c, r);
      UngappedStaysCovered(p, Next(p, c, Join(r)), r);
    } else {
      JoinAcrossGap(p, c, r);
      GapIsNotCovered(p, Next(p, c, Join(r)), r, AppliedOf(c, r));
    }
  }

  // ---------- the lag of a node that has just joined ----------

  lemma LogWithinIds(log: seq<LogEntry>)
    requires Increasing(log)
    ensures |log| <= LastTxn(log)
  {
    CountAbove(log, 0);
    AboveAll(log, 0);
  }

  /** Over every run: the lag reported for a node right after it joins, late or again, bounds what it
      lacks exactly if something is queued or it lacks nothing. */
  lemma JoinLagBoundsIff(p: Params, evs: seq<Event>, c: Cluster, r: NodeId)
    requires Reaches(p, Initial, evs, c)
    ensures Lag(Next(p, c, Join(r)).engine, r).Some?
    ensures |c.log| - AppliedOf(c, r) <= Lag(Next(p, c, Join(r)).engine, r).value <==>
              c.engine.pending != [] || |c.log| <= AppliedOf(c, r)
  {
    hide Fits, SafeOk, AppliedOf;
    InitialInv(p);
    RunKeeps(p, Initial, evs, c);
    LogWithinIds(c.log);
  }
}
