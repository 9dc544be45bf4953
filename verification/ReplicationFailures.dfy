/** Runs of the replication protocol outside its premises: a follower too small for the log, and a node
    that joins after something it lacks was trimmed. */
module ReplicationFailures {
  import opened Options
  import opened WalCodec
  import opened Replication
  import opened ReplicationProtocol

  /** One-byte payloads name the vector they insert. */
  function DecodeId(payload: seq<byte>): Option<(VectorId, Rec)> {
    if payload == [] then None else Some((payload[0], Rec([], "")))
  }

  function InsertEntry(i: byte): LogEntry {
    LogEntry(i, 0, INSERT_VECTOR, [i])
  }

  function Follower(capacity: nat): Params {
    Params(DecodeId, capacity, 10)
  }

  lemma {:induction false} Extend(p: Params, c: Cluster, evs: seq<Event>, c1: Cluster, e: Event)
    requires Reaches(p, c, evs, c1) && Enabled(p, c1, e)
    ensures Reaches(p, c, evs + [e], Next(p, c1, e))
    decreases |evs|
  {
    hide Enabled, Next;
    if evs == [] {
      assert [] + [e] == [e] && [e][1..] == [];
      assert Reaches(p, Next(p, c, e), [], Next(p, c, e));
    } else {
      assert (evs + [e])[1..] == evs[1..] + [e];
      Extend(p, Next(p, c, evs[0]), evs[1..], c1, e);
    }
  }

  /** Two inserts applied to a store that holds at most one record. */
  lemma SmallBatch(p: Params)
    requires p == Follower(1)
    ensures var o := ApplyBatch(p, map[], [InsertEntry(1), InsertEntry(2)], 0);
            o.ack == Some(2) && o.store == map[1 := Rec([], "")] && o.count == 2
    ensures Replay(p, [InsertEntry(1), InsertEntry(2)]) == map[1 := Rec([], ""), 2 := Rec([], "")]
  {
    var e1, e2 := InsertEntry(1), InsertEntry(2);
    var one: Store := map[1 := Rec([], "")];
    assert ApplyEntry(p, map[], e1) == Some(one);
    assert |one| == 1;
    assert ApplyEntry(p, one, e2) == Some(one);
    assert [e1, e2][1..] == [e2] && [e2][1..] == [];
    ApplyCons(p, map[], [e1, e2], 0);
    ApplyCons(p, one, [e2], 1);
    ApplyCons(p, one, [], 2);
    ReplaySnoc(p, [], e1);
    ReplaySnoc(p, [e1], e2);
    assert [] + [e1] == [e1] && [e1] + [e2] == [e1, e2];
  }

  // ---------- one more event of a run ----------

  lemma Joins(p: Params, evs: seq<Event>, c: Cluster, r: NodeId) returns (evs': seq<Event>, c': Cluster)
    requires Reaches(p, Initial, evs, c)
    ensures Reaches(p, Initial, evs', c')
    ensures c'.engine == Joined(c.engine, r) && c'.log == c.log && c'.network == c.network
    ensures c'.stores == c.stores && c'.applied == c.applied && (Trimmed(c) == 0 ==> c'.gapped == c.gapped)
  {
    hide Reaches, AppliedOf;
    Extend(p, Initial, evs, c, Join(r));
    evs', c' := evs + [Join(r)], Next(p, c, Join(r));
  }

  /** Everything queued is sent to a replica that has acknowledged nothing. */
  lemma SendsAll(p: Params, evs: seq<Event>, c: Cluster, r: NodeId) returns (evs': seq<Event>, c': Cluster)
    requires Reaches(p, Initial, evs, c)
    requires r in c.engine.replicas && c.engine.replicas[r].lastAcked == 0
    requires forall i :: 0 <= i < |c.engine.pending| ==> c.engine.pending[i].txnId > 0
    ensures Reaches(p, Initial, evs', c')
    ensures c' == c.(network := c.network + {Batch(r, c.engine.pending, SatSub(|c.log|, |c.engine.pending|))})
  {
    hide Reaches;
    var k := |c.engine.pending|;
    AllPending(c.engine, r);
    assert c.engine.pending[..k] == c.engine.pending;
    Extend(p, Initial, evs, c, Send(r, k));
    evs', c' := evs + [Send(r, k)], Next(p, c, Send(r, k));
  }

  lemma Applies(p: Params, evs: seq<Event>, c: Cluster, m: Message, store: Store, n: nat, ack: nat)
    returns (evs': seq<Event>, c': Cluster)
    requires Reaches(p, Initial, evs, c) && m in c.network && m.Batch?
    requires ApplyBatch(p, StoreOf(c, m.to), m.entries, 0) == Outcome(store, n, Some(ack))
    ensures Reaches(p, Initial, evs', c')
    ensures c' == c.(stores := c.stores[m.to := store],
                     applied := c.applied[m.to := PositionsOf(c, m.to) + Span(m.from, n)],
                     network := c.network + {Acknowledge(m.to, ack)})
  {
    hide Reaches, ApplyBatch, Span;
    Extend(p, Initial, evs, c, Deliver(m));
    evs', c' := evs + [Deliver(m)], Next(p, c, Deliver(m));
  }

  lemma Acks(p: Params, evs: seq<Event>, c: Cluster, r: NodeId, t: nat) returns (evs': seq<Event>, c': Cluster)
    requires Reaches(p, Initial, evs, c) && Acknowledge(r, t) in c.network && r in c.engine.replicas
    requires t >= c.engine.replicas[r].lastAcked
    ensures Reaches(p, Initial, evs', c')
    ensures c' == c.(engine := c'.engine) && c'.engine.pending == c.engine.pending
    ensures c'.engine.replicas.Keys == c.engine.replicas.Keys && c'.engine.replicas[r].lastAcked == t
  {
    hide Reaches;
    Extend(p, Initial, evs, c, Deliver(Acknowledge(r, t)));
    evs', c' := evs + [Deliver(Acknowledge(r, t))], Next(p, c, Deliver(Acknowledge(r, t)));
  }

  lemma NoEvents(p: Params)
    ensures Reaches(p, Initial, [], Initial)
  {
  }

  /** One more recorded entry. */
  lemma Recorded(p: Params, evs: seq<Event>, c: Cluster, e: LogEntry) returns (evs': seq<Event>, c': Cluster)
    requires Reaches(p, Initial, evs, c) && e.txnId > LastTxn(c.log)
    ensures Reaches(p, Initial, evs', c') && c' == Next(p, c, RecordNew(e))
    ensures c'.log == c.log + [e] && c'.engine.pending == c.engine.pending + [e]
    ensures c' == c.(engine := c'.engine, log := c'.log)
    ensures c'.engine.replicas.Keys == c.engine.replicas.Keys
    ensures forall r :: r in c.engine.replicas ==>
              c'.engine.replicas[r].lastAcked == c.engine.replicas[r].lastAcked
  {
    Extend(p, Initial, evs, c, RecordNew(e));
    evs', c' := evs + [RecordNew(e)], Next(p, c, RecordNew(e));
  }

  lemma AllPending(e: Engine, r: NodeId)
    requires r in e.replicas && e.replicas[r].lastAcked == 0
             && forall i :: 0 <= i < |e.pending| ==> e.pending[i].txnId > 0
    ensures PendingFor(e, r) == e.pending
  {
    AboveAll(e.pending, 0);
  }

  // ---------- a follower too small for the log ----------

  /** A follower of capacity 1 acknowledges two inserts and holds one. */
  lemma SmallFollowerForgets() returns (evs: seq<Event>, c: Cluster)
    ensures Reaches(Follower(1), Initial, evs, c)
    ensures var a := NodeId("a");
            && a in c.engine.replicas && a !in c.gapped && c.engine.replicas[a].lastAcked == 2 == LastTxn(c.log)
            && StoreOf(c, a) == map[1 := Rec([], "")]
            && Replay(Follower(1), c.log) == map[1 := Rec([], ""), 2 := Rec([], "")]
  {
    hide Reaches, ApplyBatch, Replay, Next, AppliedOf, Span, Above, Record;
    var p, a, e1, e2 := Follower(1), NodeId("a"), InsertEntry(1), InsertEntry(2);
    NoEvents(p);
    evs, c := Joins(p, [], Initial, a);
    evs, c := Recorded(p, evs, c, e1);
    evs, c := Recorded(p, evs, c, e2);
    assert c.log == [e1, e2] && c.engine.pending == [e1, e2];
    evs, c := SendsAll(p, evs, c, a);
    SmallBatch(p);
    evs, c := Applies(p, evs, c, Batch(a, [e1, e2], 0), map[1 := Rec([], "")], 2, 2);
    evs, c := Acks(p, evs, c, a, 2);
  }

  // ---------- a node that joins across a gap ----------

  /** One insert applied to an empty unbounded store. */
  lemma SingleBatch(p: Params, i: byte)
    requires p == Follower(0)
    ensures ApplyBatch(p, map[], [InsertEntry(i)], 0) == Outcome(map[i := Rec([], "")], 1, Some(i))
  {
    var e := InsertEntry(i);
    assert ApplyEntry(p, map[], e) == Some(map[i := Rec([], "")]);
    assert [e][1..] == [];
    ApplyCons(p, map[], [e], 0);
    ApplyCons(p, map[i := Rec([], "")], [], i);
  }

  /** The first entry is recorded, applied by the only replica `a`, acknowledged and trimmed. */
  lemma TrimmedRun() returns (evs: seq<Event>, c: Cluster)
    ensures Reaches(Follower(0), Initial, evs, c)
    ensures c.log == [InsertEntry(1)] && c.engine.pending == [] && c.gapped == {}
    ensures c.engine.replicas.Keys == c.stores.Keys == c.applied.Keys == {NodeId("a")}
  {
    hide Reaches, ApplyBatch, Replay, Next, AppliedOf, Span, Above, Record;
    var p, a, e1 := Follower(0), NodeId("a"), InsertEntry(1);
    NoEvents(p);
    evs, c := Joins(p, [], Initial, a);
    evs, c := Recorded(p, evs, c, e1);
    assert c.log == [e1] && c.engine.pending == [e1] && c.engine.replicas.Keys == {a};
    evs, c := SendsAll(p, evs, c, a);
    SingleBatch(p, 1);
    evs, c := Applies(p, evs, c, Batch(a, [e1], 0), map[1 := Rec([], "")], 1, 1);
    evs, c := Acks(p, evs, c, a, 1);
    NothingAbove(e1);
    assert IsMinAcked(c.engine.replicas, 1);
    evs, c := Trims(p, evs, c, 1);
  }

  lemma Trims(p: Params, evs: seq<Event>, c: Cluster, m: nat) returns (evs': seq<Event>, c': Cluster)
    requires Reaches(p, Initial, evs, c) && IsMinAcked(c.engine.replicas, m)
    ensures Reaches(p, Initial, evs', c') && c' == c.(engine := TrimmedTo(c.engine, m))
  {
    hide Reaches, Above;
    Extend(p, Initial, evs, c, Trim(m));
    evs', c' := evs + [Trim(m)], Next(p, c, Trim(m));
  }

  lemma NothingAbove(e: LogEntry)
    ensures Above([e], e.txnId) == []
  {
    assert Above([e][1..], e.txnId) == [];
  }

  /** A node that joins then acknowledges the second entry without the first. */
  lemma LateJoinerMisses() returns (evs: seq<Event>, c: Cluster)
    ensures Reaches(Follower(0), Initial, evs, c)
    ensures var b := NodeId("b");
            && b in c.engine.replicas && c.log == [InsertEntry(1), InsertEntry(2)]
            && Acknowledge(b, 2) in c.network
            && StoreOf(c, b) == map[2 := Rec([], "")] && PositionsOf(c, b) == {1}
  {
    hide Reaches, ApplyBatch, Replay, Above, Next, AppliedOf;
    var p, b, e1, e2 := Follower(0), NodeId("b"), InsertEntry(1), InsertEntry(2);
    evs, c := TrimmedRun();
    OtherName();
    evs, c := Recorded(p, evs, c, e2);
    assert c.log == [e1, e2] && c.engine.pending == [e2];
    evs, c := Joins(p, evs, c, b);
    evs, c := SendsAll(p, evs, c, b);
    assert StoreOf(c, b) == map[];
    SingleBatch(p, 2);
    evs, c := Applies(p, evs, c, Batch(b, [e2], 1), map[2 := Rec([], "")], 1, 2);
    assert {} + Span(1, 1) == {1};
  }

  /** A node that joins after everything was trimmed has lag 0 and has applied nothing. */
  lemma EmptyJoinerHasNoLag() returns (evs: seq<Event>, c: Cluster)
    ensures Reaches(Follower(0), Initial, evs, c)
    ensures var b := NodeId("b");
            && Lag(c.engine, b) == Some(0) && c.log == [InsertEntry(1)]
            && StoreOf(c, b) == map[] && PositionsOf(c, b) == {}
  {
    hide Reaches, Next, AppliedOf;
    evs, c := TrimmedRun();
    OtherName();
    evs, c := Joins(Follower(0), evs, c, NodeId("b"));
  }

  lemma OtherName()
    ensures NodeId("b") != NodeId("a")
  {
    assert "a"[0] != "b"[0];
  }

  // ---------- a replica announced as synced ----------

  /** A replica added while an entry is queued is called synced although it lags. */
  lemma JoinAnnouncesSynced(maxLag: nat)
    ensures var e := Record(Engine(map[], []), InsertEntry(1), maxLag);
            StatesMatch(e, maxLag) && !StatesMatch(Joined(e, NodeId("a")), maxLag)
  {
    var e := Record(Engine(map[], []), InsertEntry(1), maxLag);
    assert e.pending == [InsertEntry(1)] && e.replicas == map[];
    JoinMatchesIff(e, NodeId("a"), maxLag);
  }
}
