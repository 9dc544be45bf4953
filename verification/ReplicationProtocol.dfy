/** Replication as a step protocol between one leader and its followers over a network that loses,
    repeats and reorders messages. Messages are never removed from `network`, so any of them may be
    delivered at any time, any number of times, or never. */
module ReplicationProtocol {
  import opened Options
  import opened WalCodec
  import opened Replication

  const INSERT_VECTOR: byte := 1

  type VectorId = nat
  datatype Rec = Rec(vector: seq<real>, metadata: string)
  type Store = map<VectorId, Rec>

  /** Follower parameters: payload decoding, and hot-store capacity (0 = unlimited). */
  datatype Params = Params(decode: seq<byte> -> Option<(VectorId, Rec)>, capacity: nat, maxLag: nat)

  // ---------- the follower ----------

  /** Hot-store insert with its errors ignored: a full store or a known id changes nothing. */
  function HotInsert(p: Params, s: Store, id: VectorId, rec: Rec): Store {
    if p.capacity > 0 && |s| >= p.capacity then s else if id in s then s else s[id := rec]
  }

  /** None when the payload does not parse; only inserts have an effect. */
  function ApplyEntry(p: Params, s: Store, e: LogEntry): Option<Store> {
    if e.opCode != INSERT_VECTOR then Some(s)
    else match p.decode(e.payload)
         case None => None
         case Some((id, rec)) => Some(HotInsert(p, s, id, rec))
  }

  /** Apply a batch in order: the final store, how many entries were applied, and the
      acknowledgement, which is absent if an entry failed. */
  datatype Outcome = Outcome(store: Store, count: nat, ack: Option<nat>)

  function ApplyBatch(p: Params, s: Store, es: seq<LogEntry>, lastAcked: nat): Outcome
    decreases |es|
  {
    if es == [] then Outcome(s, 0, Some(lastAcked))
    else match ApplyEntry(p, s, es[0])
         case None => Outcome(s, 0, None)
         case Some(s') =>
           var o := ApplyBatch(p, s', es[1..], es[0].txnId);
           o.(count := o.count + 1)
  }

  method HandleReplicate(p: Params, entries: seq<LogEntry>, storage: Store)
    returns (store: Store, ack: Option<nat>)
    ensures var o := ApplyBatch(p, storage, entries, 0); store == o.store && ack == o.ack
    ensures ack.Some? <==> forall e :: e in entries ==> e.opCode != 0x01 || p.decode(e.payload).Some?
    ensures ack.Some? ==> ack.value == if entries == [] then 0 else entries[|entries| - 1].txnId
  {
    store := storage;
    var lastAcked := 0;
    var i := 0;
    assert entries[0..] == entries;
    while i < |entries|
      invariant 0 <= i <= |entries|
      invariant ApplyBatch(p, store, entries[i..], lastAcked).store == ApplyBatch(p, storage, entries, 0).store
      invariant ApplyBatch(p, store, entries[i..], lastAcked).ack == ApplyBatch(p, storage, entries, 0).ack
      invariant forall e :: e in entries[..i] ==> e.opCode != 0x01 || p.decode(e.payload).Some?
      invariant lastAcked == if i == 0 then 0 else entries[i - 1].txnId
    {
      assert entries[i..][1..] == entries[i + 1..];
      assert entries[i] in entries && entries[..i + 1] == entries[..i] + [entries[i]];
      var applied := ApplyEntry(p, store, entries[i]);
      if applied.None? {
        return store, None;
      }
      store := applied.value;
      lastAcked := entries[i].txnId;
      i := i + 1;
    }
    assert entries[..i] == entries;
    ack := Some(lastAcked);
  }

  // ---------- the reference: replaying a log into an unbounded store ----------

  function Put(p: Params, s: Store, e: LogEntry): Store {
    if e.opCode != INSERT_VECTOR then s
    else match p.decode(e.payload)
         case None => s
         case Some((id, rec)) => if id in s then s else s[id := rec]
  }

  function Replay(p: Params, es: seq<LogEntry>): Store {
    if es == [] then map[] else Put(p, Replay(p, es[..|es| - 1]), es[|es| - 1])
  }

  predicate Inserts(p: Params, e: LogEntry, id: VectorId) {
    e.opCode == 0x01 && p.decode(e.payload).Some? && p.decode(e.payload).value.0 == id
  }

  ghost predicate FirstInsert(p: Params, es: seq<LogEntry>, id: VectorId, i: nat) {
    i < |es| && Inserts(p, es[i], id) && forall j :: 0 <= j < i ==> !Inserts(p, es[j], id)
  }

  /** The store holds exactly the inserted ids, each with the record of its first insert. */
  ghost predicate HoldsFirst(p: Params, es: seq<LogEntry>, s: Store) {
    && (forall id :: id in s <==> exists i: nat :: FirstInsert(p, es, id, i))
    && forall id, i: nat :: FirstInsert(p, es, id, i) ==> id in s && s[id] == p.decode(es[i].payload).value.1
  }

  lemma {:induction false} ReplayHoldsFirst(p: Params, es: seq<LogEntry>)
    ensures HoldsFirst(p, es, Replay(p, es))
    decreases |es|
  {
    if es != [] {
      var n := |es| - 1;
      ReplayHoldsFirst(p, es[..n]);
      forall id ensures FirstInsert(p, es, id, n) <==> Inserts(p, es[n], id) && id !in Replay(p, es[..n]) {
        FirstIsLast(p, es, id);
      }
      forall id, i: nat | i < n ensures FirstInsert(p, es, id, i) <==> FirstInsert(p, es[..n], id, i) {
        assert forall j :: 0 <= j < n ==> es[..n][j] == es[j];
      }
      HoldsOneMore(p, es);
    }
  }

  /** The last entry is the first insert of an id exactly if no entry before inserts it. */
  lemma FirstIsLast(p: Params, es: seq<LogEntry>, id: VectorId)
    requires es != [] && HoldsFirst(p, es[..|es| - 1], Replay(p, es[..|es| - 1]))
    ensures var n := |es| - 1; FirstInsert(p, es, id, n) <==> Inserts(p, es[n], id) && id !in Replay(p, es[..n])
  {
    hide Replay, Inserts;
    var n := |es| - 1;
    var init := es[..n];
    assert forall j :: 0 <= j < n ==> init[j] == es[j];
    if j :| 0 <= j < n && Inserts(p, es[j], id) {
      var i := LeastInsert(p, init, id, j);
      assert id in Replay(p, init);
    }
  }

  lemma {:induction false} LeastInsert(p: Params, es: seq<LogEntry>, id: VectorId, j: nat) returns (i: nat)
    requires j < |es| && Inserts(p, es[j], id)
    ensures FirstInsert(p, es, id, i)
    decreases j
  {
    hide Inserts;
    if k :| 0 <= k < j && Inserts(p, es[k], id) {
      i := LeastInsert(p, es, id, k);
    } else {
      i := j;
    }
  }

  lemma HoldsOneMore(p: Params, es: seq<LogEntry>)
    requires es != [] && HoldsFirst(p, es[..|es| - 1], Replay(p, es[..|es| - 1]))
    requires var n := |es| - 1;
             forall id :: FirstInsert(p, es, id, n) <==> Inserts(p, es[n], id) && id !in Replay(p, es[..n])
    requires var n := |es| - 1;
             forall id, i: nat :: i < n ==> (FirstInsert(p, es, id, i) <==> FirstInsert(p, es[..n], id, i))
    ensures HoldsFirst(p, es, Replay(p, es))
  {
    var n := |es| - 1;
    var before, s := Replay(p, es[..n]), Replay(p, es);
    assert s == Put(p, before, es[n]);
    hide Replay, FirstInsert;
    forall id, i: nat | FirstInsert(p, es, id, i) ensures id in s && s[id] == p.decode(es[i].payload).value.1 {
      WithinList(p, es, id, i);
    }
    forall id | id in s ensures exists i: nat :: FirstInsert(p, es, id, i) {
      if id in before {
        var i: nat :| FirstInsert(p, es[..n], id, i);
        WithinList(p, es[..n], id, i);
      } else {
        assert FirstInsert(p, es, id, n);
      }
    }
  }

  lemma WithinList(p: Params, es: seq<LogEntry>, id: VectorId, i: nat)
    requires FirstInsert(p, es, id, i)
    ensures i < |es| && Inserts(p, es[i], id)
  {
  }

  /** The log's distinct ids fit the follower's hot store. */
  ghost predicate Fits(p: Params, log: seq<LogEntry>) {
    p.capacity == 0 || |Replay(p, log)| <= p.capacity
  }

  lemma ReplaySnoc(p: Params, es: seq<LogEntry>, e: LogEntry)
    ensures Replay(p, es + [e]) == Put(p, Replay(p, es), e)
  {
    assert (es + [e])[..|es|] == es;
  }

  lemma {:induction false} ReplayGrows(p: Params, log: seq<LogEntry>, n: nat, m: nat)
    requires n <= m <= |log|
    ensures Replay(p, log[..n]).Keys <= Replay(p, log[..m]).Keys
    decreases m
  {
    if n < m {
      ReplayGrows(p, log, n, m - 1);
      assert log[..m] == log[..m - 1] + [log[m - 1]];
      ReplaySnoc(p, log[..m - 1], log[m - 1]);
    }
  }

  lemma FewerKeys(a: Store, b: Store)
    requires a.Keys <= b.Keys
    ensures |a| <= |b|
  {
    assert b.Keys == a.Keys + (b.Keys - a.Keys);
  }

  lemma FitsPrefix(p: Params, log: seq<LogEntry>, n: nat)
    requires Fits(p, log) && n <= |log|
    ensures Fits(p, log[..n])
  {
    ReplayGrows(p, log, n, |log|);
    assert log[..|log|] == log;
    FewerKeys(Replay(p, log[..n]), Replay(p, log));
  }

  /** Redelivering an entry that is already part of the replayed prefix changes nothing. */
  lemma Reapply(p: Params, log: seq<LogEntry>, n: nat, i: nat)
    requires i < n <= |log|
    ensures ApplyEntry(p, Replay(p, log[..n]), log[i]) in {None, Some(Replay(p, log[..n]))}
  {
    assert log[..i + 1] == log[..i] + [log[i]];
    ReplaySnoc(p, log[..i], log[i]);
    ReplayGrows(p, log, i + 1, n);
  }

  lemma ApplyNext(p: Params, log: seq<LogEntry>, n: nat)
    requires n < |log| && Fits(p, log)
    ensures ApplyEntry(p, Replay(p, log[..n]), log[n]) in {None, Some(Replay(p, log[..n + 1]))}
  {
    var s, s' := Replay(p, log[..n]), Replay(p, log[..n + 1]);
    assert log[..n + 1] == log[..n] + [log[n]];
    ReplaySnoc(p, log[..n], log[n]);
    FitsPrefix(p, log, n + 1);
    if s' != s {
      var id := p.decode(log[n].payload).value.0;
      assert s'.Keys == s.Keys + {id};
    }
  }

  function Max(a: nat, b: nat): nat {
    if a < b then b else a
  }

  lemma ApplyCons(p: Params, s: Store, es: seq<LogEntry>, lastAcked: nat)
    ensures es == [] ==> ApplyBatch(p, s, es, lastAcked) == Outcome(s, 0, Some(lastAcked))
    ensures es != [] && ApplyEntry(p, s, es[0]).None? ==> ApplyBatch(p, s, es, lastAcked) == Outcome(s, 0, None)
    ensures es != [] && ApplyEntry(p, s, es[0]).Some? ==>
              (var o := ApplyBatch(p, ApplyEntry(p, s, es[0]).value, es[1..], es[0].txnId);
               ApplyBatch(p, s, es, lastAcked) == o.(count := o.count + 1))
  {
  }

  lemma TailSlice(log: seq<LogEntry>, from: nat, es: seq<LogEntry>)
    requires es != [] && from + |es| <= |log| && es == log[from..from + |es|]
    ensures es[1..] == log[from + 1..from + 1 + |es[1..]|]
  {
  }

  /** A batch that starts within the applied prefix leaves a store that replays a prefix again. */
  lemma {:induction false} ApplyContiguous(p: Params, log: seq<LogEntry>, n: nat, from: nat,
                                           es: seq<LogEntry>, lastAcked: nat)
    requires Fits(p, log) && from <= n <= |log| && from + |es| <= |log|
    requires es == log[from..from + |es|]
    ensures var o := ApplyBatch(p, Replay(p, log[..n]), es, lastAcked);
            && o.count <= |es|
            && o.store == Replay(p, log[..Max(n, from + o.count)])
            && (o.ack.Some? ==> o.count == |es| && o.ack.value == if es == [] then lastAcked else LastTxn(es))
    decreases |es|
  {
    hide Replay, ApplyEntry, Fits, ApplyBatch;
    ApplyCons(p, Replay(p, log[..n]), es, lastAcked);
    if es != [] {
      assert es[0] == log[from];
      if from < n {
        Reapply(p, log, n, from);
      } else {
        ApplyNext(p, log, n);
      }
      var s' := ApplyEntry(p, Replay(p, log[..n]), es[0]);
      if s'.Some? {
        TailSlice(log, from, es);
        ApplyContiguous(p, log, Max(n, from + 1), from + 1, es[1..], es[0].txnId);
        assert |es| > 1 ==> LastTxn(es[1..]) == LastTxn(es);
      }
    }
  }

  // ---------- the protocol ----------

  /** `from` is bookkeeping only: the log position of the batch's first entry. */
  datatype Message =
    | Batch(to: NodeId, entries: seq<LogEntry>, from: nat)
    | Acknowledge(sender: NodeId, txn: nat)

  /** `founders`: replicas registered while nothing had been trimmed, and never re-added since.
      `gapped`: nodes that were once registered after an entry they lacked had been trimmed. */
  datatype Cluster = Cluster(
    engine: Engine,
    log: seq<LogEntry>,            // every entry ever recorded
    stores: map<NodeId, Store>,
    applied: map<NodeId, set<nat>>, // history: log positions of the entries a follower has applied
    network: set<Message>,
    founders: set<NodeId>,
    gapped: set<NodeId>)

  datatype Event =
    | RecordNew(entry: LogEntry)
    | Send(to: NodeId, k: nat)
    | Deliver(m: Message)
    | Trim(minAcked: nat)
    | Join(r: NodeId)
    | Leave(r: NodeId)

  const Initial := Cluster(Engine(map[], []), [], map[], map[], {}, {}, {})

  function StoreOf(c: Cluster, r: NodeId): Store {
    if r in c.stores then c.stores[r] else map[]
  }

  function PositionsOf(c: Cluster, r: NodeId): set<nat> {
    if r in c.applied then c.applied[r] else {}
  }

  /** k positions from `from` on. */
  ghost function Span(from: nat, k: nat): (s: set<nat>)
    ensures |s| == k && forall i: nat :: i in s <==> from <= i < from + k
  {
    if k == 0 then {} else Span(from, k - 1) + {from + k - 1}
  }

  /** Positions below n. */
  ghost function Prefix(n: nat): set<nat> {
    Span(0, n)
  }

  lemma PrefixWithin(n: nat, s: set<nat>)
    requires Prefix(n) <= s
    ensures n <= |s|
  {
    assert s == Prefix(n) + (s - Prefix(n));
  }

  /** The least position from n on that is not in s. */
  ghost function MissingFrom(s: set<nat>, n: nat): (m: nat)
    requires Prefix(n) <= s
    ensures m !in s && Prefix(m) <= s
    decreases |s| - n
  {
    PrefixWithin(n, s);
    if n in s then
      assert Prefix(n + 1) == Prefix(n) + {n};
      PrefixWithin(n + 1, s);
      MissingFrom(s, n + 1)
    else n
  }

  /** The length of the log prefix a follower has applied. */
  ghost function AppliedOf(c: Cluster, r: NodeId): (n: nat)
    ensures n !in PositionsOf(c, r) && Prefix(n) <= PositionsOf(c, r)
  {
    assert Prefix(0) == {};
    MissingFrom(PositionsOf(c, r), 0)
  }

  lemma AppliedIsPrefix(c: Cluster, r: NodeId, n: nat)
    requires PositionsOf(c, r) == Prefix(n)
    ensures AppliedOf(c, r) == n
  {
    var m := AppliedOf(c, r);
    assert m !in Prefix(n) && Prefix(m) <= Prefix(n);
    PrefixWithin(m, Prefix(n));
  }

  lemma PrefixAndSpan(n: nat, from: nat, k: nat)
    requires from <= n || k == 0
    ensures Prefix(n) + Span(from, k) == Prefix(if k == 0 then n else Max(n, from + k))
  {
  }

  /** How many entries have been trimmed from the queue. */
  function Trimmed(c: Cluster): nat {
    SatSub(|c.log|, |c.engine.pending|)
  }

  ghost predicate Enabled(p: Params, c: Cluster, ev: Event) {
    match ev
    case RecordNew(e) => e.txnId > LastTxn(c.log)
    case Send(r, k) => k <= |PendingFor(c.engine, r)|
    case Deliver(m) => m in c.network
    case Trim(m) => IsMinAcked(c.engine.replicas, m)
    case Join(_) | Leave(_) => true
  }

  ghost function Next(p: Params, c: Cluster, ev: Event): Cluster
    requires Enabled(p, c, ev)
  {
    match ev
    case RecordNew(e) => c.(engine := Record(c.engine, e, p.maxLag), log := c.log + [e])
    case Send(r, k) =>
      var todo := PendingFor(c.engine, r);
      c.(network := c.network + {Batch(r, todo[..k], SatSub(|c.log|, |todo|))})
    case Deliver(Acknowledge(r, t)) => c.(engine := Ack(c.engine, r, t, p.maxLag))
    case Deliver(Batch(r, es, from)) =>
      var o := ApplyBatch(p, StoreOf(c, r), es, 0);
      c.(stores := c.stores[r := o.store],
         applied := c.applied[r := PositionsOf(c, r) + Span(from, o.count)],
         network := c.network + if o.ack.Some? then {Acknowledge(r, o.ack.value)} else {})
    case Trim(m) => c.(engine := TrimmedTo(c.engine, m))
    case Join(r) =>
      c.(engine := Joined(c.engine, r),
         founders := if Trimmed(c) == 0 then c.founders + {r} else c.founders - {r},
         gapped := if Trimmed(c) <= AppliedOf(c, r) then c.gapped else c.gapped + {r})
    case Leave(r) =>
      c.(engine := Left(c.engine, r), founders := c.founders - {r})
  }

  ghost predicate Reaches(p: Params, c: Cluster, evs: seq<Event>, c': Cluster)
    decreases |evs|
  {
    if evs == [] then c == c'
    else Enabled(p, c, evs[0]) && Reaches(p, Next(p, c, evs[0]), evs[1..], c')
  }

  // ---------- invariant ----------

  ghost predicate Increasing(log: seq<LogEntry>) {
    && (forall i :: 0 <= i < |log| ==> log[i].txnId > 0)
    && forall i, j :: 0 <= i < j < |log| ==> log[i].txnId < log[j].txnId
  }

  /** Acknowledging `t` is justified: every logged entry up to `t` lies in the applied prefix. */
  ghost predicate Covered(log: seq<LogEntry>, n: nat, t: nat) {
    t <= LastTxn(log) && forall i :: 0 <= i < |log| && log[i].txnId <= t ==> i < n
  }

  ghost predicate MessageOk(log: seq<LogEntry>, n: nat, r: NodeId, m: Message) {
    match m
    case Batch(to, es, from) =>
      to == r && es != [] ==> from <= n && from + |es| <= |log| && es == log[from..from + |es|]
    case Acknowledge(sender, t) => sender == r ==> Covered(log, n, t)
  }

  /** The node's store replays a prefix of the log, and every message from or to it is in order. */
  ghost predicate FollowerOk(p: Params, c: Cluster, r: NodeId) {
    && PositionsOf(c, r) == Prefix(AppliedOf(c, r))
    && AppliedOf(c, r) <= |c.log|
    && StoreOf(c, r) == Replay(p, c.log[..AppliedOf(c, r)])
    && forall m :: m in c.network ==> MessageOk(c.log, AppliedOf(c, r), r, m)
  }

  /** A registered node acknowledged only what it applied, and only what it applied was trimmed. */
  ghost predicate ReplicaOk(c: Cluster, r: NodeId) {
    r in c.engine.replicas ==>
      Covered(c.log, AppliedOf(c, r), c.engine.replicas[r].lastAcked) && Trimmed(c) <= AppliedOf(c, r)
  }

  /** The queue is the part of the log not yet trimmed, and founders acknowledged all that was trimmed. */
  ghost predicate QueueOk(c: Cluster) {
    && |c.engine.pending| <= |c.log|
    && c.engine.pending == c.log[|c.log| - |c.engine.pending|..]
    && forall r, i :: r in c.founders && r in c.engine.replicas && 0 <= i < |c.log| - |c.engine.pending| ==>
         c.log[i].txnId <= c.engine.replicas[r].lastAcked
  }

  /** What holds of a node that was never registered across a gap. */
  ghost predicate SafeOk(p: Params, c: Cluster, r: NodeId) {
    r !in c.gapped ==> FollowerOk(p, c, r) && ReplicaOk(c, r)
  }

  ghost predicate StoresFit(p: Params, c: Cluster) {
    p.capacity > 0 ==> forall r :: r in c.stores ==> |c.stores[r]| <= p.capacity
  }

  ghost predicate Inv(p: Params, c: Cluster) {
    && Increasing(c.log)
    && QueueOk(c)
    && StoresFit(p, c)
    && (Fits(p, c.log) ==> forall r :: SafeOk(p, c, r))
  }

  // ---------- entries above an acknowledgement form a suffix ----------

  lemma {:induction false} AboveDrop(log: seq<LogEntry>, cut: nat, t: nat)
    requires cut <= |log| && forall i :: 0 <= i < cut ==> log[i].txnId <= t
    ensures Above(log[cut..], t) == Above(log, t)
  {
    if cut == 0 {
      assert log[0..] == log;
    } else {
      assert log[1..][cut - 1..] == log[cut..];
      AboveDrop(log[1..], cut - 1, t);
    }
  }

  lemma {:induction false} AboveAll(log: seq<LogEntry>, t: nat)
    requires forall i :: 0 <= i < |log| ==> log[i].txnId > t
    ensures Above(log, t) == log
  {
    if log != [] {
      AboveAll(log[1..], t);
    }
  }

  /** In an increasing log the entries above `t` are a suffix, and exactly those before it are not. */
  lemma {:induction false} AboveIsSuffix(log: seq<LogEntry>, t: nat)
    requires Increasing(log)
    ensures var k := |log| - |Above(log, t)|;
            && 0 <= k && Above(log, t) == log[k..]
            && (forall i :: 0 <= i < k ==> log[i].txnId <= t)
            && (forall i :: k <= i < |log| ==> log[i].txnId > t)
  {
    if log != [] {
      if log[0].txnId > t {
        AboveAll(log, t);
      } else {
        IncreasingSuffix(log, 1);
        AboveIsSuffix(log[1..], t);
        var k := |log| - |Above(log, t)|;
        assert log[1..][k - 1..] == log[k..];
        assert forall i :: 0 < i < |log| ==> log[i] == log[1..][i - 1];
      }
    }
  }

  /** For a founder, what is pending is exactly the log above its acknowledgement. */
  lemma PendingIsLogSuffix(p: Params, c: Cluster, r: NodeId)
    requires Inv(p, c) && r in c.founders && r in c.engine.replicas
    ensures var s, acked := |c.log| - |PendingFor(c.engine, r)|, c.engine.replicas[r].lastAcked;
            && 0 <= s && PendingFor(c.engine, r) == c.log[s..]
            && forall i :: 0 <= i < |c.log| ==> (c.log[i].txnId > acked <==> i >= s)
  {
    hide Fits, SafeOk, StoresFit, Above;
    AboveDrop(c.log, |c.log| - |c.engine.pending|, c.engine.replicas[r].lastAcked);
    AboveIsSuffix(c.log, c.engine.replicas[r].lastAcked);
  }

  /** Entries above an acknowledgement, in a suffix of the log, form a suffix of the log. */
  lemma SuffixAbove(log: seq<LogEntry>, cut: nat, acked: nat, n: nat)
    requires Increasing(log) && cut <= |log| && cut <= n && Covered(log, n, acked)
    ensures var s := |log| - |Above(log[cut..], acked)|; 0 <= s <= n && Above(log[cut..], acked) == log[s..]
  {
    hide Above;
    var pending := log[cut..];
    IncreasingSuffix(log, cut);
    AboveIsSuffix(pending, acked);
    var k := |pending| - |Above(pending, acked)|;
    assert log[cut..][k..] == log[cut + k..];
    if k > 0 {
      assert pending[k - 1] == log[cut + k - 1];
    }
  }

  lemma IncreasingSuffix(log: seq<LogEntry>, cut: nat)
    requires Increasing(log) && cut <= |log|
    ensures Increasing(log[cut..])
  {
    assert forall i :: 0 <= i < |log[cut..]| ==> log[cut..][i] == log[cut + i];
  }

  /** For a registered node outside `gapped`, what is pending is a suffix of the log that starts within
      the applied prefix: whatever the node lacks is still queued for it. */
  lemma PendingReachesApplied(c: Cluster, r: NodeId)
    requires Increasing(c.log) && QueueOk(c) && ReplicaOk(c, r) && r in c.engine.replicas
    ensures var s := |c.log| - |PendingFor(c.engine, r)|;
            0 <= s <= AppliedOf(c, r) && PendingFor(c.engine, r) == c.log[s..]
  {
    hide Above, Increasing, Covered, QueueOk, AppliedOf;
    QueueIsSuffix(c);
    SuffixAbove(c.log, |c.log| - |c.engine.pending|, c.engine.replicas[r].lastAcked, AppliedOf(c, r));
  }

  lemma QueueIsSuffix(c: Cluster)
    requires QueueOk(c)
    ensures |c.engine.pending| <= |c.log| && c.engine.pending == c.log[|c.log| - |c.engine.pending|..]
  {
  }

  // ---------- every step keeps the invariant ----------

  lemma CoveredGrows(log: seq<LogEntry>, e: LogEntry, n: nat, t: nat)
    requires Covered(log, n, t) && e.txnId > LastTxn(log)
    ensures Covered(log + [e], n, t)
  {
  }

  lemma RecordFollower(p: Params, c: Cluster, e: LogEntry, r: NodeId)
    requires FollowerOk(p, c, r) && ReplicaOk(c, r) && Enabled(p, c, RecordNew(e))
    ensures FollowerOk(p, Next(p, c, RecordNew(e)), r) && ReplicaOk(Next(p, c, RecordNew(e)), r)
  {
    hide Replay;
    var n := AppliedOf(c, r);
    assert (c.log + [e])[..n] == c.log[..n];
    if r in c.engine.replicas {
      CoveredGrows(c.log, e, n, c.engine.replicas[r].lastAcked);
    }
    forall m | m in c.network ensures MessageOk(c.log + [e], n, r, m) {
      assert MessageOk(c.log, n, r, m);
      if m.Acknowledge? && m.sender == r {
        CoveredGrows(c.log, e, n, m.txn);
      }
    }
  }

  lemma RecordKeeps(p: Params, c: Cluster, e: LogEntry)
    requires Inv(p, c) && Enabled(p, c, RecordNew(e))
    ensures Inv(p, Next(p, c, RecordNew(e)))
  {
    hide FollowerOk, ReplicaOk, Fits, QueueOk, Increasing;
    var c' := Next(p, c, RecordNew(e));
    RecordKeepsQueue(p, c, e);
    assert c'.log[..|c.log|] == c.log;
    if Fits(p, c'.log) {
      FitsPrefix(p, c'.log, |c.log|);
      forall r ensures SafeOk(p, c', r) {
        assert SafeOk(p, c, r);
        if r !in c.gapped {
          RecordFollower(p, c, e, r);
        }
      }
    }
  }

  lemma RecordKeepsQueue(p: Params, c: Cluster, e: LogEntry)
    requires Increasing(c.log) && QueueOk(c) && Enabled(p, c, RecordNew(e))
    ensures Increasing(Next(p, c, RecordNew(e)).log) && QueueOk(Next(p, c, RecordNew(e)))
  {
    hide Increasing;
    IncreasingSnoc(c.log, e);
    SuffixSnoc(c.log, c.engine.pending, e);
    RecordKeepsAcks(c.engine, e, p.maxLag);
    hide Record;
    var c', cut := Next(p, c, RecordNew(e)), |c.log| - |c.engine.pending|;
    forall r, i | r in c'.founders && r in c'.engine.replicas && 0 <= i < cut
      ensures c'.log[i].txnId <= c'.engine.replicas[r].lastAcked
    {
      assert c'.log[i] == c.log[i];
    }
  }

  lemma IncreasingSnoc(log: seq<LogEntry>, e: LogEntry)
    requires Increasing(log) && e.txnId > LastTxn(log)
    ensures Increasing(log + [e])
  {
    forall i | 0 <= i < |log| ensures log[i].txnId < e.txnId {
      assert i < |log| - 1 ==> log[i].txnId < log[|log| - 1].txnId;
    }
  }

  lemma SuffixSnoc(log: seq<LogEntry>, pending: seq<LogEntry>, e: LogEntry)
    requires |pending| <= |log| && pending == log[|log| - |pending|..]
    ensures pending + [e] == (log + [e])[|log| - |pending|..]
  {
  }

  lemma RecordKeepsAcks(engine: Engine, e: LogEntry, maxLag: nat)
    ensures var engine' := Record(engine, e, maxLag);
            && engine'.pending == engine.pending + [e] && engine'.replicas.Keys == engine.replicas.Keys
            && forall r :: r in engine.replicas ==> engine'.replicas[r].lastAcked == engine.replicas[r].lastAcked
  {
  }

  lemma NewBatchOk(p: Params, c: Cluster, r: NodeId, k: nat)
    requires Increasing(c.log) && QueueOk(c) && ReplicaOk(c, r) && Enabled(p, c, Send(r, k))
    ensures var todo := PendingFor(c.engine, r);
            MessageOk(c.log, AppliedOf(c, r), r, Batch(r, todo[..k], SatSub(|c.log|, |todo|)))
  {
    hide Increasing, QueueOk, ReplicaOk, Above, Covered;
    if r in c.engine.replicas {
      PendingReachesApplied(c, r);
      var todo := PendingFor(c.engine, r);
      var s := |c.log| - |todo|;
      assert c.log[s..][..k] == c.log[s..s + k];
    }
  }

  lemma SendSafe(p: Params, c: Cluster, to: NodeId, k: nat, r: NodeId)
    requires Increasing(c.log) && QueueOk(c) && SafeOk(p, c, r) && Enabled(p, c, Send(to, k))
    ensures SafeOk(p, Next(p, c, Send(to, k)), r)
  {
    hide Replay, PendingFor, Increasing, Covered, AppliedOf, Prefix, QueueOk, MessageOk;
    SameApplied(c, Next(p, c, Send(to, k)), r);
    if r !in c.gapped {
      if r == to {
        NewBatchOk(p, c, r, k);
      } else {
        NotMyBatch(p, c, to, k, r);
      }
    }
  }

  lemma NotMyBatch(p: Params, c: Cluster, to: NodeId, k: nat, r: NodeId)
    requires Enabled(p, c, Send(to, k)) && r != to
    ensures var todo := PendingFor(c.engine, to);
            MessageOk(c.log, AppliedOf(c, r), r, Batch(to, todo[..k], SatSub(|c.log|, |todo|)))
  {
  }

  lemma SendKeeps(p: Params, c: Cluster, to: NodeId, k: nat)
    requires Inv(p, c) && Enabled(p, c, Send(to, k))
    ensures Inv(p, Next(p, c, Send(to, k)))
  {
    hide Fits, PendingFor, Increasing, SafeOk;
    if Fits(p, c.log) {
      forall r ensures SafeOk(p, Next(p, c, Send(to, k)), r) {
        SendSafe(p, c, to, k, r);
      }
    }
  }

  lemma AckKeeps(p: Params, c: Cluster, sender: NodeId, t: nat)
    requires Inv(p, c) && Enabled(p, c, Deliver(Acknowledge(sender, t)))
    ensures Inv(p, Next(p, c, Deliver(Acknowledge(sender, t))))
  {
    hide Replay, Fits, Increasing;
    var c' := Next(p, c, Deliver(Acknowledge(sender, t)));
    if Fits(p, c.log) {
      forall r ensures SafeOk(p, c', r) {
        assert SafeOk(p, c, r);
        if r !in c.gapped {
          assert MessageOk(c.log, AppliedOf(c, r), r, Acknowledge(sender, t));
        }
      }
    }
  }

  lemma MessageOkGrows(log: seq<LogEntry>, n: nat, n': nat, r: NodeId, m: Message)
    requires MessageOk(log, n, r, m) && n <= n'
    ensures MessageOk(log, n', r, m)
  {
  }

  /** The acknowledgement of a completely applied batch is justified. */
  lemma BatchAckCovered(log: seq<LogEntry>, n: nat, from: nat, es: seq<LogEntry>)
    requires Increasing(log) && from + |es| <= n && from + |es| <= |log| && es == log[from..from + |es|]
    ensures Covered(log, n, LastTxn(es))
  {
    if es != [] {
      var last := from + |es| - 1;
      assert es[|es| - 1] == log[last];
      assert forall i :: last < i < |log| ==> log[last].txnId < log[i].txnId;
    }
  }

  /** The applied prefix after a batch. */
  function AppliedAfter(n: nat, from: nat, count: nat): nat {
    if count == 0 then n else Max(n, from + count)
  }

  /** What the follower's batch handling yields, for a batch whose message is in order. */
  lemma DeliverEffect(p: Params, log: seq<LogEntry>, n: nat, r: NodeId, es: seq<LogEntry>, from: nat)
    requires Increasing(log) && Fits(p, log) && n <= |log| && MessageOk(log, n, r, Batch(r, es, from))
    ensures var o := ApplyBatch(p, Replay(p, log[..n]), es, 0);
            var n' := AppliedAfter(n, from, o.count);
            && (from <= n || o.count == 0)
            && n <= n' <= |log| && o.store == Replay(p, log[..n'])
            && (o.ack.Some? ==> MessageOk(log, n', r, Acknowledge(r, o.ack.value)))
  {
    hide ApplyBatch, Replay, Fits, Increasing, Covered;
    var s := Replay(p, log[..n]);
    ApplyCons(p, s, es, 0);
    if es != [] {
      ApplyContiguous(p, log, n, from, es, 0);
      var o := ApplyBatch(p, s, es, 0);
      if o.ack.Some? {
        BatchAckCovered(log, Max(n, from + o.count), from, es);
      }
    } else {
      ZeroCovered(log, n);
    }
  }

  lemma ZeroCovered(log: seq<LogEntry>, n: nat)
    requires Increasing(log)
    ensures Covered(log, n, 0)
  {
  }

  lemma DeliverFollower(p: Params, c: Cluster, m: Message)
    requires Increasing(c.log) && Fits(p, c.log)
    requires m.Batch? && m in c.network && FollowerOk(p, c, m.to) && ReplicaOk(c, m.to)
    ensures FollowerOk(p, Next(p, c, Deliver(m)), m.to) && ReplicaOk(Next(p, c, Deliver(m)), m.to)
  {
    hide ApplyBatch, Replay, Fits, MessageOk, Covered, Increasing, AppliedOf, Prefix, Span;
    var r, n := m.to, AppliedOf(c, m.to);
    assert MessageOk(c.log, n, r, m);
    DeliverEffect(p, c.log, n, r, m.entries, m.from);
    var o := ApplyBatch(p, StoreOf(c, r), m.entries, 0);
    var n' := AppliedAfter(n, m.from, o.count);
    PrefixAndSpan(n, m.from, o.count);
    AppliedIsPrefix(Next(p, c, Deliver(m)), r, n');
    MessagesStillOk(c.log, n, n', r, c.network);
    if r in c.engine.replicas {
      StillCovered(c.log, n, n', c.engine.replicas[r].lastAcked);
    }
  }

  lemma MessagesStillOk(log: seq<LogEntry>, n: nat, n': nat, r: NodeId, network: set<Message>)
    requires n <= n' && forall m :: m in network ==> MessageOk(log, n, r, m)
    ensures forall m :: m in network ==> MessageOk(log, n', r, m)
  {
    forall m | m in network ensures MessageOk(log, n', r, m) {
      MessageOkGrows(log, n, n', r, m);
    }
  }

  lemma StillCovered(log: seq<LogEntry>, n: nat, n': nat, acked: nat)
    requires n <= n' && Covered(log, n, acked)
    ensures Covered(log, n', acked)
  {
  }

  lemma DeliverOther(p: Params, c: Cluster, m: Message, r: NodeId)
    requires m.Batch? && m in c.network && FollowerOk(p, c, r) && ReplicaOk(c, r) && r != m.to
    ensures FollowerOk(p, Next(p, c, Deliver(m)), r) && ReplicaOk(Next(p, c, Deliver(m)), r)
  {
    hide ApplyBatch, Replay, Covered;
  }

  lemma BatchKeeps(p: Params, c: Cluster, m: Message)
    requires Inv(p, c) && m.Batch? && Enabled(p, c, Deliver(m))
    ensures Inv(p, Next(p, c, Deliver(m)))
  {
    hide ApplyBatch, Replay, Fits, FollowerOk, ReplicaOk, Increasing;
    var c' := Next(p, c, Deliver(m));
    if p.capacity > 0 {
      StoreSize(p, c, m.to);
      ApplyNeverOverfills(p, StoreOf(c, m.to), m.entries, 0);
    }
    if Fits(p, c.log) {
      forall r ensures SafeOk(p, c', r) {
        assert SafeOk(p, c, r);
        if r !in c.gapped {
          if r == m.to {
            DeliverFollower(p, c, m);
          } else {
            DeliverOther(p, c, m, r);
          }
        }
      }
    }
  }

  lemma StoreSize(p: Params, c: Cluster, r: NodeId)
    requires StoresFit(p, c) && p.capacity > 0
    ensures |StoreOf(c, r)| <= p.capacity
  {
  }

  lemma TrimKeepsQueue(c: Cluster, minAcked: nat)
    requires Increasing(c.log) && QueueOk(c) && IsMinAcked(c.engine.replicas, minAcked)
    ensures QueueOk(c.(engine := c.engine.(pending := Above(c.engine.pending, minAcked))))
  {
    var cut := |c.log| - |c.engine.pending|;
    var pending := c.engine.pending;
    QueueIncreasing(c);
    AboveIsSuffix(pending, minAcked);
    hide Above, Increasing;
    var k := |pending| - |Above(pending, minAcked)|;
    assert c.log[cut..][k..] == c.log[cut + k..];
    forall r, i | r in c.founders && r in c.engine.replicas && 0 <= i < cut + k
      ensures c.log[i].txnId <= c.engine.replicas[r].lastAcked
    {
      if i >= cut {
        assert c.log[i] == pending[i - cut];
      }
    }
  }

  /** Only what a registered node acknowledged is trimmed. */
  lemma TrimmedWasApplied(c: Cluster, minAcked: nat, r: NodeId)
    requires Increasing(c.log) && QueueOk(c) && IsMinAcked(c.engine.replicas, minAcked) && ReplicaOk(c, r)
    ensures ReplicaOk(c.(engine := c.engine.(pending := Above(c.engine.pending, minAcked))), r)
  {
    hide AppliedOf, Prefix, PositionsOf;
    var cut, pending := |c.log| - |c.engine.pending|, c.engine.pending;
    QueueIncreasing(c);
    AboveIsSuffix(pending, minAcked);
    hide Above, Increasing;
    SameApplied(c, c.(engine := c.engine.(pending := Above(pending, minAcked))), r);
    var k := |pending| - |Above(pending, minAcked)|;
    if k > 0 {
      assert pending[k - 1] == c.log[cut + k - 1];
    }
  }

  lemma TrimKeeps(p: Params, c: Cluster, minAcked: nat)
    requires Inv(p, c) && Enabled(p, c, Trim(minAcked))
    ensures Inv(p, Next(p, c, Trim(minAcked)))
  {
    hide Replay, Fits, Above, QueueOk, Increasing, ReplicaOk;
    TrimKeepsQueue(c, minAcked);
    var c' := Next(p, c, Trim(minAcked));
    if Fits(p, c.log) {
      forall r ensures SafeOk(p, c', r) {
        assert SafeOk(p, c, r);
        if r !in c.gapped {
          TrimmedWasApplied(c, minAcked, r);
        }
      }
    }
  }

  lemma JoinSafe(p: Params, c: Cluster, r: NodeId, q: NodeId)
    requires Increasing(c.log) && |c.engine.pending| <= |c.log| && SafeOk(p, c, q)
    ensures SafeOk(p, Next(p, c, Join(r)), q)
  {
    hide Replay, MessageOk, Increasing, Covered, Prefix, AppliedOf;
    var c' := Next(p, c, Join(r));
    assert AppliedOf(c', q) == AppliedOf(c, q) by {
      SameApplied(c, c', q);
    }
    if q == r && q !in c'.gapped {
      ZeroCovered(c.log, AppliedOf(c, r));
    }
  }

  lemma SameApplied(c: Cluster, c': Cluster, q: NodeId)
    requires c'.applied == c.applied
    ensures AppliedOf(c', q) == AppliedOf(c, q)
  {
  }

  lemma JoinKeeps(p: Params, c: Cluster, r: NodeId)
    requires Inv(p, c)
    ensures Inv(p, Next(p, c, Join(r)))
  {
    hide Fits, SafeOk, Increasing, AppliedOf;
    if Fits(p, c.log) {
      forall q ensures SafeOk(p, Next(p, c, Join(r)), q) {
        JoinSafe(p, c, r, q);
      }
    }
  }

  lemma LeaveKeeps(p: Params, c: Cluster, r: NodeId)
    requires Inv(p, c)
    ensures Inv(p, Next(p, c, Leave(r)))
  {
    hide Fits, Replay, MessageOk, Increasing, Covered;
    var c' := Next(p, c, Leave(r));
    if Fits(p, c.log) {
      forall q ensures SafeOk(p, c', q) {
        assert SafeOk(p, c, q);
      }
    }
  }

  lemma StepKeeps(p: Params, c: Cluster, ev: Event)
    requires Inv(p, c) && Enabled(p, c, ev)
    ensures Inv(p, Next(p, c, ev))
  {
    hide Inv, Next;
    match ev
    case RecordNew(e) => RecordKeeps(p, c, e);
    case Send(r, k) => SendKeeps(p, c, r, k);
    case Deliver(Acknowledge(r, t)) => AckKeeps(p, c, r, t);
    case Deliver(Batch(r, es, from)) => BatchKeeps(p, c, ev.m);
    case Trim(m) => TrimKeeps(p, c, m);
    case Join(r) => JoinKeeps(p, c, r);
    case Leave(r) => LeaveKeeps(p, c, r);
  }

  lemma {:induction false} RunKeeps(p: Params, c: Cluster, evs: seq<Event>, c': Cluster)
    requires Inv(p, c) && Reaches(p, c, evs, c')
    ensures Inv(p, c')
    decreases |evs|
  {
    hide Inv, Next, Enabled;
    if evs != [] {
      StepKeeps(p, c, evs[0]);
      RunKeeps(p, Next(p, c, evs[0]), evs[1..], c');
    }
  }

  lemma InitialInv(p: Params)
    ensures Inv(p, Initial)
  {
  }

  // ---------- main results ----------

  /** Over every run: the store of a registered node that was never registered across a gap is the
      replay of a log prefix that contains every entry up to any acknowledgement it sent; what it lacks
      is a suffix of what is queued for it, whatever was trimmed; and for a founder the queue is exactly
      the log above its acknowledgement. */
  lemma ReplicationSafety(p: Params, evs: seq<Event>, c: Cluster, r: NodeId)
    requires Reaches(p, Initial, evs, c) && r in c.engine.replicas && r !in c.gapped && Fits(p, c.log)
    ensures var n, acked := AppliedOf(c, r), c.engine.replicas[r].lastAcked;
            var s := |c.log| - |PendingFor(c.engine, r)|;
            && n <= |c.log|
            && StoreOf(c, r) == Replay(p, c.log[..n]) && HoldsFirst(p, c.log[..n], StoreOf(c, r))
            && (forall i :: 0 <= i < |c.log| && c.log[i].txnId <= acked ==> i < n)
            && 0 <= s <= n && PendingFor(c.engine, r) == c.log[s..]
            && (r in c.founders ==> forall i :: 0 <= i < |c.log| ==> (c.log[i].txnId > acked <==> i >= s))
            && forall t :: Acknowledge(r, t) in c.network ==> Covered(c.log, n, t)
  {
    InitialInv(p);
    RunKeeps(p, Initial, evs, c);
    assert SafeOk(p, c, r);
    PendingReachesApplied(c, r);
    if r in c.founders {
      PendingIsLogSuffix(p, c, r);
    }
    ReplayHoldsFirst(p, c.log[..AppliedOf(c, r)]);
    hide Replay, HoldsFirst, Fits, PendingFor, QueueOk, Increasing, Covered;
    forall t | Acknowledge(r, t) in c.network ensures Covered(c.log, AppliedOf(c, r), t) {
      assert MessageOk(c.log, AppliedOf(c, r), r, Acknowledge(r, t));
    }
  }

  lemma IncreasingInit(log: seq<LogEntry>)
    requires Increasing(log) && log != []
    ensures Increasing(log[..|log| - 1]) && LastTxn(log[..|log| - 1]) < LastTxn(log) == log[|log| - 1].txnId
  {
  }

  lemma {:induction false} CountAbove(log: seq<LogEntry>, t: nat)
    requires Increasing(log)
    ensures |Above(log, t)| <= SatSub(LastTxn(log), t)
  {
    if log != [] {
      hide Above;
      var n := |log| - 1;
      IncreasingInit(log);
      CountAbove(log[..n], t);
      assert log == log[..n] + [log[n]];
      AboveSnoc(log[..n], log[n], t);
    }
  }

  /** The reported lag bounds what such a node has missed, even after the whole queue was trimmed. */
  lemma LagBoundsLoss(p: Params, evs: seq<Event>, c: Cluster, r: NodeId)
    requires Reaches(p, Initial, evs, c) && r in c.engine.replicas && r !in c.gapped && Fits(p, c.log)
    ensures Lag(c.engine, r).Some?
    ensures |c.log| - AppliedOf(c, r) <= |PendingFor(c.engine, r)| <= Lag(c.engine, r).value
  {
    InitialInv(p);
    RunKeeps(p, Initial, evs, c);
    assert SafeOk(p, c, r);
    PendingReachesApplied(c, r);
    hide Replay, Fits;
    QueueIncreasing(c);
    CountAbove(c.engine.pending, c.engine.replicas[r].lastAcked);
  }

  /** Over every run the reported lag is the number of ids between the newest entry and the node's
      acknowledgement, and nothing if the queue is empty. */
  lemma LagIs(p: Params, evs: seq<Event>, c: Cluster, r: NodeId)
    requires Reaches(p, Initial, evs, c)
    ensures Lag(c.engine, r).Some? <==> r in c.engine.replicas
    ensures r in c.engine.replicas ==>
              var behind: int := LastTxn(c.log) - c.engine.replicas[r].lastAcked;
              Lag(c.engine, r) == Some(if c.engine.pending == [] || behind <= 0 then 0 else behind)
  {
    InitialInv(p);
    RunKeeps(p, Initial, evs, c);
  }

  lemma QueueIncreasing(c: Cluster)
    requires Increasing(c.log) && QueueOk(c)
    ensures Increasing(c.engine.pending)
  {
    var pending, cut := c.engine.pending, |c.log| - |c.engine.pending|;
    assert forall i :: 0 <= i < |pending| ==> pending[i] == c.log[cut + i];
  }

  // ---------- the capacity premise is exactly what is needed ----------

  lemma {:induction false} ApplyNeverOverfills(p: Params, s: Store, es: seq<LogEntry>, lastAcked: nat)
    requires p.capacity > 0 && |s| <= p.capacity
    ensures |ApplyBatch(p, s, es, lastAcked).store| <= p.capacity
    decreases |es|
  {
    if es != [] {
      var r := ApplyEntry(p, s, es[0]);
      if r.Some? {
        assert |r.value| <= p.capacity;
        ApplyNeverOverfills(p, r.value, es[1..], es[0].txnId);
      }
    }
  }

  /** Over every run: a node outside `gapped` that has acknowledged the whole log holds all of it if and
      only if the log's ids fit its hot store. */
  lemma WholeLogAppliedIff(p: Params, evs: seq<Event>, c: Cluster, r: NodeId)
    requires Reaches(p, Initial, evs, c) && r in c.engine.replicas && r !in c.gapped
    requires c.engine.replicas[r].lastAcked >= LastTxn(c.log)
    ensures StoreOf(c, r) == Replay(p, c.log) <==> Fits(p, c.log)
  {
    InitialInv(p);
    RunKeeps(p, Initial, evs, c);
    if Fits(p, c.log) {
      assert SafeOk(p, c, r);
      hide Replay;
      AllApplied(c.log, AppliedOf(c, r), c.engine.replicas[r].lastAcked);
      assert c.log[..|c.log|] == c.log;
    } else {
      hide Replay;
      StoreSize(p, c, r);
    }
  }

  lemma AllApplied(log: seq<LogEntry>, n: nat, acked: nat)
    requires Increasing(log) && Covered(log, n, acked) && acked >= LastTxn(log) && n <= |log|
    ensures n == |log|
  {
    if log != [] {
      assert log[|log| - 1].txnId <= acked;
    }
  }
}
