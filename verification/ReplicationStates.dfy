/** What holds of every node over every run, gapped or not: messages are about the log, positions are
    positions of the log, and, if replicas are added only while nothing is queued, every replica's state
    describes its lag. */
module ReplicationStates {
  import opened Options
  import opened WalCodec
  import opened Replication
  import opened ReplicationProtocol

  /** A batch is a slice of the log, an acknowledgement is of a logged entry. */
  ghost predicate AboutLog(log: seq<LogEntry>, m: Message) {
    match m
    case Batch(_, es, from) => es != [] ==> from + |es| <= |log| && es == log[from..from + |es|]
    case Acknowledge(_, t) => t <= LastTxn(log)
  }

  ghost predicate NetworkLogged(log: seq<LogEntry>, network: set<Message>) {
    forall m :: m in network ==> AboutLog(log, m)
  }

  ghost predicate AcksLogged(log: seq<LogEntry>, replicas: map<NodeId, ReplicaInfo>) {
    forall r :: r in replicas ==> replicas[r].lastAcked <= LastTxn(log)
  }

  ghost predicate PositionsLogged(log: seq<LogEntry>, applied: map<NodeId, set<nat>>) {
    forall r, i :: r in applied && i in applied[r] ==> i < |log|
  }

  ghost predicate Bounded(c: Cluster) {
    && NetworkLogged(c.log, c.network)
    && AcksLogged(c.log, c.engine.replicas)
    && PositionsLogged(c.log, c.applied)
  }

  lemma AboutLonger(log: seq<LogEntry>, e: LogEntry, m: Message)
    requires AboutLog(log, m) && e.txnId > LastTxn(log)
    ensures AboutLog(log + [e], m)
  {
    if m.Batch? && m.entries != [] {
      var from, n := m.from, |m.entries|;
      assert (log + [e])[from..from + n] == log[from..from + n];
    }
  }

  lemma RecordBounded(p: Params, c: Cluster, e: LogEntry)
    requires Bounded(c) && Enabled(p, c, RecordNew(e))
    ensures Bounded(Next(p, c, RecordNew(e)))
  {
    hide AboutLog;
    var c' := Next(p, c, RecordNew(e));
    assert LastTxn(c'.log) == e.txnId;
    RecordKeepsAcks(c.engine, e, p.maxLag);
    hide Record;
    forall m | m in c'.network ensures AboutLog(c'.log, m) {
      AboutLonger(c.log, e, m);
    }
  }

  /** What is pending for a registered node is a suffix of the log. */
  lemma PendingIsSuffix(c: Cluster, r: NodeId)
    requires Increasing(c.log) && QueueOk(c)
    ensures var todo := PendingFor(c.engine, r); |todo| <= |c.log| && todo == c.log[|c.log| - |todo|..]
  {
    QueueIsSuffix(c);
    if r in c.engine.replicas {
      var pending, cut := c.engine.pending, |c.log| - |c.engine.pending|;
      QueueIncreasing(c);
      hide QueueOk, Increasing, Above;
      AboveIsSuffix(pending, c.engine.replicas[r].lastAcked);
      var k := |pending| - |PendingFor(c.engine, r)|;
      assert c.log[cut..][k..] == c.log[cut + k..];
    }
  }

  lemma NewSlice(log: seq<LogEntry>, todo: seq<LogEntry>, to: NodeId, k: nat)
    requires |todo| <= |log| && todo == log[|log| - |todo|..] && k <= |todo|
    ensures AboutLog(log, Batch(to, todo[..k], SatSub(|log|, |todo|)))
  {
    var from := |log| - |todo|;
    assert log[from..][..k] == log[from..from + k];
  }

  lemma SendBounded(p: Params, c: Cluster, to: NodeId, k: nat)
    requires Increasing(c.log) && QueueOk(c) && Bounded(c) && Enabled(p, c, Send(to, k))
    ensures Bounded(Next(p, c, Send(to, k)))
  {
    hide PendingFor, QueueOk, Increasing, AboutLog, AcksLogged, PositionsLogged;
    PendingIsSuffix(c, to);
    NewSlice(c.log, PendingFor(c.engine, to), to, k);
  }

  /** A batch that is applied completely is acknowledged by its last id, the empty one by 0. */
  lemma {:induction false} AckIsLast(p: Params, s: Store, es: seq<LogEntry>, lastAcked: nat)
    ensures var o := ApplyBatch(p, s, es, lastAcked);
            o.count <= |es| && (o.ack.Some? ==> o.ack.value == if es == [] then lastAcked else LastTxn(es))
    decreases |es|
  {
    hide ApplyBatch, ApplyEntry;
    ApplyCons(p, s, es, lastAcked);
    if es != [] && ApplyEntry(p, s, es[0]).Some? {
      AckIsLast(p, ApplyEntry(p, s, es[0]).value, es[1..], es[0].txnId);
      assert |es| > 1 ==> LastTxn(es[1..]) == LastTxn(es);
    }
  }

  lemma SliceLast(log: seq<LogEntry>, from: nat, es: seq<LogEntry>)
    requires Increasing(log) && es != [] && from + |es| <= |log| && es == log[from..from + |es|]
    ensures LastTxn(es) <= LastTxn(log)
  {
    assert es[|es| - 1] == log[from + |es| - 1];
  }

  /** What delivering a batch adds to the network and to the applied positions. */
  lemma BatchEffect(p: Params, log: seq<LogEntry>, s: Store, m: Message)
    requires Increasing(log) && m.Batch? && AboutLog(log, m)
    ensures var o := ApplyBatch(p, s, m.entries, 0);
            && (o.ack.Some? ==> o.ack.value <= LastTxn(log))
            && (o.count > 0 ==> m.from + o.count <= |log|)
  {
    hide ApplyBatch;
    AckIsLast(p, s, m.entries, 0);
    if m.entries != [] {
      SliceLast(log, m.from, m.entries);
    }
  }

  lemma PositionsGrow(log: seq<LogEntry>, applied: map<NodeId, set<nat>>, r: NodeId, before: set<nat>,
                      from: nat, k: nat)
    requires PositionsLogged(log, applied) && (k > 0 ==> from + k <= |log|)
    requires before == (if r in applied then applied[r] else {})
    ensures PositionsLogged(log, applied[r := before + Span(from, k)])
  {
    hide Span;
  }

  lemma BatchBounded(p: Params, c: Cluster, m: Message)
    requires Increasing(c.log) && Bounded(c) && m.Batch? && m in c.network
    ensures Bounded(Next(p, c, Deliver(m)))
  {
    hide ApplyBatch, Increasing, PositionsLogged, AcksLogged, Span;
    BatchEffect(p, c.log, StoreOf(c, m.to), m);
    var o := ApplyBatch(p, StoreOf(c, m.to), m.entries, 0);
    PositionsGrow(c.log, c.applied, m.to, PositionsOf(c, m.to), m.from, o.count);
  }

  lemma StepBounded(p: Params, c: Cluster, ev: Event)
    requires Inv(p, c) && Bounded(c) && Enabled(p, c, ev)
    ensures Bounded(Next(p, c, ev))
  {
    hide Fits, SafeOk, QueueOk, Increasing, Above, NetworkLogged, PositionsLogged;
    match ev
    case RecordNew(e) => RecordBounded(p, c, e);
    case Send(r, k) => SendBounded(p, c, r, k);
    case Deliver(Batch(_, _, _)) => BatchBounded(p, c, ev.m);
    case Deliver(Acknowledge(r, t)) => AckBounded(p, c, r, t);
    case Trim(_) | Join(_) | Leave(_) =>
  }

  lemma AckBounded(p: Params, c: Cluster, r: NodeId, t: nat)
    requires Bounded(c) && Acknowledge(r, t) in c.network
    ensures Bounded(Next(p, c, Deliver(Acknowledge(r, t))))
  {
    hide PositionsLogged;
    assert AboutLog(c.log, Acknowledge(r, t));
  }

  // ---------- states and lags ----------

  /** Replicas are added only while nothing is queued. */
  ghost predicate QuietJoins(p: Params, c: Cluster, evs: seq<Event>)
    decreases |evs|
  {
    evs != [] && Enabled(p, c, evs[0]) ==>
      (evs[0].Join? ==> LastTxn(c.engine.pending) == 0) && QuietJoins(p, Next(p, c, evs[0]), evs[1..])
  }

  lemma QueueAscends(p: Params, c: Cluster)
    requires Inv(p, c)
    ensures Ascending(c.engine.pending)
  {
    hide Fits, SafeOk;
    QueueIncreasing(c);
  }

  lemma StepMatches(p: Params, c: Cluster, ev: Event)
    requires Inv(p, c) && Bounded(c) && Enabled(p, c, ev) && StatesMatch(c.engine, p.maxLag)
    requires ev.Join? ==> LastTxn(c.engine.pending) == 0
    ensures StatesMatch(Next(p, c, ev).engine, p.maxLag)
  {
    hide Inv, StatesMatch, Above;
    match ev
    case RecordNew(e) => RecordMatches(c.engine, e, p.maxLag);
    case Deliver(Acknowledge(r, t)) => AckMatches(c.engine, r, t, p.maxLag);
    case Trim(m) =>
      QueueAscends(p, c);
      TrimMatches(c.engine, m, p.maxLag);
    case Join(r) => JoinMatchesIff(c.engine, r, p.maxLag);
    case Leave(r) => LeaveMatches(c.engine, r, p.maxLag);
    case Send(_, _) =>
    case Deliver(Batch(_, _, _)) =>
  }

  lemma {:induction false} RunBounded(p: Params, c: Cluster, evs: seq<Event>, c': Cluster)
    requires Inv(p, c) && Bounded(c) && Reaches(p, c, evs, c')
    ensures Bounded(c')
    decreases |evs|
  {
    hide Inv, Bounded, Next, Enabled;
    if evs != [] {
      StepKeeps(p, c, evs[0]);
      StepBounded(p, c, evs[0]);
      RunBounded(p, Next(p, c, evs[0]), evs[1..], c');
    }
  }

  lemma {:induction false} RunMatches(p: Params, c: Cluster, evs: seq<Event>, c': Cluster)
    requires Inv(p, c) && Bounded(c) && StatesMatch(c.engine, p.maxLag)
    requires Reaches(p, c, evs, c') && QuietJoins(p, c, evs)
    ensures StatesMatch(c'.engine, p.maxLag)
    decreases |evs|
  {
    hide Inv, Bounded, Next, Enabled, StatesMatch;
    if evs != [] {
      StepKeeps(p, c, evs[0]);
      StepBounded(p, c, evs[0]);
      StepMatches(p, c, evs[0]);
      RunMatches(p, Next(p, c, evs[0]), evs[1..], c');
    }
  }

  /** Over every run, for every node: what was sent is a slice of the log, what was acknowledged or applied
      is in the log. */
  lemma EverythingLogged(p: Params, evs: seq<Event>, c: Cluster)
    requires Reaches(p, Initial, evs, c)
    ensures Bounded(c)
  {
    InitialInv(p);
    RunBounded(p, Initial, evs, c);
  }

  /** Over every run in which replicas are added only while nothing is queued, every replica's state
      describes its lag. */
  lemma StatesDescribeLag(p: Params, evs: seq<Event>, c: Cluster)
    requires Reaches(p, Initial, evs, c) && QuietJoins(p, Initial, evs)
    ensures StatesMatch(c.engine, p.maxLag)
  {
    InitialInv(p);
    RunMatches(p, Initial, evs, c);
  }
}
