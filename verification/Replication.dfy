/** The leader's replication engine: pending queue, per-replica acknowledgements, lag, trimming. */
module Replication {
  import opened Options
  import opened WalCodec
  import opened Seqs

  datatype NodeId = NodeId(name: string)

  datatype LogEntry = LogEntry(txnId: nat, shardId: nat, opCode: byte, payload: seq<byte>)

  datatype ReplicaState = Synced | Lagging(lag: nat) | Disconnected

  datatype ReplicaInfo = ReplicaInfo(state: ReplicaState, lastAcked: nat)

  /** The engine's two locked structures. */
  datatype Engine = Engine(replicas: map<NodeId, ReplicaInfo>, pending: seq<LogEntry>)

  function SatSub(a: nat, b: nat): nat {
    if a > b then a - b else 0
  }

  function LastTxn(entries: seq<LogEntry>): nat {
    if entries == [] then 0 else entries[|entries| - 1].txnId
  }

  function Above(entries: seq<LogEntry>, txn: nat): seq<LogEntry> {
    if entries == [] then []
    else if entries[0].txnId > txn then [entries[0]] + Above(entries[1..], txn)
    else Above(entries[1..], txn)
  }

  function TxnOf(e: LogEntry): nat {
    e.txnId
  }

  // ---------- state transitions ----------

  /** State after a new entry: a replica with no lag keeps its state, except that a disconnected
      one counts as reconnected. */
  function AfterRecord(info: ReplicaInfo, maxTxn: nat, maxLag: nat): ReplicaInfo {
    var lag := SatSub(maxTxn, info.lastAcked);
    info.(state := if lag > maxLag then Disconnected
                   else if lag > 0 then Lagging(lag)
                   else if info.state.Disconnected? then Synced else info.state)
  }

  function AfterAck(info: ReplicaInfo, txn: nat, maxTxn: nat, maxLag: nat): ReplicaInfo {
    var acked := if txn > info.lastAcked then txn else info.lastAcked;
    var lag := SatSub(maxTxn, acked);
    ReplicaInfo(if lag == 0 then Synced else if lag > maxLag then Disconnected else Lagging(lag), acked)
  }

  function Record(e: Engine, entry: LogEntry, maxLag: nat): Engine {
    Engine(map r | r in e.replicas :: AfterRecord(e.replicas[r], entry.txnId, maxLag), e.pending + [entry])
  }

  function Ack(e: Engine, r: NodeId, txn: nat, maxLag: nat): Engine {
    if r in e.replicas
    then e.(replicas := e.replicas[r := AfterAck(e.replicas[r], txn, LastTxn(e.pending), maxLag)])
    else e
  }

  function PendingFor(e: Engine, r: NodeId): seq<LogEntry> {
    if r in e.replicas then Above(e.pending, e.replicas[r].lastAcked) else []
  }

  function Lag(e: Engine, r: NodeId): Option<nat> {
    if r in e.replicas then Some(SatSub(LastTxn(e.pending), e.replicas[r].lastAcked)) else None
  }

  ghost predicate IsMinAcked(replicas: map<NodeId, ReplicaInfo>, m: nat) {
    if replicas == map[] then m == 0
    else (exists r :: r in replicas && replicas[r].lastAcked == m)
         && forall r :: r in replicas ==> m <= replicas[r].lastAcked
  }

  function Joined(e: Engine, r: NodeId): Engine {
    e.(replicas := e.replicas[r := ReplicaInfo(Synced, 0)])
  }

  function Left(e: Engine, r: NodeId): Engine {
    e.(replicas := e.replicas - {r})
  }

  function TrimmedTo(e: Engine, minAcked: nat): Engine {
    e.(pending := Above(e.pending, minAcked))
  }

  // ---------- what a replica's state says about its lag ----------

  ghost predicate StateFits(info: ReplicaInfo, last: nat, maxLag: nat) {
    var lag := SatSub(last, info.lastAcked);
    match info.state
    case Synced => lag == 0
    case Lagging(l) => 0 < l == lag <= maxLag
    case Disconnected => lag > maxLag
  }

  /** Every replica's state describes its lag behind the queue. */
  ghost predicate StatesMatch(e: Engine, maxLag: nat) {
    forall r :: r in e.replicas ==> StateFits(e.replicas[r], LastTxn(e.pending), maxLag)
  }

  /** A new entry brings every state up to date, whatever it was before. */
  lemma RecordMatches(e: Engine, entry: LogEntry, maxLag: nat)
    requires forall r :: r in e.replicas ==> entry.txnId > e.replicas[r].lastAcked
    ensures StatesMatch(Record(e, entry, maxLag), maxLag)
  {
    var e' := Record(e, entry, maxLag);
    assert LastTxn(e'.pending) == entry.txnId;
    forall r | r in e'.replicas ensures StateFits(e'.replicas[r], entry.txnId, maxLag) {
      assert e'.replicas[r] == AfterRecord(e.replicas[r], entry.txnId, maxLag);
    }
  }

  lemma AckMatches(e: Engine, r: NodeId, txn: nat, maxLag: nat)
    requires StatesMatch(e, maxLag)
    ensures StatesMatch(Ack(e, r, txn, maxLag), maxLag)
  {
  }

  ghost predicate Ascending(pending: seq<LogEntry>) {
    forall i, j :: 0 <= i < j < |pending| ==> pending[i].txnId < pending[j].txnId
  }

  lemma {:induction false} AboveKeepsLast(pending: seq<LogEntry>, t: nat)
    requires Ascending(pending) && pending != []
    ensures LastTxn(pending) > t ==> LastTxn(Above(pending, t)) == LastTxn(pending)
    ensures LastTxn(pending) <= t ==> Above(pending, t) == []
  {
    if |pending| > 1 {
      AboveKeepsLast(pending[1..], t);
      assert LastTxn(pending[1..]) == LastTxn(pending);
      assert pending[0].txnId < LastTxn(pending);
    } else {
      assert Above(pending[1..], t) == [];
    }
  }

  /** Trimming changes no lag: the newest entry stays unless everybody has it. */
  lemma TrimMatches(e: Engine, minAcked: nat, maxLag: nat)
    requires StatesMatch(e, maxLag) && Ascending(e.pending) && IsMinAcked(e.replicas, minAcked)
    ensures StatesMatch(TrimmedTo(e, minAcked), maxLag)
  {
    if e.pending != [] {
      AboveKeepsLast(e.pending, minAcked);
      hide Above;
      if LastTxn(e.pending) <= minAcked {
        forall r | r in e.replicas ensures StateFits(e.replicas[r], 0, maxLag) {
          assert StateFits(e.replicas[r], LastTxn(e.pending), maxLag);
        }
      }
    }
  }

  lemma LeaveMatches(e: Engine, r: NodeId, maxLag: nat)
    requires StatesMatch(e, maxLag)
    ensures StatesMatch(Left(e, r), maxLag)
  {
  }

  /** A replica is announced as synced when it is added; that is true exactly if nothing is queued. */
  lemma JoinMatchesIff(e: Engine, r: NodeId, maxLag: nat)
    requires StatesMatch(e, maxLag)
    ensures StatesMatch(Joined(e, r), maxLag) <==> LastTxn(e.pending) == 0
  {
    var e' := Joined(e, r);
    assert r in e'.replicas && e'.replicas[r] == ReplicaInfo(Synced, 0);
    forall q | q in e'.replicas && q != r ensures StateFits(e'.replicas[q], LastTxn(e.pending), maxLag) {
      assert StateFits(e.replicas[q], LastTxn(e.pending), maxLag);
    }
  }

  // ---------- the engine object ----------

  class ReplicationEngine {
    const maxLagEntries: nat
    var replicas: map<NodeId, ReplicaInfo>
    var pending: seq<LogEntry>

    function State(): Engine
      reads this
    {
      Engine(replicas, pending)
    }

    constructor (maxLagEntries: nat)
      ensures this.maxLagEntries == maxLagEntries && State() == Engine(map[], [])
    {
      this.maxLagEntries := maxLagEntries;
      replicas, pending := map[], [];
    }

    method AddReplica(r: NodeId)
      modifies `replicas
      ensures State() == Joined(old(State()), r)
      ensures replicas == old(replicas)[r := ReplicaInfo(Synced, 0)]
    {
      replicas := replicas[r := ReplicaInfo(Synced, 0)];
    }

    method RemoveReplica(r: NodeId)
      modifies `replicas
      ensures State() == Left(old(State()), r)
      ensures replicas.Keys == old(replicas).Keys - {r} && forall q :: q in replicas ==> replicas[q] == old(replicas)[q]
    {
      replicas := replicas - {r};
    }

    method RecordEntry(entry: LogEntry)
      modifies this
      ensures State() == Record(old(State()), entry, maxLagEntries)
      ensures pending == old(pending) + [entry] && replicas.Keys == old(replicas).Keys
      ensures forall r :: r in replicas ==>
                && replicas[r].lastAcked == old(replicas)[r].lastAcked
                && var behind: int := entry.txnId - old(replicas)[r].lastAcked;
                   replicas[r].state == if behind > maxLagEntries then Disconnected
                                        else if behind > 0 then Lagging(behind)
                                        else if old(replicas)[r].state == Disconnected then Synced
                                        else old(replicas)[r].state
    {
      pending := pending + [entry];
      var maxTxn := LastTxn(pending);
      var rest := replicas.Keys;
      while rest != {}
        invariant rest <= replicas.Keys == old(replicas).Keys
        invariant pending == old(pending) + [entry]
        invariant forall r :: r in replicas ==>
                    replicas[r] == if r in rest then old(replicas)[r]
                                   else AfterRecord(old(replicas)[r], entry.txnId, maxLagEntries)
        decreases |rest|
      {
        var r :| r in rest;
        var info := replicas[r];
        var lag := SatSub(maxTxn, info.lastAcked);
        if lag > maxLagEntries {
          info := info.(state := Disconnected);
        } else if lag > 0 {
          info := info.(state := Lagging(lag));
        } else if info.state == Disconnected {
          info := info.(state := Synced);
        }
        replicas := replicas[r := info];
        rest := rest - {r};
      }
    }

    method PendingForReplica(r: NodeId) returns (entries: seq<LogEntry>)
      ensures entries == PendingFor(State(), r)
      ensures if r in replicas then Selected(pending, TxnOf, replicas[r].lastAcked, entries) else entries == []
    {
      if r !in replicas {
        return [];
      }
      entries := Retain(pending, replicas[r].lastAcked);
    }

    method AckEntry(r: NodeId, txn: nat)
      modifies `replicas
      ensures State() == Ack(old(State()), r, txn, maxLagEntries)
      ensures r !in old(replicas) ==> replicas == old(replicas)
      ensures r in old(replicas) ==>
                var acked := if txn > old(replicas)[r].lastAcked then txn else old(replicas)[r].lastAcked;
                var behind: int := (if pending == [] then 0 else pending[|pending| - 1].txnId) - acked;
                replicas == old(replicas)[r := ReplicaInfo(if behind <= 0 then Synced
                                                           else if behind > maxLagEntries then Disconnected
                                                           else Lagging(behind), acked)]
    {
      var maxTxn := LastTxn(pending);
      if r in replicas {
        var info := replicas[r];
        if txn > info.lastAcked {
          info := info.(lastAcked := txn);
        }
        var lag := SatSub(maxTxn, info.lastAcked);
        if lag == 0 {
          info := info.(state := Synced);
        } else if lag > maxLagEntries {
          info := info.(state := Disconnected);
        } else {
          info := info.(state := Lagging(lag));
        }
        replicas := replicas[r := info];
      }
    }

    method ReplicationLag(r: NodeId) returns (lag: Option<nat>)
      ensures lag == Lag(State(), r)
      ensures lag.Some? <==> r in replicas
      ensures r in replicas ==>
                var behind: int := (if pending == [] then 0 else pending[|pending| - 1].txnId) - replicas[r].lastAcked;
                lag.value == if behind > 0 then behind else 0
    {
      if r !in replicas {
        return None;
      }
      lag := Some(SatSub(LastTxn(pending), replicas[r].lastAcked));
    }

    /** Drop what every registered replica has acknowledged. */
    method TrimAcked() returns (ghost minAcked: nat)
      modifies `pending
      ensures IsMinAcked(replicas, minAcked)
      ensures State() == TrimmedTo(old(State()), minAcked)
      ensures Selected(old(pending), TxnOf, minAcked, pending)
    {
      var m := MinAcked(replicas);
      minAcked := m;
      pending := Retain(pending, m);
    }
  }

  method MinAcked(replicas: map<NodeId, ReplicaInfo>) returns (m: nat)
    ensures IsMinAcked(replicas, m)
  {
    m := 0;
    var rest := replicas.Keys;
    var first := true;
    while rest != {}
      invariant rest <= replicas.Keys
      invariant first <==> rest == replicas.Keys
      invariant if first then m == 0
                else (exists r :: r in replicas && replicas[r].lastAcked == m)
                     && forall r :: r in replicas && r !in rest ==> m <= replicas[r].lastAcked
      decreases |rest|
    {
      var r :| r in rest;
      if first || replicas[r].lastAcked < m {
        m := replicas[r].lastAcked;
      }
      first := false;
      rest := rest - {r};
    }
  }

  method Retain(entries: seq<LogEntry>, txn: nat) returns (kept: seq<LogEntry>)
    ensures kept == Above(entries, txn) && Selected(entries, TxnOf, txn, kept)
  {
    hide Selected;
    kept := [];
    SelectedNone<LogEntry>(TxnOf, txn);
    for i := 0 to |entries|
      invariant kept == Above(entries[..i], txn) && Selected(entries[..i], TxnOf, txn, kept)
    {
      assert entries[..i + 1][..i] == entries[..i];
      SelectedNext(entries[..i + 1], TxnOf, txn, kept);
      AboveSnoc(entries[..i], entries[i], txn);
      assert entries[..i + 1] == entries[..i] + [entries[i]];
      if entries[i].txnId > txn {
        kept := kept + [entries[i]];
      }
    }
    assert entries[..|entries|] == entries;
  }

  lemma {:induction false} AboveSnoc(a: seq<LogEntry>, e: LogEntry, txn: nat)
    ensures Above(a + [e], txn) == if e.txnId > txn then Above(a, txn) + [e] else Above(a, txn)
  {
    if a == [] {
      assert a + [e] == [e];
      assert Above([e][1..], txn) == [];
    } else {
      AboveSnoc(a[1..], e, txn);
      assert (a + [e])[1..] == a[1..] + [e] && (a + [e])[0] == a[0];
    }
  }
}
