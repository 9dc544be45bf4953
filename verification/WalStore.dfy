/** The imperative write-ahead log: append, flush, replay and compaction over segment files. */
module WalStore {
  import opened Options
  import opened Seqs
  import opened WalCodec
  import opened WalLog

  /** The effect of one whole append on the files. */
  function AppendEffect(env: Env, w: Wal, e: Entry, mode: WriteMode): Wal {
    var target := if Full(env, w, e) then Rotate(Fsync(w)) else w;
    var written := WriteEntry(env, target, e);
    if MustSync(env, written, mode) then Fsync(written) else written
  }

  // ---------- replay of one segment ----------

  /** The replay loop as a function: what it returns from `offset` with `acc` already collected. */
  ghost function ReplayFrom(crc: Checksum, data: seq<byte>, offset: nat, skipUpTo: nat, acc: seq<Entry>): seq<Entry>
    requires offset <= |data|
    decreases |data| - offset
  {
    match Decode(crc, data[offset..])
    case Decoded(e, n) =>
      ReplayFrom(crc, data, offset + n, skipUpTo, if e.txnId > skipUpTo then acc + [e] else acc)
    case _ => acc
  }

  lemma {:induction false} ReplayFromIs(crc: Checksum, data: seq<byte>, offset: nat, skipUpTo: nat, acc: seq<Entry>)
    requires offset <= |data|
    ensures ReplayFrom(crc, data, offset, skipUpTo, acc) == acc + Above(ReadSegment(crc, data[offset..]), skipUpTo)
    decreases |data| - offset
  {
    hide Decode;
    var r := Decode(crc, data[offset..]);
    if r.Decoded? {
      var next := offset + r.consumed;
      var acc' := if r.entry.txnId > skipUpTo then acc + [r.entry] else acc;
      ReplayFromIs(crc, data, next, skipUpTo, acc');
      assert data[offset..][r.consumed..] == data[next..];
      var later := ReadSegment(crc, data[next..]);
      assert ([r.entry] + later)[1..] == later;
      Assoc(acc, [r.entry], Above(later, skipUpTo));
    }
  }

  method ReadSegmentEntries(crc: Checksum, data: seq<byte>, skipUpTo: nat) returns (entries: seq<Entry>)
    ensures entries == Above(ReadSegment(crc, data), skipUpTo)
    ensures Filtered(ReadSegment(crc, data), skipUpTo, entries)
  {
    hide Decode;
    entries := [];
    var offset := 0;
    ghost var all := ReplayFrom(crc, data, 0, skipUpTo, []);
    assert all == Above(ReadSegment(crc, data), skipUpTo) by {
      ReplayFromIs(crc, data, 0, skipUpTo, []);
      assert data[0..] == data;
    }
    while offset < |data|
      invariant 0 <= offset <= |data|
      invariant ReplayFrom(crc, data, offset, skipUpTo, entries) == all
      decreases |data| - offset
    {
      var r := FromBytes(crc, data[offset..]);
      match r
      case Decoded(entry, consumed) =>
        if entry.txnId > skipUpTo {
          entries := entries + [entry];
        }
        offset := offset + consumed;
      case PayloadTruncated(_, _) =>
        break;
      case CrcMismatch(_, _) =>
        break;
    }
    FilteredIff(ReadSegment(crc, data), skipUpTo, entries);
  }

  method ReplaySegments(crc: Checksum, files: seq<File>, lastFlushed: nat) returns (entries: seq<Entry>)
    ensures entries == Recovered(crc, Bytes(files), lastFlushed)
  {
    entries := [];
    var i := 0;
    assert Bytes(files)[0..] == Bytes(files);
    while i < |files|
      invariant 0 <= i <= |files|
      invariant entries + Recovered(crc, Bytes(files)[i..], lastFlushed)
             == Recovered(crc, Bytes(files), lastFlushed)
    {
      var segmentEntries := ReadSegmentEntries(crc, files[i].bytes, lastFlushed);
      assert Bytes(files)[i..][1..] == Bytes(files)[i + 1..];
      Assoc(entries, segmentEntries, Recovered(crc, Bytes(files)[i + 1..], lastFlushed));
      entries := entries + segmentEntries;
      i := i + 1;
    }
  }

  // ---------- compaction ----------

  /** Latest entry per transaction id. */
  function Latest(es: seq<Entry>): map<u64, Entry> {
    if es == [] then map[] else Latest(es[..|es| - 1])[es[|es| - 1].txnId := es[|es| - 1]]
  }

  ghost predicate Ascending(es: seq<Entry>) {
    forall i, j :: 0 <= i < j < |es| ==> es[i].txnId < es[j].txnId
  }

  /** `es` lists the values of `m` in ascending key order. */
  ghost predicate Lists(es: seq<Entry>, m: map<u64, Entry>) {
    && Ascending(es)
    && (forall e :: e in es ==> e.txnId in m && m[e.txnId] == e)
    && forall t :: t in m ==> m[t] in es
  }

  lemma {:induction false} LatestIsLast(es: seq<Entry>, i: nat)
    requires i < |es|
    requires forall j :: i < j < |es| ==> es[j].txnId != es[i].txnId
    ensures es[i].txnId in Latest(es) && Latest(es)[es[i].txnId] == es[i]
    decreases |es|
  {
    var n := |es| - 1;
    if i < n {
      LatestIsLast(es[..n], i);
    }
  }

  lemma {:induction false} LatestKeys(es: seq<Entry>)
    ensures forall t :: t in Latest(es) ==> Latest(es)[t] in es && Latest(es)[t].txnId == t
    ensures forall e :: e in es ==> e.txnId in Latest(es)
    decreases |es|
  {
    if es != [] {
      LatestKeys(es[..|es| - 1]);
      assert es == es[..|es| - 1] + [es[|es| - 1]];
    }
  }

  lemma LatestSnoc(es: seq<Entry>, e: Entry)
    ensures Latest(es + [e]) == Latest(es)[e.txnId := e]
  {
    assert (es + [e])[..|es|] == es;
  }

  lemma MinKey(m: map<u64, Entry>, keys: set<u64>) returns (k: u64)
    requires keys != {} && keys <= m.Keys
    ensures k in keys && forall j :: j in keys ==> k <= j
    decreases |keys|
  {
    var first :| first in keys;
    k := first;
    if keys != {first} {
      var least := MinKey(m, keys - {first});
      assert forall j :: j in keys ==> j == first || j in keys - {first};
      k := if least < first then least else first;
    }
  }

  /** `es` lists the values whose keys are not in `rest`, all of them below those in `rest`. */
  ghost predicate ListsBelow(es: seq<Entry>, m: map<u64, Entry>, rest: set<u64>) {
    && Ascending(es)
    && (forall e :: e in es ==> e.txnId in m && m[e.txnId] == e && forall t :: t in rest ==> e.txnId < t)
    && forall t :: t in m && t !in rest ==> m[t] in es
  }

  lemma ListsNext(es: seq<Entry>, m: map<u64, Entry>, rest: set<u64>, k: u64)
    requires ListsBelow(es, m, rest) && rest <= m.Keys
    requires k in rest && m[k].txnId == k && forall j :: j in rest ==> k <= j
    ensures ListsBelow(es + [m[k]], m, rest - {k})
  {
    forall i | 0 <= i < |es| ensures es[i].txnId < k {
      assert es[i] in es;
    }
  }

  method ValuesInOrder(m: map<u64, Entry>) returns (es: seq<Entry>)
    requires forall t :: t in m ==> m[t].txnId == t
    ensures Lists(es, m)
  {
    es := [];
    var rest := m.Keys;
    while rest != {}
      invariant rest <= m.Keys && ListsBelow(es, m, rest)
      decreases |rest|
    {
      ghost var least := MinKey(m, rest);
      var k :| k in rest && forall j :: j in rest ==> k <= j;
      ListsNext(es, m, rest, k);
      es := es + [m[k]];
      rest := rest - {k};
    }
  }

  /** What compaction hides: replay afterwards equals replay before exactly when the sealed
      segments held nothing above the checkpoint, because merged files are never listed. */
  lemma CompactionVisibleIff(crc: Checksum, sealed: seq<File>, current: File, cp: nat)
    ensures Recovered(crc, Bytes([current]), cp) == Recovered(crc, Bytes(sealed + [current]), cp)
       <==> forall i, e :: 0 <= i < |sealed| && e in ReadSegment(crc, sealed[i].bytes) ==> e.txnId <= cp
  {
    var segs := seq(|sealed|, i requires 0 <= i < |sealed| => ReadSegment(crc, sealed[i].bytes));
    assert Bytes(sealed + [current]) == Bytes(sealed) + [current.bytes];
    RecoveredConcat(crc, segs, Bytes(sealed), current.bytes, cp);
    assert Bytes([current]) == [current.bytes];
    RecoveredConcat(crc, [], [], current.bytes, cp);
    assert [] + [current.bytes] == [current.bytes];
    AboveNothing(Flatten(segs), cp);
    if Above(Flatten(segs), cp) == [] {
      forall i, e | 0 <= i < |sealed| && e in ReadSegment(crc, sealed[i].bytes) ensures e.txnId <= cp {
        assert e in segs[i];
        InFlatten(segs, i);
      }
    } else {
      var e :| e in Flatten(segs) && e.txnId > cp;
      var i := FromFlatten(segs, e);
      assert e in ReadSegment(crc, sealed[i].bytes);
    }
  }

  lemma Took(env: Env, evs: seq<Event>, x: World, ev: Event) returns (evs': seq<Event>, x': World)
    requires Run(env, evs) == Some(x) && Step(env, x.wal, ev).Some?
    ensures Run(env, evs') == Some(x') && x' == World(Step(env, x.wal, ev).value, Observe(x.history, x.wal, ev))
  {
    evs' := evs + [ev];
    assert evs'[..|evs|] == evs;
    x' := Run(env, evs').value;
  }

  /** A small log: entries of 17 bytes, one to a segment. */
  function OneEntrySegments(crc: Checksum): Env {
    Env(crc, 20, 1)
  }

  /** Two durable appends, the second in a new segment. */
  lemma TwoSegmentRun(crc: Checksum) returns (evs: seq<Event>, x: World)
    ensures Run(OneEntrySegments(crc), evs) == Some(x)
    ensures x.wal.phase == Idle
    ensures x.history == History([], [[Entry(1, 1, [])]], [Entry(2, 1, [])], [Durable, Durable])
    ensures x.wal.sealed == [File(0, Encode(crc, Entry(1, 1, [])), 17)]
    ensures x.wal.current == File(1, Encode(crc, Entry(2, 1, [])), 17)
  {
    hide Run, Encode;
    var env := OneEntrySegments(crc);
    var e1, e2 := Entry(1, 1, []), Entry(2, 1, []);
    evs, x := [], World(Wal([], File(0, [], 0), 0, Idle), History([], [], [], []));
    StartOfRun(env);
    evs, x := Took(env, evs, x, Lock(e1, Durable));
    evs, x := Took(env, evs, x, Write);
    evs, x := Took(env, evs, x, Sync);
    evs, x := Took(env, evs, x, Unlock);
    assert [] + Encode(crc, e1) == Encode(crc, e1);
    assert x.history == History([], [], [e1], [Durable]);
    evs, x := Took(env, evs, x, Lock(e2, Durable));
    evs, x := Took(env, evs, x, Seal);
    evs, x := Took(env, evs, x, Open);
    evs, x := Took(env, evs, x, Write);
    evs, x := Took(env, evs, x, Sync);
    evs, x := Took(env, evs, x, Unlock);
    assert [] + Encode(crc, e2) == Encode(crc, e2);
    assert x.history.segments == [[e1]] && x.history.current == [e2] && x.history.modes == [Durable, Durable];
  }

  lemma StartOfRun(env: Env)
    ensures Run(env, []) == Some(World(Wal([], File(0, [], 0), 0, Idle), History([], [], [], [])))
  {
  }

  /** If the first segment is then compacted, recovery returns the second durable entry only. */
  lemma CompactionHidesEntry(crc: Checksum) returns (evs: seq<Event>, x: World)
    ensures Run(OneEntrySegments(crc), evs) == Some(x) && x.wal.phase == Idle
    ensures Log(x.history) == [Entry(1, 1, []), Entry(2, 1, [])] && x.history.modes == [Durable, Durable]
    ensures Recovered(crc, Contents(x.wal), 0) == [Entry(2, 1, [])]
  {
    hide Run, Recovered, Encode, ReadSegment, Above;
    var env := OneEntrySegments(crc);
    evs, x := TwoSegmentRun(crc);
    DropKeepsLog(x.history, x.wal);
    FlattenOne(Entry(1, 1, []));
    evs, x := Took(env, evs, x, Drop);
    assert Contents(x.wal) == [Encode(crc, Entry(2, 1, []))];
    OneFileRecovered(crc, Entry(2, 1, []), 0);
  }

  lemma OneFileRecovered(crc: Checksum, e: Entry, cp: nat)
    requires FitsU32(e) && e.txnId > cp
    ensures Recovered(crc, [Encode(crc, e)], cp) == [e]
  {
    hide ReadSegment;
    EncodeAllOne(crc, e);
    ReplayOfWhole(crc, [e]);
    AboveAll([e], cp);
    assert [Encode(crc, e)][1..] == [];
  }

  lemma FlattenOne(e: Entry)
    ensures Flatten([[e]]) == [e]
  {
    assert [[e]][1..] == [];
  }

  // ---------- the log object ----------

  class WriteAheadLog {
    const env: Env
    var sealed: seq<File>          // earlier segments, by ascending id
    var merged: map<nat, seq<byte>>  // files written by compaction, named by the second; never listed by replay
    var file: File                 // the current segment
    var bytesWritten: nat
    var opsSinceFsync: nat
    var nextTxnId: u64
    ghost var trace: seq<Event>    // the machine run this session has performed

    ghost var phase: Phase         // progress of the append that holds the segment lock

    ghost function State(): Wal
      reads this
    {
      Wal(sealed, file, opsSinceFsync, phase)
    }

    ghost predicate Consistent()
      reads this
    {
      bytesWritten == |file.bytes| && phase == Idle
    }

    /** `w` is the end of a machine run, so the crash theorem applies to it. */
    ghost predicate Traced(w: Wal)
      reads this
    {
      Run(env, trace).Some? && Run(env, trace).value.wal == w
    }

    ghost function HistoryOf(): History
      requires Run(env, trace).Some?
      reads this
    {
      Run(env, trace).value.history
    }

    ghost function LogOf(): seq<Entry>
      requires Run(env, trace).Some?
      reads this
    {
      Log(Run(env, trace).value.history)
    }

    ghost function ModesOf(): seq<WriteMode>
      requires Run(env, trace).Some?
      reads this
    {
      Run(env, trace).value.history.modes
    }

    /** Record that the machine took step `ev` from `before` to the present state. */
    ghost method Note(before: Wal, ev: Event)
      requires Step(env, before, ev) == Some(State())
      modifies `trace
      ensures old(Traced(before)) ==>
                && Traced(State())
                && Run(env, trace).value.history == Observe(old(Run(env, trace).value.history), before, ev)
      ensures !old(Traced(before)) ==> trace == old(trace)
    {
      if Traced(before) {
        assert (trace + [ev])[..|trace|] == trace;
        trace := trace + [ev];
      }
    }

    /** Opening an empty directory. */
    constructor (env: Env)
      ensures this.env == env && Consistent() && Traced(State()) && trace == [] && nextTxnId == 1
    {
      this.env := env;
      sealed, merged, file := [], map[], File(0, [], 0);
      bytesWritten, opsSinceFsync, nextTxnId := 0, 0, 1;
      trace, phase := [], Idle;
    }

    /** The atomic counter, read before the segment lock is taken. */
    method Reserve() returns (txnId: u64)
      modifies `nextTxnId
      ensures txnId == old(nextTxnId)
      ensures nextTxnId == (txnId + 1) % 0x1_0000_0000_0000_0000
    {
      txnId := nextTxnId;
      nextTxnId := (nextTxnId + 1) % 0x1_0000_0000_0000_0000;
    }

    method SyncFile()
      modifies `file, `opsSinceFsync
      ensures State() == Fsync(old(State()))
    {
      file := file.(synced := |file.bytes|);
      opsSinceFsync := 0;
    }

    /** Seal the full segment and open the next one. */
    method RotateSegment()
      requires phase.Locked? && Full(env, State(), phase.entry)
      modifies `sealed, `file, `bytesWritten, `opsSinceFsync, `trace, `phase
      ensures State() == Rotate(Fsync(old(State()))).(phase := Ready(old(phase).entry, old(phase).mode))
      ensures bytesWritten == 0
      ensures old(Traced(State())) ==>
                Traced(State()) && LogOf() == old(LogOf()) && ModesOf() == old(ModesOf())
    {
      hide Run, Flatten;
      ghost var before := State();
      SyncFile();
      phase := Sealed(phase.entry, phase.mode);
      Note(before, Seal);
      before := State();
      ghost var h := if Traced(before) then Run(env, trace).value.history else History([], [], [], []);
      sealed := sealed + [file];
      file := File(file.id + 1, [], 0);
      bytesWritten, opsSinceFsync := 0, 0;
      phase := Ready(phase.entry, phase.mode);
      Note(before, Open);
      FlattenSnoc(h.segments, h.current);
    }

    method WriteEntryBytes(entryBytes: seq<byte>)
      requires phase.Ready? || (phase.Locked? && !Full(env, State(), phase.entry))
      requires entryBytes == Encode(env.crc, phase.entry) && bytesWritten == |file.bytes|
      modifies `file, `bytesWritten, `opsSinceFsync, `trace, `phase
      ensures State() == WriteEntry(env, old(State()), old(phase).entry)
                         .(phase := Written(old(phase).entry, old(phase).mode))
      ensures bytesWritten == |file.bytes|
      ensures old(Traced(State())) ==>
                && Traced(State())
                && LogOf() == old(LogOf()) + [old(phase).entry]
                && ModesOf() == old(ModesOf()) + [old(phase).mode]
    {
      ghost var before := State();
      ghost var h := if Traced(before) then Run(env, trace).value.history else History([], [], [], []);
      file := file.(bytes := file.bytes + entryBytes);
      bytesWritten := bytesWritten + |entryBytes|;
      opsSinceFsync := opsSinceFsync + 1;
      phase := Written(phase.entry, phase.mode);
      Note(before, Write);
      Assoc(Flatten(h.segments), h.current, [phase.entry]);
    }

    method SyncAndRelease(mode: WriteMode)
      requires phase.Written? && phase.mode == mode
      modifies `file, `opsSinceFsync, `trace, `phase
      ensures var w := old(State());
              State() == (if MustSync(env, w, w.phase.mode) then Fsync(w) else w).(phase := Idle)
      ensures |file.bytes| == old(|file.bytes|)
      ensures old(Traced(State())) ==>
                Traced(State()) && LogOf() == old(LogOf()) && ModesOf() == old(ModesOf())
    {
      ghost var before := State();
      if mode == Durable || opsSinceFsync >= env.fsyncIntervalOps {
        SyncFile();
        phase := Synced(phase.entry, phase.mode);
        Note(before, Sync);
        before := State();
      }
      phase := Idle;
      Note(before, Unlock);
    }

    /** The part of an append that runs under the segment lock. */
    method AppendLocked(e: Entry, mode: WriteMode)
      requires Consistent()
      modifies `sealed, `file, `bytesWritten, `opsSinceFsync, `trace, `phase
      ensures Consistent() && State() == AppendEffect(env, old(State()), e, mode)
      ensures old(Traced(State())) ==>
                Traced(State()) && LogOf() == old(LogOf()) + [e] && ModesOf() == old(ModesOf()) + [mode]
    {
      ghost var before := State();
      var entryBytes := ToBytes(env.crc, e);
      phase := Locked(e, mode);
      Note(before, Lock(e, mode));
      if bytesWritten + |entryBytes| > env.segmentSize {
        RotateSegment();
      }
      WriteEntryBytes(entryBytes);
      SyncAndRelease(mode);
    }

    method Append(opCode: byte, payload: seq<byte>, mode: WriteMode) returns (txnId: u64)
      requires Consistent()
      modifies this
      ensures Consistent() && txnId == old(nextTxnId) && merged == old(merged)
      ensures State() == AppendEffect(env, old(State()), Entry(txnId, opCode, payload), mode)
      ensures var rolled := |old(file.bytes)| + 17 + |payload| > env.segmentSize;
              var unsynced := (if rolled then 0 else old(opsSinceFsync)) + 1;
              && sealed == old(sealed) + (if rolled then [old(file).(synced := |old(file.bytes)|)] else [])
              && file.id == old(file.id) + (if rolled then 1 else 0)
              && file.bytes == (if rolled then [] else old(file.bytes)) + Encode(env.crc, Entry(txnId, opCode, payload))
              && if mode == Durable || unsynced >= env.fsyncIntervalOps
                 then file.synced == |file.bytes| && opsSinceFsync == 0
                 else file.synced == (if rolled then 0 else old(file.synced)) && opsSinceFsync == unsynced
      ensures old(Traced(State())) ==>
                && Traced(State())
                && LogOf() == old(LogOf()) + [Entry(txnId, opCode, payload)]
                && ModesOf() == old(ModesOf()) + [mode]
    {
      txnId := Reserve();
      AppendLocked(Entry(txnId, opCode, payload), mode);
    }

    method FlushLog()
      requires Consistent()
      modifies `file, `opsSinceFsync, `trace
      ensures Consistent() && State() == Fsync(old(State()))
      ensures file == old(file).(synced := |file.bytes|) && opsSinceFsync == 0
      ensures old(Traced(State())) ==>
                Traced(State()) && LogOf() == old(LogOf()) && ModesOf() == old(ModesOf())
    {
      ghost var before := State();
      SyncFile();
      Note(before, Flush);
    }

    method Recover(checkpoint: Option<u64>) returns (entries: seq<Entry>)
      ensures entries == Recovered(env.crc, Bytes(sealed + [file]), if checkpoint.Some? then checkpoint.value else 0)
      ensures Traced(State()) && AllFit(LogOf()) ==>
                var cp: nat := if checkpoint.Some? then checkpoint.value else 0;
                && (Filtered(LogOf(), cp, entries) <==> DroppedBelow(HistoryOf(), cp))
                && (DroppedBelow(HistoryOf(), cp) && (forall e :: e in LogOf() ==> e.txnId > cp) ==> entries == LogOf())
    {
      hide Run, Filtered, AllFit, Log, DroppedBelow, Recovered;
      var lastFlushed: nat := if checkpoint.Some? then checkpoint.value else 0;
      entries := ReplaySegments(env.crc, sealed + [file], lastFlushed);
      if Traced(State()) && AllFit(LogOf()) {
        assert Bytes(sealed + [file]) == Contents(State());
        CleanReplayIff(env, trace, lastFlushed);
        if DroppedBelow(HistoryOf(), lastFlushed) && forall e :: e in LogOf() ==> e.txnId > lastFlushed {
          FilteredAll(LogOf(), lastFlushed, entries);
        }
      }
    }

    /** Merge the sealed segments: the new file replays to the latest entry per transaction id,
        in ascending order. Entries with id 0 are skipped, as replay from checkpoint 0 skips them.
        A file of the same second is overwritten. Then the sealed files are removed one by one. */
    method Compact(now: nat)
      modifies `sealed, `merged, `trace
      ensures State() == old(State()).(sealed := [])
      ensures old(sealed) == [] ==> merged == old(merged)
      ensures old(sealed) != [] ==>
                && merged.Keys == old(merged).Keys + {now}
                && (forall second :: second in old(merged) && second != now ==> merged[second] == old(merged)[second])
                && Lists(ReadSegment(env.crc, merged[now]), Latest(Recovered(env.crc, Bytes(old(sealed)), 0)))
      ensures old(Traced(State())) ==>
                Traced(State()) && LogOf() == old(LogOf()) && ModesOf() == old(ModesOf())
    {
      if sealed == [] {
        return;
      }
      WriteMerged(now);
      RemoveSealed();
    }

    method WriteMerged(now: nat)
      modifies `merged
      ensures merged.Keys == old(merged).Keys + {now}
      ensures forall second :: second in old(merged) && second != now ==> merged[second] == old(merged)[second]
      ensures Lists(ReadSegment(env.crc, merged[now]), Latest(Recovered(env.crc, Bytes(sealed), 0)))
    {
      hide Lists, Recovered, ReadSegment, Latest;
      var values := LatestEntries(env.crc, sealed);
      var bytes := WriteAll(env.crc, values);
      ReplayOfWhole(env.crc, values);
      merged := merged[now := bytes];
    }

    method RemoveSealed()
      modifies `sealed, `trace
      ensures State() == old(State()).(sealed := [])
      ensures old(Traced(State())) ==>
                Traced(State()) && LogOf() == old(LogOf()) && ModesOf() == old(ModesOf())
    {
      while sealed != []
        invariant State() == old(State()).(sealed := sealed)
        invariant old(Traced(State())) ==>
                    Traced(State()) && LogOf() == old(LogOf()) && ModesOf() == old(ModesOf())
        decreases |sealed|
      {
        RemoveOldest();
      }
    }

    method RemoveOldest()
      requires sealed != []
      modifies `sealed, `trace
      ensures State() == old(State()).(sealed := old(sealed)[1..])
      ensures old(Traced(State())) ==>
                Traced(State()) && LogOf() == old(LogOf()) && ModesOf() == old(ModesOf())
    {
      ghost var before := State();
      ghost var h := if Traced(before) then Run(env, trace).value.history else History([], [], [], []);
      sealed := sealed[1..];
      if Traced(before) {
        RunKeepsInv(env, trace);
        DropKeepsLog(h, before);
      }
      Note(before, Drop);
    }
  }

  method LatestEntries(crc: Checksum, files: seq<File>) returns (values: seq<Entry>)
    ensures Lists(values, Latest(Recovered(crc, Bytes(files), 0)))
    ensures AllFit(values)
  {
    var entries := ReplaySegments(crc, files, 0);
    var dedup: map<u64, Entry> := map[];
    for i := 0 to |entries|
      invariant dedup == Latest(entries[..i])
    {
      LatestSnoc(entries[..i], entries[i]);
      assert entries[..i + 1] == entries[..i] + [entries[i]];
      dedup := dedup[entries[i].txnId := entries[i]];
    }
    assert entries[..|entries|] == entries;
    LatestKeys(entries);
    values := ValuesInOrder(dedup);
    RecoveredFit(crc, Bytes(files), 0);
  }

  method WriteAll(crc: Checksum, es: seq<Entry>) returns (bytes: seq<byte>)
    ensures bytes == EncodeAll(crc, es)
  {
    bytes := [];
    for i := 0 to |es|
      invariant bytes == EncodeAll(crc, es[..i])
    {
      var entryBytes := ToBytes(crc, es[i]);
      EncodeAllConcat(crc, es[..i], [es[i]]);
      assert es[..i + 1] == es[..i] + [es[i]];
      assert EncodeAll(crc, [es[i]]) == Encode(crc, es[i]);
      bytes := bytes + entryBytes;
    }
    assert es[..|es|] == es;
  }

  /** Whatever replay returns was decoded, so it can be encoded again without loss. */
  lemma {:induction false} ReadSegmentFits(crc: Checksum, data: seq<byte>)
    ensures AllFit(ReadSegment(crc, data))
    decreases |data|
  {
    var r := Decode(crc, data);
    if r.Decoded? {
      EncodeOfDecode(crc, data);
      ReadSegmentFits(crc, data[r.consumed..]);
    }
  }

  lemma {:induction false} AboveSubset(es: seq<Entry>, cp: nat)
    ensures forall e :: e in Above(es, cp) ==> e in es && e.txnId > cp
  {
    if es != [] {
      AboveSubset(es[1..], cp);
    }
  }

  lemma {:induction false} RecoveredFit(crc: Checksum, image: seq<seq<byte>>, cp: nat)
    ensures AllFit(Recovered(crc, image, cp))
  {
    if image != [] {
      ReadSegmentFits(crc, image[0]);
      AboveSubset(ReadSegment(crc, image[0]), cp);
      RecoveredFit(crc, image[1..], cp);
    }
  }
}
