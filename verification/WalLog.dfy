/** The write-ahead log: segments, rotation, durable and fast appends, replay, crashes.

    `Step` is the log as a machine whose steps are the individual effects one append performs
    while it holds the segment lock; a crash may fall between any two of them. The class
    `WriteAheadLog` is the imperative code, tied to runs of that machine. */
module WalLog {
  import opened Options
  import opened Seqs
  import opened WalCodec

  datatype WriteMode = Durable | Fast

  /** A segment file: the bytes handed to it, and how many of them an fsync has made safe. */
  datatype File = File(id: nat, bytes: seq<byte>, synced: nat)

  datatype Env = Env(crc: Checksum, segmentSize: nat, fsyncIntervalOps: nat)

  /** What the holder of the segment lock has done so far. */
  datatype Phase =
    | Idle
    | Locked(entry: Entry, mode: WriteMode)
    | Sealed(entry: Entry, mode: WriteMode)
    | Ready(entry: Entry, mode: WriteMode)
    | Written(entry: Entry, mode: WriteMode)
    | Synced(entry: Entry, mode: WriteMode)

  datatype Wal = Wal(sealed: seq<File>, current: File, opsSinceFsync: nat, phase: Phase)

  /** `Drop` removes the oldest sealed segment: one step of a compaction, at any time. */
  datatype Event = Lock(entry: Entry, mode: WriteMode) | Seal | Open | Write | Sync | Unlock | Flush | Drop

  // ---------- steps ----------

  predicate Full(env: Env, w: Wal, e: Entry) {
    |w.current.bytes| + |Encode(env.crc, e)| > env.segmentSize
  }

  predicate MustSync(env: Env, w: Wal, mode: WriteMode) {
    mode == Durable || w.opsSinceFsync >= env.fsyncIntervalOps
  }

  function Fsync(w: Wal): Wal {
    w.(current := w.current.(synced := |w.current.bytes|), opsSinceFsync := 0)
  }

  function Rotate(w: Wal): Wal {
    w.(sealed := w.sealed + [w.current], current := File(w.current.id + 1, [], 0), opsSinceFsync := 0)
  }

  function WriteEntry(env: Env, w: Wal, e: Entry): Wal {
    w.(current := w.current.(bytes := w.current.bytes + Encode(env.crc, e)),
       opsSinceFsync := w.opsSinceFsync + 1)
  }

  function Step(env: Env, w: Wal, ev: Event): Option<Wal> {
    match (ev, w.phase)
    case (Lock(e, mode), Idle) => Some(w.(phase := Locked(e, mode)))
    case (Seal, Locked(e, mode)) =>
      if Full(env, w, e) then Some(Fsync(w).(phase := Sealed(e, mode))) else None
    case (Open, Sealed(e, mode)) => Some(Rotate(w).(phase := Ready(e, mode)))
    case (Write, Locked(e, mode)) =>
      if Full(env, w, e) then None else Some(WriteEntry(env, w, e).(phase := Written(e, mode)))
    case (Write, Ready(e, mode)) => Some(WriteEntry(env, w, e).(phase := Written(e, mode)))
    case (Sync, Written(e, mode)) =>
      if MustSync(env, w, mode) then Some(Fsync(w).(phase := Synced(e, mode))) else None
    case (Unlock, Written(e, mode)) =>
      if MustSync(env, w, mode) then None else Some(w.(phase := Idle))
    case (Unlock, Synced(_, _)) => Some(w.(phase := Idle))
    case (Flush, Idle) => Some(Fsync(w))
    case (Drop, _) => if w.sealed == [] then None else Some(w.(sealed := w.sealed[1..]))
    case _ => None
  }

  // ---------- history: which entries were written, in lock order, and in which mode ----------

  /** `dropped` are the segments removed so far, `segments` the sealed ones that are left. */
  datatype History = History(
    dropped: seq<seq<Entry>>,
    segments: seq<seq<Entry>>,
    current: seq<Entry>,
    modes: seq<WriteMode>)

  datatype World = World(wal: Wal, history: History)

  function Observe(h: History, w: Wal, ev: Event): History {
    match ev
    case Open => h.(segments := h.segments + [h.current], current := [])
    case Write =>
      if w.phase.Idle? then h
      else h.(current := h.current + [w.phase.entry], modes := h.modes + [w.phase.mode])
    case Drop =>
      if h.segments == [] then h else h.(dropped := h.dropped + [h.segments[0]], segments := h.segments[1..])
    case _ => h
  }

  function Run(env: Env, evs: seq<Event>): Option<World> {
    if evs == [] then
      Some(World(Wal([], File(0, [], 0), 0, Idle), History([], [], [], [])))
    else
      var last := |evs| - 1;
      match Run(env, evs[..last])
      case None => None
      case Some(x) =>
        match Step(env, x.wal, evs[last])
        case None => None
        case Some(w) => Some(World(w, Observe(x.history, x.wal, evs[last])))
  }

  /** The log in lock order: everything ever written, dropped or not. */
  function Log(h: History): seq<Entry> {
    Flatten(h.dropped) + (Flatten(h.segments) + h.current)
  }

  /** An append is acknowledged when its lock holder leaves; the last one may still be inside. */
  function Acked(x: World): nat
    requires x.wal.phase.Written? || x.wal.phase.Synced? ==> 0 < |Log(x.history)|
  {
    |Log(x.history)| - if x.wal.phase.Written? || x.wal.phase.Synced? then 1 else 0
  }

  // ---------- crash and replay ----------

  /** After a crash each file keeps some prefix that contains everything fsynced. */
  ghost predicate CrashImage(files: seq<File>, image: seq<seq<byte>>) {
    && |image| == |files|
    && forall i :: 0 <= i < |files| ==> files[i].synced <= |image[i]| && image[i] <= files[i].bytes
  }

  function ReadSegment(crc: Checksum, data: seq<byte>): seq<Entry>
    decreases |data|
  {
    match Decode(crc, data)
    case Decoded(e, n) => [e] + ReadSegment(crc, data[n..])
    case _ => []
  }

  function Above(es: seq<Entry>, checkpoint: nat): seq<Entry> {
    if es == [] then []
    else if es[0].txnId > checkpoint then [es[0]] + Above(es[1..], checkpoint)
    else Above(es[1..], checkpoint)
  }

  function Recovered(crc: Checksum, image: seq<seq<byte>>, checkpoint: nat): seq<Entry> {
    if image == [] then []
    else Above(ReadSegment(crc, image[0]), checkpoint) + Recovered(crc, image[1..], checkpoint)
  }

  // ---------- lemmas: replaying whole and torn segments ----------

  function EncodeAll(crc: Checksum, es: seq<Entry>): seq<byte> {
    if es == [] then [] else Encode(crc, es[0]) + EncodeAll(crc, es[1..])
  }

  ghost predicate AllFit(es: seq<Entry>) {
    forall e :: e in es ==> FitsU32(e)
  }

  lemma {:induction false} EncodeAllConcat(crc: Checksum, a: seq<Entry>, b: seq<Entry>)
    ensures EncodeAll(crc, a + b) == EncodeAll(crc, a) + EncodeAll(crc, b)
  {
    if a == [] {
      assert a + b == b;
    } else {
      EncodeAllConcat(crc, a[1..], b);
      assert (a + b)[1..] == a[1..] + b && (a + b)[0] == a[0];
      Assoc(Encode(crc, a[0]), EncodeAll(crc, a[1..]), EncodeAll(crc, b));
    }
  }

  lemma {:induction false} AboveConcat(a: seq<Entry>, b: seq<Entry>, cp: nat)
    ensures Above(a + b, cp) == Above(a, cp) + Above(b, cp)
  {
    if a == [] {
      assert a + b == b;
    } else {
      AboveConcat(a[1..], b, cp);
      assert (a + b)[1..] == a[1..] + b && (a + b)[0] == a[0];
      Assoc([a[0]], Above(a[1..], cp), Above(b, cp));
    }
  }

  lemma ReplayCons(crc: Checksum, e: Entry, tail: seq<byte>)
    requires FitsU32(e)
    ensures ReadSegment(crc, Encode(crc, e) + tail) == [e] + ReadSegment(crc, tail)
  {
    DecodeOfEncode(crc, e, tail);
    assert (Encode(crc, e) + tail)[|Encode(crc, e)|..] == tail;
  }

  lemma ReplayTorn(crc: Checksum, e: Entry, tail: seq<byte>, k: nat)
    requires FitsU32(e) && k < |Encode(crc, e)|
    ensures ReadSegment(crc, (Encode(crc, e) + tail)[..k]) == []
  {
    StrictPrefixIsTruncated(crc, e, k);
    assert (Encode(crc, e) + tail)[..k] == Encode(crc, e)[..k];
  }

  /** How many entries of `es` lie completely within the first `k` bytes of their encoding. */
  function WholeWithin(crc: Checksum, es: seq<Entry>, k: nat): (n: nat)
    ensures n <= |es|
  {
    if es == [] || k < |Encode(crc, es[0])| then 0
    else 1 + WholeWithin(crc, es[1..], k - |Encode(crc, es[0])|)
  }

  /** Replaying a file cut anywhere yields exactly the entries that lie before the cut. */
  lemma {:induction false} ReplayOfCut(crc: Checksum, es: seq<Entry>, k: nat)
    requires AllFit(es) && k <= |EncodeAll(crc, es)|
    ensures ReadSegment(crc, EncodeAll(crc, es)[..k]) == es[..WholeWithin(crc, es, k)]
  {
    if es != [] {
      var first, rest := Encode(crc, es[0]), EncodeAll(crc, es[1..]);
      if k < |first| {
        ReplayTorn(crc, es[0], rest, k);
      } else {
        ReplayOfCut(crc, es[1..], k - |first|);
        TakeConcat(first, rest, k);
        ReplayCons(crc, es[0], rest[..k - |first|]);
        TakeCons(es, WholeWithin(crc, es[1..], k - |first|));
      }
    }
  }

  lemma {:induction false} SafeWithin(crc: Checksum, es: seq<Entry>, safe: nat, k: nat)
    requires safe <= |es| && |EncodeAll(crc, es[..safe])| <= k
    ensures safe <= WholeWithin(crc, es, k)
  {
    if safe > 0 {
      assert es[..safe][1..] == es[1..][..safe - 1];
      SafeWithin(crc, es[1..], safe - 1, k - |Encode(crc, es[0])|);
    }
  }

  lemma ReplayOfWhole(crc: Checksum, es: seq<Entry>)
    requires AllFit(es)
    ensures ReadSegment(crc, EncodeAll(crc, es)) == es
  {
    assert es[..|es|] == es;
    ReplayOfCut(crc, es, |EncodeAll(crc, es)|);
    SafeWithin(crc, es, |es|, |EncodeAll(crc, es)|);
    assert EncodeAll(crc, es)[..|EncodeAll(crc, es)|] == EncodeAll(crc, es);
  }

  // ---------- invariant ----------

  ghost predicate Holds(crc: Checksum, f: File, es: seq<Entry>, safe: nat) {
    && safe <= |es|
    && f.bytes == EncodeAll(crc, es)
    && f.synced == |EncodeAll(crc, es[..safe])|
  }

  /** At most this many entries may be unsynced once their appends have been acknowledged. */
  function LossBound(env: Env): nat {
    if env.fsyncIntervalOps == 0 then 0 else env.fsyncIntervalOps - 1
  }

  ghost predicate Inv(env: Env, x: World) {
    var w, h := x.wal, x.history;
    && |w.sealed| == |h.segments|
    && (forall i :: 0 <= i < |w.sealed| ==>
          Holds(env.crc, w.sealed[i], h.segments[i], |h.segments[i]|))
    && w.opsSinceFsync <= |h.current|
    && Holds(env.crc, w.current, h.current, |h.current| - w.opsSinceFsync)
    && |h.modes| == |Log(h)|
    && w.opsSinceFsync <= LossBound(env) + (if w.phase.Written? then 1 else 0)
    && (w.phase.Sealed? || w.phase.Synced? ==> w.opsSinceFsync == 0)
    && (w.phase.Ready? ==> h.current == [])
    && (w.phase.Written? || w.phase.Synced? ==>
          |h.current| > 0 && h.modes[|h.modes| - 1] == w.phase.mode)
    && (w.phase.Written? ==> w.opsSinceFsync > 0)
    && forall i :: 0 <= i < Acked(x) && h.modes[i] == Durable ==> i < |Log(h)| - w.opsSinceFsync
  }

  lemma SyncedAll(crc: Checksum, f: File, es: seq<Entry>)
    requires f.bytes == EncodeAll(crc, es)
    ensures Holds(crc, f.(synced := |f.bytes|), es, |es|)
  {
    assert es[..|es|] == es;
  }

  lemma EncodeAllOne(crc: Checksum, e: Entry)
    ensures EncodeAll(crc, [e]) == Encode(crc, e)
  {
  }

  lemma HoldsOneMore(crc: Checksum, f: File, es: seq<Entry>, safe: nat, e: Entry)
    requires Holds(crc, f, es, safe)
    ensures Holds(crc, f.(bytes := f.bytes + Encode(crc, e)), es + [e], safe)
  {
    hide Encode, EncodeAll;
    EncodeAllConcat(crc, es, [e]);
    EncodeAllOne(crc, e);
    assert (es + [e])[..safe] == es[..safe];
  }

  lemma WriteKeepsInv(env: Env, x: World)
    requires Inv(env, x)
    requires Step(env, x.wal, Write).Some?
    ensures Inv(env, World(Step(env, x.wal, Write).value, Observe(x.history, x.wal, Write)))
  {
    hide Encode, EncodeAll, Flatten, Full, Holds;
    var w, h := x.wal, x.history;
    var e := w.phase.entry;
    var safe := |h.current| - w.opsSinceFsync;
    HoldsOneMore(env.crc, w.current, h.current, safe, e);
    Assoc(Flatten(h.segments), h.current, [e]);
    Assoc(Flatten(h.dropped), Flatten(h.segments) + h.current, [e]);
  }

  lemma OpenKeepsInv(env: Env, x: World)
    requires Inv(env, x)
    requires Step(env, x.wal, Open).Some?
    ensures Inv(env, World(Step(env, x.wal, Open).value, Observe(x.history, x.wal, Open)))
  {
    FlattenSnoc(x.history.segments, x.history.current);
    var h' := Observe(x.history, x.wal, Open);
    assert Flatten(h'.segments) + h'.current == Flatten(x.history.segments) + x.history.current;
  }

  lemma DropKeepsLog(h: History, w: Wal)
    requires h.segments != []
    ensures Log(Observe(h, w, Drop)) == Log(h)
  {
    var first, rest := h.segments[0], h.segments[1..];
    FlattenSnoc(h.dropped, first);
    Assoc(first, Flatten(rest), h.current);
    Assoc(Flatten(h.dropped), first, Flatten(rest) + h.current);
  }

  lemma DropKeepsInv(env: Env, x: World)
    requires Inv(env, x)
    requires Step(env, x.wal, Drop).Some?
    ensures Inv(env, World(Step(env, x.wal, Drop).value, Observe(x.history, x.wal, Drop)))
  {
    hide Encode, EncodeAll, Log;
    DropKeepsLog(x.history, x.wal);
  }

  lemma StepKeepsInv(env: Env, x: World, ev: Event)
    requires Inv(env, x)
    requires Step(env, x.wal, ev).Some?
    ensures Inv(env, World(Step(env, x.wal, ev).value, Observe(x.history, x.wal, ev)))
  {
    hide Inv, Step, Observe;
    match ev
    case Write => WriteKeepsInv(env, x);
    case Open => OpenKeepsInv(env, x);
    case Seal | Sync | Flush => SyncKeepsInv(env, x, ev);
    case Lock(_, _) | Unlock => LockKeepsInv(env, x, ev);
    case Drop => DropKeepsInv(env, x);
  }

  lemma SyncKeepsInv(env: Env, x: World, ev: Event)
    requires Inv(env, x) && (ev.Seal? || ev.Sync? || ev.Flush?)
    requires Step(env, x.wal, ev).Some?
    ensures Inv(env, World(Step(env, x.wal, ev).value, Observe(x.history, x.wal, ev)))
  {
    hide Encode, EncodeAll, Flatten;
    SyncedAll(env.crc, x.wal.current, x.history.current);
  }

  lemma LockKeepsInv(env: Env, x: World, ev: Event)
    requires Inv(env, x) && (ev.Lock? || ev.Unlock?)
    requires Step(env, x.wal, ev).Some?
    ensures Inv(env, World(Step(env, x.wal, ev).value, Observe(x.history, x.wal, ev)))
  {
    hide Encode, EncodeAll, Flatten;
  }

  lemma {:induction false} RunKeepsInv(env: Env, evs: seq<Event>)
    requires Run(env, evs).Some?
    ensures Inv(env, Run(env, evs).value)
    decreases |evs|
  {
    if evs == [] {
      assert EncodeAll(env.crc, []) == [];
    } else {
      var last := |evs| - 1;
      RunKeepsInv(env, evs[..last]);
      StepKeepsInv(env, Run(env, evs[..last]).value, evs[last]);
    }
  }

  // ---------- crash safety ----------

  /** Sealed segments were fsynced before rotation, so a crash cannot shorten them. */
  lemma SealedReplayWhole(crc: Checksum, files: seq<File>, segs: seq<seq<Entry>>, image: seq<seq<byte>>)
    requires |files| == |segs| && CrashImage(files, image) && AllFit(Flatten(segs))
    requires forall i :: 0 <= i < |files| ==> Holds(crc, files[i], segs[i], |segs[i]|)
    ensures forall i :: 0 <= i < |image| ==> ReadSegment(crc, image[i]) == segs[i]
  {
    forall i | 0 <= i < |image| ensures ReadSegment(crc, image[i]) == segs[i] {
      InFlatten(segs, i);
      SealedFileReplaysWhole(crc, files[i], segs[i], image[i]);
    }
  }

  lemma SealedFileReplaysWhole(crc: Checksum, f: File, es: seq<Entry>, image: seq<byte>)
    requires Holds(crc, f, es, |es|) && AllFit(es)
    requires f.synced <= |image| && image <= f.bytes
    ensures ReadSegment(crc, image) == es
  {
    assert es[..|es|] == es;
    assert image == f.bytes;
    ReplayOfWhole(crc, es);
  }

  lemma {:induction false} RecoveredConcat(crc: Checksum, segs: seq<seq<Entry>>,
                                           image: seq<seq<byte>>, last: seq<byte>, cp: nat)
    requires |image| == |segs| && forall i :: 0 <= i < |image| ==> ReadSegment(crc, image[i]) == segs[i]
    ensures Recovered(crc, image + [last], cp) ==
            Above(Flatten(segs), cp) + Above(ReadSegment(crc, last), cp)
  {
    if segs == [] {
      assert image + [last] == [last];
      assert Recovered(crc, [last][1..], cp) == [];
    } else {
      RecoveredConcat(crc, segs[1..], image[1..], last, cp);
      assert (image + [last])[1..] == image[1..] + [last] && (image + [last])[0] == image[0];
      AboveConcat(segs[0], Flatten(segs[1..]), cp);
      Assoc(Above(segs[0], cp), Above(Flatten(segs[1..]), cp), Above(ReadSegment(crc, last), cp));
    }
  }

  /** A prefix of the log that holds every durable acknowledgement and misses at most `bound`
      acknowledged entries. */
  ghost predicate EnoughKept(x: World, kept: nat, bound: nat)
    requires x.wal.phase.Written? || x.wal.phase.Synced? ==> 0 < |Log(x.history)|
  {
    && kept <= |Log(x.history)| == |x.history.modes|
    && (forall i :: 0 <= i < Acked(x) && x.history.modes[i] == Durable ==> i < kept)
    && Acked(x) - kept <= bound
  }

  function TxnOf(e: Entry): nat {
    e.txnId
  }

  /** `r` lists the entries of `es` above the checkpoint, each occurrence once, in order. */
  ghost predicate Filtered(es: seq<Entry>, cp: nat, r: seq<Entry>) {
    Selected(es, TxnOf, cp, r)
  }

  lemma AboveSnoc(es: seq<Entry>, cp: nat)
    requires es != []
    ensures var n := |es| - 1;
            Above(es, cp) == if es[n].txnId > cp then Above(es[..n], cp) + [es[n]] else Above(es[..n], cp)
  {
    var n := |es| - 1;
    assert es == es[..n] + [es[n]];
    AboveConcat(es[..n], [es[n]], cp);
    assert Above([es[n]], cp) == if es[n].txnId > cp then [es[n]] else [];
  }

  lemma {:induction false} AboveFiltered(es: seq<Entry>, cp: nat)
    ensures Filtered(es, cp, Above(es, cp))
    decreases |es|
  {
    if es == [] {
      SelectedNone<Entry>(TxnOf, cp);
    } else {
      hide Above, Selected;
      AboveFiltered(es[..|es| - 1], cp);
      AboveSnoc(es, cp);
      SelectedNext(es, TxnOf, cp, Above(es[..|es| - 1], cp));
    }
  }

  lemma FilteredIff(es: seq<Entry>, cp: nat, r: seq<Entry>)
    ensures Filtered(es, cp, r) <==> r == Above(es, cp)
  {
    hide Above, Selected;
    AboveFiltered(es, cp);
    if Filtered(es, cp, r) {
      SelectedUnique(es, TxnOf, cp, r, Above(es, cp));
    }
  }

  /** If nothing is below the checkpoint, nothing is left out. */
  lemma FilteredAll(es: seq<Entry>, cp: nat, r: seq<Entry>)
    requires Filtered(es, cp, r) && forall e :: e in es ==> e.txnId > cp
    ensures r == es
  {
    FilteredIff(es, cp, r);
    AboveAll(es, cp);
  }

  lemma {:induction false} AboveAll(es: seq<Entry>, cp: nat)
    requires forall e :: e in es ==> e.txnId > cp
    ensures Above(es, cp) == es
  {
    if es != [] {
      AboveAll(es[1..], cp);
      assert es == [es[0]] + es[1..];
    }
  }

  /** A replay is sound when it returns such a prefix above the checkpoint. */
  ghost predicate SoundReplay(x: World, kept: nat, recovered: seq<Entry>, cp: nat, bound: nat)
    requires x.wal.phase.Written? || x.wal.phase.Synced? ==> 0 < |Log(x.history)|
  {
    EnoughKept(x, kept, bound) && Filtered(Log(x.history)[..kept], cp, recovered)
  }

  lemma CrashImageSplit(w: Wal, image: seq<seq<byte>>)
    requires CrashImage(w.sealed + [w.current], image)
    ensures |image| == |w.sealed| + 1 && CrashImage(w.sealed, image[..|w.sealed|])
    ensures image == image[..|w.sealed|] + [image[|w.sealed|]]
    ensures w.current.synced <= |image[|w.sealed|]| && image[|w.sealed|] <= w.current.bytes
  {
    var files := w.sealed + [w.current];
    assert files[|w.sealed|] == w.current;
    assert forall i :: 0 <= i < |w.sealed| ==> files[i] == w.sealed[i];
  }

  lemma ReplayOfTorn(crc: Checksum, f: File, es: seq<Entry>, safe: nat, image: seq<byte>) returns (n: nat)
    requires Holds(crc, f, es, safe) && AllFit(es)
    requires f.synced <= |image| && image <= f.bytes
    ensures safe <= n <= |es| && n == WholeWithin(crc, es, |image|) && ReadSegment(crc, image) == es[..n]
  {
    ReplayOfCut(crc, es, |image|);
    SafeWithin(crc, es, safe, |image|);
    assert image == f.bytes[..|image|];
    n := WholeWithin(crc, es, |image|);
  }

  lemma FitParts(h: History)
    requires AllFit(Log(h))
    ensures AllFit(Flatten(h.segments)) && AllFit(h.current)
  {
    assert forall e :: e in Flatten(h.segments) || e in h.current ==> e in Log(h);
  }

  /** Replay of a directory: the sealed segments whole, then the entries before the cut. */
  lemma ReplayOfDirectory(crc: Checksum, sealed: seq<File>, segs: seq<seq<Entry>>, current: File,
                          es: seq<Entry>, safe: nat, image: seq<seq<byte>>, cp: nat) returns (n: nat)
    requires |sealed| == |segs| && |image| == |sealed| + 1
    requires CrashImage(sealed, image[..|sealed|])
    requires forall i :: 0 <= i < |sealed| ==> Holds(crc, sealed[i], segs[i], |segs[i]|)
    requires Holds(crc, current, es, safe)
    requires current.synced <= |image[|sealed|]| && image[|sealed|] <= current.bytes
    requires AllFit(Flatten(segs)) && AllFit(es)
    ensures safe <= n <= |es| && n == WholeWithin(crc, es, |image[|sealed|]|)
    ensures Recovered(crc, image, cp) == Above(Flatten(segs) + es[..n], cp)
  {
    hide Holds, AllFit, ReadSegment, Recovered, Above, Flatten, WholeWithin;
    n := ReplayOfTorn(crc, current, es, safe, image[|sealed|]);
    SealedReplayWhole(crc, sealed, segs, image[..|sealed|]);
    RecoveredConcat(crc, segs, image[..|sealed|], image[|sealed|], cp);
    assert image == image[..|sealed|] + [image[|sealed|]];
    AboveConcat(Flatten(segs), es[..n], cp);
  }

  /** How much of the log a crash leaves, dropped segments counted: all sealed entries, and of the current
      segment those before the cut. */
  function Survivors(crc: Checksum, h: History, last: seq<byte>): (n: nat)
    ensures n <= |Log(h)|
  {
    |Flatten(h.dropped)| + (|Flatten(h.segments)| + WholeWithin(crc, h.current, |last|))
  }

  /** Nothing that was dropped is above the checkpoint. */
  ghost predicate DroppedBelow(h: History, cp: nat) {
    forall e :: e in Flatten(h.dropped) ==> e.txnId <= cp
  }

  lemma {:induction false} AboveNothing(es: seq<Entry>, cp: nat)
    ensures Above(es, cp) == [] <==> forall e :: e in es ==> e.txnId <= cp
  {
    if es != [] {
      AboveNothing(es[1..], cp);
      assert es == [es[0]] + es[1..];
    }
  }

  /** Replay returns the surviving entries above the checkpoint exactly when nothing above it was dropped. */
  lemma SurvivorsAbove(h: History, crc: Checksum, last: seq<byte>, n: nat, cp: nat)
    requires n == WholeWithin(crc, h.current, |last|)
    ensures Above(Flatten(h.segments) + h.current[..n], cp) == Above(Log(h)[..Survivors(crc, h, last)], cp)
            <==> DroppedBelow(h, cp)
  {
    hide Above, Flatten, WholeWithin;
    var d, s := Flatten(h.dropped), Flatten(h.segments);
    TakeConcat(d, s + h.current, Survivors(crc, h, last));
    TakeConcat(s, h.current, |s| + n);
    AboveConcat(d, s + h.current[..n], cp);
    AboveNothing(d, cp);
  }

  /** Crash safety: after any run with compactions, whatever of the unsynced tail a crash leaves, the
      surviving entries are a prefix of the log that has every durable acknowledgement and lacks few;
      replay returns them above the checkpoint exactly when nothing above it was compacted away. */
  lemma CrashSafetyIff(env: Env, evs: seq<Event>, image: seq<seq<byte>>, cp: nat)
    requires Run(env, evs).Some?
    requires var x := Run(env, evs).value;
             CrashImage(x.wal.sealed + [x.wal.current], image) && AllFit(Log(x.history))
    ensures var x := Run(env, evs).value;
            && image != []
            && (x.wal.phase.Written? || x.wal.phase.Synced? ==> 0 < |Log(x.history)|)
            && var kept := Survivors(env.crc, x.history, image[|image| - 1]);
               && EnoughKept(x, kept, LossBound(env))
               && (SoundReplay(x, kept, Recovered(env.crc, image, cp), cp, LossBound(env)) <==>
                   DroppedBelow(x.history, cp))
  {
    RunKeepsInv(env, evs);
    hide Inv, CrashImage, AllFit, SoundReplay, EnoughKept, Survivors, DroppedBelow, Log;
    ReplayIsSound(env, Run(env, evs).value, image, cp);
  }

  lemma ReplayIsSound(env: Env, x: World, image: seq<seq<byte>>, cp: nat)
    requires Inv(env, x) && CrashImage(x.wal.sealed + [x.wal.current], image) && AllFit(Log(x.history))
    ensures image != [] && (x.wal.phase.Written? || x.wal.phase.Synced? ==> 0 < |Log(x.history)|)
    ensures var kept := Survivors(env.crc, x.history, image[|image| - 1]);
            && EnoughKept(x, kept, LossBound(env))
            && (SoundReplay(x, kept, Recovered(env.crc, image, cp), cp, LossBound(env)) <==>
                DroppedBelow(x.history, cp))
  {
    hide Recovered, AllFit, Holds, Above, Filtered, Flatten, CrashImage, WholeWithin, DroppedBelow;
    var w, h := x.wal, x.history;
    CrashImageSplit(w, image);
    FitParts(h);
    var n := ReplayOfDirectory(env.crc, w.sealed, h.segments, w.current, h.current,
                               |h.current| - w.opsSinceFsync, image, cp);
    SurvivorsAbove(h, env.crc, image[|w.sealed|], n, cp);
    FilteredIff(Log(h)[..Survivors(env.crc, h, image[|w.sealed|])], cp, Recovered(env.crc, image, cp));
  }

  lemma {:induction false} NothingDropped(env: Env, evs: seq<Event>)
    requires Run(env, evs).Some? && Drop !in evs
    ensures Run(env, evs).value.history.dropped == []
    decreases |evs|
  {
    if evs != [] {
      var last := |evs| - 1;
      assert evs[last] in evs && forall e :: e in evs[..last] ==> e in evs;
      NothingDropped(env, evs[..last]);
    }
  }

  /** Without compaction every replay is sound, and above an old checkpoint it is the log prefix itself. */
  lemma CrashSafety(env: Env, evs: seq<Event>, image: seq<seq<byte>>, cp: nat)
    requires Run(env, evs).Some? && Drop !in evs
    requires var x := Run(env, evs).value;
             CrashImage(x.wal.sealed + [x.wal.current], image) && AllFit(Log(x.history))
    ensures var x := Run(env, evs).value;
            && (x.wal.phase.Written? || x.wal.phase.Synced? ==> 0 < |Log(x.history)|)
            && exists kept: nat ::
                 && SoundReplay(x, kept, Recovered(env.crc, image, cp), cp, LossBound(env))
                 && ((forall e :: e in Log(x.history) ==> e.txnId > cp) ==>
                      Recovered(env.crc, image, cp) == Log(x.history)[..kept])
  {
    CrashSafetyIff(env, evs, image, cp);
    NothingDropped(env, evs);
    hide Run, CrashImage, AllFit, EnoughKept, Filtered, Survivors, Log, Recovered;
    var x := Run(env, evs).value;
    var kept := Survivors(env.crc, x.history, image[|image| - 1]);
    if forall e :: e in Log(x.history) ==> e.txnId > cp {
      FilteredAll(Log(x.history)[..kept], cp, Recovered(env.crc, image, cp));
    }
  }

  /** Without a crash, replay returns the whole log above the checkpoint exactly when nothing above it was
      compacted away. */
  lemma CleanReplayIff(env: Env, evs: seq<Event>, cp: nat)
    requires Run(env, evs).Some?
    requires AllFit(Log(Run(env, evs).value.history))
    ensures var x := Run(env, evs).value;
            Filtered(Log(x.history), cp, Recovered(env.crc, Contents(x.wal), cp)) <==> DroppedBelow(x.history, cp)
  {
    RunKeepsInv(env, evs);
    hide Run;
    CleanReplayOf(env, Run(env, evs).value, cp);
  }

  lemma CleanReplayOf(env: Env, x: World, cp: nat)
    requires Inv(env, x) && AllFit(Log(x.history))
    ensures Filtered(Log(x.history), cp, Recovered(env.crc, Contents(x.wal), cp)) <==> DroppedBelow(x.history, cp)
  {
    hide Recovered, AllFit, Above, Filtered, Flatten, ReadSegment, DroppedBelow;
    var w, h := x.wal, x.history;
    FitParts(h);
    SyncedWithin(env.crc, w.sealed, h.segments);
    SealedReplayWhole(env.crc, w.sealed, h.segments, Bytes(w.sealed));
    RecoveredConcat(env.crc, h.segments, Bytes(w.sealed), w.current.bytes, cp);
    ReplayOfWhole(env.crc, h.current);
    AboveConcat(Flatten(h.segments), h.current, cp);
    AboveConcat(Flatten(h.dropped), Flatten(h.segments) + h.current, cp);
    DroppedNothing(h, cp);
    FilteredIff(Log(h), cp, Recovered(env.crc, Contents(w), cp));
  }

  lemma DroppedNothing(h: History, cp: nat)
    ensures Above(Flatten(h.dropped), cp) == [] <==> DroppedBelow(h, cp)
  {
    AboveNothing(Flatten(h.dropped), cp);
  }

  lemma SyncedWithin(crc: Checksum, sealed: seq<File>, segs: seq<seq<Entry>>)
    requires |sealed| == |segs| && forall i :: 0 <= i < |sealed| ==> Holds(crc, sealed[i], segs[i], |segs[i]|)
    ensures CrashImage(sealed, Bytes(sealed))
  {
    forall i | 0 <= i < |sealed| ensures sealed[i].synced <= |sealed[i].bytes| {
      assert segs[i][..|segs[i]|] == segs[i];
    }
  }

  function Bytes(files: seq<File>): (r: seq<seq<byte>>)
    ensures |r| == |files| && forall i :: 0 <= i < |r| ==> r[i] == files[i].bytes
  {
    seq(|files|, i requires 0 <= i < |files| => files[i].bytes)
  }

  function Contents(w: Wal): seq<seq<byte>> {
    Bytes(w.sealed) + [w.current.bytes]
  }
}
