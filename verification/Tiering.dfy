/** Hot and cold tiers as values: what insertion with eviction, promotion and demotion may do, and
    why a serial run of them never loses or alters an acknowledged record. */
module Tiering {
  import opened Options

  datatype Record = Record(id: nat, vector: seq<real>, metadata: string, createdAt: nat, accessCount: nat)

  /** The hot map, and for every known cold partition its records in the order they are read back. */
  datatype Tiers = Tiers(hot: map<nat, Record>, cold: map<nat, seq<Record>>)

  datatype Outcome = Stored | StoreFull | AlreadyExists

  /** Records an insert moves to the cold tier when the hot store is full. */
  const EvictionBatch: nat := 100

  /** The partition demotion writes to. */
  const DemotionPartition: nat := 0

  // ---------- the operations on values ----------

  /** A limit of 0 means unlimited. */
  predicate Full(max: nat, hot: map<nat, Record>) {
    max > 0 && |hot| >= max
  }

  /** Capacity is checked before duplicates. */
  function InsertOutcome(max: nat, hot: map<nat, Record>, r: Record): Outcome {
    if Full(max, hot) then StoreFull else if r.id in hot then AlreadyExists else Stored
  }

  function HotAfter(max: nat, hot: map<nat, Record>, r: Record): map<nat, Record> {
    if InsertOutcome(max, hot, r) == Stored then hot[r.id := r] else hot
  }

  ghost function Ids(rs: seq<Record>): set<nat> {
    set i | 0 <= i < |rs| :: rs[i].id
  }

  function Min(a: nat, b: nat): nat {
    if a < b then a else b
  }

  ghost predicate DistinctIds(rs: seq<Record>) {
    forall i, j :: 0 <= i < j < |rs| ==> rs[i].id != rs[j].id
  }

  /** `drained` is a possible result of draining `k` records: least accessed first, ties in any order. */
  ghost predicate Drains(hot: map<nat, Record>, k: nat, drained: seq<Record>, hot': map<nat, Record>) {
    && |drained| == Min(k, |hot|)
    && DistinctIds(drained)
    && (forall i :: 0 <= i < |drained| ==> drained[i].id in hot && hot[drained[i].id] == drained[i])
    && hot' == hot - Ids(drained)
    && (forall i, j :: 0 <= i < j < |drained| ==> drained[i].accessCount <= drained[j].accessCount)
    && (forall i, id :: 0 <= i < |drained| && id in hot' ==> drained[i].accessCount <= hot'[id].accessCount)
  }

  function Records(cold: map<nat, seq<Record>>, p: nat): seq<Record> {
    if p in cold then cold[p] else []
  }

  /** Writing an empty batch creates no partition. */
  function Append(cold: map<nat, seq<Record>>, p: nat, batch: seq<Record>): map<nat, seq<Record>> {
    if batch == [] then cold else cold[p := Records(cold, p) + batch]
  }

  function PromoteRecords(max: nat, hot: map<nat, Record>, rs: seq<Record>): map<nat, Record> {
    if rs == [] then hot
    else
      var k := |rs| - 1;
      HotAfter(max, PromoteRecords(max, hot, rs[..k]), rs[k])
  }

  function PromotePartitions(max: nat, t: Tiers, order: seq<nat>): map<nat, Record> {
    if order == [] then t.hot
    else
      var k := |order| - 1;
      PromoteRecords(max, PromotePartitions(max, t, order[..k]), Records(t.cold, order[k]))
  }

  // ---------- steps ----------

  /** One serial operation, with the nondeterminism of hash-map iteration and of the clock it met. */
  datatype Event =
    | Insert(record: Record, day: nat, drained: seq<Record>, ok: bool)
    | Promote(order: seq<nat>)
    | Demote(watermark: nat, drained: seq<Record>)

  /** Try, evict one batch if full, try again; a duplicate is ignored the first time and an error the second. */
  ghost predicate Inserts(max: nat, t: Tiers, e: Event, t': Tiers)
    requires e.Insert?
  {
    if InsertOutcome(max, t.hot, e.record) == StoreFull then
      exists hot :: Evicts(max, t, e, hot, t')
    else
      e.ok && t' == Tiers(HotAfter(max, t.hot, e.record), t.cold)
  }

  ghost predicate Evicts(max: nat, t: Tiers, e: Event, hot: map<nat, Record>, t': Tiers)
    requires e.Insert?
  {
    && Drains(t.hot, EvictionBatch, e.drained, hot)
    && e.ok == (InsertOutcome(max, hot, e.record) == Stored)
    && t' == Tiers(HotAfter(max, hot, e.record), Append(t.cold, e.day, e.drained))
  }

  ghost predicate Demotes(t: Tiers, e: Event, t': Tiers)
    requires e.Demote?
  {
    if |t.hot| <= e.watermark then t' == t
    else
      && Drains(t.hot, |t.hot| - e.watermark, e.drained, t'.hot)
      && t'.cold == Append(t.cold, DemotionPartition, e.drained)
  }

  ghost predicate Step(max: nat, t: Tiers, e: Event, t': Tiers) {
    match e
    case Insert(_, _, _, _) => Inserts(max, t, e, t')
    case Promote(order) => t' == Tiers(PromotePartitions(max, t, order), t.cold)
    case Demote(_, _) => Demotes(t, e, t')
  }

  /** What a read may answer: the hot copy, else the first copy in whichever partition is reached first. */
  ghost predicate CanReturn(t: Tiers, id: nat, answer: Option<Record>) {
    if id in t.hot then answer == Some(t.hot[id])
    else match answer
      case Some(r) => r.id == id && exists p :: p in t.cold && FirstWithId(t.cold[p], r)
      case None => !HasCold(t.cold, id)
  }

  ghost predicate FirstWithId(rs: seq<Record>, r: Record) {
    exists i :: 0 <= i < |rs| && rs[i] == r && forall j :: 0 <= j < i ==> rs[j].id != r.id
  }

  ghost predicate HasCold(cold: map<nat, seq<Record>>, id: nat) {
    exists p :: p in cold && HasId(cold[p], id)
  }

  ghost predicate HasId(rs: seq<Record>, id: nat) {
    exists i :: 0 <= i < |rs| && rs[i].id == id
  }

  // ---------- the invariant ----------

  ghost predicate WithinCapacity(max: nat, hot: map<nat, Record>) {
    max > 0 ==> |hot| <= max
  }

  ghost predicate HotAgrees(hot: map<nat, Record>, acked: map<nat, Record>) {
    forall id :: id in hot ==> hot[id].id == id && id in acked && acked[id] == hot[id]
  }

  ghost predicate AllAcked(rs: seq<Record>, acked: map<nat, Record>) {
    forall i :: 0 <= i < |rs| ==> rs[i].id in acked && acked[rs[i].id] == rs[i]
  }

  ghost predicate ColdAgrees(cold: map<nat, seq<Record>>, acked: map<nat, Record>) {
    forall p :: p in cold ==> AllAcked(cold[p], acked)
  }

  ghost predicate Kept(t: Tiers, id: nat) {
    id in t.hot || HasCold(t.cold, id)
  }

  /** Every stored copy is the acknowledged record of its id, and every acknowledged id has a copy. */
  ghost predicate Agrees(t: Tiers, acked: map<nat, Record>) {
    && HotAgrees(t.hot, acked) && ColdAgrees(t.cold, acked)
    && forall id :: id in acked ==> Kept(t, id)
  }

  /** Under the invariant a read answers exactly what was acknowledged, however partitions are ordered. */
  lemma ReadsAreExact(t: Tiers, acked: map<nat, Record>, id: nat, answer: Option<Record>)
    requires Agrees(t, acked)
    ensures CanReturn(t, id, answer) <==> answer == (if id in acked then Some(acked[id]) else None)
  {
    if id !in t.hot {
      if HasCold(t.cold, id) {
        var p :| p in t.cold && HasId(t.cold[p], id);
        assert AllAcked(t.cold[p], acked);
        var r := FindFirst(t.cold[p], id);
      }
      if answer.Some? && CanReturn(t, id, answer) {
        var p :| p in t.cold && FirstWithId(t.cold[p], answer.value);
        assert AllAcked(t.cold[p], acked);
        assert HasId(t.cold[p], id);
      }
    }
  }

  lemma {:induction false} FindFirst(rs: seq<Record>, id: nat) returns (r: Record)
    requires HasId(rs, id)
    ensures r in rs && r.id == id && FirstWithId(rs, r)
  {
    var i :| 0 <= i < |rs| && rs[i].id == id;
    if HasId(rs[..i], id) {
      r := FindFirst(rs[..i], id);
      var j :| 0 <= j < i && rs[..i][j] == r && forall k :: 0 <= k < j ==> rs[..i][k].id != r.id;
      assert rs[j] == r && forall k :: 0 <= k < j ==> rs[k].id != r.id by {
        assert forall k :: 0 <= k < i ==> rs[..i][k] == rs[k];
      }
    } else {
      r := rs[i];
      assert forall k :: 0 <= k < i ==> rs[..i][k] == rs[k];
    }
  }

  // ---------- every step keeps it ----------

  lemma HotGrows(hot: map<nat, Record>, r: Record)
    requires r.id !in hot
    ensures |hot[r.id := r]| == |hot| + 1
  {
    assert hot[r.id := r].Keys == hot.Keys + {r.id};
  }

  lemma TryKeeps(max: nat, t: Tiers, r: Record, acked: map<nat, Record>)
    requires Agrees(t, acked) && WithinCapacity(max, t.hot) && r.id !in acked
    ensures InsertOutcome(max, t.hot, r) != AlreadyExists
    ensures InsertOutcome(max, t.hot, r) == Stored ==> Agrees(Tiers(HotAfter(max, t.hot, r), t.cold), acked[r.id := r])
    ensures WithinCapacity(max, HotAfter(max, t.hot, r))
  {
    if InsertOutcome(max, t.hot, r) == Stored {
      HotGrows(t.hot, r);
      var acked' := acked[r.id := r];
      assert ColdAgrees(t.cold, acked') by {
        forall p | p in t.cold ensures AllAcked(t.cold[p], acked') {
          assert AllAcked(t.cold[p], acked);
        }
      }
      assert forall id :: id in acked ==> Kept(t, id);
    }
  }

  lemma AppendKeeps(cold: map<nat, seq<Record>>, p: nat, batch: seq<Record>, acked: map<nat, Record>)
    requires ColdAgrees(cold, acked) && AllAcked(batch, acked)
    ensures ColdAgrees(Append(cold, p, batch), acked)
    ensures forall id :: HasCold(Append(cold, p, batch), id) <==> HasCold(cold, id) || HasId(batch, id)
  {
    var cold' := Append(cold, p, batch);
    if batch != [] {
      var old' := Records(cold, p);
      assert AllAcked(old', acked);
      assert cold'[p] == old' + batch;
      assert AllAcked(cold'[p], acked);
      forall q | q in cold' ensures AllAcked(cold'[q], acked) {
        assert q != p ==> AllAcked(cold[q], acked);
      }
      forall id ensures HasCold(cold', id) <==> HasCold(cold, id) || HasId(batch, id) {
        HasIdSplit(old', batch, id);
        if HasCold(cold, id) {
          var q :| q in cold && HasId(cold[q], id);
          assert HasId(cold'[q], id);
        }
        if HasId(batch, id) {
          assert HasId(cold'[p], id);
        }
        if HasCold(cold', id) {
          var q :| q in cold' && HasId(cold'[q], id);
          if q != p {
            assert HasId(cold[q], id);
          }
        }
      }
    }
  }

  lemma HasIdSplit(a: seq<Record>, b: seq<Record>, id: nat)
    ensures HasId(a + b, id) <==> HasId(a, id) || HasId(b, id)
  {
    if HasId(a, id) {
      var i :| 0 <= i < |a| && a[i].id == id;
      assert (a + b)[i].id == id;
    }
    if HasId(b, id) {
      var i :| 0 <= i < |b| && b[i].id == id;
      assert (a + b)[|a| + i].id == id;
    }
  }

  lemma IdsOfDrained(drained: seq<Record>, id: nat)
    ensures id in Ids(drained) <==> HasId(drained, id)
  {
  }

  lemma {:induction false} DistinctCount(drained: seq<Record>)
    requires DistinctIds(drained)
    ensures |Ids(drained)| == |drained|
  {
    if drained == [] {
      assert Ids(drained) == {};
    } else {
      var k := |drained| - 1;
      DistinctCount(drained[..k]);
      assert Ids(drained) == Ids(drained[..k]) + {drained[k].id} by {
        assert forall i :: 0 <= i < k ==> drained[..k][i] == drained[i];
        assert forall id :: id in Ids(drained) ==> id in Ids(drained[..k]) || id == drained[k].id;
        assert forall id :: id in Ids(drained[..k]) ==> id in Ids(drained);
      }
      assert drained[k].id !in Ids(drained[..k]);
    }
  }

  lemma DrainSize(hot: map<nat, Record>, k: nat, drained: seq<Record>, hot': map<nat, Record>)
    requires Drains(hot, k, drained, hot')
    ensures |hot'| == |hot| - Min(k, |hot|)
  {
    DistinctCount(drained);
    assert Ids(drained) <= hot.Keys;
    assert hot'.Keys == hot.Keys - Ids(drained);
  }

  /** Moving drained records to any partition keeps the invariant. */
  lemma MoveKeeps(t: Tiers, k: nat, drained: seq<Record>, hot': map<nat, Record>, p: nat, acked: map<nat, Record>)
    requires Agrees(t, acked) && Drains(t.hot, k, drained, hot')
    ensures Agrees(Tiers(hot', Append(t.cold, p, drained)), acked)
  {
    assert AllAcked(drained, acked);
    AppendKeeps(t.cold, p, drained, acked);
    forall id | id in acked ensures Kept(Tiers(hot', Append(t.cold, p, drained)), id) {
      assert Kept(t, id);
      IdsOfDrained(drained, id);
    }
  }

  /** If the cold write fails after the drain, the acknowledged records survive exactly when every
      drained one already had a cold copy. */
  lemma FailedWriteLosesIff(t: Tiers, k: nat, drained: seq<Record>, hot': map<nat, Record>, acked: map<nat, Record>)
    requires Agrees(t, acked) && Drains(t.hot, k, drained, hot')
    ensures Agrees(Tiers(hot', t.cold), acked) <==>
            forall i :: 0 <= i < |drained| ==> HasCold(t.cold, drained[i].id)
  {
    var t' := Tiers(hot', t.cold);
    if Agrees(t', acked) {
      forall i | 0 <= i < |drained| ensures HasCold(t.cold, drained[i].id) {
        assert Kept(t', drained[i].id);
        IdsOfDrained(drained, drained[i].id);
      }
    }
    if forall i :: 0 <= i < |drained| ==> HasCold(t.cold, drained[i].id) {
      forall id | id in acked ensures Kept(t', id) {
        assert Kept(t, id);
        IdsOfDrained(drained, id);
      }
    }
  }

  lemma {:induction false} PromoteRecordsKeeps(max: nat, t: Tiers, rs: seq<Record>, acked: map<nat, Record>)
    requires Agrees(t, acked) && WithinCapacity(max, t.hot) && AllAcked(rs, acked)
    ensures Agrees(Tiers(PromoteRecords(max, t.hot, rs), t.cold), acked)
    ensures WithinCapacity(max, PromoteRecords(max, t.hot, rs))
  {
    if rs != [] {
      var k := |rs| - 1;
      PromoteRecordsKeeps(max, t, rs[..k], acked);
      var hot := PromoteRecords(max, t.hot, rs[..k]);
      if InsertOutcome(max, hot, rs[k]) == Stored {
        HotGrows(hot, rs[k]);
        assert forall id :: id in acked ==> Kept(Tiers(hot, t.cold), id);
      }
    }
  }

  lemma {:induction false} PromotionKeeps(max: nat, t: Tiers, order: seq<nat>, acked: map<nat, Record>)
    requires Agrees(t, acked) && WithinCapacity(max, t.hot)
    ensures Agrees(Tiers(PromotePartitions(max, t, order), t.cold), acked)
    ensures WithinCapacity(max, PromotePartitions(max, t, order))
  {
    if order != [] {
      var k := |order| - 1;
      PromotionKeeps(max, t, order[..k], acked);
      assert AllAcked(Records(t.cold, order[k]), acked);
      PromoteRecordsKeeps(max, Tiers(PromotePartitions(max, t, order[..k]), t.cold), Records(t.cold, order[k]), acked);
    }
  }

  // ---------- what promotion copies ----------

  /** Some record of the list has this id and is this record. */
  ghost predicate Among(rs: seq<Record>, id: nat, r: Record) {
    exists i :: 0 <= i < |rs| && rs[i].id == id && rs[i] == r
  }

  /** Promotion removes and changes nothing; what it adds are cold records; and if the hot store does not
      end full, every cold id is hot. */
  ghost predicate Promoted(max: nat, hot: map<nat, Record>, rs: seq<Record>, hot': map<nat, Record>) {
    && (forall id :: id in hot ==> id in hot' && hot'[id] == hot[id])
    && (forall id :: id in hot' ==> id in hot || Among(rs, id, hot'[id]))
    && ((max == 0 || |hot'| < max) ==> forall i :: 0 <= i < |rs| ==> rs[i].id in hot')
  }

  lemma MoreIsLarger(a: map<nat, Record>, b: map<nat, Record>)
    requires forall id :: id in a ==> id in b
    ensures |a| <= |b|
  {
    assert b.Keys == a.Keys + (b.Keys - a.Keys);
  }

  lemma {:induction false} RecordsPromoted(max: nat, hot: map<nat, Record>, rs: seq<Record>)
    ensures Promoted(max, hot, rs, PromoteRecords(max, hot, rs))
    decreases |rs|
  {
    if rs != [] {
      var k := |rs| - 1;
      RecordsPromoted(max, hot, rs[..k]);
      OnePromoted(max, hot, rs[..k], rs[k], PromoteRecords(max, hot, rs[..k]));
      assert rs == rs[..k] + [rs[k]];
    }
  }

  lemma OnePromoted(max: nat, hot: map<nat, Record>, rs: seq<Record>, r: Record, hot': map<nat, Record>)
    requires Promoted(max, hot, rs, hot')
    ensures Promoted(max, hot, rs + [r], HotAfter(max, hot', r))
  {
    var hot'' := HotAfter(max, hot', r);
    MoreIsLarger(hot', hot'');
    forall id | id in hot'' ensures id in hot || Among(rs + [r], id, hot''[id]) {
      if id in hot' {
        if Among(rs, id, hot'[id]) {
          var i :| 0 <= i < |rs| && rs[i].id == id && rs[i] == hot'[id];
          assert (rs + [r])[i] == rs[i];
        }
      } else {
        assert (rs + [r])[|rs|] == r;
      }
    }
  }

  /** The records of the partitions one after the other. */
  function PartitionRecords(cold: map<nat, seq<Record>>, order: seq<nat>): seq<Record> {
    if order == [] then [] else PartitionRecords(cold, order[..|order| - 1]) + Records(cold, order[|order| - 1])
  }

  lemma {:induction false} PartitionsPromoted(max: nat, t: Tiers, order: seq<nat>)
    ensures Promoted(max, t.hot, PartitionRecords(t.cold, order), PromotePartitions(max, t, order))
    decreases |order|
  {
    if order != [] {
      var k := |order| - 1;
      var before, rs := PartitionRecords(t.cold, order[..k]), Records(t.cold, order[k]);
      var hot := PromotePartitions(max, t, order[..k]);
      PartitionsPromoted(max, t, order[..k]);
      RecordsPromoted(max, hot, rs);
      PromotedTwice(max, t.hot, before, hot, rs, PromoteRecords(max, hot, rs));
    }
  }

  lemma PromotedTwice(max: nat, hot: map<nat, Record>, rs: seq<Record>, hot': map<nat, Record>, rs': seq<Record>,
                      hot'': map<nat, Record>)
    requires Promoted(max, hot, rs, hot') && Promoted(max, hot', rs', hot'')
    ensures Promoted(max, hot, rs + rs', hot'')
  {
    MoreIsLarger(hot', hot'');
    forall id | id in hot'' ensures id in hot || Among(rs + rs', id, hot''[id]) {
      if id in hot' && id !in hot {
        var i :| 0 <= i < |rs| && rs[i].id == id && rs[i] == hot'[id];
        assert (rs + rs')[i] == rs[i];
      } else if id !in hot' {
        var i :| 0 <= i < |rs'| && rs'[i].id == id && rs'[i] == hot''[id];
        assert (rs + rs')[|rs| + i] == rs'[i];
      }
    }
  }

  lemma {:induction false} InPartitionRecords(cold: map<nat, seq<Record>>, order: seq<nat>, r: Record)
    ensures r in PartitionRecords(cold, order) <==> exists p :: p in order && p in cold && r in cold[p]
    decreases |order|
  {
    if order != [] {
      var k := |order| - 1;
      InPartitionRecords(cold, order[..k], r);
      assert order == order[..k] + [order[k]];
    }
  }

  ghost predicate FreshFor(e: Event, acked: map<nat, Record>) {
    e.Insert? ==> e.record.id !in acked
  }

  ghost function AckedAfter(e: Event, acked: map<nat, Record>): map<nat, Record> {
    if e.Insert? && e.ok then acked[e.record.id := e.record] else acked
  }

  /** An insert of a fresh id always succeeds, also when it has to evict first. */
  lemma InsertKeeps(max: nat, t: Tiers, e: Event, t': Tiers, acked: map<nat, Record>)
    requires e.Insert? && Agrees(t, acked) && WithinCapacity(max, t.hot) && Inserts(max, t, e, t') && FreshFor(e, acked)
    ensures e.ok && Agrees(t', AckedAfter(e, acked)) && WithinCapacity(max, t'.hot)
  {
    hide Agrees, CanReturn, HasCold;
    if InsertOutcome(max, t.hot, e.record) == StoreFull {
      var hot :| Evicts(max, t, e, hot, t');
      DrainSize(t.hot, EvictionBatch, e.drained, hot);
      MoveKeeps(t, EvictionBatch, e.drained, hot, e.day, acked);
      TryKeeps(max, Tiers(hot, t'.cold), e.record, acked);
    } else {
      TryKeeps(max, t, e.record, acked);
    }
  }

  lemma StepKeeps(max: nat, t: Tiers, e: Event, t': Tiers, acked: map<nat, Record>)
    requires Agrees(t, acked) && WithinCapacity(max, t.hot) && Step(max, t, e, t') && FreshFor(e, acked)
    ensures Agrees(t', AckedAfter(e, acked)) && WithinCapacity(max, t'.hot)
    ensures e.Insert? ==> e.ok
  {
    hide Agrees, CanReturn, HasCold;
    match e
    case Insert(_, _, _, _) => InsertKeeps(max, t, e, t', acked);
    case Promote(order) => PromotionKeeps(max, t, order, acked);
    case Demote(watermark, drained) =>
      if |t.hot| > watermark {
        DrainSize(t.hot, |t.hot| - watermark, drained, t'.hot);
        MoveKeeps(t, |t.hot| - watermark, drained, t'.hot, DemotionPartition, acked);
      }
  }

  // ---------- whole runs ----------

  /** States ts[0], ..., joined by events es[0], ...; the store starts empty. */
  ghost predicate Run(max: nat, ts: seq<Tiers>, es: seq<Event>) {
    && |ts| == |es| + 1 && ts[0] == Tiers(map[], map[])
    && forall i :: 0 <= i < |es| ==> Step(max, ts[i], es[i], ts[i + 1])
  }

  ghost predicate FreshIds(es: seq<Event>) {
    forall i, j :: 0 <= i < j < |es| && es[i].Insert? && es[j].Insert? ==> es[i].record.id != es[j].record.id
  }

  ghost function Acked(es: seq<Event>): map<nat, Record> {
    if es == [] then map[] else AckedAfter(es[|es| - 1], Acked(es[..|es| - 1]))
  }

  lemma {:induction false} AckedIds(es: seq<Event>)
    ensures forall id :: id in Acked(es) ==> exists i :: 0 <= i < |es| && es[i].Insert? && es[i].record.id == id
  {
    if es != [] {
      var k := |es| - 1;
      AckedIds(es[..k]);
      forall id | id in Acked(es) ensures exists i :: 0 <= i < |es| && es[i].Insert? && es[i].record.id == id {
        if id in Acked(es[..k]) {
          var i :| 0 <= i < k && es[..k][i].Insert? && es[..k][i].record.id == id;
          assert es[i].record.id == id;
        } else {
          assert es[k].record.id == id;
        }
      }
    }
  }

  lemma {:induction false} RunKeeps(max: nat, ts: seq<Tiers>, es: seq<Event>)
    requires Run(max, ts, es) && FreshIds(es)
    ensures Agrees(ts[|es|], Acked(es)) && WithinCapacity(max, ts[|es|].hot)
    ensures forall i :: 0 <= i < |es| && es[i].Insert? ==> es[i].ok
  {
    if es != [] {
      var k := |es| - 1;
      assert forall i :: 0 <= i < k ==> es[..k][i] == es[i];
      assert Run(max, ts[..|es|], es[..k]);
      RunKeeps(max, ts[..|es|], es[..k]);
      AckedIds(es[..k]);
      assert FreshFor(es[k], Acked(es[..k]));
      StepKeeps(max, ts[k], es[k], ts[k + 1], Acked(es[..k]));
    }
  }

  lemma {:induction false} AckedHolds(es: seq<Event>, i: nat)
    requires FreshIds(es) && i < |es| && es[i].Insert? && es[i].ok
    ensures es[i].record.id in Acked(es) && Acked(es)[es[i].record.id] == es[i].record
  {
    var k := |es| - 1;
    assert forall j :: 0 <= j < k ==> es[..k][j] == es[j];
    if i < k {
      AckedHolds(es[..k], i);
    }
  }

  /** Tiering never loses or alters data: every insert of a serial run with fresh ids is acknowledged
      and read back unchanged after any later inserts, evictions, promotions and demotions; an id
      never inserted is never found; and the hot store stays within its limit. */
  lemma NothingLost(max: nat, ts: seq<Tiers>, es: seq<Event>, i: nat, answer: Option<Record>)
    requires Run(max, ts, es) && FreshIds(es) && i < |es| && es[i].Insert?
    ensures es[i].ok && WithinCapacity(max, ts[|es|].hot)
    ensures CanReturn(ts[|es|], es[i].record.id, answer) <==> answer == Some(es[i].record)
  {
    RunKeeps(max, ts, es);
    AckedHolds(es, i);
    ReadsAreExact(ts[|es|], Acked(es), es[i].record.id, answer);
  }

  lemma NothingInvented(max: nat, ts: seq<Tiers>, es: seq<Event>, id: nat, answer: Option<Record>)
    requires Run(max, ts, es) && FreshIds(es)
    requires forall i :: 0 <= i < |es| && es[i].Insert? ==> es[i].record.id != id
    ensures CanReturn(ts[|es|], id, answer) <==> answer == None
  {
    RunKeeps(max, ts, es);
    AckedIds(es);
    ReadsAreExact(ts[|es|], Acked(es), id, answer);
  }

  // ---------- ids that are not fresh ----------

  /** Without freshness: a retry fails exactly on a duplicate that eviction left in place. */
  lemma AcknowledgedIff(max: nat, t: Tiers, e: Event, t': Tiers)
    requires e.Insert? && WithinCapacity(max, t.hot) && Inserts(max, t, e, t')
    ensures e.ok <==> !Full(max, t.hot) || e.record.id !in t.hot || HasId(e.drained, e.record.id)
  {
    if Full(max, t.hot) {
      var hot :| Evicts(max, t, e, hot, t');
      DrainSize(t.hot, EvictionBatch, e.drained, hot);
      IdsOfDrained(e.drained, e.record.id);
    }
  }

  /** An acknowledged insert is what the next read answers unless a first attempt met another record
      under its id. */
  lemma ReadBackIff(max: nat, t: Tiers, e: Event, t': Tiers)
    requires e.Insert? && e.ok && Inserts(max, t, e, t')
    ensures (forall answer :: CanReturn(t', e.record.id, answer) <==> answer == Some(e.record)) <==>
            (Full(max, t.hot) || e.record.id !in t.hot || t.hot[e.record.id] == e.record)
  {
    var id := e.record.id;
    if Full(max, t.hot) {
      var hot :| Evicts(max, t, e, hot, t');
      assert t'.hot[id] == e.record;
    } else if id in t.hot {
      assert t'.hot == t.hot;
      assert CanReturn(t', id, Some(t.hot[id]));
    } else {
      assert t'.hot[id] == e.record;
    }
  }
}
