/** The stores that hold the two tiers, and the engine operations that move records between them. */
module TierStores {
  import opened Options
  import opened Tiering
  import opened TierDrains
  import opened Sorting
  import Seqs

  class HotStore {
    const maxRecords: nat
    var vectors: map<nat, Record>

    constructor (maxRecords: nat)
      ensures vectors == map[] && this.maxRecords == maxRecords
    {
      this.maxRecords := maxRecords;
      vectors := map[];
    }

    method Insert(record: Record) returns (outcome: Outcome)
      requires Keyed(vectors)
      modifies this
      ensures Keyed(vectors)
      ensures outcome == InsertOutcome(maxRecords, old(vectors), record)
      ensures vectors == HotAfter(maxRecords, old(vectors), record)
      ensures outcome == StoreFull <==> maxRecords > 0 && |old(vectors)| >= maxRecords
      ensures outcome == AlreadyExists <==> outcome != StoreFull && record.id in old(vectors)
      ensures vectors == if outcome == Stored then old(vectors)[record.id := record] else old(vectors)
    {
      if maxRecords > 0 {
        if |vectors| >= maxRecords {
          return StoreFull;
        }
      }
      if record.id in vectors {
        return AlreadyExists;
      }
      vectors := vectors[record.id := record];
      return Stored;
    }

    /** Inserts each record, ignoring the outcome. */
    method InsertAll(records: seq<Record>)
      requires Keyed(vectors)
      modifies this
      ensures Keyed(vectors) && vectors == PromoteRecords(maxRecords, old(vectors), records)
    {
      hide Keyed, HotAfter;
      var j := 0;
      while j < |records|
        invariant 0 <= j <= |records| && Keyed(vectors)
        invariant vectors == PromoteRecords(maxRecords, old(vectors), records[..j])
      {
        var _ := Insert(records[j]);
        assert records[..j + 1][..j] == records[..j];
        j := j + 1;
      }
      assert records[..j] == records;
    }

    /** Map iteration comes in any order. */
    method Iterate() returns (records: seq<Record>)
      requires Keyed(vectors)
      ensures |records| == |vectors| && Lists(vectors, records)
    {
      records := [];
      var left := vectors.Keys;
      while left != {}
        invariant left <= vectors.Keys && |records| + |left| == |vectors|
        invariant DistinctIds(records)
        invariant forall i :: 0 <= i < |records| ==>
                    records[i].id in vectors && vectors[records[i].id] == records[i] && records[i].id !in left
      {
        var id :| id in left;
        records := records + [vectors[id]];
        left := left - {id};
      }
    }

    method DrainLeastAccessed(maxCount: nat) returns (drained: seq<Record>)
      requires Keyed(vectors)
      modifies this
      ensures Keyed(vectors) && Drains(old(vectors), maxCount, drained, vectors)
    {
      hide Drains, Lists, SortedBy, Ids, SortBy, Keyed;
      var entries := Iterate();
      if entries == [] {
        EmptyDrain(vectors, maxCount);
        return [];
      }
      ghost var all, before := entries, vectors;
      entries := SortBy(AccessKey, entries);
      ghost var sorted := entries;
      SortedEntries(before, all, sorted);
      if maxCount < |entries| {
        entries := entries[..maxCount];
      }
      LeastAreFirst(before, sorted, maxCount, entries);
      drained := [];
      var i := 0;
      NothingRemoved(before);
      while i < |entries|
        invariant 0 <= i <= |entries| && drained == entries[..i]
        invariant vectors == before - Ids(entries[..i])
      {
        RemoveNext(before, entries, i);
        if entries[i].id in vectors {
          drained := drained + [vectors[entries[i].id]];
          vectors := vectors - {entries[i].id};
        }
        i := i + 1;
      }
      assert entries[..i] == entries;
      KeyedWithout(before, Ids(entries));
    }
  }

  /** A drain takes as many as asked, or all, and leaves the rest as it is. */
  lemma DrainParts(hot: map<nat, Record>, k: nat, drained: seq<Record>, hot': map<nat, Record>)
    requires Drains(hot, k, drained, hot')
    ensures |drained| == if k < |hot| then k else |hot|
    ensures |hot'| == |hot| - |drained|
    ensures forall id :: id in hot' ==> id in hot && hot'[id] == hot[id]
  {
    DrainSize(hot, k, drained, hot');
  }

  lemma EmptyDrain(hot: map<nat, Record>, k: nat)
    requires |hot| == 0
    ensures Drains(hot, k, [], hot)
  {
    assert Ids([]) == {};
  }

  lemma NothingRemoved(hot: map<nat, Record>)
    ensures hot - Ids([]) == hot
  {
    assert Ids([]) == {};
  }

  lemma KeyedWithout(hot: map<nat, Record>, ids: set<nat>)
    requires Keyed(hot)
    ensures Keyed(hot - ids)
  {
  }

  lemma RemoveNext(hot: map<nat, Record>, rs: seq<Record>, i: nat)
    requires Lists(hot, rs) && i < |rs|
    ensures rs[..i + 1] == rs[..i] + [rs[i]]
    ensures rs[i].id in hot - Ids(rs[..i]) && (hot - Ids(rs[..i]))[rs[i].id] == rs[i]
    ensures hot - Ids(rs[..i + 1]) == (hot - Ids(rs[..i])) - {rs[i].id}
  {
    Seqs.TakeSnoc(rs, i);
    forall id ensures id in Ids(rs[..i + 1]) <==> id in Ids(rs[..i]) || id == rs[i].id {
      IdsOfDrained(rs[..i + 1], id);
      IdsOfDrained(rs[..i], id);
      HasIdSplit(rs[..i], [rs[i]], id);
      assert HasId([rs[i]], id) <==> [rs[i]][0].id == id;
    }
    assert rs[i].id !in Ids(rs[..i]);
  }

  // ---------- the cold store ----------

  /** A batch file: its partition directory and its number, from 1. */
  datatype BatchFile = BatchFile(partition: nat, number: nat)

  datatype PartitionMeta = PartitionMeta(recordCount: nat, batchCount: nat)

  function Batch(files: map<BatchFile, seq<Record>>, p: nat, n: nat): seq<Record> {
    if BatchFile(p, n) in files then files[BatchFile(p, n)] else []
  }

  /** Batches 1 to n of a partition, concatenated. */
  ghost function UpTo(files: map<BatchFile, seq<Record>>, p: nat, n: nat): seq<Record> {
    if n == 0 then [] else UpTo(files, p, n - 1) + Batch(files, p, n)
  }

  lemma {:induction false} OtherFilesUnchanged(files: map<BatchFile, seq<Record>>, f: BatchFile, batch: seq<Record>,
                                               p: nat, n: nat)
    requires p != f.partition || n < f.number
    ensures UpTo(files[f := batch], p, n) == UpTo(files, p, n)
  {
    if n > 0 {
      OtherFilesUnchanged(files, f, batch, p, n - 1);
    }
  }

  ghost predicate FilesMatch(files: map<BatchFile, seq<Record>>, writers: map<nat, PartitionMeta>) {
    forall p: nat, n: nat :: BatchFile(p, n) in files <==> p in writers && 1 <= n <= writers[p].batchCount
  }

  ghost function ContentsOf(files: map<BatchFile, seq<Record>>,
                            writers: map<nat, PartitionMeta>): map<nat, seq<Record>> {
    map p | p in writers :: UpTo(files, p, writers[p].batchCount)
  }

  ghost predicate CountsMatch(files: map<BatchFile, seq<Record>>, writers: map<nat, PartitionMeta>) {
    forall p :: p in writers ==> writers[p].recordCount == |UpTo(files, p, writers[p].batchCount)|
  }

  function MetaOf(writers: map<nat, PartitionMeta>, p: nat): PartitionMeta {
    if p in writers then writers[p] else PartitionMeta(0, 0)
  }

  lemma FileAdded(files: map<BatchFile, seq<Record>>, writers: map<nat, PartitionMeta>, p: nat, batch: seq<Record>,
                  count: nat)
    requires FilesMatch(files, writers)
    ensures var n := MetaOf(writers, p).batchCount + 1;
            FilesMatch(files[BatchFile(p, n) := batch], writers[p := PartitionMeta(count, n)])
  {
  }

  lemma BatchAdded(files: map<BatchFile, seq<Record>>, writers: map<nat, PartitionMeta>, p: nat, batch: seq<Record>)
    requires FilesMatch(files, writers) && CountsMatch(files, writers) && batch != []
    ensures var meta := MetaOf(writers, p);
            var files' := files[BatchFile(p, meta.batchCount + 1) := batch];
            var writers' := writers[p := PartitionMeta(meta.recordCount + |batch|, meta.batchCount + 1)];
            && FilesMatch(files', writers') && CountsMatch(files', writers')
            && ContentsOf(files', writers') == Append(ContentsOf(files, writers), p, batch)
  {
    hide FilesMatch, UpTo;
    var meta := MetaOf(writers, p);
    var n := meta.batchCount + 1;
    var f := BatchFile(p, n);
    var files' := files[f := batch];
    var writers' := writers[p := PartitionMeta(meta.recordCount + |batch|, n)];
    FileAdded(files, writers, p, batch, meta.recordCount + |batch|);
    forall q | q in writers && q != p
      ensures UpTo(files', q, writers[q].batchCount) == UpTo(files, q, writers[q].batchCount)
    {
      OtherFilesUnchanged(files, f, batch, q, writers[q].batchCount);
    }
    NewBatchLast(files, p, n, batch);
    if p !in writers {
      NoBatches(files, p);
    }
  }

  lemma NoBatches(files: map<BatchFile, seq<Record>>, p: nat)
    ensures UpTo(files, p, 0) == []
  {
  }

  lemma NewBatchLast(files: map<BatchFile, seq<Record>>, p: nat, n: nat, batch: seq<Record>)
    requires n >= 1
    ensures UpTo(files[BatchFile(p, n) := batch], p, n) == UpTo(files, p, n - 1) + batch
  {
    OtherFilesUnchanged(files, BatchFile(p, n), batch, p, n - 1);
  }

  class ColdStore {
    var files: map<BatchFile, seq<Record>>
    var writers: map<nat, PartitionMeta>

    ghost predicate Valid()
      reads this
    {
      FilesMatch(files, writers) && CountsMatch(files, writers)
    }

    ghost function Contents(): map<nat, seq<Record>>
      reads this
    {
      ContentsOf(files, writers)
    }

    constructor ()
      ensures Valid() && Contents() == map[]
    {
      files, writers := map[], map[];
    }

    /** Batch numbers continue from the metadata, so no earlier batch is overwritten. */
    method WriteBatch(partition: nat, records: seq<Record>)
      requires Valid()
      modifies this
      ensures Valid() && Contents() == Append(old(Contents()), partition, records)
      ensures records == [] ==> Contents() == old(Contents())
      ensures records != [] ==>
                Contents() == old(Contents())[partition :=
                  (if partition in old(Contents()) then old(Contents())[partition] else []) + records]
    {
      hide FilesMatch, CountsMatch, ContentsOf;
      if records == [] {
        return;
      }
      BatchAdded(files, writers, partition, records);
      var batchNum := if partition in writers then writers[partition].batchCount + 1 else 1;
      files := files[BatchFile(partition, batchNum) := records];
      var meta := MetaOf(writers, partition);
      writers := writers[partition := PartitionMeta(meta.recordCount + |records|, batchNum)];
    }

    /** Reads batch 1, 2, ... until one is missing. */
    method ReadPartition(partition: nat) returns (all: seq<Record>)
      requires Valid()
      ensures all == if partition in Contents() then Contents()[partition] else []
    {
      all := [];
      var batchNum := 1;
      ghost var last := MetaOf(writers, partition).batchCount;
      while BatchFile(partition, batchNum) in files
        invariant 1 <= batchNum <= last + 1
        invariant all == UpTo(files, partition, batchNum - 1)
        decreases last + 1 - batchNum
      {
        all := all + files[BatchFile(partition, batchNum)];
        batchNum := batchNum + 1;
      }
      assert partition in writers ==> batchNum - 1 == last;
    }

    /** The known partitions, in any order. */
    method Partitions() returns (order: seq<nat>)
      ensures Distinct(order) && forall p :: p in order <==> p in writers
    {
      order := [];
      var left := writers.Keys;
      while left != {}
        invariant left <= writers.Keys && Distinct(order)
        invariant forall p :: p in writers.Keys <==> p in left || p in order
        invariant forall p :: p in order ==> p !in left
      {
        var p :| p in left;
        order := order + [p];
        left := left - {p};
      }
    }
  }

  // ---------- the engine ----------

  method FindById(records: seq<Record>, id: nat) returns (found: Option<Record>)
    ensures match found
      case Some(r) => r.id == id && FirstWithId(records, r)
      case None => !HasId(records, id)
  {
    for i := 0 to |records|
      invariant forall j :: 0 <= j < i ==> records[j].id != id
    {
      if records[i].id == id {
        return Some(records[i]);
      }
    }
    return None;
  }

  class StorageEngine {
    const hot: HotStore
    const cold: ColdStore

    ghost predicate Valid()
      reads this, hot, cold
    {
      Keyed(hot.vectors) && cold.Valid()
    }

    ghost function View(): Tiers
      reads this, hot, cold
    {
      Tiers(hot.vectors, cold.Contents())
    }

    constructor (maxRecords: nat)
      ensures Valid() && fresh(hot) && fresh(cold) && View() == Tiers(map[], map[]) && hot.maxRecords == maxRecords
    {
      hot := new HotStore(maxRecords);
      cold := new ColdStore();
    }

    /** `day` is the clock's day number. */
    method Insert(record: Record, day: nat) returns (ok: bool, ghost drained: seq<Record>)
      requires Valid()
      modifies hot, cold
      ensures Valid() && Step(hot.maxRecords, old(View()), Event.Insert(record, day, drained, ok), View())
      ensures var full := hot.maxRecords > 0 && |old(hot.vectors)| >= hot.maxRecords;
              && |drained| == (if !full then 0 else if |old(hot.vectors)| < 100 then |old(hot.vectors)| else 100)
              && cold.Contents() == (if drained == [] then old(cold.Contents()) else old(cold.Contents())[day :=
                   (if day in old(cold.Contents()) then old(cold.Contents())[day] else []) + drained])
              && (forall id :: id in hot.vectors && id != record.id ==>
                    id in old(hot.vectors) && hot.vectors[id] == old(hot.vectors)[id])
              && (!full ==> ok && forall id :: id in old(hot.vectors) ==>
                    id in hot.vectors && hot.vectors[id] == old(hot.vectors)[id])
    {
      hide Drains, ContentsOf, FilesMatch, CountsMatch, Keyed;
      ghost var before := View();
      drained := [];
      var first := hot.Insert(record);
      if first == StoreFull {
        var evicted := hot.DrainLeastAccessed(EvictionBatch);
        drained := evicted;
        ghost var between := hot.vectors;
        DrainParts(before.hot, EvictionBatch, evicted, between);
        if evicted != [] {
          cold.WriteBatch(day, evicted);
        }
        var again := hot.Insert(record);
        ok := again == Stored;
        assert Evicts(hot.maxRecords, before, Event.Insert(record, day, drained, ok), between, View());
      } else {
        ok := true;
      }
    }

    method Get(id: nat) returns (answer: Option<Record>)
      requires Valid()
      ensures CanReturn(View(), id, answer)
      ensures id in hot.vectors ==> answer == Some(hot.vectors[id])
      ensures id !in hot.vectors ==>
                (answer.None? <==> forall p, r :: p in cold.Contents() && r in cold.Contents()[p] ==> r.id != id)
      ensures id !in hot.vectors && answer.Some? ==>
                answer.value.id == id && exists p :: p in cold.Contents() && answer.value in cold.Contents()[p]
    {
      if id in hot.vectors {
        return Some(hot.vectors[id]);
      }
      var order := cold.Partitions();
      for i := 0 to |order|
        invariant forall j :: 0 <= j < i ==> !HasId(Records(cold.Contents(), order[j]), id)
      {
        assert order[i] in order;
        var records := cold.ReadPartition(order[i]);
        var found := FindById(records, id);
        if found.Some? {
          assert order[i] in View().cold && FirstWithId(View().cold[order[i]], found.value);
          return found;
        }
      }
      answer := None;
      forall p | p in View().cold ensures !HasId(View().cold[p], id) {
        assert p in order;
      }
    }

    /** Copies every cold record into the hot store, ignoring full and duplicate errors. */
    method RunPromotion() returns (order: seq<nat>)
      requires Valid()
      modifies hot
      ensures Valid() && Step(hot.maxRecords, old(View()), Promote(order), View())
      ensures Distinct(order) && forall p :: p in order <==> p in old(View()).cold
      ensures cold.Contents() == old(cold.Contents())
      ensures forall id :: id in old(hot.vectors) ==> id in hot.vectors && hot.vectors[id] == old(hot.vectors)[id]
      ensures forall id :: id in hot.vectors && id !in old(hot.vectors) ==>
                hot.vectors[id].id == id && exists p :: p in cold.Contents() && hot.vectors[id] in cold.Contents()[p]
      ensures hot.maxRecords == 0 || |hot.vectors| < hot.maxRecords ==>
                forall p, r :: p in cold.Contents() && r in cold.Contents()[p] ==> r.id in hot.vectors
    {
      hide ContentsOf, FilesMatch, CountsMatch, Keyed, PromotePartitions, PromoteRecords;
      ghost var before := View();
      order := cold.Partitions();
      NothingPromoted(hot.maxRecords, before);
      PartitionsKnown(cold.files, cold.writers);
      var i := 0;
      while i < |order|
        invariant 0 <= i <= |order| && Valid()
                  && View() == Tiers(PromotePartitions(hot.maxRecords, before, order[..i]), before.cold)
      {
        var records := cold.ReadPartition(order[i]);
        hot.InsertAll(records);
        PromotedNext(hot.maxRecords, before, order, i);
        i := i + 1;
      }
      assert order[..i] == order;
      PromotionCopies(hot.maxRecords, before, order);
    }

    method RunDemotion(watermark: nat) returns (drained: seq<Record>)
      requires Valid()
      modifies hot, cold
      ensures Valid() && Step(hot.maxRecords, old(View()), Demote(watermark, drained), View())
      ensures |drained| == if |old(hot.vectors)| > watermark then |old(hot.vectors)| - watermark else 0
      ensures cold.Contents() == (if drained == [] then old(cold.Contents()) else old(cold.Contents())[0 :=
                (if 0 in old(cold.Contents()) then old(cold.Contents())[0] else []) + drained])
      ensures |hot.vectors| == |old(hot.vectors)| - |drained|
      ensures forall id :: id in hot.vectors ==> id in old(hot.vectors) && hot.vectors[id] == old(hot.vectors)[id]
    {
      hide Drains, ContentsOf, FilesMatch, CountsMatch, Keyed;
      var hotLen := |hot.vectors|;
      if hotLen <= watermark {
        return [];
      }
      ghost var before := hot.vectors;
      drained := hot.DrainLeastAccessed(hotLen - watermark);
      DrainParts(before, hotLen - watermark, drained, hot.vectors);
      if drained != [] {
        cold.WriteBatch(DemotionPartition, drained);
      }
    }
  }

  lemma NothingPromoted(max: nat, t: Tiers)
    ensures PromotePartitions(max, t, []) == t.hot
  {
  }

  lemma PromotedNext(max: nat, t: Tiers, order: seq<nat>, i: nat)
    requires i < |order|
    ensures PromotePartitions(max, t, order[..i + 1]) ==
            PromoteRecords(max, PromotePartitions(max, t, order[..i]), Records(t.cold, order[i]))
  {
    assert order[..i + 1][..i] == order[..i];
  }

  /** What a promotion over all partitions copies. */
  lemma PromotionCopies(max: nat, t: Tiers, order: seq<nat>)
    requires forall p :: p in order <==> p in t.cold
    ensures var hot := PromotePartitions(max, t, order);
            && (forall id :: id in t.hot ==> id in hot && hot[id] == t.hot[id])
            && (forall id :: id in hot && id !in t.hot ==>
                  hot[id].id == id && exists p :: p in t.cold && hot[id] in t.cold[p])
            && (max == 0 || |hot| < max ==> forall p, r :: p in t.cold && r in t.cold[p] ==> r.id in hot)
  {
    var hot, rs := PromotePartitions(max, t, order), PartitionRecords(t.cold, order);
    PartitionsPromoted(max, t, order);
    hide PromotePartitions, PartitionRecords;
    forall id | id in hot && id !in t.hot
      ensures hot[id].id == id && exists p :: p in t.cold && hot[id] in t.cold[p]
    {
      assert Among(rs, id, hot[id]);
      InPartitionRecords(t.cold, order, hot[id]);
    }
    if max == 0 || |hot| < max {
      forall p, r | p in t.cold && r in t.cold[p] ensures r.id in hot {
        InPartitionRecords(t.cold, order, r);
        var i :| 0 <= i < |rs| && rs[i] == r;
      }
    }
  }

  lemma PartitionsKnown(files: map<BatchFile, seq<Record>>, writers: map<nat, PartitionMeta>)
    ensures forall p :: p in ContentsOf(files, writers) <==> p in writers
  {
  }
}
