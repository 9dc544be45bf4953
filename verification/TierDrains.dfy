/** Which records a drain can take. The order of equally accessed records is arbitrary, so the question
    is answered by counting: on the state before the call, for all drains that are possible. */
module TierDrains {
  import opened Options
  import opened Tiering
  import opened Sorting

  function AccessKey(r: Record): real {
    r.accessCount as real
  }

  ghost predicate Keyed(hot: map<nat, Record>) {
    forall id :: id in hot ==> hot[id].id == id
  }

  ghost predicate Lists(hot: map<nat, Record>, rs: seq<Record>) {
    DistinctIds(rs) && forall i :: 0 <= i < |rs| ==> rs[i].id in hot && hot[rs[i].id] == rs[i]
  }

  lemma SortedEntries(hot: map<nat, Record>, all: seq<Record>, sorted: seq<Record>)
    requires Lists(hot, all) && sorted == SortBy(AccessKey, all)
    ensures Lists(hot, sorted) && SortedBy(AccessKey, sorted)
  {
    SortBySorted(AccessKey, all);
    SameElements(AccessKey, all);
    assert Distinct(all);
    SortKeepsDistinct(AccessKey, all);
    forall i | 0 <= i < |sorted| ensures sorted[i].id in hot && hot[sorted[i].id] == sorted[i] {
      assert sorted[i] in all;
    }
  }

  lemma LeastAreFirst(hot: map<nat, Record>, sorted: seq<Record>, k: nat, drained: seq<Record>)
    requires Lists(hot, sorted) && SortedBy(AccessKey, sorted) && |sorted| == |hot|
    requires drained == if k < |sorted| then sorted[..k] else sorted
    ensures Drains(hot, k, drained, hot - Ids(drained)) && Lists(hot, drained)
  {
    DistinctCount(sorted);
    AllIds(hot, sorted);
    var hot' := hot - Ids(drained);
    forall i, id | 0 <= i < |drained| && id in hot' ensures drained[i].accessCount <= hot'[id].accessCount {
      LeftLater(hot, sorted, k, drained, i, id);
    }
    forall i, j | 0 <= i < j < |drained| ensures drained[i].accessCount <= drained[j].accessCount {
      assert AccessKey(sorted[i]) <= AccessKey(sorted[j]);
    }
  }

  lemma LeftLater(hot: map<nat, Record>, sorted: seq<Record>, k: nat, drained: seq<Record>, i: nat, id: nat)
    requires Lists(hot, sorted) && SortedBy(AccessKey, sorted) && Ids(sorted) == hot.Keys
    requires drained == if k < |sorted| then sorted[..k] else sorted
    requires i < |drained| && id in hot && id !in Ids(drained)
    ensures drained[i].accessCount <= hot[id].accessCount
  {
    IdsOfDrained(sorted, id);
    var j :| 0 <= j < |sorted| && sorted[j].id == id;
    assert forall m :: 0 <= m < |drained| ==> drained[m].id in Ids(drained);
    assert j >= |drained|;
    assert AccessKey(sorted[i]) <= AccessKey(sorted[j]);
  }

  lemma AllIds(hot: map<nat, Record>, sorted: seq<Record>)
    requires Lists(hot, sorted) && |Ids(sorted)| == |hot|
    ensures Ids(sorted) == hot.Keys
  {
    assert Ids(sorted) <= hot.Keys;
    if Ids(sorted) != hot.Keys {
      var id :| id in hot.Keys && id !in Ids(sorted);
      assert Ids(sorted) <= hot.Keys - {id};
      SubsetSize(Ids(sorted), hot.Keys - {id});
    }
  }

  lemma {:induction false} SubsetSize(a: set<nat>, b: set<nat>)
    requires a <= b
    ensures |a| <= |b|
  {
    if a != {} {
      var x :| x in a;
      SubsetSize(a - {x}, b - {x});
    }
  }

  // ---------- every order of ties is possible ----------

  /** Inserted in front of its ties. */
  lemma {:induction false} InsertedFirst(x: Record, s: seq<Record>) returns (i: nat)
    ensures i < |InsertBy(AccessKey, x, s)| && InsertBy(AccessKey, x, s)[i] == x
    ensures forall j :: 0 <= j < i ==> AccessKey(InsertBy(AccessKey, x, s)[j]) < AccessKey(x)
  {
    if s == [] || AccessKey(x) <= AccessKey(s[0]) {
      i := 0;
    } else {
      var k := InsertedFirst(x, s[1..]);
      i := k + 1;
    }
  }

  /** A record behind its ties stays behind them when another is inserted. */
  lemma {:induction false} StaysLast(x: Record, s: seq<Record>, i: nat) returns (k: nat)
    requires i < |s| && forall j :: i < j < |s| ==> AccessKey(s[j]) > AccessKey(s[i])
    ensures k < |InsertBy(AccessKey, x, s)| && InsertBy(AccessKey, x, s)[k] == s[i]
    ensures forall j :: k < j < |s| + 1 ==> AccessKey(InsertBy(AccessKey, x, s)[j]) > AccessKey(s[i])
  {
    if AccessKey(x) <= AccessKey(s[0]) {
      k := i + 1;
    } else if i == 0 {
      k := 0;
      InsertElements(AccessKey, x, s[1..]);
      var r := InsertBy(AccessKey, x, s[1..]);
      forall j | 0 <= j < |r| ensures AccessKey(r[j]) > AccessKey(s[0]) {
        assert r[j] in r;
      }
    } else {
      var m := StaysLast(x, s[1..], i - 1);
      k := m + 1;
    }
  }

  lemma {:induction false} SortedLast(s: seq<Record>, r: Record) returns (i: nat)
    ensures i < |SortBy(AccessKey, s + [r])| && SortBy(AccessKey, s + [r])[i] == r
    ensures forall j :: i < j < |s| + 1 ==> AccessKey(SortBy(AccessKey, s + [r])[j]) > AccessKey(r)
  {
    if s == [] {
      i := 0;
      assert s + [r] == [r] && SortBy(AccessKey, [r][1..]) == [];
    } else {
      assert (s + [r])[1..] == s[1..] + [r];
      var k := SortedLast(s[1..], r);
      i := StaysLast(s[0], SortBy(AccessKey, s[1..] + [r]), k);
    }
  }

  /** All records of a map, in some order. */
  lemma {:induction false} AllRecords(hot: map<nat, Record>) returns (rs: seq<Record>)
    requires Keyed(hot)
    ensures Lists(hot, rs) && |rs| == |hot|
    decreases |hot|
  {
    if hot == map[] {
      rs := [];
    } else {
      var id :| id in hot;
      var rest := AllRecords(hot - {id});
      assert (hot - {id}).Keys == hot.Keys - {id};
      rs := [hot[id]] + rest;
    }
  }

  lemma {:induction false} OthersListed(hot: map<nat, Record>, id: nat) returns (rs: seq<Record>)
    requires Keyed(hot) && id in hot
    ensures Lists(hot, [hot[id]] + rs) && Lists(hot, rs + [hot[id]]) && |rs| + 1 == |hot|
  {
    rs := AllRecords(hot - {id});
    assert (hot - {id}).Keys == hot.Keys - {id};
  }

  // ---------- which records may go, which may stay ----------

  /** Other records accessed no more often. */
  ghost function Rivals(hot: map<nat, Record>, id: nat): set<nat>
    requires id in hot
  {
    set o | o in hot && o != id && hot[o].accessCount <= hot[id].accessCount
  }

  /** Records accessed less often. */
  ghost function LessUsed(hot: map<nat, Record>, id: nat): set<nat>
    requires id in hot
  {
    set o | o in hot && hot[o].accessCount < hot[id].accessCount
  }

  ghost predicate CanStay(hot: map<nat, Record>, k: nat, id: nat) {
    exists drained, hot' :: Drains(hot, k, drained, hot') && !HasId(drained, id)
  }

  ghost predicate CanGo(hot: map<nat, Record>, k: nat, id: nat) {
    exists drained, hot' :: Drains(hot, k, drained, hot') && HasId(drained, id)
  }

  lemma StayedHasRivals(hot: map<nat, Record>, k: nat, id: nat, drained: seq<Record>, hot': map<nat, Record>)
    requires id in hot && Drains(hot, k, drained, hot') && !HasId(drained, id)
    ensures |Rivals(hot, id)| >= k
  {
    IdsOfDrained(drained, id);
    DistinctCount(drained);
    assert id in hot';
    forall o | o in Ids(drained) ensures o in Rivals(hot, id) {
      var i :| 0 <= i < |drained| && drained[i].id == o;
      assert drained[i].accessCount <= hot'[id].accessCount;
      assert !(drained[i].id == id);
    }
    SubsetSize(Ids(drained), Rivals(hot, id));
    assert Ids(drained) <= hot.Keys - {id};
    SubsetSize(Ids(drained), hot.Keys - {id});
  }

  lemma WentAmongFew(hot: map<nat, Record>, k: nat, id: nat, drained: seq<Record>, hot': map<nat, Record>)
    requires id in hot && Drains(hot, k, drained, hot') && HasId(drained, id)
    ensures |LessUsed(hot, id)| < k
  {
    var i :| 0 <= i < |drained| && drained[i].id == id;
    DistinctCount(drained);
    forall o | o in LessUsed(hot, id) ensures o in Ids(drained) - {id} {
      assert o !in hot';
    }
    IdsOfDrained(drained, id);
    SubsetSize(LessUsed(hot, id), Ids(drained) - {id});
  }

  /** The first k of a sorted list. */
  function Least(sorted: seq<Record>, k: nat): seq<Record> {
    if k < |sorted| then sorted[..k] else sorted
  }

  lemma EnoughRivalsStay(hot: map<nat, Record>, k: nat, id: nat)
    requires Keyed(hot) && id in hot && |Rivals(hot, id)| >= k
    ensures CanStay(hot, k, id)
  {
    hide SortBy, Drains, Rivals, HasId, SortedBy;
    var r := hot[id];
    var rs := OthersListed(hot, id);
    var sorted := SortBy(AccessKey, rs + [r]);
    SortedEntries(hot, rs + [r], sorted);
    var i := SortedLast(rs, r);
    DistinctCount(sorted);
    AllIds(hot, sorted);
    RivalsBefore(hot, id, sorted, i);
    var drained := Least(sorted, k);
    LeastAreFirst(hot, sorted, k, drained);
    NotAmongFirst(sorted, k, i);
  }

  lemma NotAmongFirst(sorted: seq<Record>, k: nat, i: nat)
    requires DistinctIds(sorted) && k <= i < |sorted|
    ensures !HasId(Least(sorted, k), sorted[i].id)
  {
    forall j | 0 <= j < k ensures sorted[..k][j].id != sorted[i].id {
      assert sorted[..k][j] == sorted[j];
    }
  }

  lemma RivalsBefore(hot: map<nat, Record>, id: nat, sorted: seq<Record>, i: nat)
    requires Keyed(hot) && id in hot && Lists(hot, sorted) && Ids(sorted) == hot.Keys && i < |sorted|
             && sorted[i] == hot[id]
    requires forall j :: i < j < |sorted| ==> AccessKey(sorted[j]) > AccessKey(hot[id])
    ensures |Rivals(hot, id)| <= i
  {
    forall o | o in Rivals(hot, id) ensures o in Ids(sorted[..i]) {
      assert o in Ids(sorted);
      var j :| 0 <= j < |sorted| && sorted[j].id == o;
      assert j < i;
      assert sorted[..i][j].id == o;
    }
    SubsetSize(Rivals(hot, id), Ids(sorted[..i]));
    DistinctCount(sorted[..i]);
  }

  lemma FewLessUsedGo(hot: map<nat, Record>, k: nat, id: nat)
    requires Keyed(hot) && id in hot && |LessUsed(hot, id)| < k
    ensures CanGo(hot, k, id)
  {
    var r := hot[id];
    var rs := OthersListed(hot, id);
    var sorted := SortBy(AccessKey, [r] + rs);
    SortedEntries(hot, [r] + rs, sorted);
    assert ([r] + rs)[1..] == rs;
    var i := InsertedFirst(r, SortBy(AccessKey, rs));
    LessUsedBefore(hot, id, sorted, i);
    var drained := Least(sorted, k);
    LeastAreFirst(hot, sorted, k, drained);
    assert drained[i].id == id;
    assert HasId(drained, id);
  }

  lemma LessUsedBefore(hot: map<nat, Record>, id: nat, sorted: seq<Record>, i: nat)
    requires id in hot && Lists(hot, sorted) && i < |sorted|
    requires forall j :: 0 <= j < i ==> AccessKey(sorted[j]) < AccessKey(hot[id])
    ensures i <= |LessUsed(hot, id)|
  {
    forall o | o in Ids(sorted[..i]) ensures o in LessUsed(hot, id) {
      var j :| 0 <= j < i && sorted[..i][j].id == o;
    }
    DistinctCount(sorted[..i]);
    SubsetSize(Ids(sorted[..i]), LessUsed(hot, id));
  }

  lemma CanStayIff(hot: map<nat, Record>, k: nat, id: nat)
    requires Keyed(hot) && id in hot
    ensures CanStay(hot, k, id) <==> |Rivals(hot, id)| >= k
  {
    if CanStay(hot, k, id) {
      var drained: seq<Record>, hot' :| Drains(hot, k, drained, hot') && !HasId(drained, id);
      StayedHasRivals(hot, k, id, drained, hot');
    }
    if |Rivals(hot, id)| >= k {
      EnoughRivalsStay(hot, k, id);
    }
  }

  lemma CanGoIff(hot: map<nat, Record>, k: nat, id: nat)
    requires Keyed(hot) && id in hot
    ensures CanGo(hot, k, id) <==> |LessUsed(hot, id)| < k
  {
    if CanGo(hot, k, id) {
      var drained: seq<Record>, hot' :| Drains(hot, k, drained, hot') && HasId(drained, id);
      WentAmongFew(hot, k, id, drained, hot');
    }
    if |LessUsed(hot, id)| < k {
      FewLessUsedGo(hot, k, id);
    }
  }

  // ---------- what that means for inserts ----------

  ghost predicate InsertsOf(max: nat, t: Tiers, r: Record, e: Event, t': Tiers) {
    e.Insert? && e.record == r && Inserts(max, t, e, t')
  }

  /** An insert is sure to be acknowledged exactly when the store is not full, the id is not in it, or
      too few other records are accessed as rarely for the old record to survive the eviction. */
  lemma SurelyAcknowledgedIff(max: nat, t: Tiers, r: Record)
    requires WithinCapacity(max, t.hot) && Keyed(t.hot)
    ensures (forall e, t' :: InsertsOf(max, t, r, e, t') ==> e.ok) <==>
            (!Full(max, t.hot) || r.id !in t.hot || |Rivals(t.hot, r.id)| < EvictionBatch)
  {
    hide Drains, WithinCapacity;
    if Full(max, t.hot) && r.id in t.hot {
      CanStayIff(t.hot, EvictionBatch, r.id);
      if CanStay(t.hot, EvictionBatch, r.id) {
        var drained: seq<Record>, hot' :| Drains(t.hot, EvictionBatch, drained, hot') && !HasId(drained, r.id);
        var e, t' := FailingInsert(max, t, r, drained, hot');
        assert InsertsOf(max, t, r, e, t') && !e.ok;
      }
    }
    forall e, t' | InsertsOf(max, t, r, e, t') && !e.ok
      ensures Full(max, t.hot) && r.id in t.hot && CanStay(t.hot, EvictionBatch, r.id)
    {
      AcknowledgedIff(max, t, e, t');
      var hot :| Evicts(max, t, e, hot, t');
      assert Drains(t.hot, EvictionBatch, e.drained, hot);
    }
  }

  lemma FailingInsert(max: nat, t: Tiers, r: Record, drained: seq<Record>, hot': map<nat, Record>)
    returns (e: Event, t': Tiers)
    requires WithinCapacity(max, t.hot) && Full(max, t.hot) && r.id in t.hot
    requires Drains(t.hot, EvictionBatch, drained, hot') && !HasId(drained, r.id)
    ensures InsertsOf(max, t, r, e, t') && !e.ok
  {
    var ok := InsertOutcome(max, hot', r) == Stored;
    e := Insert(r, 0, drained, ok);
    t' := Tiers(HotAfter(max, hot', r), Append(t.cold, 0, drained));
    assert Evicts(max, t, e, hot', t');
    AcknowledgedIff(max, t, e, t');
  }

  /** A cold write that fails after a drain is sure to lose nothing exactly when every record that the
      drain may take already has a cold copy. */
  lemma FailedWriteSafeIff(t: Tiers, k: nat, acked: map<nat, Record>)
    requires Agrees(t, acked)
    ensures (forall drained, hot' :: Drains(t.hot, k, drained, hot') ==> Agrees(Tiers(hot', t.cold), acked)) <==>
            (forall id :: id in t.hot && |LessUsed(t.hot, id)| < k ==> HasCold(t.cold, id))
  {
    hide Drains, Agrees, HasCold;
    AgreesKeyed(t, acked);
    forall id | id in t.hot ensures CanGo(t.hot, k, id) <==> |LessUsed(t.hot, id)| < k {
      CanGoIff(t.hot, k, id);
    }
    forall drained: seq<Record>, hot' | Drains(t.hot, k, drained, hot')
      ensures Agrees(Tiers(hot', t.cold), acked) <==> forall i :: 0 <= i < |drained| ==> HasCold(t.cold, drained[i].id)
    {
      FailedWriteLosesIff(t, k, drained, hot', acked);
    }
    if forall drained, hot' :: Drains(t.hot, k, drained, hot') ==> Agrees(Tiers(hot', t.cold), acked) {
      forall id | id in t.hot && |LessUsed(t.hot, id)| < k ensures HasCold(t.cold, id) {
        var drained: seq<Record>, hot' :| Drains(t.hot, k, drained, hot') && HasId(drained, id);
        var i :| 0 <= i < |drained| && drained[i].id == id;
        assert HasCold(t.cold, drained[i].id);
      }
    }
    if forall id :: id in t.hot && |LessUsed(t.hot, id)| < k ==> HasCold(t.cold, id) {
      forall drained: seq<Record>, hot' | Drains(t.hot, k, drained, hot') ensures Agrees(Tiers(hot', t.cold), acked) {
        forall i | 0 <= i < |drained| ensures HasCold(t.cold, drained[i].id) {
          DrainedFromHot(t.hot, k, drained, hot', i);
          assert CanGo(t.hot, k, drained[i].id);
        }
      }
    }
  }

  lemma AgreesKeyed(t: Tiers, acked: map<nat, Record>)
    requires Agrees(t, acked)
    ensures Keyed(t.hot)
  {
  }

  lemma DrainedFromHot(hot: map<nat, Record>, k: nat, drained: seq<Record>, hot': map<nat, Record>, i: nat)
    requires Drains(hot, k, drained, hot') && i < |drained|
    ensures drained[i].id in hot && HasId(drained, drained[i].id)
  {
  }

  // ---------- runs in which it goes wrong ----------

  function Plain(id: nat): Record {
    Record(id, [], "", 0, 0)
  }

  /** The hot store after inserting ids 0 to n - 1. */
  function Filled(n: nat): map<nat, Record> {
    map id | 0 <= id < n :: Plain(id)
  }

  lemma {:induction false} FilledSize(n: nat)
    ensures |Filled(n)| == n
  {
    if n == 0 {
      assert Filled(0) == map[];
    } else {
      FilledSize(n - 1);
      assert Filled(n) == Filled(n - 1)[n - 1 := Plain(n - 1)];
      HotGrows(Filled(n - 1), Plain(n - 1));
    }
  }

  function FillStates(n: nat): (ts: seq<Tiers>)
    ensures |ts| == n + 1 && forall i :: 0 <= i <= n ==> ts[i] == Tiers(Filled(i), map[])
  {
    seq(n + 1, i requires i >= 0 => Tiers(Filled(i), map[]))
  }

  function FillEvents(n: nat): (es: seq<Event>)
    ensures |es| == n && forall i :: 0 <= i < n ==> es[i] == Insert(Plain(i), 0, [], true)
  {
    seq(n, i requires i >= 0 => Insert(Plain(i), 0, [], true))
  }

  lemma FillRun(max: nat, n: nat)
    requires n <= max
    ensures Run(max, FillStates(n), FillEvents(n))
  {
    var ts, es := FillStates(n), FillEvents(n);
    assert Filled(0) == map[];
    forall i | 0 <= i < n ensures Step(max, ts[i], es[i], ts[i + 1]) {
      FilledSize(i);
      assert Filled(i + 1) == Filled(i)[i := Plain(i)];
    }
  }

  lemma AllRivals(n: nat, id: nat)
    requires id < n
    ensures |Rivals(Filled(n), id)| == n - 1
  {
    FilledSize(n);
    assert Rivals(Filled(n), id) == Filled(n).Keys - {id};
  }

  /** A run of 101 fresh inserts into a store of that size, then an insert of a known id that fails. */
  lemma DuplicateRetryFails(r: Record) returns (ts: seq<Tiers>, es: seq<Event>)
    requires r.id <= EvictionBatch
    ensures Run(EvictionBatch + 1, ts, es)
    ensures es != [] && es[|es| - 1].Insert? && es[|es| - 1].record == r && !es[|es| - 1].ok
  {
    hide Rivals, Inserts, Filled, Run;
    var n := EvictionBatch + 1;
    FillRun(n, n);
    var t := Tiers(Filled(n), map[]);
    FullOfTies(n, r.id);
    SurelyAcknowledgedIff(n, t, r);
    var e, t' :| InsertsOf(n, t, r, e, t') && !e.ok;
    RunSnoc(n, FillStates(n), FillEvents(n), e, t');
    ts, es := FillStates(n) + [t'], FillEvents(n) + [e];
  }

  lemma FullOfTies(n: nat, id: nat)
    requires id < n
    ensures Full(n, Filled(n)) && WithinCapacity(n, Filled(n)) && Keyed(Filled(n)) && id in Filled(n)
    ensures |Rivals(Filled(n), id)| == n - 1
  {
    FilledSize(n);
    AllRivals(n, id);
  }

  lemma RunSnoc(max: nat, ts: seq<Tiers>, es: seq<Event>, e: Event, t': Tiers)
    requires Run(max, ts, es) && Step(max, ts[|es|], e, t')
    ensures Run(max, ts + [t'], es + [e])
  {
    hide Step;
    var us, fs := ts + [t'], es + [e];
    forall i | 0 <= i < |fs| ensures Step(max, us[i], fs[i], us[i + 1]) {
      if i < |es| {
        assert us[i] == ts[i] && us[i + 1] == ts[i + 1] && fs[i] == es[i];
      }
    }
  }

  /** One acknowledged record in a store of size 1: if the cold write of the next eviction fails, a read
      no longer finds it. */
  lemma FailedWriteLoses(answer: Option<Record>)
    ensures Run(1, FillStates(1), FillEvents(1)) && Full(1, Filled(1))
    ensures Acked(FillEvents(1)) == map[0 := Plain(0)]
    ensures Drains(Filled(1), EvictionBatch, [Plain(0)], map[])
    ensures CanReturn(Tiers(map[], map[]), 0, answer) <==> answer == None
  {
    FillRun(1, 1);
    FilledSize(1);
    assert FillEvents(1) == [Insert(Plain(0), 0, [], true)];
    assert FillEvents(1)[..0] == [] && Acked([]) == map[];
    assert Ids([Plain(0)]) == {0} by {
      assert [Plain(0)][0].id == 0;
    }
    assert Filled(1) - {0} == map[];
  }
}
