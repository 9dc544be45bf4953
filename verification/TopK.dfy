/** Sort, keep the first occurrence of each id, truncate: the merge of shard results (descending by
    score) and the engine's fusion of sources (ascending by distance) are both this, with key
    `-score` and key `distance`. Smaller keys are better. */
module TopK {
  import opened Seqs
  import opened Sorting

  datatype Hit = Hit(id: nat, key: real)

  function KeyOf(h: Hit): real {
    h.key
  }

  function Min(a: nat, b: nat): nat {
    if a < b then a else b
  }

  function Dedup(s: seq<Hit>, seen: set<nat>): seq<Hit> {
    if s == [] then []
    else if s[0].id in seen then Dedup(s[1..], seen)
    else [s[0]] + Dedup(s[1..], seen + {s[0].id})
  }

  function Take<T>(s: seq<T>, k: nat): (r: seq<T>)
    ensures |r| == Min(k, |s|)
  {
    if k < |s| then s[..k] else s
  }

  function Top(s: seq<Hit>, k: nat): seq<Hit> {
    Take(Dedup(SortBy(KeyOf, s), {}), k)
  }

  // ---------- the code ----------

  method RetainFirst(s: seq<Hit>) returns (r: seq<Hit>)
    ensures r == Dedup(s, {})
    ensures exists at: seq<nat> :: FirstOccurrences(s, {}, at, r)
  {
    hide FirstOccurrences;
    ghost var at := DedupPositions(s, {});
    r := [];
    var seen: set<nat> := {};
    var i := 0;
    assert s[0..] == s;
    while i < |s|
      invariant 0 <= i <= |s|
      invariant r + Dedup(s[i..], seen) == Dedup(s, {})
    {
      assert s[i..][1..] == s[i + 1..];
      if s[i].id !in seen {
        Assoc(r, [s[i]], Dedup(s[i + 1..], seen + {s[i].id}));
        r := r + [s[i]];
        seen := seen + {s[i].id};
      }
      i := i + 1;
    }
  }

  method Concatenate(lists: seq<seq<Hit>>) returns (all: seq<Hit>)
    ensures all == Flatten(lists)
  {
    all := [];
    for i := 0 to |lists|
      invariant all == Flatten(lists[..i])
    {
      TakeSnoc(lists, i);
      FlattenSnoc(lists[..i], lists[i]);
      all := all + lists[i];
    }
    assert lists[..|lists|] == lists;
  }

  method Best(s: seq<Hit>, k: nat) returns (r: seq<Hit>)
    ensures r == Top(s, k)
  {
    var all := SortBy(KeyOf, s);
    all := RetainFirst(all);
    r := if k < |all| then all[..k] else all;
  }

  /** The engine's fusion: sources concatenated, ascending by distance, deduplicated, cut to `k`. */
  method Fuse(sources: seq<seq<Hit>>, k: nat) returns (r: seq<Hit>)
    ensures r == Top(Flatten(sources), k) && IsTop(Flatten(sources), k, r)
  {
    hide IsTop;
    var all := Concatenate(sources);
    r := Best(all, k);
    TopIsTop(all, k);
  }

  // ---------- what the result is ----------

  ghost predicate DistinctIds(r: seq<Hit>) {
    forall i, j :: 0 <= i < j < |r| ==> r[i].id != r[j].id
  }

  function Ids(s: seq<Hit>): set<nat> {
    set h | h in s :: h.id
  }

  /** `r` is a best-`k` list of `s`: ranked, one entry per id and that the best one, as many as there
      are ids up to `k`, and nothing left out beats the last entry. */
  ghost predicate IsTop(s: seq<Hit>, k: nat, r: seq<Hit>) {
    && SortedBy(KeyOf, r)
    && DistinctIds(r)
    && (forall h :: h in r ==> h in s)
    && (forall h, x :: h in r && x in s && x.id == h.id ==> h.key <= x.key)
    && |r| == Min(k, |Ids(s)|)
    && (forall x :: x in s && x.id !in Ids(r) ==> |r| == k && (k > 0 ==> r[k - 1].key <= x.key))
  }

  lemma {:induction false} DedupSubset(s: seq<Hit>, seen: set<nat>)
    ensures forall h :: h in Dedup(s, seen) ==> h in s && h.id !in seen
  {
    if s != [] {
      DedupSubset(s[1..], if s[0].id in seen then seen else seen + {s[0].id});
    }
  }

  /** The positions `at` are, ascending, those of the first hits of ids not seen before, and `r` lists the
      hits there. */
  ghost predicate FirstOccurrences(s: seq<Hit>, seen: set<nat>, at: seq<nat>, r: seq<Hit>) {
    && HitsAt(s, at, r)
    && (forall i :: 0 <= i < |s| ==> (i in at <==> s[i].id !in seen && forall j :: 0 <= j < i ==> s[j].id != s[i].id))
  }

  ghost predicate HitsAt(s: seq<Hit>, at: seq<nat>, r: seq<Hit>) {
    && |at| == |r|
    && (forall j, k :: 0 <= j < k < |at| ==> at[j] < at[k])
    && (forall j :: 0 <= j < |at| ==> at[j] < |s| && r[j] == s[at[j]])
  }

  lemma HitsAtShifted(s: seq<Hit>, at: seq<nat>, r: seq<Hit>)
    requires s != [] && HitsAt(s[1..], at, r)
    ensures HitsAt(s, Shifted(at), r) && forall j :: 0 <= j < |at| ==> Shifted(at)[j] > 0
  {
    forall j | 0 <= j < |at| ensures Shifted(at)[j] < |s| && r[j] == s[Shifted(at)[j]] {
      assert r[j] == s[1..][at[j]];
    }
  }

  lemma HitsAtFront(s: seq<Hit>, at: seq<nat>, r: seq<Hit>)
    requires s != [] && HitsAt(s, at, r) && forall j :: 0 <= j < |at| ==> at[j] > 0
    ensures HitsAt(s, [0] + at, [s[0]] + r)
  {
    var at', r' := [0] + at, [s[0]] + r;
    forall j, k | 0 <= j < k < |at'| ensures at'[j] < at'[k] {
      if j > 0 {
        assert at[j - 1] < at[k - 1];
      } else {
        assert at[k - 1] > 0;
      }
    }
    forall j | 0 <= j < |at'| ensures at'[j] < |s| && r'[j] == s[at'[j]] {
      if j > 0 {
        assert r[j - 1] == s[at[j - 1]];
      }
    }
  }

  function Shifted(at: seq<nat>): (r: seq<nat>)
    ensures |r| == |at| && forall j :: 0 <= j < |at| ==> r[j] == at[j] + 1
  {
    seq(|at|, j requires 0 <= j < |at| => at[j] + 1)
  }

  lemma InShifted(at: seq<nat>, i: nat)
    ensures i in Shifted(at) <==> i > 0 && i - 1 in at
  {
    if i > 0 && i - 1 in at {
      var j :| 0 <= j < |at| && at[j] == i - 1;
      assert Shifted(at)[j] == i;
    }
  }

  lemma {:induction false} DedupPositions(s: seq<Hit>, seen: set<nat>) returns (at: seq<nat>)
    ensures FirstOccurrences(s, seen, at, Dedup(s, seen))
  {
    at := [];
    if s != [] {
      hide Dedup, FirstOccurrences;
      var x := s[0];
      var seen' := seen + {x.id};
      if x.id in seen {
        var rest := DedupPositions(s[1..], seen);
        SkipsFirst(s, seen, rest, Dedup(s[1..], seen));
        at := Shifted(rest);
      } else {
        var rest := DedupPositions(s[1..], seen');
        KeepsFirst(s, seen, rest, Dedup(s[1..], seen'));
        at := [0] + Shifted(rest);
      }
      DedupStep(s, seen);
    }
  }

  lemma DedupStep(s: seq<Hit>, seen: set<nat>)
    requires s != []
    ensures Dedup(s, seen) == if s[0].id in seen then Dedup(s[1..], seen)
                              else [s[0]] + Dedup(s[1..], seen + {s[0].id})
  {
  }

  lemma SkipsFirst(s: seq<Hit>, seen: set<nat>, at: seq<nat>, r: seq<Hit>)
    requires s != [] && s[0].id in seen && FirstOccurrences(s[1..], seen, at, r)
    ensures FirstOccurrences(s, seen, Shifted(at), r)
  {
    HitsAtShifted(s, at, r);
    hide HitsAt;
    forall i | 0 <= i < |s|
      ensures i in Shifted(at) <==> s[i].id !in seen && forall j :: 0 <= j < i ==> s[j].id != s[i].id
    {
      InShifted(at, i);
      if i > 0 {
        FreshTail(s, i);
      }
    }
  }

  lemma KeepsFirst(s: seq<Hit>, seen: set<nat>, at: seq<nat>, r: seq<Hit>)
    requires s != [] && s[0].id !in seen && FirstOccurrences(s[1..], seen + {s[0].id}, at, r)
    ensures FirstOccurrences(s, seen, [0] + Shifted(at), [s[0]] + r)
  {
    HitsAtShifted(s, at, r);
    HitsAtFront(s, Shifted(at), r);
    hide HitsAt;
    var at' := [0] + Shifted(at);
    forall i | 0 <= i < |s|
      ensures i in at' <==> s[i].id !in seen && forall j :: 0 <= j < i ==> s[j].id != s[i].id
    {
      KeptPosition(s, seen, at, r, i);
    }
  }

  lemma KeptPosition(s: seq<Hit>, seen: set<nat>, at: seq<nat>, r: seq<Hit>, i: nat)
    requires s != [] && s[0].id !in seen && FirstOccurrences(s[1..], seen + {s[0].id}, at, r) && i < |s|
    ensures i in [0] + Shifted(at) <==> s[i].id !in seen && forall j :: 0 <= j < i ==> s[j].id != s[i].id
  {
    hide HitsAt;
    InShifted(at, i);
    if i > 0 {
      FreshTail(s, i);
    }
  }

  /** Being the first of an id in a list, said of its tail. */
  lemma FreshTail(s: seq<Hit>, i: nat)
    requires 0 < i < |s|
    ensures s[1..][i - 1] == s[i]
    ensures (forall j :: 0 <= j < i ==> s[j].id != s[i].id) <==>
            s[0].id != s[i].id && forall j :: 0 <= j < i - 1 ==> s[1..][j].id != s[i].id
  {
    if s[0].id != s[i].id && forall j :: 0 <= j < i - 1 ==> s[1..][j].id != s[i].id {
      forall j | 0 <= j < i ensures s[j].id != s[i].id {
        assert j > 0 ==> s[1..][j - 1] == s[j];
      }
    }
    if forall j :: 0 <= j < i ==> s[j].id != s[i].id {
      forall j | 0 <= j < i - 1 ensures s[1..][j].id != s[i].id {
        assert s[1..][j] == s[j + 1];
      }
    }
  }

  lemma {:induction false} DedupCovers(s: seq<Hit>, seen: set<nat>, x: Hit)
    requires x in s && x.id !in seen
    ensures exists h :: h in Dedup(s, seen) && h.id == x.id
  {
    if s[0].id == x.id {
      assert s[0] in Dedup(s, seen);
    } else {
      var seen' := if s[0].id in seen then seen else seen + {s[0].id};
      DedupCovers(s[1..], seen', x);
      var h :| h in Dedup(s[1..], seen') && h.id == x.id;
      assert h in Dedup(s, seen);
    }
  }

  /** In a sorted list the first occurrence of an id is its best one. */
  lemma {:induction false} DedupBest(s: seq<Hit>, seen: set<nat>, h: Hit, x: Hit)
    requires SortedBy(KeyOf, s) && h in Dedup(s, seen) && x in s && x.id == h.id
    ensures h.key <= x.key
  {
    if s[0].id in seen {
      DedupSubset(s[1..], seen);
      assert x != s[0];
      DedupBest(s[1..], seen, h, x);
    } else if h == s[0] {
      var i :| 0 <= i < |s| && s[i] == x;
      assert i > 0 ==> KeyOf(s[0]) <= KeyOf(s[i]);
    } else {
      DedupSubset(s[1..], seen + {s[0].id});
      DedupBest(s[1..], seen + {s[0].id}, h, x);
    }
  }

  lemma {:induction false} DedupRanked(s: seq<Hit>, seen: set<nat>)
    requires SortedBy(KeyOf, s)
    ensures SortedBy(KeyOf, Dedup(s, seen)) && DistinctIds(Dedup(s, seen))
  {
    if s != [] {
      var seen' := if s[0].id in seen then seen else seen + {s[0].id};
      DedupRanked(s[1..], seen');
      DedupSubset(s[1..], seen');
      var r := Dedup(s[1..], seen');
      forall i | 0 <= i < |r| ensures KeyOf(s[0]) <= KeyOf(r[i]) {
        assert r[i] in s[1..];
        var j :| 0 <= j < |s[1..]| && s[1..][j] == r[i];
        assert KeyOf(s[0]) <= KeyOf(s[j + 1]);
      }
    }
  }

  lemma {:induction false} IdsCount(r: seq<Hit>)
    requires DistinctIds(r)
    ensures |Ids(r)| == |r|
  {
    if r != [] {
      IdsCount(r[1..]);
      assert r == [r[0]] + r[1..];
      assert Ids(r) == {r[0].id} + Ids(r[1..]);
    }
  }

  /** A complete ranking of `s`: one best entry for every id. */
  ghost predicate Ranking(s: seq<Hit>, d: seq<Hit>) {
    && SortedBy(KeyOf, d) && DistinctIds(d)
    && (forall h :: h in d ==> h in s)
    && (forall h, x :: h in d && x in s && x.id == h.id ==> h.key <= x.key)
    && Ids(d) == Ids(s)
  }

  lemma DedupIsRanking(s: seq<Hit>)
    ensures Ranking(s, Dedup(SortBy(KeyOf, s), {}))
  {
    var sorted := SortBy(KeyOf, s);
    SortBySorted(KeyOf, s);
    SameElements(KeyOf, s);
    DedupRanked(sorted, {});
    DedupSubset(sorted, {});
    var d := Dedup(sorted, {});
    forall h, x | h in d && x in s && x.id == h.id ensures h.key <= x.key {
      DedupBest(sorted, {}, h, x);
    }
    forall x | x in s ensures x.id in Ids(d) {
      DedupCovers(sorted, {}, x);
    }
    assert Ids(d) <= Ids(s) <= Ids(d);
  }

  lemma PrefixIsTop(s: seq<Hit>, d: seq<Hit>, k: nat)
    requires Ranking(s, d)
    ensures IsTop(s, k, Take(d, k))
  {
    var r := Take(d, k);
    IdsCount(d);
    forall x | x in s && x.id !in Ids(r) ensures |r| == k && (k > 0 ==> r[k - 1].key <= x.key) {
      LeftOutIsWorse(s, d, k, x);
    }
  }

  lemma LeftOutIsWorse(s: seq<Hit>, d: seq<Hit>, k: nat, x: Hit)
    requires Ranking(s, d) && x in s && x.id !in Ids(Take(d, k))
    ensures |Take(d, k)| == k && (k > 0 ==> Take(d, k)[k - 1].key <= x.key)
  {
    var r := Take(d, k);
    assert x.id in Ids(d);
    var y :| y in d && y.id == x.id;
    var i :| 0 <= i < |d| && d[i] == y;
    assert forall j :: 0 <= j < |r| ==> r[j].id in Ids(r);
    assert i >= |r|;
    assert k > 0 ==> KeyOf(d[k - 1]) <= KeyOf(d[i]);
  }

  /** Whatever is merged, the result is its best-`k` list. */
  lemma TopIsTop(s: seq<Hit>, k: nat)
    ensures IsTop(s, k, Top(s, k))
  {
    DedupIsRanking(s);
    PrefixIsTop(s, Dedup(SortBy(KeyOf, s), {}), k);
  }

  // ---------- counting: which scores appear ----------

  /** Ids with a hit at least as good as `t`. */
  function Within(s: seq<Hit>, t: real): set<nat> {
    set h | h in s && h.key <= t :: h.id
  }

  /** If an id within `t` was left out, every entry kept is within `t`. */
  lemma AllWithin(s: seq<Hit>, k: nat, r: seq<Hit>, t: real, x: Hit)
    requires IsTop(s, k, r) && x in s && x.key <= t && x.id !in Ids(r)
    ensures Within(r, t) == Ids(r) && |r| == k
  {
    forall id | id in Ids(r) ensures id in Within(r, t) {
      var h :| h in r && h.id == id;
      var i :| 0 <= i < |r| && r[i] == h;
      assert i < k - 1 ==> KeyOf(r[i]) <= KeyOf(r[k - 1]);
    }
  }

  lemma NoneLeftOut(s: seq<Hit>, k: nat, r: seq<Hit>, t: real)
    requires IsTop(s, k, r) && forall x :: x in s && x.key <= t ==> x.id in Ids(r)
    ensures Within(r, t) == Within(s, t)
  {
    forall id | id in Within(s, t) ensures id in Within(r, t) {
      var x :| x in s && x.key <= t && x.id == id;
      var h :| h in r && h.id == id;
      assert h.key <= x.key;
    }
  }

  /** The number of ids within any threshold survives merging, up to the limit. */
  lemma WithinTop(s: seq<Hit>, k: nat, r: seq<Hit>, t: real)
    requires IsTop(s, k, r)
    ensures Within(r, t) <= Within(s, t)
    ensures |Within(r, t)| == Min(k, |Within(s, t)|)
    ensures |Within(s, t)| <= k ==> Within(r, t) == Within(s, t)
  {
    IdsCount(r);
    assert Within(r, t) <= Within(s, t) && Within(r, t) <= Ids(r);
    SubsetCount(Within(r, t), Ids(r));
    if x :| x in s && x.key <= t && x.id !in Ids(r) {
      AllWithin(s, k, r, t, x);
      assert x.id in Within(s, t) && x.id !in Within(r, t);
      hide IsTop;
      SubsetCount(Within(r, t) + {x.id}, Within(s, t));
    } else {
      NoneLeftOut(s, k, r, t);
    }
  }

  lemma SubsetCount<T>(a: set<T>, b: set<T>)
    requires a <= b
    ensures |a| <= |b| && (|a| == |b| ==> a == b)
  {
    assert b == a + (b - a);
  }

  lemma LastWithin(r: seq<Hit>, t: real)
    requires SortedBy(KeyOf, r) && r != [] && r[|r| - 1].key <= t
    ensures Within(r, t) == Ids(r)
    ensures forall j :: 0 <= j < |r| ==> r[j].key <= t
  {
    forall j | 0 <= j < |r| ensures r[j].key <= t {
      assert KeyOf(r[j]) <= KeyOf(r[|r| - 1]);
    }
    forall id | id in Ids(r) ensures id in Within(r, t) {
      var h :| h in r && h.id == id;
    }
  }

  /** In a ranked list, the hits within `t` are exactly a prefix. */
  lemma {:induction false} WithinIsPrefix(r: seq<Hit>, t: real, i: nat)
    requires SortedBy(KeyOf, r) && DistinctIds(r) && i < |r|
    ensures r[i].key <= t <==> i < |Within(r, t)|
    decreases |r|
  {
    var n := |r| - 1;
    var init := r[..n];
    assert r == init + [r[n]];
    IdsCount(r);
    if r[n].key <= t {
      hide Within, Ids;
      LastWithin(r, t);
    } else {
      assert Within(r, t) == Within(init, t);
      if i < n {
        WithinIsPrefix(init, t, i);
      } else {
        IdsCount(init);
        SubsetCount(Within(init, t), Ids(init));
      }
    }
  }

  function Keys(r: seq<Hit>): (ks: seq<real>)
    ensures |ks| == |r| && forall i :: 0 <= i < |r| ==> ks[i] == r[i].key
  {
    seq(|r|, i requires 0 <= i < |r| => r[i].key)
  }

  /** Equal counts at every threshold force equal key sequences. */
  lemma EqualCountsEqualKeys(a: seq<Hit>, b: seq<Hit>)
    requires SortedBy(KeyOf, a) && DistinctIds(a) && SortedBy(KeyOf, b) && DistinctIds(b)
    requires forall t: real :: |Within(a, t)| == |Within(b, t)|
    ensures Keys(a) == Keys(b)
  {
    NoShorter(a, b);
    NoShorter(b, a);
    forall i | 0 <= i < |a| ensures a[i].key == b[i].key {
      WithinIsPrefix(a, a[i].key, i);
      WithinIsPrefix(b, a[i].key, i);
      WithinIsPrefix(a, b[i].key, i);
      WithinIsPrefix(b, b[i].key, i);
      assert |Within(a, a[i].key)| == |Within(b, a[i].key)|;
      assert |Within(a, b[i].key)| == |Within(b, b[i].key)|;
    }
  }

  lemma NoShorter(a: seq<Hit>, b: seq<Hit>)
    requires SortedBy(KeyOf, a) && DistinctIds(a) && DistinctIds(b)
    requires forall t: real :: |Within(a, t)| == |Within(b, t)|
    ensures |a| <= |b|
  {
    if a != [] {
      var t := a[|a| - 1].key;
      WithinIsPrefix(a, t, |a| - 1);
      assert |Within(a, t)| == |Within(b, t)|;
      IdsCount(b);
      SubsetCount(Within(b, t), Ids(b));
    }
  }

  /** Best-`k` lists are unique up to ties: their keys agree. */
  lemma TopKeysUnique(s: seq<Hit>, k: nat, a: seq<Hit>, b: seq<Hit>)
    requires IsTop(s, k, a) && IsTop(s, k, b)
    ensures Keys(a) == Keys(b)
  {
    forall t: real ensures |Within(a, t)| == |Within(b, t)| {
      WithinTop(s, k, a, t);
      WithinTop(s, k, b, t);
    }
    EqualCountsEqualKeys(a, b);
  }

  // ---------- merging in stages ----------

  /** Per-shard merges with the same limit. */
  function TopEach(shards: seq<seq<Hit>>, k: nat): (r: seq<seq<Hit>>)
    ensures |r| == |shards|
  {
    if shards == [] then [] else [Top(shards[0], k)] + TopEach(shards[1..], k)
  }

  lemma WithinConcat(a: seq<Hit>, b: seq<Hit>, t: real)
    ensures Within(a + b, t) == Within(a, t) + Within(b, t)
  {
    assert forall h :: h in a + b <==> h in a || h in b;
  }

  lemma {:induction false} WithinStaged(shards: seq<seq<Hit>>, k: nat, t: real)
    ensures var full, staged := Within(Flatten(shards), t), Within(Flatten(TopEach(shards, k)), t);
            staged <= full && (|full| <= k ==> staged == full) && (|full| >= k ==> |staged| >= k)
  {
    if shards != [] {
      var s, rest := shards[0], shards[1..];
      WithinStaged(rest, k, t);
      TopIsTop(s, k);
      WithinTop(s, k, Top(s, k), t);
      WithinConcat(s, Flatten(rest), t);
      WithinConcat(Top(s, k), Flatten(TopEach(rest, k)), t);
      assert TopEach(shards, k)[1..] == TopEach(rest, k);
      var a, b := Within(s, t), Within(Flatten(rest), t);
      var a', b' := Within(Top(s, k), t), Within(Flatten(TopEach(rest, k)), t);
      SubsetCount(a, a + b);
      SubsetCount(b, a + b);
      SubsetCount(a', a' + b');
      SubsetCount(b', a' + b');
    }
  }

  /** Merging shard by shard and then merging the merges yields the same scores as one merge. */
  lemma StagedMerge(shards: seq<seq<Hit>>, k: nat)
    ensures Keys(Top(Flatten(TopEach(shards, k)), k)) == Keys(Top(Flatten(shards), k))
  {
    var full, staged := Flatten(shards), Flatten(TopEach(shards, k));
    var a, b := Top(staged, k), Top(full, k);
    TopIsTop(staged, k);
    TopIsTop(full, k);
    forall t: real ensures |Within(a, t)| == |Within(b, t)| {
      WithinTop(staged, k, a, t);
      WithinTop(full, k, b, t);
      WithinStaged(shards, k, t);
    }
    EqualCountsEqualKeys(a, b);
  }

  // ---------- the coordinator's merge ----------

  datatype Scored = Scored(id: nat, score: real)

  function ToHits(s: seq<Scored>): (r: seq<Hit>)
    ensures |r| == |s| && forall i :: 0 <= i < |s| ==> r[i] == Hit(s[i].id, -s[i].score)
  {
    seq(|s|, i requires 0 <= i < |s| => Hit(s[i].id, -s[i].score))
  }

  function FromHits(s: seq<Hit>): (r: seq<Scored>)
    ensures |r| == |s| && forall i :: 0 <= i < |s| ==> r[i] == Scored(s[i].id, -s[i].key)
  {
    seq(|s|, i requires 0 <= i < |s| => Scored(s[i].id, -s[i].key))
  }

  /** Descending by score, the highest score per id, at most `limit`. */
  method MergeResults(results: seq<seq<Scored>>, limit: nat) returns (merged: seq<Scored>)
    ensures IsTop(ToHits(Flatten(results)), limit, ToHits(merged))
    ensures merged == FromHits(Top(ToHits(Flatten(results)), limit))
    ensures |merged| <= limit
    ensures forall i, j :: 0 <= i < j < |merged| ==> merged[i].score >= merged[j].score && merged[i].id != merged[j].id
    ensures forall x :: x in merged ==> x in Flatten(results)
    ensures forall x, y :: x in merged && y in Flatten(results) && x.id == y.id ==> x.score >= y.score
    ensures forall y :: y in Flatten(results) && (forall x :: x in merged ==> x.id != y.id) ==>
              |merged| == limit && forall x :: x in merged ==> x.score >= y.score
  {
    hide IsTop, Top, Dedup;
    var all: seq<Scored> := [];
    for i := 0 to |results|
      invariant all == Flatten(results[..i])
    {
      TakeSnoc(results, i);
      FlattenSnoc(results[..i], results[i]);
      all := all + results[i];
    }
    assert results[..|results|] == results;
    var hits := Best(ToHits(all), limit);
    merged := FromHits(hits);
    TopIsTop(ToHits(all), limit);
    assert ToHits(merged) == hits;
    MergedMeans(all, limit, merged);
  }

  /** A best list of negated scores in terms of the scores. */
  lemma MergedMeans(all: seq<Scored>, limit: nat, merged: seq<Scored>)
    requires IsTop(ToHits(all), limit, ToHits(merged))
    ensures |merged| <= limit
    ensures forall i, j :: 0 <= i < j < |merged| ==> merged[i].score >= merged[j].score && merged[i].id != merged[j].id
    ensures forall x :: x in merged ==> x in all
    ensures forall x, y :: x in merged && y in all && x.id == y.id ==> x.score >= y.score
    ensures forall y :: y in all && (forall x :: x in merged ==> x.id != y.id) ==>
              |merged| == limit && forall x :: x in merged ==> x.score >= y.score
  {
    hide IsTop, SortedBy, ToHits;
    MergedOrder(all, limit, merged);
    MergedBest(all, limit, merged);
    forall y | y in all && forall x :: x in merged ==> x.id != y.id
      ensures |merged| == limit && forall x :: x in merged ==> x.score >= y.score
    {
      LeftOutMeans(all, limit, merged, y);
    }
  }

  lemma MergedOrder(all: seq<Scored>, limit: nat, merged: seq<Scored>)
    requires IsTop(ToHits(all), limit, ToHits(merged))
    ensures |merged| <= limit
    ensures forall i, j :: 0 <= i < j < |merged| ==> merged[i].score >= merged[j].score && merged[i].id != merged[j].id
  {
    var best := ToHits(merged);
    forall i, j | 0 <= i < j < |merged| ensures merged[i].score >= merged[j].score && merged[i].id != merged[j].id {
      assert KeyOf(best[i]) <= KeyOf(best[j]) && best[i].id != best[j].id;
    }
  }

  lemma MergedBest(all: seq<Scored>, limit: nat, merged: seq<Scored>)
    requires IsTop(ToHits(all), limit, ToHits(merged))
    ensures forall x :: x in merged ==> x in all
    ensures forall x, y :: x in merged && y in all && x.id == y.id ==> x.score >= y.score
  {
    hide ToHits, SortedBy;
    forall x | x in merged ensures x in all {
      HitIn(merged, x);
      HitIn(all, x);
    }
    forall x, y | x in merged && y in all && x.id == y.id ensures x.score >= y.score {
      HitIn(merged, x);
      HitIn(all, y);
    }
  }

  lemma LeftOutMeans(all: seq<Scored>, limit: nat, merged: seq<Scored>, y: Scored)
    requires IsTop(ToHits(all), limit, ToHits(merged)) && y in all && forall x :: x in merged ==> x.id != y.id
    ensures |merged| == limit && forall x :: x in merged ==> x.score >= y.score
  {
    hide SortedBy;
    var best := ToHits(merged);
    HitIn(all, y);
    assert y.id !in Ids(best);
    forall x | x in merged ensures x.score >= y.score {
      HitIn(merged, x);
      LastIsWorst(best, Hit(x.id, -x.score), limit);
    }
  }

  lemma HitIn(s: seq<Scored>, x: Scored)
    ensures x in s <==> Hit(x.id, -x.score) in ToHits(s)
  {
    if x in s {
      var i :| 0 <= i < |s| && s[i] == x;
      assert ToHits(s)[i] == Hit(x.id, -x.score);
    }
    if Hit(x.id, -x.score) in ToHits(s) {
      var i :| 0 <= i < |s| && ToHits(s)[i] == Hit(x.id, -x.score);
      assert s[i] == x;
    }
  }

  lemma LastIsWorst(r: seq<Hit>, h: Hit, k: nat)
    requires SortedBy(KeyOf, r) && h in r && |r| == k
    ensures h.key <= r[k - 1].key
  {
    var i :| 0 <= i < |r| && r[i] == h;
    assert i < k - 1 ==> KeyOf(r[i]) <= KeyOf(r[k - 1]);
  }
}
