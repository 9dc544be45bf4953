/** Small facts about sequences, stated once so that larger proofs need not rediscover them. */
module Seqs {

  lemma Assoc<T>(a: seq<T>, b: seq<T>, c: seq<T>)
    ensures a + (b + c) == (a + b) + c
  {
  }

  lemma TakeCons<T>(s: seq<T>, m: nat)
    requires m < |s|
    ensures s[..m + 1] == [s[0]] + s[1..][..m]
  {
  }

  lemma TakeSnoc<T>(s: seq<T>, m: nat)
    requires m < |s|
    ensures s[..m + 1] == s[..m] + [s[m]]
  {
  }

  lemma TakeConcat<T>(a: seq<T>, b: seq<T>, k: nat)
    requires |a| <= k <= |a| + |b|
    ensures (a + b)[..k] == a + b[..k - |a|]
  {
  }

  function Flatten<T>(ss: seq<seq<T>>): seq<T> {
    if ss == [] then [] else ss[0] + Flatten(ss[1..])
  }

  lemma {:induction false} FlattenSnoc<T>(ss: seq<seq<T>>, s: seq<T>)
    ensures Flatten(ss + [s]) == Flatten(ss) + s
  {
    if ss == [] {
      assert ss + [s] == [s];
      assert Flatten([s][1..]) == [];
    } else {
      FlattenSnoc(ss[1..], s);
      Assoc(ss[0], Flatten(ss[1..]), s);
      assert (ss + [s])[1..] == ss[1..] + [s];
    }
  }

  lemma {:induction false} InFlatten<T>(ss: seq<seq<T>>, i: nat)
    requires i < |ss|
    ensures forall x :: x in ss[i] ==> x in Flatten(ss)
  {
    if i > 0 {
      InFlatten(ss[1..], i - 1);
    }
  }

  lemma {:induction false} FromFlatten<T>(ss: seq<seq<T>>, x: T) returns (i: nat)
    requires x in Flatten(ss)
    ensures i < |ss| && x in ss[i]
  {
    if x in ss[0] {
      i := 0;
    } else {
      var j := FromFlatten(ss[1..], x);
      i := j + 1;
    }
  }

  // ---------- the elements above a bound ----------

  /** The positions `at` are those of the elements whose key is above the bound, ascending, and `r` lists
      the elements there. */
  ghost predicate Selects<T>(xs: seq<T>, key: T -> nat, bound: nat, at: seq<nat>, r: seq<T>) {
    && |at| == |r|
    && (forall j, k :: 0 <= j < k < |at| ==> at[j] < at[k])
    && (forall j :: 0 <= j < |at| ==> at[j] < |xs| && r[j] == xs[at[j]])
    && (forall i :: 0 <= i < |xs| ==> (i in at <==> key(xs[i]) > bound))
  }

  /** `r` lists the elements whose key is above the bound, each occurrence once, in order. */
  ghost predicate Selected<T>(xs: seq<T>, key: T -> nat, bound: nat, r: seq<T>) {
    exists at :: Selects(xs, key, bound, at, r)
  }

  lemma SelectedNone<T>(key: T -> nat, bound: nat)
    ensures Selected([], key, bound, [])
  {
    assert Selects([], key, bound, [], []);
  }

  lemma SelectedNext<T>(xs: seq<T>, key: T -> nat, bound: nat, r: seq<T>)
    requires xs != [] && Selected(xs[..|xs| - 1], key, bound, r)
    ensures var x := xs[|xs| - 1]; Selected(xs, key, bound, if key(x) > bound then r + [x] else r)
  {
    var at :| Selects(xs[..|xs| - 1], key, bound, at, r);
    SelectsNext(xs, key, bound, at, r);
  }

  lemma SelectsNext<T>(xs: seq<T>, key: T -> nat, bound: nat, at: seq<nat>, r: seq<T>)
    requires xs != [] && Selects(xs[..|xs| - 1], key, bound, at, r)
    ensures var n := |xs| - 1;
            if key(xs[n]) > bound then Selects(xs, key, bound, at + [n], r + [xs[n]])
            else Selects(xs, key, bound, at, r)
  {
    var n := |xs| - 1;
    forall i | 0 <= i < n ensures i in at <==> key(xs[i]) > bound {
      assert xs[..n][i] == xs[i];
    }
    assert (at + [n])[|at|] == n;
    assert forall i :: 0 <= i < n ==> (i in at + [n] <==> i in at);
  }

  lemma SelectedUnique<T>(xs: seq<T>, key: T -> nat, bound: nat, r: seq<T>, r': seq<T>)
    requires Selected(xs, key, bound, r) && Selected(xs, key, bound, r')
    ensures r == r'
  {
    var at :| Selects(xs, key, bound, at, r);
    var at' :| Selects(xs, key, bound, at', r');
    SelectsUnique(xs, key, bound, at, r, at', r');
  }

  lemma {:induction false} SelectsUnique<T>(xs: seq<T>, key: T -> nat, bound: nat, at: seq<nat>, r: seq<T>,
                                            at': seq<nat>, r': seq<T>)
    requires Selects(xs, key, bound, at, r) && Selects(xs, key, bound, at', r')
    ensures r == r'
    decreases |xs|
  {
    if r != [] {
      SelectedIsThere(xs, key, bound, at, r);
    }
    if r' != [] {
      SelectedIsThere(xs, key, bound, at', r');
    }
    if xs != [] {
      hide Selects;
      var n := |xs| - 1;
      if key(xs[n]) > bound {
        var m := LastSelected(xs, key, bound, at, r);
        var m' := LastSelected(xs, key, bound, at', r');
        SelectsUnique(xs[..n], key, bound, at[..m], r[..m], at'[..m'], r'[..m']);
      } else {
        LastSkipped(xs, key, bound, at, r);
        LastSkipped(xs, key, bound, at', r');
        SelectsUnique(xs[..n], key, bound, at, r, at', r');
      }
    }
  }

  lemma SelectedIsThere<T>(xs: seq<T>, key: T -> nat, bound: nat, at: seq<nat>, r: seq<T>)
    requires Selects(xs, key, bound, at, r) && r != []
    ensures xs != []
  {
    assert at[0] < |xs|;
  }

  lemma LastSkipped<T>(xs: seq<T>, key: T -> nat, bound: nat, at: seq<nat>, r: seq<T>)
    requires Selects(xs, key, bound, at, r) && xs != [] && key(xs[|xs| - 1]) <= bound
    ensures Selects(xs[..|xs| - 1], key, bound, at, r)
  {
    forall j | 0 <= j < |at| ensures at[j] < |xs| - 1 {
      assert at[j] in at;
    }
  }

  lemma LastSelected<T>(xs: seq<T>, key: T -> nat, bound: nat, at: seq<nat>, r: seq<T>) returns (m: nat)
    requires Selects(xs, key, bound, at, r) && xs != [] && key(xs[|xs| - 1]) > bound
    ensures m < |r| == |at| && r == r[..m] + [xs[|xs| - 1]]
    ensures Selects(xs[..|xs| - 1], key, bound, at[..m], r[..m])
  {
    var n := |xs| - 1;
    assert n in at;
    m := |at| - 1;
    assert at == at[..m] + [at[m]];
  }
}
