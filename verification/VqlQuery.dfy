/** Whole queries: the clause loop, independence of clause order, and the printer/parser round trip. */
module VqlQuery {
  import opened Options
  import opened VqlLexer
  import opened VqlAst
  import opened VqlGrammar
  import opened VqlPrint

  // ---------- the parser's value ----------

  function Head(s: string): (r: Parse<Find>)
    ensures Consumed(s, r)
  {
    var (_, s) :- Word("FIND", s);
    FindExpr(s)
  }

  function Blank(f: Find): Query {
    Query(f.find, Some(f.similarity), None, None, None, None, None, None, None)
  }

  /** The query already has a clause of this kind. */
  predicate Has(q: Query, c: Clause) {
    match c
    case MetadataWhere(_) => q.metadataWhere.Some?
    case ProjectOn(_) => q.projectOn.Some?
    case Biased(_) => q.bias.Some?
    case Ordered(_) => q.orderBy.Some?
    case Limit(_) => q.limit.Some?
    case Offset(_) => q.offset.Some?
    case Within(_) => q.within.Some?
  }

  function Put(q: Query, c: Clause): Query {
    match c
    case MetadataWhere(ps) => q.(metadataWhere := Some(ps))
    case ProjectOn(ps) => q.(projectOn := Some(ps))
    case Biased(b) => q.(bias := Some(b))
    case Ordered(o) => q.(orderBy := Some(o))
    case Limit(n) => q.(limit := Some(n))
    case Offset(n) => q.(offset := Some(n))
    case Within(n) => q.(within := Some(n))
  }

  /** Reads clauses until the input ends or no clause parses; a second clause of a kind is an error.
      Every round consumes input. */
  function ClauseLoop(q: Query, s: string): Parse<Query>
    decreases |s|
  {
    var rest := Ws(s);
    if rest == [] then Ok(q, s) else
      var c := AnyClause(rest);
      if c.Fail? then Ok(q, s)
      else if Has(q, c.value) then Fail
      else ClauseLoop(Put(q, c.value), c.rest)
  }

  /** No trailing content, and no OFFSET without LIMIT. */
  function Finish(r: Parse<Query>): Parse<Query> {
    var (q, s) :- r;
    if Ws(s) != [] || (q.offset.Some? && q.limit.None?) then Fail else Ok(q, Ws(s))
  }

  function QueryOf(s: string): Parse<Query> {
    var (f, s) :- Head(s);
    Finish(ClauseLoop(Blank(f), s))
  }

  /** The parser as written, with one mutable option per clause kind. */
  method ParseQuery(input: string) returns (r: Parse<Query>)
    ensures r == QueryOf(input)
  {
    hide AnyClause, FindExpr, Ws, Word;
    var keyword := Word("FIND", input);
    if keyword.Fail? {
      return Fail;
    }
    var head := FindExpr(keyword.rest);
    if head.Fail? {
      return Fail;
    }
    var metadataWhere: Option<seq<Predicate>> := None;
    var projectOn: Option<seq<Projection>> := None;
    var bias: Option<Bias> := None;
    var orderBy: Option<OrderBy> := None;
    var limit: Option<nat> := None;
    var offset: Option<nat> := None;
    var within: Option<nat> := None;
    var remaining := head.rest;
    ghost var f := head.value;
    while true
      invariant ClauseLoop(Blank(f), head.rest) ==
                ClauseLoop(Query(f.find, Some(f.similarity), metadataWhere, projectOn, bias, orderBy, limit, offset,
                                 within), remaining)
      decreases |remaining|
    {
      var rest := Ws(remaining);
      if rest == [] {
        break;
      }
      var clause := AnyClause(rest);
      if clause.Fail? {
        break;
      }
      match clause.value {
        case MetadataWhere(v) =>
          if metadataWhere.Some? {
            return Fail;
          }
          metadataWhere := Some(v);
        case ProjectOn(v) =>
          if projectOn.Some? {
            return Fail;
          }
          projectOn := Some(v);
        case Biased(v) =>
          if bias.Some? {
            return Fail;
          }
          bias := Some(v);
        case Ordered(v) =>
          if orderBy.Some? {
            return Fail;
          }
          orderBy := Some(v);
        case Limit(v) =>
          if limit.Some? {
            return Fail;
          }
          limit := Some(v);
        case Offset(v) =>
          if offset.Some? {
            return Fail;
          }
          offset := Some(v);
        case Within(v) =>
          if within.Some? {
            return Fail;
          }
          within := Some(v);
      }
      remaining := clause.rest;
    }
    remaining := Ws(remaining);
    if remaining != [] {
      return Fail;
    }
    if offset.Some? && limit.None? {
      return Fail;
    }
    var q := Query(head.value.find, Some(head.value.similarity), metadataWhere, projectOn, bias, orderBy, limit,
                   offset, within);
    return Ok(q, remaining);
  }

  // ---------- clauses in any order ----------

  /** A text that is this clause wherever a clause may end after it. */
  ghost predicate WrittenClause(text: string, c: Clause) {
    forall k :: ClauseEnd(k) ==> AnyClause(text + k) == Ok(c, k)
  }

  /** A text that is this FIND head whatever follows. */
  ghost predicate WrittenHead(text: string, f: Find) {
    forall k :: Head(text + k) == Ok(f, k)
  }

  /** A clause as laid out: whitespace, then its text. */
  datatype Item = Item(gap: string, text: string, clause: Clause)

  ghost predicate WellFormed(items: seq<Item>) {
    forall i :: 0 <= i < |items| ==>
      items[i].gap != [] && All(IsSpace, items[i].gap) && WrittenClause(items[i].text, items[i].clause)
  }

  ghost function Layout(items: seq<Item>, tail: string): string {
    if items == [] then tail else items[0].gap + (items[0].text + Layout(items[1..], tail))
  }

  ghost function Clauses(items: seq<Item>): (cs: seq<Clause>)
    ensures |cs| == |items| && forall i :: 0 <= i < |cs| ==> cs[i] == items[i].clause
  {
    seq(|items|, i requires 0 <= i < |items| => items[i].clause)
  }

  lemma ClauseStarts(s: string)
    ensures AnyClause(s).Ok? ==> ClauseStart(s)
  {
    hide AndExpression, Parenthesised, List1, Identifier, Number, Direction;
    if StartsWith("WITHIN", s) {
      assert StartsWith("WITH", s) by {
        assert s[..4] == s[..6][..4] == "WITHIN"[..4] == "WITH";
      }
    }
  }

  lemma {:induction false} LayoutEnds(items: seq<Item>, tail: string)
    requires WellFormed(items) && All(IsSpace, tail)
    ensures ClauseEnd(Layout(items, tail))
    ensures items != [] ==> AnyClause(Ws(Layout(items, tail))) == Ok(items[0].clause, Layout(items[1..], tail))
  {
    hide AnyClause, ClauseStart;
    if items == [] {
      WsOf(tail, "");
      assert tail + "" == tail;
    } else {
      var k := Layout(items[1..], tail);
      var u := items[0].text + k;
      LayoutEnds(items[1..], tail);
      assert WrittenClause(items[0].text, items[0].clause);
      ClauseStarts(u);
      StartLetter(u);
      WsOf(items[0].gap, u);
    }
  }

  /** No clause of a kind that is already there. */
  ghost predicate Fits(q: Query, cs: seq<Clause>)
    decreases |cs|
  {
    cs == [] || (!Has(q, cs[0]) && Fits(Put(q, cs[0]), cs[1..]))
  }

  ghost function PutAll(q: Query, cs: seq<Clause>): Query
    decreases |cs|
  {
    if cs == [] then q else PutAll(Put(q, cs[0]), cs[1..])
  }

  lemma {:induction false} LoopOnLayout(q: Query, items: seq<Item>, tail: string)
    requires WellFormed(items) && All(IsSpace, tail)
    ensures ClauseLoop(q, Layout(items, tail)) ==
            if Fits(q, Clauses(items)) then Ok(PutAll(q, Clauses(items)), tail) else Fail
    decreases |items|
  {
    hide AnyClause, ClauseEnd, Has, Put;
    LayoutEnds(items, tail);
    if items == [] {
      WsOf(tail, "");
      assert tail + "" == tail;
    } else {
      assert Clauses(items)[1..] == Clauses(items[1..]);
      var u := Ws(Layout(items, tail));
      assert u != [] by {
        ClauseStarts(u);
        StartLetter(u);
      }
      LoopOnLayout(Put(q, items[0].clause), items[1..], tail);
    }
  }

  // ---------- what the clauses assemble to ----------

  predicate SameKind(c: Clause, d: Clause) {
    match c
    case MetadataWhere(_) => d.MetadataWhere?
    case ProjectOn(_) => d.ProjectOn?
    case Biased(_) => d.Biased?
    case Ordered(_) => d.Ordered?
    case Limit(_) => d.Limit?
    case Offset(_) => d.Offset?
    case Within(_) => d.Within?
  }

  ghost predicate DistinctKinds(cs: seq<Clause>) {
    forall i, j :: 0 <= i < j < |cs| ==> !SameKind(cs[i], cs[j])
  }

  /** The query has exactly this clause of its kind. */
  ghost predicate Holds(q: Query, c: Clause) {
    match c
    case MetadataWhere(ps) => q.metadataWhere == Some(ps)
    case ProjectOn(ps) => q.projectOn == Some(ps)
    case Biased(b) => q.bias == Some(b)
    case Ordered(o) => q.orderBy == Some(o)
    case Limit(n) => q.limit == Some(n)
    case Offset(n) => q.offset == Some(n)
    case Within(n) => q.within == Some(n)
  }

  lemma PutHolds(q: Query, c: Clause, d: Clause)
    ensures Holds(Put(q, c), d) <==> c == d || (!SameKind(c, d) && Holds(q, d))
    ensures Has(Put(q, c), d) <==> SameKind(c, d) || Has(q, d)
    ensures Put(q, c).find == q.find && Put(q, c).similarity == q.similarity
  {
  }

  /** Nothing in cs is of a kind the query has. */
  ghost predicate Disjoint(q: Query, cs: seq<Clause>) {
    forall i :: 0 <= i < |cs| ==> !Has(q, cs[i])
  }

  lemma SameKindSymmetric(c: Clause, d: Clause)
    ensures SameKind(c, d) <==> SameKind(d, c)
  {
  }

  lemma {:induction false} FitsIff(q: Query, cs: seq<Clause>)
    ensures Fits(q, cs) <==> DistinctKinds(cs) && Disjoint(q, cs)
    decreases |cs|
  {
    hide Has, Put, SameKind;
    if cs != [] {
      FitsIff(Put(q, cs[0]), cs[1..]);
      forall d ensures Has(Put(q, cs[0]), d) <==> SameKind(cs[0], d) || Has(q, d) {
        PutHolds(q, cs[0], d);
      }
      assert cs == [cs[0]] + cs[1..];
      if Fits(q, cs) {
        assert forall j :: 1 <= j < |cs| ==> cs[j] == cs[1..][j - 1];
      }
    }
  }

  lemma HoldsHas(q: Query, c: Clause, d: Clause)
    requires Holds(q, c)
    ensures SameKind(c, d) ==> Has(q, d)
  {
  }

  lemma {:induction false} PutAllHolds(q: Query, cs: seq<Clause>, d: Clause)
    requires DistinctKinds(cs) && Disjoint(q, cs)
    ensures Holds(PutAll(q, cs), d) <==> d in cs || Holds(q, d)
    ensures PutAll(q, cs).find == q.find && PutAll(q, cs).similarity == q.similarity
    decreases |cs|
  {
    hide Has, Put, SameKind, Holds;
    if cs != [] {
      var q' := Put(q, cs[0]);
      assert Disjoint(q', cs[1..]) by {
        forall i | 0 <= i < |cs[1..]| ensures !Has(q', cs[1..][i]) {
          PutHolds(q, cs[0], cs[i + 1]);
        }
      }
      PutAllHolds(q', cs[1..], d);
      PutHolds(q, cs[0], d);
      if Holds(q, d) {
        HoldsHas(q, d, cs[0]);
        SameKindSymmetric(cs[0], d);
      }
    }
  }

  lemma HoldsDetermines(q: Query, r: Query)
    requires q.find == r.find && q.similarity == r.similarity
    requires forall c :: Holds(q, c) <==> Holds(r, c)
    ensures q == r
  {
    assert q.metadataWhere == r.metadataWhere by {
      assert q.metadataWhere.Some? ==> Holds(q, MetadataWhere(q.metadataWhere.value));
      assert r.metadataWhere.Some? ==> Holds(r, MetadataWhere(r.metadataWhere.value));
    }
    assert q.projectOn == r.projectOn by {
      assert q.projectOn.Some? ==> Holds(q, ProjectOn(q.projectOn.value));
      assert r.projectOn.Some? ==> Holds(r, ProjectOn(r.projectOn.value));
    }
    assert q.bias == r.bias by {
      assert q.bias.Some? ==> Holds(q, Biased(q.bias.value));
      assert r.bias.Some? ==> Holds(r, Biased(r.bias.value));
    }
    assert q.orderBy == r.orderBy by {
      assert q.orderBy.Some? ==> Holds(q, Ordered(q.orderBy.value));
      assert r.orderBy.Some? ==> Holds(r, Ordered(r.orderBy.value));
    }
    assert q.limit == r.limit by {
      assert q.limit.Some? ==> Holds(q, Limit(q.limit.value));
      assert r.limit.Some? ==> Holds(r, Limit(r.limit.value));
    }
    assert q.offset == r.offset by {
      assert q.offset.Some? ==> Holds(q, Offset(q.offset.value));
      assert r.offset.Some? ==> Holds(r, Offset(r.offset.value));
    }
    assert q.within == r.within by {
      assert q.within.Some? ==> Holds(q, Within(q.within.value));
      assert r.within.Some? ==> Holds(r, Within(r.within.value));
    }
  }

  /** Which clause lists a query may have. */
  ghost predicate Acceptable(cs: seq<Clause>) {
    && DistinctKinds(cs)
    && ((exists i :: 0 <= i < |cs| && cs[i].Offset?) ==> exists i :: 0 <= i < |cs| && cs[i].Limit?)
  }

  lemma BlankHolds(f: Find, cs: seq<Clause>)
    ensures Disjoint(Blank(f), cs) && forall c :: !Holds(Blank(f), c)
  {
  }

  lemma LimitPresence(f: Find, cs: seq<Clause>)
    requires DistinctKinds(cs)
    ensures var q := PutAll(Blank(f), cs);
            && (q.offset.Some? <==> exists i :: 0 <= i < |cs| && cs[i].Offset?)
            && (q.limit.Some? <==> exists i :: 0 <= i < |cs| && cs[i].Limit?)
  {
    hide DistinctKinds, PutAll;
    BlankHolds(f, cs);
    var q := PutAll(Blank(f), cs);
    forall c ensures Holds(q, c) <==> c in cs {
      PutAllHolds(Blank(f), cs, c);
    }
    if q.offset.Some? {
      assert Holds(q, Offset(q.offset.value));
    }
    if q.limit.Some? {
      assert Holds(q, Limit(q.limit.value));
    }
    forall i | 0 <= i < |cs| ensures Holds(q, cs[i]) {
      assert cs[i] in cs;
    }
  }

  /** The clause loop over a layout. */
  lemma FinishLayout(f: Find, items: seq<Item>, tail: string)
    requires WellFormed(items) && All(IsSpace, tail)
    ensures Finish(ClauseLoop(Blank(f), Layout(items, tail))) ==
            if Acceptable(Clauses(items)) then Ok(PutAll(Blank(f), Clauses(items)), "") else Fail
  {
    hide ClauseLoop, Layout, DistinctKinds, WellFormed;
    var cs := Clauses(items);
    LoopOnLayout(Blank(f), items, tail);
    FitsIff(Blank(f), cs);
    BlankHolds(f, cs);
    assert tail + "" == tail;
    WsOf(tail, "");
    if DistinctKinds(cs) {
      LimitPresence(f, cs);
    }
  }

  /** Clauses in any layout: accepted exactly when no kind repeats and OFFSET comes with LIMIT, and
      then every clause is in the query. */
  lemma ClauseOrder(head: string, f: Find, items: seq<Item>, tail: string)
    requires WrittenHead(head, f) && WellFormed(items) && All(IsSpace, tail)
    ensures QueryOf(head + Layout(items, tail)) ==
            if Acceptable(Clauses(items)) then Ok(PutAll(Blank(f), Clauses(items)), "") else Fail
  {
    hide Head, ClauseLoop, Layout, Acceptable, WellFormed, PutAll;
    FinishLayout(f, items, tail);
  }

  /** Rearranging clauses, or the whitespace around them, changes nothing. */
  lemma AnyOrder(head: string, f: Find, items: seq<Item>, items': seq<Item>, tail: string, tail': string)
    requires WrittenHead(head, f) && WellFormed(items) && WellFormed(items') && All(IsSpace, tail)
             && All(IsSpace, tail')
    requires multiset(Clauses(items)) == multiset(Clauses(items'))
    ensures QueryOf(head + Layout(items, tail)) == QueryOf(head + Layout(items', tail'))
  {
    hide QueryOf, Layout, WellFormed, WrittenHead;
    ClauseOrder(head, f, items, tail);
    ClauseOrder(head, f, items', tail');
    Rearranged(f, Clauses(items), Clauses(items'));
  }

  lemma {:induction false} KindsAsMultiset(cs: seq<Clause>)
    ensures DistinctKinds(cs) <==>
            forall c, d :: c in cs && d in cs && SameKind(c, d) ==> c == d && multiset(cs)[c] == 1
  {
    if DistinctKinds(cs) {
      forall c, d | c in cs && d in cs && SameKind(c, d) ensures c == d && multiset(cs)[c] == 1 {
        var i :| 0 <= i < |cs| && cs[i] == c;
        var j :| 0 <= j < |cs| && cs[j] == d;
        SameKindSymmetric(c, d);
        OccursOnce(cs, i);
      }
    } else {
      var i, j :| 0 <= i < j < |cs| && SameKind(cs[i], cs[j]);
      if cs[i] == cs[j] {
        assert cs == cs[..j] + ([cs[j]] + cs[j + 1..]);
        assert cs[..j][i] == cs[i];
        assert multiset(cs[..j])[cs[i]] >= 1;
        assert multiset(cs)[cs[i]] >= 2;
      }
    }
  }

  lemma OccursOnce(cs: seq<Clause>, i: nat)
    requires DistinctKinds(cs) && i < |cs|
    ensures multiset(cs)[cs[i]] == 1
  {
    assert cs == cs[..i] + ([cs[i]] + cs[i + 1..]);
    assert forall j :: 0 <= j < |cs| && j != i ==> cs[j] != cs[i] by {
      forall j | 0 <= j < |cs| && j != i ensures cs[j] != cs[i] {
        assert SameKind(cs[i], cs[i]);
      }
    }
    assert cs[i] !in cs[..i] && cs[i] !in cs[i + 1..];
  }

  lemma Rearranged(f: Find, cs: seq<Clause>, ds: seq<Clause>)
    requires multiset(cs) == multiset(ds)
    ensures Acceptable(cs) <==> Acceptable(ds)
    ensures Acceptable(cs) ==> PutAll(Blank(f), cs) == PutAll(Blank(f), ds)
  {
    hide PutAll, SameKind;
    assert forall c :: c in cs <==> c in multiset(cs);
    assert forall c :: c in ds <==> c in multiset(ds);
    KindsAsMultiset(cs);
    KindsAsMultiset(ds);
    Presence(cs, ds);
    Presence(ds, cs);
    if Acceptable(cs) {
      SameAssembly(f, cs, ds);
    }
  }

  lemma Presence(cs: seq<Clause>, ds: seq<Clause>)
    requires forall c :: c in cs ==> c in ds
    ensures (exists i :: 0 <= i < |cs| && cs[i].Offset?) ==> exists i :: 0 <= i < |ds| && ds[i].Offset?
    ensures (exists i :: 0 <= i < |cs| && cs[i].Limit?) ==> exists i :: 0 <= i < |ds| && ds[i].Limit?
  {
    if i :| 0 <= i < |cs| && cs[i].Offset? {
      assert cs[i] in ds;
    }
    if i :| 0 <= i < |cs| && cs[i].Limit? {
      assert cs[i] in ds;
    }
  }

  lemma SameAssembly(f: Find, cs: seq<Clause>, ds: seq<Clause>)
    requires DistinctKinds(cs) && DistinctKinds(ds) && forall c :: c in cs <==> c in ds
    ensures PutAll(Blank(f), cs) == PutAll(Blank(f), ds)
  {
    hide PutAll, DistinctKinds;
    var q, r := PutAll(Blank(f), cs), PutAll(Blank(f), ds);
    BlankHolds(f, cs);
    BlankHolds(f, ds);
    forall c ensures Holds(q, c) <==> Holds(r, c) {
      PutAllHolds(Blank(f), cs, c);
      PutAllHolds(Blank(f), ds, c);
    }
    PutAllHolds(Blank(f), cs, Limit(0));
    PutAllHolds(Blank(f), ds, Limit(0));
    HoldsDetermines(q, r);
  }

  /** EN is another spelling of WITHIN, so the two together are a repeated clause. */
  lemma EnIsWithin(n: nat)
    requires n <= MaxU64
    ensures WrittenClause("EN" + (" " + (Decimal(n) + "ms")), Within(n))
  {
    hide MetadataWhereClause, ProjectOnClause, BiasClause, OrderByClause, LimitClause, OffsetClause, BudgetClause;
    var text := "EN" + (" " + (Decimal(n) + "ms"));
    forall k | ClauseEnd(k) ensures AnyClause(text + k) == Ok(Within(n), k) {
      assert text + k == Lead("EN", Decimal(n) + ("ms" + k));
      ClauseMiss(text + k);
      BudgetClauseOf("EN", n, k);
    }
  }
}
