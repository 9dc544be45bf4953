/** Printing a query and parsing the text gives the query back. */
module VqlRoundTrip {
  import opened Options
  import opened Seqs
  import opened VqlLexer
  import opened VqlAst
  import opened VqlGrammar
  import opened VqlPrint
  import opened VqlQuery

  // ---------- a printer only adds text in front ----------

  lemma LeadTail(t: string, k: string, m: string)
    ensures Lead(t, k) + m == Lead(t, k + m)
  {
    Assoc(" ", k, m);
    Assoc(t, " " + k, m);
  }

  lemma SpacedTail(t: string, k: string, m: string)
    ensures Spaced(t, k) + m == Spaced(t, k + m)
  {
    LeadTail(t, k, m);
    Assoc(" ", Lead(t, k), m);
  }

  lemma QuotedTail(x: string, k: string, m: string)
    ensures Quoted(x, k) + m == Quoted(x, k + m)
  {
    Assoc("'", k, m);
    Assoc(x, "'" + k, m);
    Assoc("'", x + ("'" + k), m);
  }

  lemma LiteralTail(floats: real -> string, l: Literal, k: string, m: string)
    ensures ShowLiteral(floats, l, k) + m == ShowLiteral(floats, l, k + m)
  {
    match l
    case String(x) => QuotedTail(x, k, m);
    case Integer(i) => Assoc(IntegerText(i), k, m);
    case Float(f) => Assoc(floats(f), k, m);
    case Boolean(b) => Assoc(if b then "true" else "false", k, m);
    case Null => Assoc("null", k, m);
  }

  lemma {:induction false} LiteralsTail(floats: real -> string, ls: seq<Literal>, k: string, m: string)
    ensures ShowLiterals(floats, ls, k) + m == ShowLiterals(floats, ls, k + m)
  {
    if |ls| == 1 {
      LiteralTail(floats, ls[0], k, m);
    } else if |ls| > 1 {
      var u := ShowLiterals(floats, ls[1..], k);
      LiteralsTail(floats, ls[1..], k, m);
      LeadTail(",", u, m);
      LiteralTail(floats, ls[0], Lead(",", u), m);
    }
  }

  lemma {:induction false} PredicateTail(floats: real -> string, p: Predicate, k: string, m: string)
    ensures ShowPredicate(floats, p, k) + m == ShowPredicate(floats, p, k + m)
    decreases p
  {
    hide ShowLiteral, ShowLiterals, Spaced, Quoted;
    match p
    case Comparison(field, op, value) =>
      var u := ShowLiteral(floats, value, k);
      LiteralTail(floats, value, k, m);
      SpacedTail(OpText(op), u, m);
      Assoc(field, Spaced(OpText(op), u), m);
    case In(field, values) =>
      var u := ShowLiterals(floats, values, ")" + k);
      Assoc(")", k, m);
      LiteralsTail(floats, values, ")" + k, m);
      Assoc("(", u, m);
      SpacedTail("IN", "(" + u, m);
      Assoc(field, Spaced("IN", "(" + u), m);
    case Between(field, low, high) =>
      var v := ShowLiteral(floats, high, k);
      var u := ShowLiteral(floats, low, Spaced("AND", v));
      LiteralTail(floats, high, k, m);
      SpacedTail("AND", v, m);
      LiteralTail(floats, low, Spaced("AND", v), m);
      SpacedTail("BETWEEN", u, m);
      Assoc(field, Spaced("BETWEEN", u), m);
    case Like(field, pattern) =>
      QuotedTail(pattern, k, m);
      SpacedTail("LIKE", Quoted(pattern, k), m);
      Assoc(field, Spaced("LIKE", Quoted(pattern, k)), m);
    case And(ps) => PredicatesTail(floats, ps, k, m);
  }

  lemma {:induction false} PredicatesTail(floats: real -> string, ps: seq<Predicate>, k: string, m: string)
    ensures ShowPredicates(floats, ps, k) + m == ShowPredicates(floats, ps, k + m)
    decreases ps
  {
    hide ShowPredicate, Spaced;
    if |ps| == 1 {
      PredicateTail(floats, ps[0], k, m);
    } else if |ps| > 1 {
      var u := ShowPredicates(floats, ps[1..], k);
      PredicatesTail(floats, ps[1..], k, m);
      SpacedTail("AND", u, m);
      PredicateTail(floats, ps[0], Spaced("AND", u), m);
    }
  }

  lemma ProjectionTail(p: Projection, k: string, m: string)
    ensures ShowProjection(p, k) + m == ShowProjection(p, k + m)
  {
    hide Spaced;
    match p
    case Field(name) => Assoc(name, k, m);
    case Aliased(field, alias) =>
      Assoc(alias, k, m);
      SpacedTail("AS", alias + k, m);
      Assoc(field, Spaced("AS", alias + k), m);
    case Function(name, field) =>
      Assoc(")", k, m);
      Assoc(field, ")" + k, m);
      Assoc("(", field + (")" + k), m);
      Assoc(name, "(" + (field + (")" + k)), m);
  }

  lemma {:induction false} ProjectionsTail(ps: seq<Projection>, k: string, m: string)
    ensures ShowProjections(ps, k) + m == ShowProjections(ps, k + m)
  {
    hide ShowProjection, Lead;
    if |ps| == 1 {
      ProjectionTail(ps[0], k, m);
    } else if |ps| > 1 {
      var u := ShowProjections(ps[1..], k);
      ProjectionsTail(ps[1..], k, m);
      LeadTail(",", u, m);
      ProjectionTail(ps[0], Lead(",", u), m);
    }
  }

  lemma {:induction false} NamesTail(xs: seq<string>, k: string, m: string)
    ensures ShowNames(xs, k) + m == ShowNames(xs, k + m)
  {
    hide Lead;
    if |xs| == 1 {
      Assoc(xs[0], k, m);
    } else if |xs| > 1 {
      var u := ShowNames(xs[1..], k);
      NamesTail(xs[1..], k, m);
      LeadTail(",", u, m);
      Assoc(xs[0], Lead(",", u), m);
    }
  }

  lemma CallTail(fn: string, args: seq<string>, k: string, m: string)
    ensures ShowCall(fn, args, k) + m == ShowCall(fn, args, k + m)
  {
    hide ShowNames;
    Assoc(")", k, m);
    NamesTail(args, ")" + k, m);
    Assoc("(", ShowNames(args, ")" + k), m);
    Assoc(fn, "(" + ShowNames(args, ")" + k), m);
  }

  lemma OrderTail(o: OrderBy, k: string, m: string)
    ensures ShowCall(o.scoringFn, o.args, if o.descending then " " + ("DESC" + k) else k) + m
         == ShowCall(o.scoringFn, o.args, if o.descending then " " + ("DESC" + (k + m)) else k + m)
  {
    Assoc("DESC", k, m);
    Assoc(" ", "DESC" + k, m);
    CallTail(o.scoringFn, o.args, if o.descending then " " + ("DESC" + k) else k, m);
  }

  lemma ClauseTail(floats: real -> string, c: Clause, k: string, m: string)
    ensures ShowClause(floats, c, k) + m == ShowClause(floats, c, k + m)
  {
    hide Lead, ShowCall, ShowPredicates, ShowProjections;
    match c
    case MetadataWhere(ps) =>
      var u := ShowPredicates(floats, ps, k);
      PredicatesTail(floats, ps, k, m);
      LeadTail("WHERE", u, m);
      LeadTail("METADATA", Lead("WHERE", u), m);
      LeadTail("WITH", Lead("METADATA", Lead("WHERE", u)), m);
    case ProjectOn(ps) =>
      var u := ShowProjections(ps, k);
      ProjectionsTail(ps, k, m);
      LeadTail("ON", u, m);
      LeadTail("PROJECT", Lead("ON", u), m);
    case Biased(b) =>
      CallTail(b.scoringFn, b.args, k, m);
      LeadTail("BIAS", ShowCall(b.scoringFn, b.args, k), m);
    case Ordered(o) =>
      OrderTail(o, k, m);
      var u := ShowCall(o.scoringFn, o.args, if o.descending then " " + ("DESC" + k) else k);
      LeadTail("BY", u, m);
      LeadTail("ORDER", Lead("BY", u), m);
    case Limit(n) =>
      Assoc(Decimal(n), k, m);
      LeadTail("LIMIT", Decimal(n) + k, m);
    case Offset(n) =>
      Assoc(Decimal(n), k, m);
      LeadTail("OFFSET", Decimal(n) + k, m);
    case Within(n) =>
      Assoc("ms", k, m);
      Assoc(Decimal(n), "ms" + k, m);
      LeadTail("WITHIN", Decimal(n) + ("ms" + k), m);
  }

  // ---------- the printed words ----------

  /** How clauses are spelled. */
  lemma ListClauseTexts(floats: real -> string, ps: seq<Predicate>, fs: seq<Projection>)
    ensures ShowClause(floats, MetadataWhere(ps), "") == "WITH METADATA WHERE " + ShowPredicates(floats, ps, "")
    ensures ShowClause(floats, ProjectOn(fs), "") == "PROJECT ON " + ShowProjections(fs, "")
  {
    hide ShowPredicates, ShowProjections;
    LeadTexts("WITH", "METADATA", "WHERE", ShowPredicates(floats, ps, ""));
    LeadTexts("", "PROJECT", "ON", ShowProjections(fs, ""));
  }

  lemma CallClauseTexts(floats: real -> string, fn: string, args: seq<string>)
    ensures ShowClause(floats, Biased(Bias(fn, args)), "") == "BIAS " + CallText(fn, args)
    ensures ShowClause(floats, Ordered(OrderBy(fn, args, false)), "") == "ORDER BY " + CallText(fn, args)
    ensures ShowClause(floats, Ordered(OrderBy(fn, args, true)), "") == "ORDER BY " + (CallText(fn, args) + " DESC")
  {
    hide ShowCall, CallText;
    CallTextOf(fn, args, "");
    CallTextOf(fn, args, " DESC");
    assert " " + ("DESC" + "") == " DESC" && CallText(fn, args) + "" == CallText(fn, args);
    LeadTexts("", "ORDER", "BY", ShowCall(fn, args, ""));
    LeadTexts("", "ORDER", "BY", ShowCall(fn, args, " DESC"));
  }

  lemma CountClauseTexts(floats: real -> string, n: nat)
    ensures ShowClause(floats, Limit(n), "") == "LIMIT " + Decimal(n)
    ensures ShowClause(floats, Offset(n), "") == "OFFSET " + Decimal(n)
    ensures ShowClause(floats, Within(n), "") == "WITHIN " + (Decimal(n) + "ms")
  {
    hide Decimal;
    assert Decimal(n) + "" == Decimal(n) && "ms" + "" == "ms";
  }

  function CallText(fn: string, args: seq<string>): string {
    fn + ("(" + (ShowNames(args, "") + ")"))
  }

  lemma LeadTexts(a: string, b: string, c: string, k: string)
    ensures Lead(a, Lead(b, Lead(c, k))) == (a + (" " + (b + (" " + (c + " "))))) + k
    ensures Lead(b, Lead(c, k)) == (b + (" " + (c + " "))) + k
  {
  }

  lemma CallTextOf(fn: string, args: seq<string>, k: string)
    ensures ShowCall(fn, args, k) == CallText(fn, args) + k
  {
    hide ShowNames;
    NamesTail(args, "", ")" + k);
    assert "" + (")" + k) == ")" + k;
  }

  /** How predicates are spelled. */
  lemma PredicateTexts(floats: real -> string, field: string, op: ComparisonOp, a: Literal, b: Literal, pattern: string,
                       values: seq<Literal>)
    ensures ShowPredicate(floats, Comparison(field, op, a), "") ==
            field + (" " + (OpText(op) + (" " + ShowLiteral(floats, a, ""))))
    ensures ShowPredicate(floats, Between(field, a, b), "") ==
            field + (" BETWEEN " + (ShowLiteral(floats, a, "") + (" AND " + ShowLiteral(floats, b, ""))))
    ensures ShowPredicate(floats, Like(field, pattern), "") == field + (" LIKE '" + (pattern + "'"))
    ensures ShowPredicate(floats, In(field, values), "") == field + (" IN (" + (ShowLiterals(floats, values, "") + ")"))
  {
    hide ShowLiteral, ShowLiterals, OpText;
    var x, y := ShowLiteral(floats, a, ""), ShowLiteral(floats, b, "");
    LiteralTail(floats, a, "", Spaced("AND", y));
    assert "" + Spaced("AND", y) == Spaced("AND", y);
    BetweenText(field, x, y);
    LiteralsTail(floats, values, "", ")" + "");
    assert "" + (")" + "") == ")" + "" && "'" + "" == "'";
  }

  lemma BetweenText(field: string, x: string, y: string)
    ensures field + Spaced("BETWEEN", x + Spaced("AND", y)) == field + (" BETWEEN " + (x + (" AND " + y)))
  {
  }

  // ---------- printed clauses and heads ----------

  /** Every printed clause is a clause text in the sense of the order theorem. */
  lemma PrintedClause(floats: real -> string, c: Clause)
    requires PlainClause(Written(floats), c)
    ensures WrittenClause(ShowClause(floats, c, ""), c)
  {
    hide AnyClause, ShowClause, PlainClause, ClauseEnd;
    forall k | ClauseEnd(k) ensures AnyClause(ShowClause(floats, c, "") + k) == Ok(c, k) {
      ClauseTail(floats, c, "", k);
      assert "" + k == k;
      ClauseOf(floats, c, k);
    }
  }

  ghost predicate PlainHead(f: Find) {
    && (f.find == "SIMILARITY" || f.find == "SEMANTIC")
    && IsIdentifier(f.similarity.field) && NoQuotes(f.similarity.queryText)
  }

  function ShowHead(f: Find, k: string): string {
    Lead("FIND", f.find + ShowSimilarity(f.similarity, k))
  }

  lemma FindTypeOf(find: string, u: string)
    requires find == "SIMILARITY" || find == "SEMANTIC"
    ensures OrElse(Const("SIMILARITY", Tag("SIMILARITY", find + u)), Const("SEMANTIC", Tag("SEMANTIC", find + u)))
            == Ok(find, u)
  {
    TagOf(find, u);
    if find == "SEMANTIC" {
      TagMiss("SIMILARITY", find + u, 1);
    }
  }

  lemma SourceOf(x: string, k: string)
    requires NoQuotes(x)
    ensures OrElse(VectorSource(Quoted(x, k)), TextSource(Quoted(x, k))) == Ok(Source(x, None), k)
  {
    StringLiteralOf(x, k);
    WordMiss("VECTOR", Quoted(x, k), 0);
  }

  /** The printed head parses back, except that a vector source is printed as its (empty) text. */
  lemma HeadOf(f: Find, k: string)
    requires PlainHead(f)
    ensures Head(ShowHead(f, k)) == Ok(Find(f.find, f.similarity.(vector := None)), k)
  {
    hide FindExpr, ShowSimilarity, Ws, Tag;
    FindExprOf(f, k);
    WordOf("FIND", " ", f.find + ShowSimilarity(f.similarity, k));
  }

  lemma FindExprOf(f: Find, k: string)
    requires PlainHead(f)
    ensures FindExpr(f.find + ShowSimilarity(f.similarity, k)) == Ok(Find(f.find, f.similarity.(vector := None)), k)
  {
    hide OrElse, VectorSource, TextSource, Identifier, Quoted, Ws, Tag, Word;
    var e := f.similarity;
    var v := Quoted(e.queryText, ")" + k);
    var u := e.field + Lead(",", v);
    FindTypeOf(f.find, "(" + u);
    OpenOf(u);
    SourceOf(e.queryText, ")" + k);
    FieldCommaOf(e.field, e.queryText, ")" + k);
    WsNothing(")" + k);
    TagOf(")", k);
  }

  lemma OpenOf(u: string)
    requires StartsDark(u)
    ensures Word("(", "(" + u) == Ok((), u)
  {
    assert "" + u == u;
    WordOf("(", "", u);
  }

  lemma FieldCommaOf(field: string, x: string, k: string)
    requires IsIdentifier(field)
    ensures FieldName(field + Lead(",", Quoted(x, k))) == Ok(field, Lead(",", Quoted(x, k)))
    ensures Word(",", Lead(",", Quoted(x, k))) == Ok((), Quoted(x, k))
  {
    hide FieldName, Word, Quoted;
    QuoteFirst(x, k);
    FieldBefore(field, Lead(",", Quoted(x, k)));
    WordOf(",", " ", Quoted(x, k));
  }

  lemma FieldBefore(field: string, u: string)
    requires IsIdentifier(field) && StartsDark(u) && Stops(IsIdChar, u)
    ensures FieldName(field + u) == Ok(field, u)
  {
    hide Identifier, Ws;
    IdentifierOf(field, u);
    WsNothing(u);
  }

  /** Every printed head with a text source is a head in the sense of the order theorem. */
  lemma PrintedHead(f: Find)
    requires PlainHead(f) && f.similarity.vector.None?
    ensures WrittenHead(ShowHead(f, ""), f)
  {
    hide Head, ShowHead;
    forall k ensures Head(ShowHead(f, "") + k) == Ok(f, k) {
      HeadTail(f, k);
      HeadOf(f, k);
    }
  }

  lemma HeadTail(f: Find, k: string)
    ensures ShowHead(f, "") + k == ShowHead(f, k)
  {
    hide Lead, Quoted;
    var e := f.similarity;
    assert ")" + "" == ")";
    var v := Quoted(e.queryText, ")");
    QuotedTail(e.queryText, ")", k);
    LeadTail(",", v, k);
    Assoc(e.field, Lead(",", v), k);
    Assoc("(", e.field + Lead(",", v), k);
    Assoc(f.find, "(" + (e.field + Lead(",", v)), k);
    LeadTail("FIND", f.find + ("(" + (e.field + Lead(",", v))), k);
  }

  lemma QuoteFirst(x: string, k: string)
    ensures Quoted(x, k) != [] && Quoted(x, k)[0] == '\''
  {
  }

  // ---------- the round trip ----------

  ghost predicate PlainClauses(fl: Floats, cs: seq<Clause>) {
    forall i :: 0 <= i < |cs| ==> PlainClause(fl, cs[i])
  }

  /** The queries whose text stands for them. */
  ghost predicate PlainQuery(floats: real -> string, q: Query) {
    && q.similarity.Some? && q.similarity.value.vector.None? && PlainHead(Find(q.find, q.similarity.value))
    && PlainClauses(Written(floats), ClausesOf(q))
    && (q.offset.Some? ==> q.limit.Some?)
  }

  ghost function PrintedItems(floats: real -> string, cs: seq<Clause>): (items: seq<Item>)
    ensures |items| == |cs|
            && forall i :: 0 <= i < |cs| ==> items[i] == Item(Margin(), ShowClause(floats, cs[i], ""), cs[i])
  {
    seq(|cs|, i requires 0 <= i < |cs| => Item(Margin(), ShowClause(floats, cs[i], ""), cs[i]))
  }

  lemma {:induction false} PrintedLayout(floats: real -> string, cs: seq<Clause>)
    ensures Layout(PrintedItems(floats, cs), "") == ShowClauses(floats, cs, "")
  {
    hide ShowClause;
    if cs != [] {
      var items := PrintedItems(floats, cs);
      var k := ShowClauses(floats, cs[1..], "");
      assert items[1..] == PrintedItems(floats, cs[1..]);
      PrintedLayout(floats, cs[1..]);
      ClauseTail(floats, cs[0], "", k);
      assert "" + k == k;
    }
  }

  lemma ClausesOfHolds(q: Query, c: Clause)
    ensures c in ClausesOf(q) <==> Holds(q, c)
  {
  }

  function Rank(c: Clause): nat {
    match c
    case MetadataWhere(_) => 0
    case ProjectOn(_) => 1
    case Biased(_) => 2
    case Ordered(_) => 3
    case Limit(_) => 4
    case Offset(_) => 5
    case Within(_) => 6
  }

  /** Ranks increase, from n up. */
  ghost predicate Ranked(n: nat, cs: seq<Clause>) {
    (forall i :: 0 <= i < |cs| ==> Rank(cs[i]) >= n) && forall i, j :: 0 <= i < j < |cs| ==> Rank(cs[i]) < Rank(cs[j])
  }

  lemma Prepend(n: nat, a: seq<Clause>, b: seq<Clause>)
    requires AtMostOne(n, a) && Ranked(n + 1, b)
    ensures Ranked(n, a + b)
  {
  }

  ghost predicate AtMostOne(n: nat, c: seq<Clause>) {
    |c| <= 1 && (c != [] ==> Rank(c[0]) == n)
  }

  lemma JoinedDistinct(c0: seq<Clause>, c1: seq<Clause>, c2: seq<Clause>, c3: seq<Clause>,
                       c4: seq<Clause>, c5: seq<Clause>, c6: seq<Clause>)
    requires AtMostOne(0, c0) && AtMostOne(1, c1) && AtMostOne(2, c2) && AtMostOne(3, c3)
    requires AtMostOne(4, c4) && AtMostOne(5, c5) && AtMostOne(6, c6)
    ensures DistinctKinds(c0 + (c1 + (c2 + (c3 + (c4 + (c5 + c6))))))
  {
    hide Ranked, DistinctKinds, AtMostOne;
    RankedLast(c6);
    Prepend(5, c5, c6);
    Prepend(4, c4, c5 + c6);
    Prepend(3, c3, c4 + (c5 + c6));
    Prepend(2, c2, c3 + (c4 + (c5 + c6)));
    Prepend(1, c1, c2 + (c3 + (c4 + (c5 + c6))));
    Prepend(0, c0, c1 + (c2 + (c3 + (c4 + (c5 + c6)))));
    RankedDistinct(c0 + (c1 + (c2 + (c3 + (c4 + (c5 + c6))))));
  }

  lemma ClausesOfDistinct(q: Query)
    ensures DistinctKinds(ClausesOf(q))
  {
    hide DistinctKinds;
    JoinedDistinct(if q.metadataWhere.Some? then [MetadataWhere(q.metadataWhere.value)] else [],
                   if q.projectOn.Some? then [ProjectOn(q.projectOn.value)] else [],
                   if q.bias.Some? then [Biased(q.bias.value)] else [],
                   if q.orderBy.Some? then [Ordered(q.orderBy.value)] else [],
                   if q.limit.Some? then [Limit(q.limit.value)] else [],
                   if q.offset.Some? then [Offset(q.offset.value)] else [],
                   if q.within.Some? then [Within(q.within.value)] else []);
  }

  lemma RankedLast(c: seq<Clause>)
    requires AtMostOne(6, c)
    ensures Ranked(6, c)
  {
  }

  lemma RankedDistinct(cs: seq<Clause>)
    requires Ranked(0, cs)
    ensures DistinctKinds(cs)
  {
  }

  /** The clauses a query prints assemble to the query. */
  lemma ReassembledQuery(q: Query)
    requires q.similarity.Some?
    ensures PutAll(Blank(Find(q.find, q.similarity.value)), ClausesOf(q)) == q
  {
    hide ClausesOf, PutAll, DistinctKinds, Holds;
    var f := Find(q.find, q.similarity.value);
    var cs := ClausesOf(q);
    ClausesOfDistinct(q);
    BlankHolds(f, cs);
    forall c ensures Holds(PutAll(Blank(f), cs), c) <==> Holds(q, c) {
      PutAllHolds(Blank(f), cs, c);
      ClausesOfHolds(q, c);
    }
    PutAllHolds(Blank(f), cs, Limit(0));
    HoldsDetermines(PutAll(Blank(f), cs), q);
  }

  lemma PrintedWellFormed(floats: real -> string, cs: seq<Clause>)
    requires PlainClauses(Written(floats), cs)
    ensures WellFormed(PrintedItems(floats, cs)) && Clauses(PrintedItems(floats, cs)) == cs
  {
    hide WrittenClause, PlainClause, ShowClause;
    forall i | 0 <= i < |cs| ensures WrittenClause(ShowClause(floats, cs[i], ""), cs[i]) {
      PrintedClause(floats, cs[i]);
    }
  }

  lemma AcceptableClauses(q: Query)
    ensures Acceptable(ClausesOf(q)) <==> (q.offset.Some? ==> q.limit.Some?)
  {
    hide ClausesOf, DistinctKinds;
    var cs := ClausesOf(q);
    ClausesOfDistinct(q);
    forall c ensures c in cs <==> Holds(q, c) {
      ClausesOfHolds(q, c);
    }
    assert forall i :: 0 <= i < |cs| ==> cs[i] in cs;
    assert q.offset.Some? ==> Holds(q, Offset(q.offset.value));
    assert q.limit.Some? ==> Holds(q, Limit(q.limit.value));
  }

  /** A text whose head and clauses print back: it parses to the query, minus a vector source. */
  lemma DisplayParses(floats: real -> string, q: Query)
    requires q.similarity.Some? && PlainHead(Find(q.find, q.similarity.value))
             && PlainClauses(Written(floats), ClausesOf(q))
    ensures QueryOf(Display(floats, q)) ==
            if q.offset.Some? && q.limit.None? then Fail
            else Ok(q.(similarity := Some(q.similarity.value.(vector := None))), "")
  {
    hide Layout, ShowClauses, ClausesOf, PutAll, PlainClauses, WellFormed, Acceptable, PlainHead, Head, ClauseLoop;
    var e := q.similarity.value;
    var f := Find(q.find, e.(vector := None));
    var q' := q.(similarity := Some(f.similarity));
    var cs := ClausesOf(q);
    var items := PrintedItems(floats, cs);
    SameClauses(q, q');
    PrintedWellFormed(floats, cs);
    PrintedLayout(floats, cs);
    FinishLayout(f, items, "");
    HeadOf(Find(q.find, e), ShowClauses(floats, cs, ""));
    AcceptableClauses(q);
    ReassembledQuery(q');
  }

  lemma SameClauses(q: Query, q': Query)
    requires q' == q.(similarity := q'.similarity)
    ensures ClausesOf(q') == ClausesOf(q)
  {
  }

  /** Printer and parser undo each other. */
  lemma RoundTrip(floats: real -> string, q: Query)
    requires PlainQuery(floats, q)
    ensures QueryOf(Display(floats, q)) == Ok(q, "")
  {
    hide QueryOf, Display, ClausesOf, PlainClauses, PlainHead;
    DisplayParses(floats, q);
  }
}
