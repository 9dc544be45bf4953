/** Exactly which queries survive printing and parsing: why nothing outside the plain queries comes back
    unchanged. */
module VqlExact {
  import opened Options
  import opened VqlLexer
  import opened VqlAst
  import opened VqlGrammar
  import opened VqlPrint
  import opened VqlFloats
  import opened VqlQuery
  import opened VqlRoundTrip
  import opened VqlImage

  // ---------- ORDER BY arguments ----------

  /** A comma or a closing parenthesis first. */
  ghost predicate Delimited(r: string) {
    r != [] && (r[0] == ',' || r[0] == ')')
  }

  lemma QuoteInside(x: string, r: string)
    requires NoQuotes(x) && Delimited(r) && Ws(x + r) != []
    ensures Ws(x + r)[0] != '\''
  {
    var s := x + r;
    var n := Span(IsSpace, s);
    assert Ws(s)[0] == s[n];
    if n >= |x| {
      assert s[|x|] == r[0];
    }
  }

  /** An argument that comes back as printed is an identifier, and exactly its text was read. */
  lemma ArgumentIsName(x: string, r: string)
    requires Delimited(r) && OrderByArg(Ws(x + r)).Ok? && OrderByArg(Ws(x + r)).value == x
    ensures IsIdentifier(x) && OrderByArg(x + r) == Ok(x, r)
  {
    var u := Ws(x + r);
    if StringLiteral(u).Ok? {
      TagMissUnless(u);
      QuoteInside(x, r);
    } else {
      assert IsIdentifier(x);
      IdentifierOf(x, r);
      StringMiss(x + r);
    }
  }

  lemma TagMissUnless(u: string)
    requires StringLiteral(u).Ok?
    ensures u != [] && u[0] == '\''
  {
    if u == [] || u[0] != '\'' {
      StringMiss(u);
    }
  }

  lemma ArgumentDark(s: string)
    requires OrderByArg(s).Ok?
    ensures Ws(s) == s
  {
    if StringLiteral(s).Ok? {
      TagMissUnless(s);
    }
    WsNothing(s);
  }

  /** Rest of a printed argument list. */
  ghost function NamesAfter(xs: seq<string>, k: string): string
    requires xs != []
  {
    if |xs| == 1 then k else Lead(",", ShowNames(xs[1..], k))
  }

  lemma NamesSplit(xs: seq<string>, k: string)
    requires xs != [] && Delimited(k)
    ensures ShowNames(xs, k) == xs[0] + NamesAfter(xs, k) && Delimited(NamesAfter(xs, k))
  {
  }

  lemma SeparatorOfLead(u: string)
    ensures Separator(",", Lead(",", u)) == Ok((), Ws(u))
  {
    WsNothing(Lead(",", u));
    TagOf(",", " " + u);
    SkipSpace(u);
  }

  lemma SkipSpace(u: string)
    ensures Ws(" " + u) == Ws(u)
  {
    var s, m := " " + u, Span(IsSpace, u);
    assert s[0] == ' ' && forall i :: 0 <= i < |u| ==> s[i + 1] == u[i];
    assert Span(IsSpace, s) == m + 1;
    assert s[m + 1..] == u[m..];
  }

  lemma {:induction false} ArgumentsAreNames(xs: seq<string>, k: string)
    requires xs != [] && Delimited(k)
    requires List1(OrderByArg, ",", Ws(ShowNames(xs, k))).Ok?
             && List1(OrderByArg, ",", Ws(ShowNames(xs, k))).value == xs
    ensures Names(xs)
  {
    hide OrderByArg, ShowNames, Separator, IsIdentifier, Delimited, Ws;
    var r := NamesAfter(xs, k);
    var s := Ws(ShowNames(xs, k));
    NamesSplit(xs, k);
    var a := OrderByArg(s);
    assert Consumed(s, a);
    assert [a.value] + More(OrderByArg, ",", a.rest).value == xs;
    assert a.value == xs[0];
    ArgumentIsName(xs[0], r);
    ArgumentRest(xs[0], r);
    assert More(OrderByArg, ",", r).value == xs[1..];
    if |xs| > 1 {
      var u := ShowNames(xs[1..], k);
      SeparatorOfLead(u);
      MoreAsList(OrderByArg, ",", r, Ws(u), xs[1..]);
      ArgumentsAreNames(xs[1..], k);
    }
  }

  lemma ArgumentRest(x: string, r: string)
    requires OrderByArg(x + r) == Ok(x, r)
    ensures OrderByArg(Ws(x + r)) == Ok(x, r)
  {
    hide OrderByArg;
    ArgumentDark(x + r);
  }

  lemma OrderedNames(floats: real -> string, o: OrderBy, k: string)
    requires IsIdentifier(o.scoringFn) && OrderByClause(ShowClause(floats, Ordered(o), k)).Ok?
    requires OrderByClause(ShowClause(floats, Ordered(o), k)).value == Ordered(o)
    ensures Names(o.args)
  {
    hide Parenthesised, ShowNames, OrderByArg, Direction, Names, Lead, OrderByClause;
    var k' := if o.descending then " " + ("DESC" + k) else k;
    OrderPrefix(o.scoringFn, "(" + ShowNames(o.args, ")" + k'));
    ArgumentListNames(o.args, k');
  }

  lemma NoNames()
    ensures Names([])
  {
  }

  lemma ArgumentListNames(xs: seq<string>, k: string)
    requires Parenthesised(OrderByArg, "(" + ShowNames(xs, ")" + k)).Ok?
    requires Parenthesised(OrderByArg, "(" + ShowNames(xs, ")" + k)).value == xs
    ensures Names(xs)
  {
    hide OrderByArg, More, ShowNames, Tag, Ws, List1, Names;
    var u := ShowNames(xs, ")" + k);
    TagOf("(", u);
    if xs == [] {
      NoNames();
    } else {
      assert List1(OrderByArg, ",", u).Ok?;
      ListHead(OrderByArg, ",", u, xs);
      ArgumentDark(u);
      ArgumentsAreNames(xs, ")" + k);
    }
  }

  // ---------- the exact condition ----------

  lemma Starts(t: string, u: string)
    ensures StartsWith(t, t + u)
  {
  }

  /** Printed clauses, plain or not, begin like clauses. */
  lemma PrintedStart(floats: real -> string, c: Clause, k: string)
    ensures ClauseStart(ShowClause(floats, c, k))
  {
    hide ShowPredicates, ShowProjections, ShowCall, Decimal, StartsWith;
    match c
    case MetadataWhere(ps) => Starts("WITH", " " + Lead("METADATA", Lead("WHERE", ShowPredicates(floats, ps, k))));
    case ProjectOn(ps) => Starts("PROJECT", " " + Lead("ON", ShowProjections(ps, k)));
    case Biased(b) => Starts("BIAS", " " + ShowCall(b.scoringFn, b.args, k));
    case Ordered(o) =>
      Starts("ORDER", " " + Lead("BY", ShowCall(o.scoringFn, o.args, if o.descending then " " + ("DESC" + k) else k)));
    case Limit(n) => Starts("LIMIT", " " + (Decimal(n) + k));
    case Offset(n) => Starts("OFFSET", " " + (Decimal(n) + k));
    case Within(n) =>
      var u := " " + (Decimal(n) + ("ms" + k));
      assert "WITHIN" + u == "WITH" + ("IN" + u);
      Starts("WITH", "IN" + u);
  }

  lemma PrintedNext(floats: real -> string, c: Clause, k: string)
    ensures Ws(Margin() + ShowClause(floats, c, k)) == ShowClause(floats, c, k) && ShowClause(floats, c, k) != []
    ensures ClauseEnd(Margin() + ShowClause(floats, c, k))
  {
    hide ShowClause, ClauseStart;
    PrintedStart(floats, c, k);
    StartLetter(ShowClause(floats, c, k));
    WsOf(Margin(), ShowClause(floats, c, k));
  }

  lemma PrintedEnds(floats: real -> string, cs: seq<Clause>)
    ensures ClauseEnd(ShowClauses(floats, cs, ""))
  {
    hide ShowClause, ClauseEnd;
    if cs == [] {
      NothingEnds();
    } else {
      PrintedNext(floats, cs[0], ShowClauses(floats, cs[1..], ""));
    }
  }

  lemma NothingEnds()
    ensures ClauseEnd("")
  {
  }

  /** Plain clauses in front are read one by one. */
  lemma {:induction false} LoopPrefix(floats: real -> string, q: Query, pre: seq<Clause>, cs: seq<Clause>)
    requires PlainClauses(Written(floats), pre) && Fits(q, pre)
    ensures ClauseLoop(q, ShowClauses(floats, pre + cs, "")) == ClauseLoop(PutAll(q, pre), ShowClauses(floats, cs, ""))
    decreases |pre|
  {
    hide ShowClause, AnyClause, ClauseEnd, Has, Put, PlainClause, Ws;
    if pre == [] {
      assert pre + cs == cs;
    } else {
      assert (pre + cs)[1..] == pre[1..] + cs;
      var k := ShowClauses(floats, pre[1..] + cs, "");
      PrintedNext(floats, pre[0], k);
      PrintedEnds(floats, pre[1..] + cs);
      ClauseOf(floats, pre[0], k);
      LoopPrefix(floats, Put(q, pre[0]), pre[1..], cs);
    }
  }

  /** A text that starts with ORDER is an ORDER BY clause or none. */
  lemma OrderOnly(u: string)
    ensures AnyClause("ORDER" + u) == OrderByClause("ORDER" + u)
  {
    hide MetadataWhereClause, ProjectOnClause, BiasClause, OrderByClause, LimitClause, Tag;
    var s := "ORDER" + u;
    ClauseMiss(s);
    TagMiss("OFFSET", s, 1);
    TagMiss("EN", s, 0);
  }

  /** Once read, a clause stays. */
  lemma {:induction false} LoopKeepsClause(q: Query, s: string, c: Clause)
    requires ClauseLoop(q, s).Ok? && Holds(q, c)
    ensures Holds(ClauseLoop(q, s).value, c)
    decreases |s|
  {
    hide AnyClause, Has, Put, Holds, Ws, SameKind;
    var rest := Ws(s);
    if rest != [] {
      var a := AnyClause(rest);
      if a.Ok? && !Has(q, a.value) {
        HoldsHas(q, c, a.value);
        SameKindSymmetric(c, a.value);
        PutHolds(q, a.value, c);
        LoopKeepsClause(Put(q, a.value), a.rest, c);
      }
    }
  }

  lemma OrderYieldsOrdered(s: string)
    ensures OrderByClause(s).Ok? ==> OrderByClause(s).value.Ordered?
  {
    hide Parenthesised, Identifier, Word, Direction;
  }

  /** If the loop, standing before a printed clause that cannot be read as another kind, ends with that
      clause in the query and nothing left over, the clause was read back as printed. */
  lemma ReadBack(floats: real -> string, q: Query, c: Clause, k: string, q': Query)
    requires Finish(ClauseLoop(q, Margin() + ShowClause(floats, c, k))) == Ok(q', "") && Holds(q', c)
    requires AnyClause(ShowClause(floats, c, k)).Ok? ==> SameKind(AnyClause(ShowClause(floats, c, k)).value, c)
    ensures AnyClause(ShowClause(floats, c, k)).Ok? && AnyClause(ShowClause(floats, c, k)).value == c
  {
    hide AnyClause, ShowClause, Ws, ClauseEnd;
    var s := ShowClause(floats, c, k);
    PrintedNext(floats, c, k);
    var a := AnyClause(s);
    assert a.Ok?;
    var q1 := Put(q, a.value);
    assert Holds(q1, a.value);
    LoopKeepsClause(q1, a.rest, a.value);
  }

  lemma OrderReadBack(floats: real -> string, q: Query, o: OrderBy, k: string, q': Query)
    requires Finish(ClauseLoop(q, Margin() + ShowClause(floats, Ordered(o), k))) == Ok(q', "")
    requires q'.orderBy == Some(o)
    ensures var r := OrderByClause(ShowClause(floats, Ordered(o), k)); r.Ok? && r.value == Ordered(o)
  {
    hide AnyClause, OrderByClause, ShowCall, ClauseLoop, Finish;
    var s := ShowClause(floats, Ordered(o), k);
    OrderOnly(" " + Lead("BY", ShowCall(o.scoringFn, o.args, if o.descending then " " + ("DESC" + k) else k)));
    assert AnyClause(s) == OrderByClause(s);
    OrderYieldsOrdered(s);
    ReadBack(floats, q, Ordered(o), k, q');
  }

  /** A text that starts with WITH and a space is a WHERE clause or none. */
  lemma WhereOnly(u: string)
    ensures AnyClause("WITH" + (" " + u)) == MetadataWhereClause("WITH" + (" " + u))
  {
    hide MetadataWhereClause, ProjectOnClause, BiasClause, OrderByClause, LimitClause, OffsetClause, Tag;
    var s := "WITH" + (" " + u);
    ClauseMiss(s);
    assert s[4] == ' ';
    TagMiss("WITHIN", s, 4);
    TagMiss("EN", s, 0);
  }

  lemma WhereYieldsWhere(s: string)
    ensures MetadataWhereClause(s).Ok? ==> MetadataWhereClause(s).value.MetadataWhere?
  {
    hide AndExpression, Word;
  }

  lemma WhereReadBack(floats: real -> string, q: Query, ps: seq<Predicate>, k: string, q': Query)
    requires Finish(ClauseLoop(q, Margin() + ShowClause(floats, MetadataWhere(ps), k))) == Ok(q', "")
    requires q'.metadataWhere == Some(ps)
    ensures var r := MetadataWhereClause(ShowClause(floats, MetadataWhere(ps), k));
            r.Ok? && r.value == MetadataWhere(ps)
  {
    hide AnyClause, MetadataWhereClause, ShowPredicates, ClauseLoop, Finish;
    var s := ShowClause(floats, MetadataWhere(ps), k);
    WhereOnly(Lead("METADATA", Lead("WHERE", ShowPredicates(floats, ps, k))));
    assert AnyClause(s) == MetadataWhereClause(s);
    WhereYieldsWhere(s);
    ReadBack(floats, q, MetadataWhere(ps), k, q');
  }

  /** The condition inside a WHERE clause that came back. */
  lemma ConditionReadBack(floats: real -> string, ps: seq<Predicate>, k: string)
    requires PlainWhere(AnyFloat, ps) && DecimalFloats(floats)
    requires MetadataWhereClause(ShowClause(floats, MetadataWhere(ps), k)).Ok?
    requires MetadataWhereClause(ShowClause(floats, MetadataWhere(ps), k)).value == MetadataWhere(ps)
    ensures AndExpression(ShowPredicates(floats, ps, k)).Ok?
            && AndExpression(ShowPredicates(floats, ps, k)).value == ps[0]
  {
    hide AndExpression, ShowPredicates, PlainWhere, Word, DecimalFloats;
    var u := ShowPredicates(floats, ps, k);
    OnePredicate(AnyFloat, ps);
    WhereDark(floats, ps, k);
    WordOf("WITH", " ", Lead("METADATA", Lead("WHERE", u)));
    WordOf("METADATA", " ", Lead("WHERE", u));
    WordOf("WHERE", " ", u);
  }

  lemma WhereDark(floats: real -> string, ps: seq<Predicate>, k: string)
    requires PlainWhere(AnyFloat, ps)
    ensures StartsDark(ShowPredicates(floats, ps, k))
  {
    if ps[0].And? {
      var bs := ps[0].predicates;
      assert ShowPredicates(floats, ps, k) == ShowPredicate(floats, ps[0], k) == ShowPredicates(floats, bs, k);
      FirstDark(floats, bs, k);
    } else {
      FirstDark(floats, ps, k);
    }
  }

  lemma FirstDark(floats: real -> string, bs: seq<Predicate>, k: string)
    requires bs != [] && PlainBase(AnyFloat, bs[0])
    ensures StartsDark(ShowPredicates(floats, bs, k))
  {
  }

  /** The WHERE clause is printed first, so nothing can stand in its way. */
  lemma WhereIsPlain(floats: real -> string, q: Query, f: Find, ps: seq<Predicate>)
    requires DecimalFloats(floats) && q.metadataWhere == Some(ps) && PlainWhere(AnyFloat, ps)
    requires Finish(ClauseLoop(Blank(f), ShowClauses(floats, ClausesOf(q), ""))) == Ok(q, "")
    ensures PlainWhere(Written(floats), ps)
  {
    hide ClauseLoop, Finish, ShowClause, MetadataWhereClause, PlainWhere, AndExpression, ShowPredicates, DecimalFloats;
    var cs := ClausesOf(q);
    var post := cs[1..];
    assert cs[0] == MetadataWhere(ps);
    var k := ShowClauses(floats, post, "");
    WhereReadBack(floats, Blank(f), ps, k, q);
    ConditionReadBack(floats, ps, k);
    PrintedEnds(floats, post);
    EndStops(k);
    WhereBack(floats, ps, k);
  }

  lemma PlainBefore(fl: Floats, q: Query, i: nat)
    requires i < |ClausesOf(q)| && ClausesOf(q)[i].Ordered?
    requires forall j :: 0 <= j < |ClausesOf(q)| ==> NearlyPlain(fl, ClausesOf(q)[j])
    ensures PlainClauses(fl, ClausesOf(q)[..i])
    ensures forall f :: Fits(Blank(f), ClausesOf(q)[..i])
  {
    hide ClausesOf, PlainClause, Fits;
    var cs := ClausesOf(q);
    ClausesOfDistinct(q);
    forall j | 0 <= j < i ensures PlainClause(fl, cs[j]) {
      assert !SameKind(cs[j], cs[i]);
      assert NearlyPlain(fl, cs[j]);
    }
    forall f ensures Fits(Blank(f), cs[..i]) {
      BlankHolds(f, cs[..i]);
      FitsIff(Blank(f), cs[..i]);
    }
  }

  lemma OrderArgumentsAreNames(floats: real -> string, q: Query, f: Find, o: OrderBy)
    requires q.orderBy == Some(o)
    requires forall j :: 0 <= j < |ClausesOf(q)| ==> NearlyPlain(Written(floats), ClausesOf(q)[j])
    requires Finish(ClauseLoop(Blank(f), ShowClauses(floats, ClausesOf(q), ""))) == Ok(q, "")
    ensures Names(o.args)
  {
    hide ClausesOf, ClauseLoop, Finish, ShowClause, Fits, PutAll, Names, OrderByClause;
    var cs := ClausesOf(q);
    ClausesOfHolds(q, Ordered(o));
    var i :| 0 <= i < |cs| && cs[i] == Ordered(o);
    var pre, post := cs[..i], cs[i + 1..];
    assert cs == pre + ([Ordered(o)] + post);
    PlainBefore(Written(floats), q, i);
    LoopPrefix(floats, Blank(f), pre, [Ordered(o)] + post);
    var k := ShowClauses(floats, post, "");
    assert ([Ordered(o)] + post)[1..] == post;
    OrderReadBack(floats, PutAll(Blank(f), pre), o, k, q);
    assert NearlyPlain(Written(floats), cs[i]);
    OrderedNames(floats, o, k);
  }

  /** A query survives printing and parsing exactly when it is plain, on every platform that prints floats
      as decimal numerals. */
  lemma RoundTripIff(floats: real -> string, q: Query)
    requires DecimalFloats(floats)
    ensures QueryOf(Display(floats, q)) == Ok(q, "") <==> PlainQuery(floats, q)
  {
    hide ClausesOf, PlainHead, PlainClause, ShowClauses, DecimalFloats, Head, ClauseLoop, NearlyPlain;
    if PlainQuery(floats, q) {
      RoundTrip(floats, q);
    }
    if QueryOf(Display(floats, q)) == Ok(q, "") {
      var s := Display(floats, q);
      QueryImage(s);
      var e := q.similarity.value;
      var clauses := ShowClauses(floats, ClausesOf(q), "");
      HeadOf(Find(q.find, e), clauses);
      var f := Find(q.find, e.(vector := None));
      assert Head(s) == Ok(f, clauses);
      LoopKeepsHead(Blank(f), clauses);
      if q.metadataWhere.Some? {
        WhereAlmostPlain(q);
        WhereIsPlain(floats, q, f, q.metadataWhere.value);
      }
      FloatsAreWritten(floats, q);
      if q.orderBy.Some? {
        OrderArgumentsAreNames(floats, q, f, q.orderBy.value);
      }
      NearlyPlainAreTruly(Written(floats), q);
    }
  }

  lemma WhereAlmostPlain(q: Query)
    requires forall j :: 0 <= j < |ClausesOf(q)| ==> NearlyPlain(AnyFloat, ClausesOf(q)[j])
    ensures q.metadataWhere.Some? ==> PlainWhere(AnyFloat, q.metadataWhere.value)
  {
    if q.metadataWhere.Some? {
      assert NearlyPlain(AnyFloat, ClausesOf(q)[0]);
    }
  }

  /** Only the WHERE clause holds floats. */
  lemma FloatsAreWritten(floats: real -> string, q: Query)
    requires forall j :: 0 <= j < |ClausesOf(q)| ==> NearlyPlain(AnyFloat, ClausesOf(q)[j])
    requires q.metadataWhere.Some? ==> PlainWhere(Written(floats), q.metadataWhere.value)
    ensures forall j :: 0 <= j < |ClausesOf(q)| ==> NearlyPlain(Written(floats), ClausesOf(q)[j])
  {
    hide ClausesOf, PlainWhere, Names, PlainProjections;
    var cs := ClausesOf(q);
    forall j | 0 <= j < |cs| ensures NearlyPlain(Written(floats), cs[j]) {
      assert NearlyPlain(AnyFloat, cs[j]) && cs[j] in cs;
      ClausesOfHolds(q, cs[j]);
    }
  }

  lemma NearlyPlainAreTruly(fl: Floats, q: Query)
    requires forall j :: 0 <= j < |ClausesOf(q)| ==> NearlyPlain(fl, ClausesOf(q)[j])
    requires q.orderBy.Some? ==> Names(q.orderBy.value.args)
    ensures PlainClauses(fl, ClausesOf(q))
  {
    hide ClausesOf, Names, PlainWhere, PlainProjections;
    var cs := ClausesOf(q);
    forall j | 0 <= j < |cs| ensures PlainClause(fl, cs[j]) {
      assert NearlyPlain(fl, cs[j]);
      assert cs[j] in cs;
      ClausesOfHolds(q, cs[j]);
    }
  }

  /** Printing normalises: a parsed query without vectors and quoted ORDER BY arguments, whose floats are
      written as they denote, is the parse of its own text. */
  lemma ParsedRoundTrip(floats: real -> string, s: string)
    requires QueryOf(s).Ok? && QueryOf(s).value.similarity.Some?
    requires QueryOf(s).value.similarity.value.vector.None?
    requires QueryOf(s).value.metadataWhere.Some? ==> PlainWhere(Written(floats), QueryOf(s).value.metadataWhere.value)
    requires QueryOf(s).value.orderBy.Some? ==> Names(QueryOf(s).value.orderBy.value.args)
    ensures QueryOf(Display(floats, QueryOf(s).value)) == Ok(QueryOf(s).value, "")
  {
    hide QueryOf, Display, ClausesOf, PlainHead, PlainClauses, NearlyPlain, PlainWhere;
    var q := QueryOf(s).value;
    QueryImage(s);
    FloatsAreWritten(floats, q);
    NearlyPlainAreTruly(Written(floats), q);
    RoundTrip(floats, q);
  }

  // ---------- a query that is lost ----------

  function VectorQuery(): Query {
    Blank(Find("SIMILARITY", SimilarityExpr("f", "", Some([1.0]))))
  }

  lemma OneIsOne()
    ensures All(IsDigit, "1") && All(IsDigit, "0") && FloatValueOf("1", "0") == 1.0
  {
    assert "1"[..0] == "" && "0"[..0] == "";
    assert DecimalValue("1") == 1 && DecimalValue("0") == 0;
  }

  lemma VectorOf(k: string)
    ensures VectorSource("VECTOR" + ("(" + ("1" + ("." + ("0" + (")" + k)))))) == Ok(Source("", Some([1.0])), k)
  {
    hide FloatLiteral, Ws, Tag, Word, FloatValueOf, Separator;
    OneIsOne();
    var u := "1" + ("." + ("0" + (")" + k)));
    assert "" + ("(" + u) == "(" + u;
    WordOf("VECTOR", "", "(" + u);
    OpenOf(u);
    FloatLiteralOf("1", "0", ")" + k);
    CloseOf(k);
    MoreStop(FloatLiteral, ",", ")" + k);
    assert [1.0] + [] == [1.0];
    WsNothing(")" + k);
    TagOf(")", k);
  }

  function VectorText(k: string): string {
    Lead("FIND", "SIMILARITY" + ("(" + ("f" + Lead(",", "VECTOR" + ("(" + ("1" + ("." + ("0" + (")" + (")" + k))))))))))
  }

  lemma VectorHead(k: string)
    ensures Head(VectorText(k)) == Ok(Find("SIMILARITY", SimilarityExpr("f", "", Some([1.0]))), k)
  {
    hide Ws, Tag, Word, VectorSource, TextSource, FieldName;
    var v := "VECTOR" + ("(" + ("1" + ("." + ("0" + (")" + (")" + k))))));
    var u := "f" + Lead(",", v);
    WordOf("FIND", " ", "SIMILARITY" + ("(" + u));
    FindTypeOf("SIMILARITY", "(" + u);
    OpenOf(u);
    FieldBefore("f", Lead(",", v));
    WordOf(",", " ", v);
    VectorOf(")" + k);
    WsNothing(")" + k);
    TagOf(")", k);
  }

  lemma BareQuery(f: Find, s: string)
    requires Head(s) == Ok(f, "")
    ensures QueryOf(s) == Ok(Blank(f), "")
  {
    hide Head, AnyClause;
    WsNothing("");
  }

  lemma NoClauses(f: Find)
    ensures ClausesOf(Blank(f)) == []
  {
  }

  lemma VectorParses()
    ensures QueryOf("FIND SIMILARITY(f, VECTOR(1.0))") == Ok(VectorQuery(), "")
  {
    hide Head, QueryOf;
    assert VectorText("") == "FIND SIMILARITY(f, VECTOR(1.0))";
    VectorHead("");
    BareQuery(Find("SIMILARITY", SimilarityExpr("f", "", Some([1.0]))), VectorText(""));
  }

  lemma VectorIsPlain(floats: real -> string)
    ensures PlainHead(Find("SIMILARITY", SimilarityExpr("f", "", Some([1.0]))))
    ensures PlainClauses(Written(floats), [])
  {
  }

  /** A query with a vector source parses, and its text parses to another query. */
  lemma VectorIsLost(floats: real -> string)
    ensures QueryOf("FIND SIMILARITY(f, VECTOR(1.0))") == Ok(VectorQuery(), "")
    ensures QueryOf(Display(floats, VectorQuery())).Ok?
    ensures QueryOf(Display(floats, VectorQuery())).value != VectorQuery()
  {
    hide Head, QueryOf, Display, ClausesOf, PlainHead, PlainClauses;
    VectorParses();
    VectorIsPlain(floats);
    NoClauses(Find("SIMILARITY", SimilarityExpr("f", "", Some([1.0]))));
    DisplayParses(floats, VectorQuery());
  }
}
