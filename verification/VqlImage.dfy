/** What the parsers can produce at all. */
module VqlImage {
  import opened Options
  import opened VqlLexer
  import opened VqlAst
  import opened VqlGrammar
  import opened VqlPrint
  import opened VqlQuery
  import opened VqlRoundTrip

  // ---------- what the parsers produce ----------

  ghost predicate Produced<T(!new)>(elem: string -> Parse<T>, x: T) {
    exists u :: elem(u).Ok? && elem(u).value == x
  }

  ghost predicate AllProduced<T(!new)>(elem: string -> Parse<T>, xs: seq<T>) {
    forall i :: 0 <= i < |xs| ==> Produced(elem, xs[i])
  }

  lemma ProducedCons<T(!new)>(elem: string -> Parse<T>, x: T, xs: seq<T>)
    requires Produced(elem, x) && AllProduced(elem, xs)
    ensures AllProduced(elem, [x] + xs)
  {
    hide Produced;
    forall i | 0 <= i < |xs| + 1 ensures Produced(elem, ([x] + xs)[i]) {
      if i > 0 {
        assert Produced(elem, xs[i - 1]);
      }
    }
  }

  lemma {:induction false} MoreProduced<T(!new)>(elem: string -> Parse<T>, t: string, s: string)
    requires Shrinks(elem)
    ensures AllProduced(elem, More(elem, t, s).value)
    decreases |s|
  {
    var a := Separator(t, s);
    if a.Ok? {
      var b := elem(a.rest);
      assert Consumed(a.rest, b);
      if b.Ok? {
        MoreProduced(elem, t, b.rest);
        assert Produced(elem, b.value);
        ProducedCons(elem, b.value, More(elem, t, b.rest).value);
      }
    }
  }

  lemma ListProduced<T(!new)>(elem: string -> Parse<T>, t: string, s: string)
    requires Shrinks(elem)
    ensures List1(elem, t, s).Ok? ==> AllProduced(elem, List1(elem, t, s).value)
    ensures AllProduced(elem, List0(elem, t, s).value)
  {
    hide More, AllProduced;
    NoneProduced(elem);
    var a := elem(s);
    if a.Ok? {
      assert Produced(elem, a.value);
      MoreProduced(elem, t, a.rest);
      ProducedCons(elem, a.value, More(elem, t, a.rest).value);
    }
  }

  lemma NoneProduced<T(!new)>(elem: string -> Parse<T>)
    ensures AllProduced(elem, [])
  {
  }

  lemma ParenthesisedProduced<T(!new)>(elem: string -> Parse<T>, s: string)
    requires Shrinks(elem) && Parenthesised(elem, s).Ok?
    ensures AllProduced(elem, Parenthesised(elem, s).value)
  {
    hide List0, AllProduced;
    ListProduced(elem, ",", Tag("(", s).rest);
  }

  lemma LiteralImage(s: string)
    requires LiteralValue(s).Ok?
    ensures PlainLiteral(AnyFloat, LiteralValue(s).value)
  {
  }

  lemma LiteralsImage(ls: seq<Literal>)
    requires forall i :: 0 <= i < |ls| ==> Produced(LiteralValue, ls[i])
    ensures PlainLiterals(AnyFloat, ls)
  {
    hide LiteralValue;
    forall i | 0 <= i < |ls| ensures PlainLiteral(AnyFloat, ls[i]) {
      assert Produced(LiteralValue, ls[i]);
      var u :| LiteralValue(u).Ok? && LiteralValue(u).value == ls[i];
      LiteralImage(u);
    }
  }

  lemma InImage(s: string)
    ensures InPredicate(s).Ok? ==> PlainBase(AnyFloat, InPredicate(s).value)
  {
    hide Parenthesised, FieldName, LiteralValue;
    if InPredicate(s).Ok? {
      var u := Word("IN", FieldName(s).rest).rest;
      ParenthesisedProduced(LiteralValue, u);
      LiteralsImage(Parenthesised(LiteralValue, u).value);
    }
  }

  lemma BetweenImage(s: string)
    ensures BetweenPredicate(s).Ok? ==> PlainBase(AnyFloat, BetweenPredicate(s).value)
  {
    hide FieldName, LiteralValue;
    if BetweenPredicate(s).Ok? {
      var u := Word("BETWEEN", FieldName(s).rest).rest;
      LiteralImage(u);
      LiteralImage(Word("AND", Ws(LiteralValue(u).rest)).rest);
    }
  }

  lemma ComparisonImage(s: string)
    ensures ComparisonPredicate(s).Ok? ==> PlainBase(AnyFloat, ComparisonPredicate(s).value)
  {
    hide FieldName, LiteralValue, Operator;
    if ComparisonPredicate(s).Ok? {
      LiteralImage(Ws(Operator(FieldName(s).rest).rest));
    }
  }

  lemma LikeImage(s: string)
    ensures LikePredicate(s).Ok? ==> PlainBase(AnyFloat, LikePredicate(s).value)
  {
    hide FieldName, StringLiteral, Word;
  }

  lemma BaseImage(s: string)
    ensures BasePredicate(s).Ok? ==> PlainBase(AnyFloat, BasePredicate(s).value)
  {
    hide InPredicate, BetweenPredicate, LikePredicate, ComparisonPredicate, PlainBase;
    InImage(s);
    BetweenImage(s);
    LikeImage(s);
    ComparisonImage(s);
  }

  lemma BasesImage(ps: seq<Predicate>)
    requires forall i :: 0 <= i < |ps| ==> Produced(BasePredicate, ps[i])
    ensures PlainBases(AnyFloat, ps)
  {
    hide BasePredicate, PlainBase;
    forall i | 0 <= i < |ps| ensures PlainBase(AnyFloat, ps[i]) {
      assert Produced(BasePredicate, ps[i]);
      var u :| BasePredicate(u).Ok? && BasePredicate(u).value == ps[i];
      BaseImage(u);
    }
  }

  lemma WhereImage(s: string)
    ensures AndExpression(s).Ok? ==> PlainWhere(AnyFloat, [AndExpression(s).value])
  {
    hide BasePredicate, List1, PlainBase;
    if AndExpression(s).Ok? {
      var ps := List1(BasePredicate, "AND", s).value;
      ListProduced(BasePredicate, "AND", s);
      BasesImage(ps);
    }
  }

  lemma ProjectionImage(s: string)
    ensures OneProjection(s).Ok? ==> PlainProjection(OneProjection(s).value)
  {
    hide FieldName, Identifier, Ws, Word;
  }

  lemma ProjectionsImage(s: string)
    ensures List1(OneProjection, ",", s).Ok? ==> PlainProjections(List1(OneProjection, ",", s).value)
  {
    hide OneProjection, PlainProjection, List1;
    if List1(OneProjection, ",", s).Ok? {
      var ps := List1(OneProjection, ",", s).value;
      ListProduced(OneProjection, ",", s);
      forall i | 0 <= i < |ps| ensures PlainProjection(ps[i]) {
        assert Produced(OneProjection, ps[i]);
        var u :| OneProjection(u).Ok? && OneProjection(u).value == ps[i];
        ProjectionImage(u);
      }
    }
  }

  lemma NamesImage(s: string)
    ensures Parenthesised(Identifier, s).Ok? ==> Names(Parenthesised(Identifier, s).value)
  {
    hide Identifier, Parenthesised;
    if Parenthesised(Identifier, s).Ok? {
      var xs := Parenthesised(Identifier, s).value;
      ParenthesisedProduced(Identifier, s);
      forall i | 0 <= i < |xs| ensures IsIdentifier(xs[i]) {
        assert Produced(Identifier, xs[i]);
        var u :| Identifier(u).Ok? && Identifier(u).value == xs[i];
      }
    }
  }

  /** All of PlainClause but the shape of ORDER BY arguments. */
  ghost predicate NearlyPlain(fl: Floats, c: Clause) {
    if c.Ordered? then IsIdentifier(c.orderBy.scoringFn) else PlainClause(fl, c)
  }

  lemma WhereClauseImage(s: string)
    ensures MetadataWhereClause(s).Ok? ==> PlainClause(AnyFloat, MetadataWhereClause(s).value)
  {
    hide AndExpression, Word, PlainWhere;
    if MetadataWhereClause(s).Ok? {
      var u := Word("WHERE", Word("METADATA", Word("WITH", s).rest).rest).rest;
      var c := MetadataWhereClause(s).value;
      assert c == MetadataWhere([AndExpression(u).value]);
      WhereImage(u);
    }
  }

  lemma ProjectClauseImage(s: string)
    ensures ProjectOnClause(s).Ok? ==> PlainClause(AnyFloat, ProjectOnClause(s).value)
  {
    hide List1, Word, OneProjection, PlainProjections;
    if ProjectOnClause(s).Ok? {
      ProjectionsImage(Word("ON", Word("PROJECT", s).rest).rest);
    }
  }

  lemma BiasClauseImage(s: string)
    ensures BiasClause(s).Ok? ==> PlainClause(AnyFloat, BiasClause(s).value)
  {
    hide Identifier, Word, Parenthesised, Names;
    if BiasClause(s).Ok? {
      NamesImage(Identifier(Word("BIAS", s).rest).rest);
    }
  }

  lemma OrderClauseImage(s: string)
    ensures OrderByClause(s).Ok? ==> NearlyPlain(AnyFloat, OrderByClause(s).value)
  {
    hide Identifier, Word, Parenthesised, Direction, Ws;
  }

  lemma ClauseImage(s: string)
    ensures AnyClause(s).Ok? ==> NearlyPlain(AnyFloat, AnyClause(s).value)
  {
    hide MetadataWhereClause, ProjectOnClause, BiasClause, OrderByClause, Word, Number, Tag,
         PlainWhere, PlainProjections, Names;
    WhereClauseImage(s);
    ProjectClauseImage(s);
    BiasClauseImage(s);
    OrderClauseImage(s);
  }

  lemma HeadImage(s: string)
    ensures Head(s).Ok? ==> PlainHead(Head(s).value)
  {
    hide FieldName, VectorLiteral, StringLiteral, Word, Ws;
    assert All(NotQuote, "");
  }

  /** The loop only ever adds clauses it parsed. */
  lemma {:induction false} LoopImage(q: Query, s: string, c: Clause)
    requires ClauseLoop(q, s).Ok? && Holds(ClauseLoop(q, s).value, c)
    ensures Holds(q, c) || Produced(AnyClause, c)
    decreases |s|
  {
    hide AnyClause, Has, Put, Holds, Ws;
    var rest := Ws(s);
    if rest != [] {
      var a := AnyClause(rest);
      if a.Ok? {
        LoopImage(Put(q, a.value), a.rest, c);
        PutHolds(q, a.value, c);
        assert Produced(AnyClause, a.value);
      }
    }
  }

  lemma {:induction false} LoopKeepsHead(q: Query, s: string)
    requires ClauseLoop(q, s).Ok?
    ensures ClauseLoop(q, s).value.find == q.find && ClauseLoop(q, s).value.similarity == q.similarity
    decreases |s|
  {
    hide AnyClause, Has, Put, Ws;
    var rest := Ws(s);
    if rest != [] {
      var a := AnyClause(rest);
      if a.Ok? {
        LoopKeepsHead(Put(q, a.value), a.rest);
        PutHolds(q, a.value, a.value);
      }
    }
  }

  /** Everything the parser returns is a plain query but for floats, vectors and ORDER BY arguments. */
  lemma QueryImage(s: string)
    requires QueryOf(s).Ok?
    ensures var q := QueryOf(s).value;
            && q.similarity.Some? && PlainHead(Find(q.find, q.similarity.value))
            && (forall i :: 0 <= i < |ClausesOf(q)| ==> NearlyPlain(AnyFloat, ClausesOf(q)[i]))
            && (q.offset.Some? ==> q.limit.Some?)
  {
    hide Head, AnyClause, PlainHead, ClausesOf, NearlyPlain, ClauseLoop;
    var f := Head(s);
    var q := QueryOf(s).value;
    HeadImage(s);
    LoopKeepsHead(Blank(f.value), f.rest);
    forall c | c in ClausesOf(q) ensures NearlyPlain(AnyFloat, c) {
      ClausesOfHolds(q, c);
      BlankHolds(f.value, []);
      LoopImage(Blank(f.value), f.rest, c);
      var u :| AnyClause(u).Ok? && AnyClause(u).value == c;
      ClauseImage(u);
    }
  }
}
