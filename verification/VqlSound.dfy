/** Soundness of the parser: every accepted text is the text of a syntax tree that means the query. */
module VqlSound {
  import opened Options
  import opened VqlLexer
  import opened VqlAst
  import opened VqlGrammar
  import opened VqlQuery
  import Syntax = VqlSyntax

  // ---------- tokens ----------

  lemma GapIff(g: string)
    ensures Syntax.Gap(g) <==> All(IsSpace, g)
  {
  }

  lemma NameIff(x: string)
    ensures Syntax.Name(x) <==> IsIdentifier(x)
  {
    assert forall i :: 0 <= i < |x| ==> (IsIdChar(x[i]) <==> Syntax.Letter(x[i]) || '0' <= x[i] <= '9');
  }

  lemma TimesTen(d: nat, t: nat)
    ensures Syntax.Times(d, 10 * t) == 10 * Syntax.Times(d, t)
  {
  }

  lemma TimesOne(d: nat)
    ensures Syntax.Times(d, Syntax.Tens(0)) == d
  {
  }

  lemma {:induction false} ValueSnoc(ds: string)
    requires ds != "" && forall i :: 0 <= i < |ds| ==> '0' <= ds[i] <= '9'
    ensures var n := |ds| - 1; Syntax.Value(ds) == 10 * Syntax.Value(ds[..n]) + (ds[n] as int - '0' as int)
    decreases |ds|
  {
    hide Syntax.Times;
    var n := |ds| - 1;
    var d: nat := ds[0] as int - '0' as int;
    if n == 0 {
      assert ds[1..] == "" && ds[..0] == "";
      TimesOne(d);
    } else {
      ValueSnoc(ds[1..]);
      assert ds[1..][..n - 1] == ds[..n][1..];
      TimesTen(d, Syntax.Tens(n - 1));
    }
  }

  lemma {:induction false} ValueIs(ds: string)
    requires All(IsDigit, ds)
    ensures Syntax.Value(ds) == DecimalValue(ds)
    decreases |ds|
  {
    if ds != "" {
      ValueSnoc(ds);
      ValueIs(ds[..|ds| - 1]);
    }
  }

  lemma {:induction false} TensIs(n: nat)
    ensures Syntax.Tens(n) == Power10(n)
  {
    if n > 0 {
      TensIs(n - 1);
    }
  }

  lemma TagSplits(t: string, s: string)
    requires Tag(t, s).Ok?
    ensures s == t + Tag(t, s).rest
  {
  }

  lemma WsSplits(s: string) returns (g: string)
    ensures Syntax.Gap(g) && s == g + Ws(s)
  {
    g := s[..Span(IsSpace, s)];
    GapIff(g);
  }

  lemma WordSplits(t: string, s: string) returns (g: string)
    requires Word(t, s).Ok?
    ensures Syntax.Gap(g) && s == t + (g + Word(t, s).rest)
  {
    hide Ws, Tag;
    TagSplits(t, s);
    g := WsSplits(Tag(t, s).rest);
  }

  lemma IdentifierSplits(s: string)
    requires Identifier(s).Ok?
    ensures Syntax.Name(Identifier(s).value) && s == Identifier(s).value + Identifier(s).rest
  {
    NameIff(Identifier(s).value);
  }

  lemma FieldSplits(s: string) returns (g: string)
    requires FieldName(s).Ok?
    ensures Syntax.Gap(g) && Syntax.Name(FieldName(s).value)
    ensures s == FieldName(s).value + (g + FieldName(s).rest)
  {
    hide Ws, Identifier;
    IdentifierSplits(s);
    g := WsSplits(Identifier(s).rest);
  }

  lemma StringSplits(s: string)
    requires StringLiteral(s).Ok?
    ensures Syntax.Unquoted(StringLiteral(s).value)
    ensures s == "'" + (StringLiteral(s).value + ("'" + StringLiteral(s).rest))
  {
    hide Tag;
    TagSplits("'", s);
    var u := Tag("'", s).rest;
    var n := Span(NotQuote, u);
    TagSplits("'", u[n..]);
    assert u == u[..n] + u[n..];
  }

  lemma DigitsSplit(s: string)
    requires Digits1(s).Ok?
    ensures Syntax.Numeral(Digits1(s).value) && s == Digits1(s).value + Digits1(s).rest
  {
  }

  lemma NumberSplits(max: nat, s: string) returns (ds: string)
    requires Number(max, s).Ok?
    ensures Syntax.Numeral(ds) && Syntax.Value(ds) == Number(max, s).value <= max && s == ds + Number(max, s).rest
  {
    hide Digits1;
    ds := Digits1(s).value;
    DigitsSplit(s);
    ValueIs(ds);
  }

  lemma FloatSplits(s: string) returns (whole: string, fraction: string)
    requires FloatLiteral(s).Ok?
    ensures Syntax.Numeral(whole) && Syntax.Numeral(fraction)
    ensures FloatLiteral(s).value == Syntax.DecimalsValue(whole, fraction)
    ensures s == whole + ("." + (fraction + FloatLiteral(s).rest))
  {
    hide Digits1, Tag;
    DigitsSplit(s);
    whole := Digits1(s).value;
    var u := Digits1(s).rest;
    TagSplits(".", u);
    var v := Tag(".", u).rest;
    DigitsSplit(v);
    fraction := Digits1(v).value;
    ValueIs(whole);
    ValueIs(fraction);
    TensIs(|fraction|);
  }

  // ---------- lists ----------

  ghost predicate ReadAs<U(!new), T(!new)>(elem: string -> Parse<T>, text: (U, string) -> string, means: (U, T) -> bool,
                                           s: string, u: U)
  {
    elem(s).Ok? && means(u, elem(s).value) && s == text(u, elem(s).rest)
  }

  /** Everything `elem` accepts is the text of a tree that means what it returns. */
  ghost predicate Sound<U(!new), T(!new)>(elem: string -> Parse<T>, text: (U, string) -> string, means: (U, T) -> bool)
  {
    forall s :: elem(s).Ok? ==> exists u :: ReadAs(elem, text, means, s, u)
  }

  lemma SeparatorSplits(t: string, s: string) returns (side: Syntax.Sides)
    requires Separator(t, s).Ok?
    ensures Syntax.Gap(side.before) && Syntax.Gap(side.after)
    ensures s == side.before + (t + (side.after + Separator(t, s).rest))
  {
    hide Word, Ws;
    var g := WsSplits(s);
    var g' := WordSplits(t, Ws(s));
    side := Syntax.Sides(g, g');
  }

  lemma {:induction false} MoreSplits<U(!new), T(!new)>(elem: string -> Parse<T>, text: (U, string) -> string,
                                                        means: (U, T) -> bool, t: string, s: string)
    returns (items: seq<U>, gaps: seq<Syntax.Sides>)
    requires Shrinks(elem) && Sound(elem, text, means)
    ensures |items| == |gaps| && Syntax.Sided(gaps) && Syntax.AllMean(means, items, More(elem, t, s).value)
    ensures s == Syntax.TailText(text, items, gaps, t, More(elem, t, s).rest)
    decreases |s|
  {
    items, gaps := [], [];
    var a := Separator(t, s);
    if a.Ok? {
      var b := elem(a.rest);
      if b.Ok? {
        hide Separator, More, Sound, Syntax.TailText, Syntax.AllMean, Syntax.Sided;
        var side := SeparatorSplits(t, s);
        var u := FirstRead(elem, text, means, a.rest);
        assert Consumed(a.rest, b);
        var us, gs := MoreSplits(elem, text, means, t, b.rest);
        MoreStep(elem, t, s, a.rest, b.value, b.rest);
        items, gaps := [u] + us, [side] + gs;
        TailMore(text, u, us, side, gs, t, More(elem, t, b.rest).rest);
        OneMoreMeans(means, u, us, b.value, More(elem, t, b.rest).value, side, gs);
      }
    }
  }

  lemma OneMoreMeans<U(!new), T(!new)>(means: (U, T) -> bool, u: U, us: seq<U>, v: T, vs: seq<T>,
                                       side: Syntax.Sides, gs: seq<Syntax.Sides>)
    requires means(u, v) && Syntax.AllMean(means, us, vs)
    requires Syntax.Gap(side.before) && Syntax.Gap(side.after) && Syntax.Sided(gs)
    ensures Syntax.AllMean(means, [u] + us, [v] + vs) && Syntax.Sided([side] + gs)
  {
  }

  lemma TailMore<U>(text: (U, string) -> string, u: U, us: seq<U>, side: Syntax.Sides, gs: seq<Syntax.Sides>,
                    t: string, k: string)
    requires |us| == |gs|
    ensures Syntax.TailText(text, [u] + us, [side] + gs, t, k) ==
            side.before + (t + (side.after + text(u, Syntax.TailText(text, us, gs, t, k))))
  {
    assert ([u] + us)[1..] == us && ([side] + gs)[1..] == gs;
  }

  lemma ListSplits<U(!new), T(!new)>(elem: string -> Parse<T>, text: (U, string) -> string, means: (U, T) -> bool,
                                     t: string, s: string)
    returns (items: seq<U>, gaps: seq<Syntax.Sides>)
    requires Shrinks(elem) && Sound(elem, text, means) && List1(elem, t, s).Ok?
    ensures items != [] && Syntax.ListFormed(items, gaps)
    ensures Syntax.AllMean(means, items, List1(elem, t, s).value)
    ensures s == Syntax.ListText(text, items, gaps, t, List1(elem, t, s).rest)
  {
    hide More, Syntax.TailText, Sound;
    var a := elem(s);
    var u := FirstRead(elem, text, means, s);
    var us, gs := MoreSplits(elem, text, means, t, a.rest);
    items, gaps := [u] + us, gs;
    assert items[1..] == us;
  }

  lemma FirstRead<U(!new), T(!new)>(elem: string -> Parse<T>, text: (U, string) -> string, means: (U, T) -> bool,
                                    s: string)
    returns (u: U)
    requires Sound(elem, text, means) && elem(s).Ok?
    ensures means(u, elem(s).value) && s == text(u, elem(s).rest)
  {
    u :| ReadAs(elem, text, means, s, u);
  }

  lemma List0Splits<U(!new), T(!new)>(elem: string -> Parse<T>, text: (U, string) -> string, means: (U, T) -> bool,
                                      t: string, s: string)
    returns (items: seq<U>, gaps: seq<Syntax.Sides>)
    requires Shrinks(elem) && Sound(elem, text, means)
    ensures Syntax.ListFormed(items, gaps)
    ensures Syntax.AllMean(means, items, List0(elem, t, s).value)
    ensures s == Syntax.ListText(text, items, gaps, t, List0(elem, t, s).rest)
  {
    hide List1, Sound;
    if List1(elem, t, s).Ok? {
      items, gaps := ListSplits(elem, text, means, t, s);
    } else {
      items, gaps := [], [];
    }
  }

  lemma ParenthesisedSplits<U(!new), T(!new)>(elem: string -> Parse<T>, text: (U, string) -> string,
                                              means: (U, T) -> bool, s: string)
    returns (items: seq<U>, gaps: seq<Syntax.Sides>)
    requires Shrinks(elem) && Sound(elem, text, means) && Parenthesised(elem, s).Ok?
    ensures Syntax.ListFormed(items, gaps)
    ensures Syntax.AllMean(means, items, Parenthesised(elem, s).value)
    ensures s == "(" + Syntax.ListText(text, items, gaps, ",", ")" + Parenthesised(elem, s).rest)
  {
    hide List0, Tag, Sound, Syntax.ListText, Syntax.AllMean;
    TagSplits("(", s);
    var u := Tag("(", s).rest;
    items, gaps := List0Splits(elem, text, means, ",", u);
    TagSplits(")", List0(elem, ",", u).rest);
  }

  // ---------- literals and predicates ----------

  lemma LiteralSound()
    ensures Sound(LiteralValue, Syntax.LiteralText, Syntax.LiteralMeans)
  {
    forall s | LiteralValue(s).Ok?
      ensures exists u :: ReadAs(LiteralValue, Syntax.LiteralText, Syntax.LiteralMeans, s, u)
    {
      var u := LiteralSplits(s);
      assert ReadAs(LiteralValue, Syntax.LiteralText, Syntax.LiteralMeans, s, u);
    }
  }

  lemma LiteralSplits(s: string) returns (l: Syntax.LiteralTree)
    requires LiteralValue(s).Ok?
    ensures Syntax.LiteralMeans(l, LiteralValue(s).value) && s == Syntax.LiteralText(l, LiteralValue(s).rest)
  {
    hide StringLiteral, FloatLiteral, Number, Tag;
    if StringLiteral(s).Ok? {
      StringSplits(s);
      l := Syntax.Text(StringLiteral(s).value);
    } else if Tag("true", s).Ok? {
      TagSplits("true", s);
      l := Syntax.Truth(true);
    } else if Tag("false", s).Ok? {
      TagSplits("false", s);
      l := Syntax.Truth(false);
    } else if FloatLiteral(s).Ok? {
      var whole, fraction := FloatSplits(s);
      l := Syntax.Decimals(whole, fraction);
    } else if Number(MaxI64, s).Ok? {
      var ds := NumberSplits(MaxI64, s);
      l := Syntax.Digits(ds);
    } else {
      TagSplits("null", s);
      l := Syntax.Nothing;
    }
  }

  lemma OperatorSplits(s: string) returns (symbol: string)
    requires Operator(s).Ok?
    ensures Syntax.Symbol(symbol, Operator(s).value) && s == symbol + Operator(s).rest
  {
    hide Tag;
    symbol := if Tag("!=", s).Ok? then "!=" else if Tag("<=", s).Ok? then "<=" else if Tag(">=", s).Ok? then ">="
              else if Tag("=", s).Ok? then "=" else if Tag("<", s).Ok? then "<" else ">";
    TagSplits(symbol, s);
  }

  lemma ComparisonSplits(s: string) returns (p: Syntax.PredicateTree)
    requires ComparisonPredicate(s).Ok?
    ensures Syntax.PredicateMeans(p, ComparisonPredicate(s).value)
    ensures s == Syntax.PredicateText(p, ComparisonPredicate(s).rest)
  {
    hide FieldName, Operator, LiteralValue, Ws, Syntax.LiteralText, Syntax.LiteralMeans;
    var g1 := FieldSplits(s);
    var u := FieldName(s).rest;
    var symbol := OperatorSplits(u);
    var g2 := WsSplits(Operator(u).rest);
    var value := LiteralSplits(Ws(Operator(u).rest));
    p := Syntax.Compares(FieldName(s).value, g1, symbol, g2, value);
  }

  lemma InSplits(s: string) returns (p: Syntax.PredicateTree)
    requires InPredicate(s).Ok?
    ensures Syntax.PredicateMeans(p, InPredicate(s).value) && s == Syntax.PredicateText(p, InPredicate(s).rest)
  {
    hide FieldName, Word, Parenthesised, Sound, Syntax.ListText, Syntax.AllMean, Syntax.ListFormed;
    LiteralSound();
    var g1 := FieldSplits(s);
    var u := FieldName(s).rest;
    var g2 := WordSplits("IN", u);
    var values, gaps := ParenthesisedSplits(LiteralValue, Syntax.LiteralText, Syntax.LiteralMeans, Word("IN", u).rest);
    p := Syntax.Among(FieldName(s).value, g1, g2, values, gaps);
  }

  lemma BetweenSplits(s: string) returns (p: Syntax.PredicateTree)
    requires BetweenPredicate(s).Ok?
    ensures Syntax.PredicateMeans(p, BetweenPredicate(s).value)
    ensures s == Syntax.PredicateText(p, BetweenPredicate(s).rest)
  {
    hide FieldName, Word, LiteralValue, Ws, Syntax.LiteralText, Syntax.LiteralMeans;
    var g1 := FieldSplits(s);
    var u := FieldName(s).rest;
    var g2 := WordSplits("BETWEEN", u);
    var v := Word("BETWEEN", u).rest;
    var low := LiteralSplits(v);
    var g3 := WsSplits(LiteralValue(v).rest);
    var w := Ws(LiteralValue(v).rest);
    var g4 := WordSplits("AND", w);
    var high := LiteralSplits(Word("AND", w).rest);
    p := Syntax.Ranges(FieldName(s).value, g1, g2, low, g3, g4, high);
  }

  lemma LikeSplits(s: string) returns (p: Syntax.PredicateTree)
    requires LikePredicate(s).Ok?
    ensures Syntax.PredicateMeans(p, LikePredicate(s).value) && s == Syntax.PredicateText(p, LikePredicate(s).rest)
  {
    hide FieldName, Word, StringLiteral;
    var g1 := FieldSplits(s);
    var u := FieldName(s).rest;
    var g2 := WordSplits("LIKE", u);
    var v := Word("LIKE", u).rest;
    StringSplits(v);
    p := Syntax.Matches(FieldName(s).value, g1, g2, StringLiteral(v).value);
  }

  lemma BaseSplits(s: string) returns (p: Syntax.PredicateTree)
    requires BasePredicate(s).Ok?
    ensures Syntax.PredicateMeans(p, BasePredicate(s).value) && s == Syntax.PredicateText(p, BasePredicate(s).rest)
  {
    hide InPredicate, BetweenPredicate, LikePredicate, ComparisonPredicate, Syntax.PredicateMeans, Syntax.PredicateText;
    if InPredicate(s).Ok? {
      p := InSplits(s);
    } else if BetweenPredicate(s).Ok? {
      p := BetweenSplits(s);
    } else if LikePredicate(s).Ok? {
      p := LikeSplits(s);
    } else {
      p := ComparisonSplits(s);
    }
  }

  lemma BaseSound()
    ensures Sound(BasePredicate, Syntax.PredicateText, Syntax.PredicateMeans)
  {
    hide BasePredicate, Syntax.PredicateText, Syntax.PredicateMeans;
    forall s | BasePredicate(s).Ok?
      ensures exists u :: ReadAs(BasePredicate, Syntax.PredicateText, Syntax.PredicateMeans, s, u)
    {
      var u := BaseSplits(s);
      assert ReadAs(BasePredicate, Syntax.PredicateText, Syntax.PredicateMeans, s, u);
    }
  }

  // ---------- FIND ----------

  lemma FloatSound()
    ensures Sound(FloatLiteral, Syntax.DecimalsText, Syntax.DecimalsMean)
  {
    hide FloatLiteral;
    forall s | FloatLiteral(s).Ok?
      ensures exists u :: ReadAs(FloatLiteral, Syntax.DecimalsText, Syntax.DecimalsMean, s, u)
    {
      var whole, fraction := FloatSplits(s);
      assert ReadAs(FloatLiteral, Syntax.DecimalsText, Syntax.DecimalsMean, s, Syntax.Pair(whole, fraction));
    }
  }

  lemma VectorSplits(s: string) returns (x: Syntax.SourceTree)
    requires VectorSource(s).Ok?
    ensures Syntax.SourceMeans(x, VectorSource(s).value.text, VectorSource(s).value.vector)
    ensures s == Syntax.SourceText(x, VectorSource(s).rest)
  {
    hide Word, Ws, Tag, List0, Sound, Syntax.ListText, Syntax.AllMean, Syntax.ListFormed;
    FloatSound();
    var g1 := WordSplits("VECTOR", s);
    var u := Word("VECTOR", s).rest;
    var g2 := WordSplits("(", u);
    var v := Word("(", u).rest;
    var values, gaps := List0Splits(FloatLiteral, Syntax.DecimalsText, Syntax.DecimalsMean, ",", v);
    var w := List0(FloatLiteral, ",", v).rest;
    var g3 := WsSplits(w);
    TagSplits(")", Ws(w));
    x := Syntax.Numbers(g1, g2, values, gaps, g3);
  }

  lemma SourceSplits(s: string) returns (x: Syntax.SourceTree)
    requires OrElse(VectorSource(s), TextSource(s)).Ok?
    ensures var r := OrElse(VectorSource(s), TextSource(s));
            Syntax.SourceMeans(x, r.value.text, r.value.vector) && s == Syntax.SourceText(x, r.rest)
  {
    hide VectorSource, StringLiteral;
    if VectorSource(s).Ok? {
      x := VectorSplits(s);
    } else {
      StringSplits(s);
      x := Syntax.Words(StringLiteral(s).value);
    }
  }

  lemma FindTypeSplits(s: string)
    requires OrElse(Const("SIMILARITY", Tag("SIMILARITY", s)), Const("SEMANTIC", Tag("SEMANTIC", s))).Ok?
    ensures var r := OrElse(Const("SIMILARITY", Tag("SIMILARITY", s)), Const("SEMANTIC", Tag("SEMANTIC", s)));
            (r.value == "SIMILARITY" || r.value == "SEMANTIC") && s == r.value + r.rest
  {
    hide Tag;
    TagSplits(if Tag("SIMILARITY", s).Ok? then "SIMILARITY" else "SEMANTIC", s);
  }

  lemma HeadSplits(s: string) returns (h: Syntax.HeadTree)
    requires Head(s).Ok?
    ensures Syntax.HeadMeans(h, Head(s).value.find, Head(s).value.similarity) && s == Syntax.HeadText(h, Head(s).rest)
  {
    hide Word, Tag, Ws, FieldName, VectorSource, TextSource, Syntax.SourceText, Syntax.SourceMeans;
    var g1 := WordSplits("FIND", s);
    var a := Word("FIND", s).rest;
    var kind := OrElse(Const("SIMILARITY", Tag("SIMILARITY", a)), Const("SEMANTIC", Tag("SEMANTIC", a)));
    FindTypeSplits(a);
    var g2 := WordSplits("(", kind.rest);
    var b := Word("(", kind.rest).rest;
    var g3 := FieldSplits(b);
    var c := FieldName(b).rest;
    var g4 := WordSplits(",", c);
    var d := Word(",", c).rest;
    var source := SourceSplits(d);
    var e := OrElse(VectorSource(d), TextSource(d)).rest;
    var g5 := WsSplits(e);
    TagSplits(")", Ws(e));
    h := Syntax.HeadTree(g1, kind.value, g2, FieldName(b).value, g3, g4, source, g5);
  }

  // ---------- clauses ----------

  lemma WhereSplits(s: string) returns (c: Syntax.ClauseTree)
    requires MetadataWhereClause(s).Ok?
    ensures Syntax.ClauseMeans(c, MetadataWhereClause(s).value)
    ensures s == Syntax.ClauseText(c, MetadataWhereClause(s).rest)
  {
    hide Word, BasePredicate, List1, Sound, Syntax.ListText, Syntax.PredicateMeans, Syntax.PredicateText;
    BaseSound();
    var g1 := WordSplits("WITH", s);
    var u := Word("WITH", s).rest;
    var g2 := WordSplits("METADATA", u);
    var v := Word("METADATA", u).rest;
    var g3 := WordSplits("WHERE", v);
    var w := Word("WHERE", v).rest;
    var items, gaps := ListSplits(BasePredicate, Syntax.PredicateText, Syntax.PredicateMeans, "AND", w);
    c := Syntax.Wheres(g1, g2, g3, items, gaps);
  }

  lemma ProjectionSplits(s: string) returns (p: Syntax.ProjectionTree)
    requires OneProjection(s).Ok?
    ensures Syntax.ProjectionMeans(p, OneProjection(s).value) && s == Syntax.ProjectionText(p, OneProjection(s).rest)
  {
    hide FunctionProjection, AliasedProjection, Identifier, Ws, Syntax.ProjectionMeans, Syntax.ProjectionText;
    var g0 := WsSplits(s);
    var u := Ws(s);
    if FunctionProjection(u).Ok? {
      p := CallSplits(g0, u);
    } else if AliasedProjection(u).Ok? {
      p := AliasSplits(g0, u);
    } else {
      p := FieldSplitsAlone(g0, u);
    }
  }

  lemma CallSplits(g0: string, s: string) returns (p: Syntax.ProjectionTree)
    requires FunctionProjection(s).Ok? && Syntax.Gap(g0)
    ensures Syntax.ProjectionMeans(p, FunctionProjection(s).value)
    ensures g0 + s == Syntax.ProjectionText(p, FunctionProjection(s).rest)
  {
    hide FieldName, Word, Tag;
    var g1 := FieldSplits(s);
    var u := FieldName(s).rest;
    var g2 := WordSplits("(", u);
    var v := Word("(", u).rest;
    var g3 := FieldSplits(v);
    TagSplits(")", FieldName(v).rest);
    p := Syntax.Called(g0, FieldName(s).value, g1, g2, FieldName(v).value, g3);
  }

  lemma AliasSplits(g0: string, s: string) returns (p: Syntax.ProjectionTree)
    requires AliasedProjection(s).Ok? && Syntax.Gap(g0)
    ensures Syntax.ProjectionMeans(p, AliasedProjection(s).value)
    ensures g0 + s == Syntax.ProjectionText(p, AliasedProjection(s).rest)
  {
    hide FieldName, Word, Identifier;
    var g1 := FieldSplits(s);
    var u := FieldName(s).rest;
    var g2 := WordSplits("AS", u);
    var v := Word("AS", u).rest;
    IdentifierSplits(v);
    p := Syntax.Renamed(g0, FieldName(s).value, g1, g2, Identifier(v).value);
  }

  lemma FieldSplitsAlone(g0: string, s: string) returns (p: Syntax.ProjectionTree)
    requires FieldProjection(s).Ok? && Syntax.Gap(g0)
    ensures Syntax.ProjectionMeans(p, FieldProjection(s).value)
    ensures g0 + s == Syntax.ProjectionText(p, FieldProjection(s).rest)
  {
    hide Identifier;
    IdentifierSplits(s);
    p := Syntax.Plain(g0, Identifier(s).value);
  }

  lemma ProjectionSound()
    ensures Sound(OneProjection, Syntax.ProjectionText, Syntax.ProjectionMeans)
  {
    hide OneProjection, Syntax.ProjectionText, Syntax.ProjectionMeans;
    forall s | OneProjection(s).Ok?
      ensures exists u :: ReadAs(OneProjection, Syntax.ProjectionText, Syntax.ProjectionMeans, s, u)
    {
      var u := ProjectionSplits(s);
      assert ReadAs(OneProjection, Syntax.ProjectionText, Syntax.ProjectionMeans, s, u);
    }
  }

  lemma ProjectSplits(s: string) returns (c: Syntax.ClauseTree)
    requires ProjectOnClause(s).Ok?
    ensures Syntax.ClauseMeans(c, ProjectOnClause(s).value) && s == Syntax.ClauseText(c, ProjectOnClause(s).rest)
  {
    hide Word, OneProjection, List1, Sound, Syntax.ListText, Syntax.ProjectionMeans, Syntax.ProjectionText;
    ProjectionSound();
    var g1 := WordSplits("PROJECT", s);
    var u := Word("PROJECT", s).rest;
    var g2 := WordSplits("ON", u);
    var v := Word("ON", u).rest;
    var items, gaps := ListSplits(OneProjection, Syntax.ProjectionText, Syntax.ProjectionMeans, ",", v);
    c := Syntax.Projects(g1, g2, items, gaps);
  }

  lemma NameSound()
    ensures Sound(Identifier, Syntax.NameText, Syntax.NameMeans)
  {
    hide Identifier, Syntax.Name;
    forall s | Identifier(s).Ok? ensures exists u :: ReadAs(Identifier, Syntax.NameText, Syntax.NameMeans, s, u) {
      IdentifierSplits(s);
      assert ReadAs(Identifier, Syntax.NameText, Syntax.NameMeans, s, Identifier(s).value);
    }
  }

  lemma ArgumentSplits(s: string) returns (a: Syntax.ArgumentTree)
    requires OrderByArg(s).Ok?
    ensures Syntax.ArgumentMeans(a, OrderByArg(s).value) && s == Syntax.ArgumentText(a, OrderByArg(s).rest)
  {
    hide StringLiteral, Identifier;
    if StringLiteral(s).Ok? {
      StringSplits(s);
      a := Syntax.Quote(StringLiteral(s).value);
    } else {
      IdentifierSplits(s);
      a := Syntax.Word(Identifier(s).value);
    }
  }

  lemma ArgumentSound()
    ensures Sound(OrderByArg, Syntax.ArgumentText, Syntax.ArgumentMeans)
  {
    hide OrderByArg, Syntax.ArgumentText, Syntax.ArgumentMeans;
    forall s | OrderByArg(s).Ok?
      ensures exists u :: ReadAs(OrderByArg, Syntax.ArgumentText, Syntax.ArgumentMeans, s, u)
    {
      var u := ArgumentSplits(s);
      assert ReadAs(OrderByArg, Syntax.ArgumentText, Syntax.ArgumentMeans, s, u);
    }
  }

  lemma DirectionSplits(s: string) returns (d: Syntax.DirectionTree)
    ensures Syntax.DirectionMeans(d, Direction(s).value) && s == Syntax.DirectionText(d, Direction(s).rest)
  {
    hide Tag, Ws;
    var g := WsSplits(s);
    if Tag("DESC", Ws(s)).Ok? {
      TagSplits("DESC", Ws(s));
      d := Syntax.Down(g);
    } else if Tag("ASC", Ws(s)).Ok? {
      TagSplits("ASC", Ws(s));
      d := Syntax.Up(g);
    } else {
      d := Syntax.Unsaid;
    }
  }

  lemma BiasSplits(s: string) returns (c: Syntax.ClauseTree)
    requires BiasClause(s).Ok?
    ensures Syntax.ClauseMeans(c, BiasClause(s).value) && s == Syntax.ClauseText(c, BiasClause(s).rest)
  {
    hide Word, Identifier, Parenthesised, Sound, Syntax.ListText, Syntax.AllMean, Syntax.ListFormed;
    NameSound();
    var g1 := WordSplits("BIAS", s);
    var u := Word("BIAS", s).rest;
    IdentifierSplits(u);
    var v := Identifier(u).rest;
    var names, gaps := ParenthesisedSplits(Identifier, Syntax.NameText, Syntax.NameMeans, v);
    c := Syntax.Biases(g1, Identifier(u).value, names, gaps);
  }

  lemma OrderSplits(s: string) returns (c: Syntax.ClauseTree)
    requires OrderByClause(s).Ok?
    ensures Syntax.ClauseMeans(c, OrderByClause(s).value) && s == Syntax.ClauseText(c, OrderByClause(s).rest)
  {
    hide Word, Identifier, Parenthesised, Direction, Sound, Syntax.ListText, Syntax.AllMean, Syntax.ListFormed;
    hide Syntax.DirectionText, Syntax.DirectionMeans;
    ArgumentSound();
    var g1 := WordSplits("ORDER", s);
    var u := Word("ORDER", s).rest;
    var g2 := WordSplits("BY", u);
    var v := Word("BY", u).rest;
    IdentifierSplits(v);
    var w := Identifier(v).rest;
    var args, gaps := ParenthesisedSplits(OrderByArg, Syntax.ArgumentText, Syntax.ArgumentMeans, w);
    var direction := DirectionSplits(Parenthesised(OrderByArg, w).rest);
    c := Syntax.Orders(g1, g2, Identifier(v).value, args, gaps, direction);
  }

  lemma LimitSplits(s: string) returns (c: Syntax.ClauseTree)
    requires LimitClause(s).Ok?
    ensures Syntax.ClauseMeans(c, LimitClause(s).value) && s == Syntax.ClauseText(c, LimitClause(s).rest)
  {
    hide Word, Number;
    var g1 := WordSplits("LIMIT", s);
    var ds := NumberSplits(MaxU64, Word("LIMIT", s).rest);
    c := Syntax.Limits(g1, ds);
  }

  lemma OffsetSplits(s: string) returns (c: Syntax.ClauseTree)
    requires OffsetClause(s).Ok?
    ensures Syntax.ClauseMeans(c, OffsetClause(s).value) && s == Syntax.ClauseText(c, OffsetClause(s).rest)
  {
    hide Word, Number;
    var g1 := WordSplits("OFFSET", s);
    var ds := NumberSplits(MaxU64, Word("OFFSET", s).rest);
    c := Syntax.Offsets(g1, ds);
  }

  lemma BudgetSplits(keyword: string, s: string) returns (c: Syntax.ClauseTree)
    requires (keyword == "WITHIN" || keyword == "EN") && BudgetClause(keyword, s).Ok?
    ensures Syntax.ClauseMeans(c, BudgetClause(keyword, s).value)
    ensures s == Syntax.ClauseText(c, BudgetClause(keyword, s).rest)
  {
    hide Word, Number, Tag;
    var g1 := WordSplits(keyword, s);
    var u := Word(keyword, s).rest;
    var ds := NumberSplits(MaxU64, u);
    TagSplits("ms", Number(MaxU64, u).rest);
    c := Syntax.Budgets(keyword, g1, ds);
  }

  lemma ClauseSplits(s: string) returns (c: Syntax.ClauseTree)
    requires AnyClause(s).Ok?
    ensures Syntax.ClauseMeans(c, AnyClause(s).value) && s == Syntax.ClauseText(c, AnyClause(s).rest)
  {
    hide MetadataWhereClause, ProjectOnClause, BiasClause, OrderByClause, LimitClause, OffsetClause, BudgetClause;
    hide Syntax.ClauseMeans, Syntax.ClauseText;
    if MetadataWhereClause(s).Ok? {
      c := WhereSplits(s);
    } else if ProjectOnClause(s).Ok? {
      c := ProjectSplits(s);
    } else if BiasClause(s).Ok? {
      c := BiasSplits(s);
    } else if OrderByClause(s).Ok? {
      c := OrderSplits(s);
    } else if LimitClause(s).Ok? {
      c := LimitSplits(s);
    } else if OffsetClause(s).Ok? {
      c := OffsetSplits(s);
    } else if BudgetClause("WITHIN", s).Ok? {
      c := BudgetSplits("WITHIN", s);
    } else {
      c := BudgetSplits("EN", s);
    }
  }

  // ---------- queries ----------

  lemma {:induction false} LoopSplits(q: Query, s: string)
    returns (parts: seq<Syntax.PartTree>, cs: seq<Clause>)
    requires ClauseLoop(q, s).Ok?
    ensures Syntax.PartsMean(parts, cs) && s == Syntax.PartsText(parts, ClauseLoop(q, s).rest)
    ensures Fits(q, cs) && ClauseLoop(q, s).value == PutAll(q, cs)
    decreases |s|
  {
    hide Ws, AnyClause, Has, Put, Syntax.ClauseText, Syntax.ClauseMeans;
    var u := Ws(s);
    var r := AnyClause(u);
    if u == "" || r.Fail? {
      parts, cs := [], [];
    } else {
      var gap := WsSplits(s);
      var c := ClauseSplits(u);
      var ps, ds := LoopSplits(Put(q, r.value), r.rest);
      parts, cs := [Syntax.PartTree(gap, c)] + ps, [r.value] + ds;
      assert parts[1..] == ps && cs[1..] == ds;
    }
  }

  /** Every accepted text is the text of a syntax tree: the query has the head the tree means and exactly the
      clauses its parts mean, no two of a kind, and no OFFSET without LIMIT. */
  lemma QuerySound(s: string) returns (t: Syntax.QueryTree, cs: seq<Clause>)
    requires QueryOf(s).Ok?
    ensures QueryOf(s).rest == "" && s == Syntax.QueryText(t)
    ensures var q := QueryOf(s).value;
            && q.similarity.Some? && Syntax.HeadMeans(t.head, q.find, q.similarity.value)
            && Syntax.PartsMean(t.parts, cs) && Syntax.Gap(t.tail)
            && DistinctKinds(cs) && (q.offset.Some? ==> q.limit.Some?)
            && forall c :: Holds(q, c) <==> c in cs
  {
    hide Head, ClauseLoop, Ws, Syntax.HeadMeans, Syntax.HeadText, Syntax.PartsText, Syntax.PartsMean;
    hide Fits, PutAll, Holds;
    var h := HeadSplits(s);
    var f, u := Head(s).value, Head(s).rest;
    var parts;
    parts, cs := LoopSplits(Blank(f), u);
    var tail := WsSplits(ClauseLoop(Blank(f), u).rest);
    assert tail + "" == tail;
    t := Syntax.QueryTree(h, parts, tail);
    FitsIff(Blank(f), cs);
    BlankHolds(f, cs);
    forall c ensures Holds(QueryOf(s).value, c) <==> c in cs {
      PutAllHolds(Blank(f), cs, c);
    }
    PutAllHolds(Blank(f), cs, Limit(0));
  }
}
