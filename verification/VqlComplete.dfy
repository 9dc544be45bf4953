/** Completeness of the parser: the text of every well-spaced syntax tree is accepted with its meaning. */
module VqlComplete {
  import opened Options
  import opened VqlLexer
  import opened VqlAst
  import opened VqlGrammar
  import opened VqlPrint
  import opened VqlQuery
  import opened VqlRoundTrip
  import opened VqlSound
  import Syntax = VqlSyntax

  // ---------- trees whose words do not run together ----------

  ghost predicate SpacedPredicate(p: Syntax.PredicateTree, v: Predicate) {
    && Syntax.PredicateMeans(p, v)
    && (!p.Compares? ==> p.g1 != "")
    && (p.Ranges? ==> p.g3 != "")
  }

  ghost predicate SpacedProjection(p: Syntax.ProjectionTree, v: Projection) {
    Syntax.ProjectionMeans(p, v) && p.g0 == "" && (p.Renamed? ==> p.g1 != "")
  }

  ghost predicate SpacedHead(h: Syntax.HeadTree, find: string, e: SimilarityExpr) {
    Syntax.HeadMeans(h, find, e) && (h.source.Numbers? && h.source.values == [] ==> h.source.g3 == "")
  }

  ghost predicate SpacedClause(c: Syntax.ClauseTree, v: Clause) {
    && Syntax.ClauseMeans(c, v)
    && (c.Wheres? ==>
          && (forall i :: 0 <= i < |c.gaps| ==> c.gaps[i].before != "")
          && forall i :: 0 <= i < |c.items| ==>
               (!c.items[i].Compares? ==> c.items[i].g1 != "") && (c.items[i].Ranges? ==> c.items[i].g3 != ""))
    && (c.Projects? ==>
          forall i :: 0 <= i < |c.projections| ==>
            c.projections[i].g0 == "" && (c.projections[i].Renamed? ==> c.projections[i].g1 != ""))
  }

  // ---------- tokens ----------

  lemma GapThen(g: string, u: string)
    requires Syntax.Gap(g) && StartsDark(u)
    ensures Ws(g + u) == u
  {
    GapIff(g);
    WsOf(g, u);
  }

  lemma WordThen(t: string, g: string, u: string)
    requires Syntax.Gap(g) && StartsDark(u)
    ensures Word(t, t + (g + u)) == Ok((), u)
  {
    GapIff(g);
    WordOf(t, g, u);
  }

  /** An identifier and the gap behind it. */
  lemma FieldThen(field: string, g: string, u: string)
    requires Syntax.Name(field) && Syntax.Gap(g) && StartsDark(u) && (g != "" || !IsIdChar(u[0]))
    ensures FieldName(field + (g + u)) == Ok(field, u)
    ensures StartsDark(field + (g + u))
  {
    hide Ws, Identifier;
    NameIff(field);
    assert g != "" ==> (g + u)[0] == g[0];
    IdentifierOf(field, g + u);
    GapThen(g, u);
  }

  lemma SeparatorThen(t: string, side: Syntax.Sides, u: string)
    requires Syntax.Gap(side.before) && Syntax.Gap(side.after) && StartsDark(t) && StartsDark(u)
    ensures Separator(t, side.before + (t + (side.after + u))) == Ok((), u)
  {
    hide Ws, Word;
    assert (t + (side.after + u))[0] == t[0];
    GapThen(side.before, t + (side.after + u));
    WordThen(t, side.after, u);
  }

  lemma NumberThen(max: nat, ds: string, k: string)
    requires Syntax.Numeral(ds) && Syntax.Value(ds) <= max && Stops(IsDigit, k)
    ensures Number(max, ds + k) == Ok(Syntax.Value(ds), k) && StartsDark(ds + k)
  {
    DigitsOf(ds, k);
    ValueIs(ds);
  }

  // ---------- lists ----------

  /** `elem` reads the text of every tree back, whatever follows that `follow` allows. */
  ghost predicate Complete<U(!new), T(!new)>(elem: string -> Parse<T>, text: (U, string) -> string,
                                             means: (U, T) -> bool, follow: string -> bool)
  {
    forall u, v, k :: means(u, v) && follow(k) ==> elem(text(u, k)) == Ok(v, k) && StartsDark(text(u, k))
  }

  /** What follows an element inside the list is allowed. */
  ghost predicate GapsFollow(gaps: seq<Syntax.Sides>, t: string, follow: string -> bool) {
    forall i, u :: 0 <= i < |gaps| && StartsDark(u) ==> follow(gaps[i].before + (t + (gaps[i].after + u)))
  }

  lemma {:induction false} ListThen<U(!new), T(!new)>(elem: string -> Parse<T>, text: (U, string) -> string,
                                                      means: (U, T) -> bool, follow: string -> bool,
                                                      items: seq<U>, gaps: seq<Syntax.Sides>, vs: seq<T>,
                                                      t: string, k: string)
    requires Shrinks(elem) && Complete(elem, text, means, follow) && StartsDark(t)
    requires items != [] && Syntax.ListFormed(items, gaps) && Syntax.AllMean(means, items, vs)
    requires GapsFollow(gaps, t, follow) && follow(k) && NoSeparator(t, k)
    ensures List1(elem, t, Syntax.ListText(text, items, gaps, t, k)) == Ok(vs, k)
    ensures StartsDark(Syntax.ListText(text, items, gaps, t, k))
  {
    hide Separator, More;
    if |items| == 1 {
      MoreStop(elem, t, k);
      assert [vs[0]] + [] == vs;
    } else {
      var u := Syntax.ListText(text, items[1..], gaps[1..], t, k);
      ListThen(elem, text, means, follow, items[1..], gaps[1..], vs[1..], t, k);
      SeparatorThen(t, gaps[0], u);
      var mid := gaps[0].before + (t + (gaps[0].after + u));
      assert follow(mid);
      assert Syntax.ListText(text, items, gaps, t, k) == text(items[0], mid);
      ListStep(elem, t, text(items[0], mid), mid, u, vs, k);
    }
  }

  lemma ParenthesisedThen<U(!new), T(!new)>(elem: string -> Parse<T>, text: (U, string) -> string,
                                            means: (U, T) -> bool, follow: string -> bool,
                                            items: seq<U>, gaps: seq<Syntax.Sides>, vs: seq<T>, k: string)
    requires Shrinks(elem) && Complete(elem, text, means, follow)
    requires Syntax.ListFormed(items, gaps) && Syntax.AllMean(means, items, vs)
    requires GapsFollow(gaps, ",", follow) && follow(")" + k) && elem(")" + k) == Fail
    ensures Parenthesised(elem, "(" + Syntax.ListText(text, items, gaps, ",", ")" + k)) == Ok(vs, k)
  {
    hide Tag, Complete, GapsFollow, Syntax.TailText;
    TagOf("(", Syntax.ListText(text, items, gaps, ",", ")" + k));
    CloseOf(k);
    TagOf(")", k);
    if items != [] {
      ListThen(elem, text, means, follow, items, gaps, vs, ",", ")" + k);
    }
  }

  lemma CommaFollows(gaps: seq<Syntax.Sides>)
    requires Syntax.Sided(gaps)
    ensures GapsFollow(gaps, ",", Closed) && GapsFollow(gaps, ",", AfterProjection)
  {
    hide Ws, Tag;
    forall i, u | 0 <= i < |gaps| && StartsDark(u)
      ensures Closed(gaps[i].before + ("," + (gaps[i].after + u)))
      ensures AfterProjection(gaps[i].before + ("," + (gaps[i].after + u)))
    {
      var g, w := gaps[i].before, "," + (gaps[i].after + u);
      GapThen(g, w);
      TagMiss("(", w, 0);
      TagMiss("AS", w, 0);
      assert g != "" ==> (g + w)[0] == g[0];
    }
  }

  // ---------- literals and predicates ----------

  lemma DigitsThen(ds: string, k: string)
    requires Syntax.Numeral(ds) && Syntax.Value(ds) <= MaxI64 && Closed(k)
    ensures LiteralValue(ds + k) == Ok(Integer(Syntax.Value(ds)), k) && StartsDark(ds + k)
  {
    hide Number;
    var s := ds + k;
    NumberThen(MaxI64, ds, k);
    DigitsOf(ds, k);
    StringMiss(s);
    BooleanMiss(s);
    TagMiss(".", k, 0);
    assert FloatLiteral(s) == Fail;
  }

  lemma DecimalsThen(whole: string, fraction: string, k: string)
    requires Syntax.Numeral(whole) && Syntax.Numeral(fraction) && Stops(IsDigit, k)
    ensures FloatLiteral(whole + ("." + (fraction + k))) == Ok(Syntax.DecimalsValue(whole, fraction), k)
  {
    hide FloatLiteral, FloatValueOf;
    SameFloat(whole, fraction);
    FloatLiteralOf(whole, fraction, k);
  }

  lemma SameFloat(whole: string, fraction: string)
    requires Syntax.Numeral(whole) && Syntax.Numeral(fraction)
    ensures FloatValueOf(whole, fraction) == Syntax.DecimalsValue(whole, fraction)
  {
    hide Syntax.Value, DecimalValue, Syntax.Tens, Power10;
    ValueIs(whole);
    ValueIs(fraction);
    TensIs(|fraction|);
  }

  /** A literal reads back, and starts with none of the operator characters. */
  lemma LiteralThen(l: Syntax.LiteralTree, v: Literal, k: string)
    requires Syntax.LiteralMeans(l, v) && Closed(k)
    ensures LiteralValue(Syntax.LiteralText(l, k)) == Ok(v, k)
    ensures StartsDark(Syntax.LiteralText(l, k)) && Syntax.LiteralText(l, k)[0] != '='
  {
    hide LiteralValue, FloatLiteral;
    match l
    case Text(x) => StringOf(x, k);
    case Truth(b) => BooleanOf(b, k);
    case Decimals(whole, fraction) =>
      ClosedStops(k);
      DecimalsThen(whole, fraction, k);
      DecimalsLiteral(whole, fraction, k);
    case Digits(ds) => DigitsThen(ds, k);
    case Nothing => NullOf(k);
  }

  lemma DecimalsLiteral(whole: string, fraction: string, k: string)
    requires Syntax.Numeral(whole)
    ensures var s := whole + ("." + (fraction + k));
            StartsDark(s) && s[0] == whole[0] && (FloatLiteral(s).Ok? ==>
              LiteralValue(s) == Ok(Float(FloatLiteral(s).value), FloatLiteral(s).rest))
  {
    hide FloatLiteral;
    var s := whole + ("." + (fraction + k));
    assert s[0] == whole[0];
    StringMiss(s);
    BooleanMiss(s);
  }

  lemma LiteralComplete()
    ensures Complete(LiteralValue, Syntax.LiteralText, Syntax.LiteralMeans, Closed)
  {
    hide LiteralValue, Syntax.LiteralText, Syntax.LiteralMeans, Closed;
    forall l, v, k | Syntax.LiteralMeans(l, v) && Closed(k)
      ensures LiteralValue(Syntax.LiteralText(l, k)) == Ok(v, k) && StartsDark(Syntax.LiteralText(l, k))
    {
      LiteralThen(l, v, k);
    }
  }

  lemma OperatorThen(symbol: string, op: ComparisonOp, u: string)
    requires Syntax.Symbol(symbol, op) && u != "" && u[0] != '='
    ensures Operator(symbol + u) == Ok(op, u) && StartsDark(symbol + u) && !IsIdChar((symbol + u)[0])
  {
    hide Tag;
    var s := symbol + u;
    TagOf(symbol, u);
    if op != Neq {
      TagMiss("!=", s, 0);
    }
    match op
    case Neq =>
    case Lte =>
    case Gte =>
      TagMiss("<=", s, 0);
    case Eq =>
      TagMiss("<=", s, 0);
      TagMiss(">=", s, 0);
    case Lt =>
      TagMiss("<=", s, 1);
      TagMiss(">=", s, 0);
      TagMiss("=", s, 0);
    case Gt =>
      TagMiss("<=", s, 0);
      TagMiss(">=", s, 1);
      TagMiss("=", s, 0);
      TagMiss("<", s, 0);
  }

  /** None of the keyword predicates starts with a field before `u`. */
  lemma NoKeyword(s: string, field: string, u: string)
    requires FieldName(s) == Ok(field, u) && u != ""
    ensures u[0] != 'I' ==> InPredicate(s) == Fail
    ensures u[0] != 'B' ==> BetweenPredicate(s) == Fail
    ensures u[0] != 'L' ==> LikePredicate(s) == Fail
  {
    hide FieldName, Word;
    if u[0] != 'I' {
      WordMiss("IN", u, 0);
    }
    if u[0] != 'B' {
      WordMiss("BETWEEN", u, 0);
    }
    if u[0] != 'L' {
      WordMiss("LIKE", u, 0);
    }
  }

  lemma ComparisonThen(p: Syntax.PredicateTree, v: Predicate, k: string)
    requires p.Compares? && SpacedPredicate(p, v) && Closed(k)
    ensures BasePredicate(Syntax.PredicateText(p, k)) == Ok(v, k) && StartsDark(Syntax.PredicateText(p, k))
  {
    hide LiteralValue, Operator, FieldName, Ws, InPredicate, BetweenPredicate, LikePredicate;
    hide Syntax.LiteralText, Syntax.LiteralMeans;
    LiteralThen(p.value, v.value, k);
    var w := Syntax.LiteralText(p.value, k);
    GapThen(p.g2, w);
    GapOpens(p.g2, w);
    OperatorThen(p.symbol, v.op, p.g2 + w);
    FieldThen(p.field, p.g1, p.symbol + (p.g2 + w));
    SymbolStart(p.symbol, v.op);
    assert (p.symbol + (p.g2 + w))[0] == p.symbol[0];
    NoKeyword(Syntax.PredicateText(p, k), p.field, p.symbol + (p.g2 + w));
  }

  lemma GapOpens(g: string, w: string)
    requires Syntax.Gap(g) && StartsDark(w) && w[0] != '='
    ensures g + w != "" && (g + w)[0] != '='
  {
    assert (g + w)[0] == if g == "" then w[0] else g[0];
  }

  lemma SymbolStart(symbol: string, op: ComparisonOp)
    requires Syntax.Symbol(symbol, op)
    ensures symbol != "" && symbol[0] in {'=', '!', '<', '>'}
  {
  }

  lemma InThen(p: Syntax.PredicateTree, v: Predicate, k: string)
    requires p.Among? && SpacedPredicate(p, v)
    ensures BasePredicate(Syntax.PredicateText(p, k)) == Ok(v, k) && StartsDark(Syntax.PredicateText(p, k))
  {
    hide LiteralValue, FieldName, Parenthesised, Word, Complete, GapsFollow, BetweenPredicate, LikePredicate;
    hide ComparisonPredicate, Syntax.ListText, Syntax.AllMean;
    LiteralComplete();
    CommaFollows(p.gaps);
    CloseOf(k);
    ParenthesisedThen(LiteralValue, Syntax.LiteralText, Syntax.LiteralMeans, Closed, p.values, p.gaps, v.values, k);
    var w := "(" + Syntax.ListText(Syntax.LiteralText, p.values, p.gaps, ",", ")" + k);
    WordThen("IN", p.g2, w);
    FieldThen(p.field, p.g1, "IN" + (p.g2 + w));
  }

  lemma BetweenThen(p: Syntax.PredicateTree, v: Predicate, k: string)
    requires p.Ranges? && SpacedPredicate(p, v) && Closed(k)
    ensures BasePredicate(Syntax.PredicateText(p, k)) == Ok(v, k) && StartsDark(Syntax.PredicateText(p, k))
  {
    hide LiteralValue, FieldName, Word, Ws, InPredicate, LikePredicate, ComparisonPredicate;
    hide Syntax.LiteralText, Syntax.LiteralMeans;
    LiteralThen(p.high, v.high, k);
    var w := Syntax.LiteralText(p.high, k);
    WordThen("AND", p.g4, w);
    var a := "AND" + (p.g4 + w);
    GapThen(p.g3, a);
    assert (p.g3 + a)[0] == p.g3[0];
    LiteralThen(p.low, v.low, p.g3 + a);
    var b := Syntax.LiteralText(p.low, p.g3 + a);
    WordThen("BETWEEN", p.g2, b);
    FieldThen(p.field, p.g1, "BETWEEN" + (p.g2 + b));
    NoKeyword(Syntax.PredicateText(p, k), p.field, "BETWEEN" + (p.g2 + b));
  }

  lemma LikeThen(p: Syntax.PredicateTree, v: Predicate, k: string)
    requires p.Matches? && SpacedPredicate(p, v)
    ensures BasePredicate(Syntax.PredicateText(p, k)) == Ok(v, k) && StartsDark(Syntax.PredicateText(p, k))
  {
    hide FieldName, StringLiteral, Word, InPredicate, BetweenPredicate, ComparisonPredicate;
    StringLiteralOf(p.pattern, k);
    var w := "'" + (p.pattern + ("'" + k));
    WordThen("LIKE", p.g2, w);
    FieldThen(p.field, p.g1, "LIKE" + (p.g2 + w));
    NoKeyword(Syntax.PredicateText(p, k), p.field, "LIKE" + (p.g2 + w));
  }

  lemma PredicateComplete()
    ensures Complete(BasePredicate, Syntax.PredicateText, SpacedPredicate, Closed)
  {
    hide BasePredicate, Syntax.PredicateText, SpacedPredicate, Closed;
    forall p, v, k | SpacedPredicate(p, v) && Closed(k)
      ensures BasePredicate(Syntax.PredicateText(p, k)) == Ok(v, k) && StartsDark(Syntax.PredicateText(p, k))
    {
      match p
      case Compares(_, _, _, _, _) => ComparisonThen(p, v, k);
      case Among(_, _, _, _, _) => InThen(p, v, k);
      case Ranges(_, _, _, _, _, _, _) => BetweenThen(p, v, k);
      case Matches(_, _, _, _) => LikeThen(p, v, k);
    }
  }

  lemma AndFollows(gaps: seq<Syntax.Sides>)
    requires Syntax.Sided(gaps) && forall i :: 0 <= i < |gaps| ==> gaps[i].before != ""
    ensures GapsFollow(gaps, "AND", Closed)
  {
    forall i, u | 0 <= i < |gaps| && StartsDark(u) ensures Closed(gaps[i].before + ("AND" + (gaps[i].after + u))) {
      assert (gaps[i].before + ("AND" + (gaps[i].after + u)))[0] == gaps[i].before[0];
    }
  }

  // ---------- FIND ----------

  lemma DecimalsComplete()
    ensures Complete(FloatLiteral, Syntax.DecimalsText, Syntax.DecimalsMean, Closed)
  {
    hide FloatLiteral;
    forall d: Syntax.DecimalsTree, f, k | Syntax.DecimalsMean(d, f) && Closed(k)
      ensures FloatLiteral(Syntax.DecimalsText(d, k)) == Ok(f, k) && StartsDark(Syntax.DecimalsText(d, k))
    {
      ClosedStops(k);
      DecimalsThen(d.whole, d.fraction, k);
      assert Syntax.DecimalsText(d, k)[0] == d.whole[0];
    }
  }

  /** Neither a closing parenthesis nor whitespace starts a float. */
  lemma NoFloat(s: string)
    requires s == "" || !IsDigit(s[0])
    ensures FloatLiteral(s) == Fail
  {
    DigitMiss(s);
  }

  lemma VectorThen(x: Syntax.SourceTree, text: string, vector: Option<seq<real>>, k: string)
    requires x.Numbers? && Syntax.SourceMeans(x, text, vector) && (x.values == [] ==> x.g3 == "")
    ensures VectorSource(Syntax.SourceText(x, k)) == Ok(Source(text, vector), k)
  {
    hide Word, Ws, Tag, List0, Complete, GapsFollow, Syntax.ListText, Syntax.AllMean;
    DecimalsComplete();
    CommaFollows(x.gaps);
    var close := x.g3 + (")" + k);
    GapThen(x.g3, ")" + k);
    TagOf(")", k);
    VectorListThen(x, vector.value, k);
    var w := Syntax.ListText(Syntax.DecimalsText, x.values, x.gaps, ",", close);
    WordThen("(", x.g2, w);
    WordThen("VECTOR", x.g1, "(" + (x.g2 + w));
  }

  /** The floats of a vector up to its closing parenthesis. Without floats the gap before it is read first. */
  lemma VectorListThen(x: Syntax.SourceTree, vs: seq<real>, k: string)
    requires x.Numbers? && Syntax.Gap(x.g3) && Syntax.ListFormed(x.values, x.gaps)
    requires Syntax.AllMean(Syntax.DecimalsMean, x.values, vs) && (x.values == [] ==> x.g3 == "")
    ensures List0(FloatLiteral, ",", Syntax.ListText(Syntax.DecimalsText, x.values, x.gaps, ",", x.g3 + (")" + k)))
            == Ok(vs, x.g3 + (")" + k))
    ensures StartsDark(Syntax.ListText(Syntax.DecimalsText, x.values, x.gaps, ",", x.g3 + (")" + k)))
  {
    hide FloatLiteral, Ws, Word, Complete, GapsFollow, More;
    var close := x.g3 + (")" + k);
    GapThen(x.g3, ")" + k);
    WordMiss(",", ")" + k, 0);
    assert close[0] == if x.g3 == "" then ')' else x.g3[0];
    NoFloat(close);
    if x.values != [] {
      hide Syntax.ListText;
      DecimalsComplete();
      CommaFollows(x.gaps);
      ListThen(FloatLiteral, Syntax.DecimalsText, Syntax.DecimalsMean, Closed, x.values, x.gaps, vs, ",", close);
    }
  }

  lemma SourceThen(x: Syntax.SourceTree, text: string, vector: Option<seq<real>>, k: string)
    requires Syntax.SourceMeans(x, text, vector) && (x.Numbers? && x.values == [] ==> x.g3 == "")
    ensures var s := Syntax.SourceText(x, k);
            OrElse(VectorSource(s), TextSource(s)) == Ok(Source(text, vector), k) && StartsDark(s)
  {
    hide VectorLiteral, StringLiteral;
    var s := Syntax.SourceText(x, k);
    match x
    case Words(t) =>
      StringLiteralOf(t, k);
      NoVector(s);
    case Numbers(_, _, _, _, _) =>
      hide VectorSource;
      VectorThen(x, text, vector, k);
  }

  lemma NoVector(s: string)
    requires s != "" && s[0] != 'V'
    ensures VectorSource(s) == Fail
  {
    hide Word;
    WordMiss("VECTOR", s, 0);
  }

  lemma FindTypeThen(find: string, u: string)
    requires find == "SIMILARITY" || find == "SEMANTIC"
    ensures var s := find + u;
            OrElse(Const("SIMILARITY", Tag("SIMILARITY", s)), Const("SEMANTIC", Tag("SEMANTIC", s))) == Ok(find, u)
            && StartsDark(s)
  {
    hide Tag;
    TagOf(find, u);
    if find == "SEMANTIC" {
      TagMiss("SIMILARITY", find + u, 1);
    }
  }

  lemma HeadThen(h: Syntax.HeadTree, find: string, e: SimilarityExpr, k: string)
    requires SpacedHead(h, find, e)
    ensures Head(Syntax.HeadText(h, k)) == Ok(Find(find, e), k)
  {
    hide Word, Tag, Ws, FieldName, VectorSource, TextSource, Syntax.SourceText, Syntax.SourceMeans;
    var close := h.g5 + (")" + k);
    GapThen(h.g5, ")" + k);
    TagOf(")", k);
    SourceThen(h.source, e.queryText, e.vector, close);
    var source := Syntax.SourceText(h.source, close);
    WordThen(",", h.g4, source);
    var a := "," + (h.g4 + source);
    FieldThen(h.field, h.g3, a);
    var b := h.field + (h.g3 + a);
    WordThen("(", h.g2, b);
    var c := "(" + (h.g2 + b);
    FindTypeThen(h.find, c);
    WordThen("FIND", h.g1, h.find + c);
  }

  // ---------- clauses ----------

  lemma WhereThen(c: Syntax.ClauseTree, v: Clause, k: string)
    requires c.Wheres? && SpacedClause(c, v) && ClauseEnd(k)
    ensures MetadataWhereClause(Syntax.ClauseText(c, k)) == Ok(v, k)
  {
    hide Word, BasePredicate, List1, Complete, GapsFollow, ClauseEnd, Syntax.ListText, Syntax.PredicateText;
    hide Syntax.PredicateMeans;
    EndStops(k);
    PredicateComplete();
    AndFollows(c.gaps);
    var vs := if |c.items| == 1 then v.predicates else v.predicates[0].predicates;
    assert Syntax.AllMean(SpacedPredicate, c.items, vs);
    ListThen(BasePredicate, Syntax.PredicateText, SpacedPredicate, Closed, c.items, c.gaps, vs, "AND", k);
    var u := Syntax.ListText(Syntax.PredicateText, c.items, c.gaps, "AND", k);
    WordThen("WHERE", c.g3, u);
    WordThen("METADATA", c.g2, "WHERE" + (c.g3 + u));
    WordThen("WITH", c.g1, "METADATA" + (c.g2 + ("WHERE" + (c.g3 + u))));
    assert v.predicates == [v.predicates[0]];
  }

  lemma NameDark(x: string, k: string)
    requires Syntax.Name(x)
    ensures StartsDark(x + k)
  {
  }

  lemma PlainThen(p: Syntax.ProjectionTree, v: Projection, k: string)
    requires p.Plain? && SpacedProjection(p, v) && AfterProjection(k)
    ensures OneProjection(Syntax.ProjectionText(p, k)) == Ok(v, k) && StartsDark(Syntax.ProjectionText(p, k))
  {
    hide OneProjection, AfterProjection, Syntax.Name;
    NameIff(p.name);
    assert "" + (p.name + k) == p.name + k;
    FieldOf(p.name, k);
    NameDark(p.name, k);
  }

  lemma RenamedThen(p: Syntax.ProjectionTree, v: Projection, k: string)
    requires p.Renamed? && SpacedProjection(p, v) && AfterProjection(k)
    ensures OneProjection(Syntax.ProjectionText(p, k)) == Ok(v, k) && StartsDark(Syntax.ProjectionText(p, k))
  {
    hide FieldName, Identifier, Ws, Word, Tag;
    ClosedStops(k);
    NameIff(p.alias);
    IdentifierOf(p.alias, k);
    var w := p.alias + k;
    WordThen("AS", p.g2, w);
    var u := "AS" + (p.g2 + w);
    var s := p.name + (p.g1 + u);
    FieldThen(p.name, p.g1, u);
    WsNothing(s);
    assert "" + s == s;
    WordMiss("(", u, 0);
    assert FunctionProjection(s) == Fail;
  }

  lemma CalledThen(p: Syntax.ProjectionTree, v: Projection, k: string)
    requires p.Called? && SpacedProjection(p, v)
    ensures OneProjection(Syntax.ProjectionText(p, k)) == Ok(v, k) && StartsDark(Syntax.ProjectionText(p, k))
  {
    hide FieldName, Identifier, Ws, Word, Tag;
    TagOf(")", k);
    var w := p.field + (p.g3 + (")" + k));
    FieldThen(p.field, p.g3, ")" + k);
    WordThen("(", p.g2, w);
    var u := "(" + (p.g2 + w);
    var s := p.name + (p.g1 + u);
    FieldThen(p.name, p.g1, u);
    WsNothing(s);
    assert "" + s == s;
  }

  lemma ProjectionComplete()
    ensures Complete(OneProjection, Syntax.ProjectionText, SpacedProjection, AfterProjection)
  {
    hide OneProjection, Syntax.ProjectionText, SpacedProjection, AfterProjection;
    forall p, v, k | SpacedProjection(p, v) && AfterProjection(k)
      ensures OneProjection(Syntax.ProjectionText(p, k)) == Ok(v, k) && StartsDark(Syntax.ProjectionText(p, k))
    {
      match p
      case Plain(_, _) => PlainThen(p, v, k);
      case Renamed(_, _, _, _, _) => RenamedThen(p, v, k);
      case Called(_, _, _, _, _, _) => CalledThen(p, v, k);
    }
  }

  lemma ProjectThen(c: Syntax.ClauseTree, v: Clause, k: string)
    requires c.Projects? && SpacedClause(c, v) && ClauseEnd(k)
    ensures ProjectOnClause(Syntax.ClauseText(c, k)) == Ok(v, k)
  {
    hide Word, OneProjection, List1, Complete, GapsFollow, ClauseEnd, AfterProjection, Syntax.ListText;
    hide Syntax.ProjectionText, Syntax.ProjectionMeans;
    EndStops(k);
    ProjectionComplete();
    CommaFollows(c.gaps);
    assert Syntax.AllMean(SpacedProjection, c.projections, v.projections);
    ListThen(OneProjection, Syntax.ProjectionText, SpacedProjection, AfterProjection, c.projections, c.gaps,
             v.projections, ",", k);
    var u := Syntax.ListText(Syntax.ProjectionText, c.projections, c.gaps, ",", k);
    WordThen("ON", c.g2, u);
    WordThen("PROJECT", c.g1, "ON" + (c.g2 + u));
  }

  lemma NameComplete()
    ensures Complete(Identifier, Syntax.NameText, Syntax.NameMeans, Closed)
  {
    hide Identifier, Syntax.Name;
    forall x: string, v: string, k | Syntax.NameMeans(x, v) && Closed(k)
      ensures Identifier(Syntax.NameText(x, k)) == Ok(v, k) && StartsDark(Syntax.NameText(x, k))
    {
      ClosedStops(k);
      NameIff(x);
      IdentifierOf(x, k);
    }
  }

  lemma ArgumentComplete()
    ensures Complete(OrderByArg, Syntax.ArgumentText, Syntax.ArgumentMeans, Closed)
  {
    hide StringLiteral, Identifier, Syntax.Name;
    forall a: Syntax.ArgumentTree, v, k | Syntax.ArgumentMeans(a, v) && Closed(k)
      ensures OrderByArg(Syntax.ArgumentText(a, k)) == Ok(v, k) && StartsDark(Syntax.ArgumentText(a, k))
    {
      ClosedStops(k);
      match a
      case Quote(x) => StringLiteralOf(x, k);
      case Word(x) =>
        NameIff(x);
        IdentifierOf(x, k);
        StringMiss(x + k);
    }
  }

  lemma CallName(fn: string, u: string)
    requires Syntax.Name(fn)
    ensures Identifier(fn + ("(" + u)) == Ok(fn, "(" + u) && StartsDark(fn + ("(" + u))
  {
    NameIff(fn);
    IdentifierOf(fn, "(" + u);
  }

  lemma BiasThen(c: Syntax.ClauseTree, v: Clause, k: string)
    requires c.Biases? && SpacedClause(c, v)
    ensures BiasClause(Syntax.ClauseText(c, k)) == Ok(v, k)
  {
    hide Word, Identifier, Parenthesised, Complete, GapsFollow, Syntax.ListText, Syntax.AllMean, Syntax.Name;
    NameComplete();
    CommaFollows(c.gaps);
    CloseOf(k);
    ParenthesisedThen(Identifier, Syntax.NameText, Syntax.NameMeans, Closed, c.names, c.gaps, v.bias.args, k);
    var u := Syntax.ListText(Syntax.NameText, c.names, c.gaps, ",", ")" + k);
    CallName(c.fn, u);
    WordThen("BIAS", c.g1, c.fn + ("(" + u));
  }

  /** DESC is descending, ASC and nothing are ascending, whatever whitespace comes before the word. */
  lemma DirectionThen(d: Syntax.DirectionTree, descending: bool, k: string)
    requires Syntax.DirectionMeans(d, descending) && ClauseEnd(k)
    ensures Direction(Syntax.DirectionText(d, k)) == Ok(descending, k)
  {
    hide Ws, Tag, ClauseEnd;
    EndStops(k);
    match d
    case Unsaid =>
    case Down(g) =>
      GapThen(g, "DESC" + k);
      TagOf("DESC", k);
    case Up(g) =>
      GapThen(g, "ASC" + k);
      TagMiss("DESC", "ASC" + k, 0);
      TagOf("ASC", k);
  }

  lemma OrderThen(c: Syntax.ClauseTree, v: Clause, k: string)
    requires c.Orders? && SpacedClause(c, v) && ClauseEnd(k)
    ensures OrderByClause(Syntax.ClauseText(c, k)) == Ok(v, k)
  {
    hide Word, Identifier, Parenthesised, Direction, Complete, GapsFollow, ClauseEnd, Syntax.ListText, Syntax.AllMean;
    hide OrderByArg, Syntax.Name, Syntax.DirectionText, Syntax.DirectionMeans;
    var after := Syntax.DirectionText(c.direction, k);
    DirectionThen(c.direction, v.orderBy.descending, k);
    ArgumentComplete();
    CommaFollows(c.gaps);
    NoArgument(after);
    ParenthesisedThen(OrderByArg, Syntax.ArgumentText, Syntax.ArgumentMeans, Closed, c.args, c.gaps,
                      v.orderBy.args, after);
    var u := Syntax.ListText(Syntax.ArgumentText, c.args, c.gaps, ",", ")" + after);
    CallName(c.fn, u);
    WordThen("BY", c.g2, c.fn + ("(" + u));
    WordThen("ORDER", c.g1, "BY" + (c.g2 + (c.fn + ("(" + u))));
  }

  lemma NoArgument(k: string)
    ensures OrderByArg(")" + k) == Fail && Closed(")" + k)
  {
    CloseOf(k);
  }

  lemma CountThen(c: Syntax.ClauseTree, v: Clause, k: string)
    requires (c.Limits? || c.Offsets? || c.Budgets?) && SpacedClause(c, v) && ClauseEnd(k)
    ensures var s := Syntax.ClauseText(c, k);
            && (c.Limits? ==> LimitClause(s) == Ok(v, k))
            && (c.Offsets? ==> OffsetClause(s) == Ok(v, k))
            && (c.Budgets? ==> BudgetClause(c.keyword, s) == Ok(v, k))
  {
    hide Word, Number, Tag, ClauseEnd;
    EndStops(k);
    if c.Budgets? {
      TagOf("ms", k);
      NumberThen(MaxU64, c.digits, "ms" + k);
      WordThen(c.keyword, c.g1, c.digits + ("ms" + k));
    } else {
      NumberThen(MaxU64, c.digits, k);
      WordThen(if c.Limits? then "LIMIT" else "OFFSET", c.g1, c.digits + k);
    }
  }

  /** The text of a spaced clause is read as what it means, whatever clause follows. */
  lemma ClauseThen(c: Syntax.ClauseTree, v: Clause, k: string)
    requires SpacedClause(c, v) && ClauseEnd(k)
    ensures AnyClause(Syntax.ClauseText(c, k)) == Ok(v, k) && StartsDark(Syntax.ClauseText(c, k))
  {
    hide MetadataWhereClause, ProjectOnClause, BiasClause, OrderByClause, LimitClause, OffsetClause, BudgetClause;
    hide ClauseEnd, Syntax.ListText, Syntax.ListFormed, Syntax.AllMean, Syntax.Name, Syntax.CountMeans;
    hide Syntax.PredicateMeans;
    var s := Syntax.ClauseText(c, k);
    match c
    case Wheres(_, _, _, _, _) => WhereThen(c, v, k);
    case Projects(_, _, _, _) =>
      ProjectThen(c, v, k);
      ClauseMiss(s);
    case Biases(_, _, _, _) =>
      BiasThen(c, v, k);
      ClauseMiss(s);
    case Orders(_, _, _, _, _, _) =>
      OrderThen(c, v, k);
      ClauseMiss(s);
    case Limits(_, _) =>
      CountThen(c, v, k);
      ClauseMiss(s);
    case Offsets(g1, ds) =>
      CountThen(c, v, k);
      ClauseMiss(s);
      OffsetIsNotOrder(g1 + (ds + k));
    case Budgets(keyword, g1, ds) =>
      CountThen(c, v, k);
      ClauseMiss(s);
      if keyword == "WITHIN" {
        WithinIsNotWith(g1 + (ds + ("ms" + k)));
      }
  }

  // ---------- queries ----------

  ghost predicate SpacedPart(p: Syntax.PartTree, v: Clause) {
    p.gap != "" && Syntax.Gap(p.gap) && SpacedClause(p.clause, v)
  }

  ghost predicate SpacedParts(parts: seq<Syntax.PartTree>, cs: seq<Clause>) {
    |parts| == |cs| && forall i :: 0 <= i < |parts| ==> SpacedPart(parts[i], cs[i])
  }

  lemma {:induction false} PartsEnd(parts: seq<Syntax.PartTree>, cs: seq<Clause>, tail: string)
    requires SpacedParts(parts, cs) && Syntax.Gap(tail)
    ensures ClauseEnd(Syntax.PartsText(parts, tail))
    ensures parts != [] ==>
              AnyClause(Ws(Syntax.PartsText(parts, tail))) == Ok(cs[0], Syntax.PartsText(parts[1..], tail))
    decreases |parts|
  {
    hide AnyClause, ClauseStart, SpacedClause, Syntax.ClauseText;
    if parts == [] {
      GapIff(tail);
      WsOf(tail, "");
      assert tail + "" == tail;
    } else {
      var k := Syntax.PartsText(parts[1..], tail);
      PartsEnd(parts[1..], cs[1..], tail);
      assert SpacedPart(parts[0], cs[0]);
      var u := Syntax.ClauseText(parts[0].clause, k);
      ClauseThen(parts[0].clause, cs[0], k);
      ClauseStarts(u);
      GapThen(parts[0].gap, u);
      assert (parts[0].gap + u)[0] == parts[0].gap[0];
    }
  }

  lemma {:induction false} LoopThen(q: Query, parts: seq<Syntax.PartTree>, cs: seq<Clause>, tail: string)
    requires SpacedParts(parts, cs) && Syntax.Gap(tail)
    ensures ClauseLoop(q, Syntax.PartsText(parts, tail)) == if Fits(q, cs) then Ok(PutAll(q, cs), tail) else Fail
    decreases |parts|
  {
    hide AnyClause, ClauseEnd, Has, Put, SpacedClause, Syntax.ClauseText;
    PartsEnd(parts, cs, tail);
    if parts == [] {
      GapIff(tail);
      WsOf(tail, "");
      assert tail + "" == tail;
    } else {
      var u := Ws(Syntax.PartsText(parts, tail));
      assert u != "" by {
        ClauseStarts(u);
        StartLetter(u);
      }
      assert SpacedParts(parts[1..], cs[1..]);
      LoopThen(Put(q, cs[0]), parts[1..], cs[1..], tail);
    }
  }

  /** The text of every well-spaced tree, in any clause order: it is accepted exactly if no kind of clause
      repeats and OFFSET comes with LIMIT, and then the query has the head and exactly the clauses the tree
      means. */
  lemma QueryComplete(t: Syntax.QueryTree, find: string, e: SimilarityExpr, cs: seq<Clause>)
    requires SpacedHead(t.head, find, e) && SpacedParts(t.parts, cs) && Syntax.Gap(t.tail)
    ensures QueryOf(Syntax.QueryText(t)).Ok? <==> Acceptable(cs)
    ensures Acceptable(cs) ==>
              var r := QueryOf(Syntax.QueryText(t));
              && r.rest == "" && r.value.find == find && r.value.similarity == Some(e)
              && forall c :: Holds(r.value, c) <==> c in cs
  {
    hide Head, ClauseLoop, Holds, Fits, PutAll, DistinctKinds, Syntax.HeadText, Syntax.PartsText;
    hide SpacedHead, SpacedParts;
    var f := Find(find, e);
    HeadThen(t.head, find, e, Syntax.PartsText(t.parts, t.tail));
    LoopThen(Blank(f), t.parts, cs, t.tail);
    FitsIff(Blank(f), cs);
    BlankHolds(f, cs);
    GapIff(t.tail);
    assert t.tail + "" == t.tail;
    WsOf(t.tail, "");
    if DistinctKinds(cs) {
      LimitPresence(f, cs);
      forall c ensures Holds(PutAll(Blank(f), cs), c) <==> c in cs {
        PutAllHolds(Blank(f), cs, c);
      }
      PutAllHolds(Blank(f), cs, Limit(0));
    }
  }

  // ---------- directions as clause texts ----------

  function OrderText(fn: string, args: seq<string>, g: string, word: string): string {
    Lead("ORDER", Lead("BY", ShowCall(fn, args, g + word)))
  }

  lemma OrderTextTail(fn: string, args: seq<string>, g: string, word: string, k: string)
    ensures OrderText(fn, args, g, word) + k == Lead("ORDER", Lead("BY", ShowCall(fn, args, g + (word + k))))
  {
    hide ShowCall;
    CallTail(fn, args, g + word, k);
    LeadTail("BY", ShowCall(fn, args, g + word), k);
    LeadTail("ORDER", Lead("BY", ShowCall(fn, args, g + word)), k);
    assert g + word + k == g + (word + k);
  }

  /** ORDER BY with ASC is ascending, with DESC descending, after any whitespace. */
  lemma DirectionWords(fn: string, args: seq<string>, g: string)
    requires IsIdentifier(fn) && Names(args) && Syntax.Gap(g)
    ensures WrittenClause(OrderText(fn, args, g, "ASC"), Ordered(OrderBy(fn, args, false)))
    ensures WrittenClause(OrderText(fn, args, g, "DESC"), Ordered(OrderBy(fn, args, true)))
  {
    hide OrderText, AnyClause, IsIdentifier, Names;
    forall k | ClauseEnd(k)
      ensures AnyClause(OrderText(fn, args, g, "ASC") + k) == Ok(Ordered(OrderBy(fn, args, false)), k)
      ensures AnyClause(OrderText(fn, args, g, "DESC") + k) == Ok(Ordered(OrderBy(fn, args, true)), k)
    {
      OrderTextTail(fn, args, g, "ASC", k);
      OrderTextTail(fn, args, g, "DESC", k);
      DirectionClause(fn, args, Syntax.Up(g), false, k);
      DirectionClause(fn, args, Syntax.Down(g), true, k);
    }
  }

  lemma DirectionClause(fn: string, args: seq<string>, d: Syntax.DirectionTree, descending: bool, k: string)
    requires IsIdentifier(fn) && Names(args) && Syntax.DirectionMeans(d, descending) && ClauseEnd(k)
    ensures AnyClause(Lead("ORDER", Lead("BY", ShowCall(fn, args, Syntax.DirectionText(d, k)))))
            == Ok(Ordered(OrderBy(fn, args, descending)), k)
  {
    hide Parenthesised, ShowNames, OrderByArg, Direction, Lead, Names, ClauseEnd, Identifier;
    hide MetadataWhereClause, ProjectOnClause, BiasClause, OrderByClause, LimitClause, OffsetClause, BudgetClause;
    var after := Syntax.DirectionText(d, k);
    DirectionThen(d, descending, k);
    OrderByArgReadsNames();
    ArgumentsOf(OrderByArg, args, after);
    OrderPrefix(fn, "(" + ShowNames(args, ")" + after));
    OrderStarts(Lead("BY", ShowCall(fn, args, after)));
  }

  lemma OrderStarts(u: string)
    ensures var s := Lead("ORDER", u); AnyClause(s) == if OrderByClause(s).Ok? then OrderByClause(s) else Fail
  {
    hide MetadataWhereClause, ProjectOnClause, BiasClause, OrderByClause, LimitClause, BudgetClause;
    var s := Lead("ORDER", u);
    ClauseMiss(s);
    TagMiss("OFFSET", s, 1);
    EnMiss(s);
  }

  lemma EnMiss(s: string)
    requires s != "" && s[0] != 'E'
    ensures BudgetClause("EN", s) == Fail
  {
    TagMiss("EN", s, 0);
  }
}
