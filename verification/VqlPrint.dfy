/** Printed pieces parse back: literals, predicates, projections, calls and clauses. */
module VqlPrint {
  import opened VqlLexer
  import opened VqlAst
  import opened VqlGrammar

  // ---------- what prints unambiguously ----------

  /** The text of a float literal: digits, a dot, digits, with value f. */
  ghost predicate WritesFloat(text: string, f: real) {
    exists whole, fraction :: FloatParts(text, f, whole, fraction)
  }

  ghost predicate FloatParts(text: string, f: real, whole: string, fraction: string) {
    && whole != [] && fraction != [] && All(IsDigit, whole) && All(IsDigit, fraction)
    && text == whole + ("." + fraction) && f == FloatValueOf(whole, fraction)
  }

  /** Which floats are allowed: all, or those whose text on this platform denotes them. */
  datatype Floats = AnyFloat | Written(text: real -> string)

  ghost predicate FloatOk(fl: Floats, f: real) {
    match fl
    case AnyFloat => true
    case Written(text) => WritesFloat(text(f), f)
  }

  ghost predicate PlainLiteral(fl: Floats, l: Literal) {
    match l
    case String(x) => NoQuotes(x)
    case Integer(i) => 0 <= i <= MaxI64
    case Float(f) => FloatOk(fl, f)
    case Boolean(_) => true
    case Null => true
  }

  ghost predicate PlainLiterals(fl: Floats, ls: seq<Literal>) {
    forall i :: 0 <= i < |ls| ==> PlainLiteral(fl, ls[i])
  }

  /** A predicate other than AND. */
  ghost predicate PlainBase(fl: Floats, p: Predicate) {
    match p
    case Comparison(field, _, value) => IsIdentifier(field) && PlainLiteral(fl, value)
    case In(field, values) => IsIdentifier(field) && PlainLiterals(fl, values)
    case Between(field, low, high) => IsIdentifier(field) && PlainLiteral(fl, low) && PlainLiteral(fl, high)
    case Like(field, pattern) => IsIdentifier(field) && NoQuotes(pattern)
    case And(_) => false
  }

  ghost predicate PlainBases(fl: Floats, ps: seq<Predicate>) {
    forall i :: 0 <= i < |ps| ==> PlainBase(fl, ps[i])
  }

  /** One base predicate, or one AND of at least two. */
  ghost predicate PlainWhere(fl: Floats, ps: seq<Predicate>) {
    |ps| == 1 && (PlainBase(fl, ps[0]) || (ps[0].And? && |ps[0].predicates| >= 2 && PlainBases(fl, ps[0].predicates)))
  }

  ghost predicate PlainProjection(p: Projection) {
    match p
    case Field(name) => IsIdentifier(name)
    case Aliased(field, alias) => IsIdentifier(field) && IsIdentifier(alias)
    case Function(name, field) => IsIdentifier(name) && IsIdentifier(field)
  }

  ghost predicate PlainProjections(ps: seq<Projection>) {
    forall i :: 0 <= i < |ps| ==> PlainProjection(ps[i])
  }

  ghost predicate Names(xs: seq<string>) {
    forall i :: 0 <= i < |xs| ==> IsIdentifier(xs[i])
  }

  ghost predicate PlainClause(fl: Floats, c: Clause) {
    match c
    case MetadataWhere(ps) => PlainWhere(fl, ps)
    case ProjectOn(ps) => ps != [] && PlainProjections(ps)
    case Biased(b) => IsIdentifier(b.scoringFn) && Names(b.args)
    case Ordered(o) => IsIdentifier(o.scoringFn) && Names(o.args)
    case Limit(n) => n <= MaxU64
    case Offset(n) => n <= MaxU64
    case Within(n) => n <= MaxU64
  }

  // ---------- what may follow ----------

  /** The end of the text, whitespace, a comma or a closing parenthesis. */
  ghost predicate Closed(k: string) {
    k == [] || IsSpace(k[0]) || k[0] == ',' || k[0] == ')'
  }

  /** A first character that starts none of the separators and continuations. */
  ghost predicate NoLead(t: string, k: string) {
    Tag(t, Ws(k)) == Fail
  }

  lemma ClosedStops(k: string)
    requires Closed(k)
    ensures Stops(IsIdChar, k) && Stops(IsDigit, k)
  {
  }

  // ---------- literals ----------

  lemma StringMiss(s: string)
    requires s == [] || s[0] != '\''
    ensures StringLiteral(s) == Fail
  {
    TagMiss("'", s, 0);
  }

  lemma BooleanMiss(s: string)
    requires s == [] || (s[0] != 't' && s[0] != 'f')
    ensures BooleanLiteral(s) == Fail
  {
    TagMiss("true", s, 0);
    TagMiss("false", s, 0);
  }

  lemma DigitMiss(s: string)
    requires s == [] || !IsDigit(s[0])
    ensures Digits1(s) == Fail
  {
  }

  lemma IntegerOf(n: nat, k: string)
    requires n <= MaxI64 && Closed(k)
    ensures LiteralValue(Decimal(n) + k) == Ok(Integer(n), k)
  {
    var s := Decimal(n) + k;
    Digits1Of(n, k);
    NumberOf(MaxI64, n, k);
    StringMiss(s);
    BooleanMiss(s);
    TagMiss(".", k, 0);
    assert FloatLiteral(s) == Fail;
  }

  lemma DigitsOf(ds: string, k: string)
    requires ds != [] && All(IsDigit, ds) && Stops(IsDigit, k)
    ensures Digits1(ds + k) == Ok(ds, k) && (ds + k)[0] == ds[0]
  {
    SpanOf(IsDigit, ds, k);
  }

  lemma FloatLiteralOf(whole: string, fraction: string, k: string)
    requires whole != [] && fraction != [] && All(IsDigit, whole) && All(IsDigit, fraction) && Stops(IsDigit, k)
    ensures FloatLiteral(whole + ("." + (fraction + k))) == Ok(FloatValueOf(whole, fraction), k)
  {
    hide Digits1, Tag, FloatValueOf;
    DigitsOf(whole, "." + (fraction + k));
    TagOf(".", fraction + k);
    DigitsOf(fraction, k);
  }

  /** The text of a float, in front of anything closed. */
  lemma FloatOf(text: string, f: real, k: string)
    requires WritesFloat(text, f) && Closed(k)
    ensures LiteralValue(text + k) == Ok(Float(f), k) && StartsDark(text + k)
  {
    hide FloatLiteral, StringLiteral, BooleanLiteral, Number;
    var whole, fraction :| FloatParts(text, f, whole, fraction);
    var s := whole + ("." + (fraction + k));
    assert text + k == s;
    ClosedStops(k);
    FloatLiteralOf(whole, fraction, k);
    assert s[0] == whole[0];
    StringMiss(s);
    BooleanMiss(s);
  }

  lemma BooleanOf(b: bool, k: string)
    ensures LiteralValue((if b then "true" else "false") + k) == Ok(Boolean(b), k)
  {
    var s := (if b then "true" else "false") + k;
    StringMiss(s);
    if b {
      TagOf("true", k);
    } else {
      TagMiss("true", s, 0);
      TagOf("false", k);
    }
  }

  lemma NullOf(k: string)
    ensures LiteralValue("null" + k) == Ok(Null, k)
  {
    var s := "null" + k;
    StringMiss(s);
    BooleanMiss(s);
    DigitMiss(s);
    TagOf("null", k);
  }

  lemma StringOf(x: string, k: string)
    requires NoQuotes(x)
    ensures LiteralValue(Quoted(x, k)) == Ok(String(x), k)
  {
    StringLiteralOf(x, k);
  }

  lemma LiteralOf(floats: real -> string, l: Literal, k: string)
    requires PlainLiteral(Written(floats), l) && Closed(k)
    ensures LiteralValue(ShowLiteral(floats, l, k)) == Ok(l, k)
    ensures StartsDark(ShowLiteral(floats, l, k))
  {
    hide LiteralValue;
    match l
    case String(x) => StringOf(x, k);
    case Integer(i) =>
      IntegerOf(i, k);
      Digits1Of(i, k);
    case Float(f) => FloatOf(floats(f), f, k);
    case Boolean(b) => BooleanOf(b, k);
    case Null => NullOf(k);
  }

  /** The separator ", " in front of an element. */
  lemma CommaOf(u: string)
    requires StartsDark(u)
    ensures Separator(",", Lead(",", u)) == Ok((), u) && Closed(Lead(",", u))
  {
    hide Ws, Word;
    WsNothing(Lead(",", u));
    WordOf(",", " ", u);
  }

  lemma AndOf(u: string)
    requires StartsDark(u)
    ensures Separator("AND", Spaced("AND", u)) == Ok((), u) && Closed(Spaced("AND", u))
    ensures Ws(Spaced("AND", u)) == Lead("AND", u)
  {
    hide Ws, Word;
    WsOf(" ", Lead("AND", u));
    WordOf("AND", " ", u);
  }

  ghost predicate NoSeparator(t: string, k: string) {
    Separator(t, k) == Fail
  }

  lemma MoreStop<T>(elem: string -> Parse<T>, t: string, k: string)
    requires Shrinks(elem) && NoSeparator(t, k)
    ensures More(elem, t, k) == Ok([], k)
  {
  }

  lemma {:induction false} LiteralsOf(floats: real -> string, ls: seq<Literal>, k: string)
    requires ls != [] && PlainLiterals(Written(floats), ls) && Closed(k) && NoSeparator(",", k)
    ensures List1(LiteralValue, ",", ShowLiterals(floats, ls, k)) == Ok(ls, k)
    ensures StartsDark(ShowLiterals(floats, ls, k))
  {
    if |ls| == 1 {
      LiteralOf(floats, ls[0], k);
      MoreStop(LiteralValue, ",", k);
      assert [ls[0]] + [] == ls;
    } else {
      var u := ShowLiterals(floats, ls[1..], k);
      LiteralsOf(floats, ls[1..], k);
      CommaOf(u);
      LiteralOf(floats, ls[0], Lead(",", u));
      ListStep(LiteralValue, ",", ShowLiterals(floats, ls, k), Lead(",", u), u, ls, k);
    }
  }

  /** A first element, a separator, and a list that parses: the longer list parses. */
  lemma ListStep<T(!new)>(elem: string -> Parse<T>, t: string, s: string, mid: string, u: string, xs: seq<T>, k: string)
    requires Shrinks(elem) && |xs| > 1 && elem(s) == Ok(xs[0], mid) && Separator(t, mid) == Ok((), u)
    requires List1(elem, t, u) == Ok(xs[1..], k)
    ensures List1(elem, t, s) == Ok(xs, k)
  {
    var b := elem(u);
    assert Consumed(u, b);
    MoreStep(elem, t, mid, u, b.value, b.rest);
    assert xs == [xs[0]] + xs[1..];
  }

  // ---------- predicates ----------

  lemma FieldNameOf(field: string, u: string)
    requires IsIdentifier(field) && StartsDark(u)
    ensures FieldName(field + (" " + u)) == Ok(field, u)
  {
    hide Identifier, Ws;
    IdentifierOf(field, " " + u);
    WsOf(" ", u);
  }

  lemma CloseOf(k: string)
    ensures NoSeparator(",", ")" + k) && Closed(")" + k) && LiteralValue(")" + k) == Fail && Identifier(")" + k) == Fail
    ensures StringLiteral(")" + k) == Fail
  {
    hide Ws, Word, Tag, Digits1, StringLiteral, BooleanLiteral;
    var s := ")" + k;
    assert s[0] == ')';
    WsNothing(s);
    WordMiss(",", s, 0);
    StringMiss(s);
    BooleanMiss(s);
    DigitMiss(s);
    TagMiss("null", s, 0);
  }

  lemma LiteralListOf(floats: real -> string, ls: seq<Literal>, k: string)
    requires PlainLiterals(Written(floats), ls)
    ensures Parenthesised(LiteralValue, "(" + ShowLiterals(floats, ls, ")" + k)) == Ok(ls, k)
  {
    hide LiteralValue, More, Tag;
    TagOf("(", ShowLiterals(floats, ls, ")" + k));
    CloseOf(k);
    TagOf(")", k);
    if ls != [] {
      LiteralsOf(floats, ls, ")" + k);
    }
  }

  lemma OperatorOf(op: ComparisonOp, u: string)
    ensures Operator(OpText(op) + (" " + u)) == Ok(op, " " + u)
  {
    hide Tag;
    var s := OpText(op) + (" " + u);
    TagOf(OpText(op), " " + u);
    if op != Neq {
      TagMiss("!=", s, 0);
    }
    match op
    case Neq =>
    case Lte =>
    case Gte =>
      TagMiss("<=", s, 0);
    case Eq =>
      TagMiss("<=", s, 0);
      TagMiss(">=", s, 0);
    case Lt =>
      TagMiss("<=", s, 1);
      TagMiss(">=", s, 0);
      TagMiss("=", s, 0);
    case Gt =>
      TagMiss("<=", s, 0);
      TagMiss(">=", s, 1);
      TagMiss("=", s, 0);
      TagMiss("<", s, 0);
  }

  /** None of the keyword predicates starts with field and `u`. */
  lemma KeywordMiss(field: string, u: string)
    requires IsIdentifier(field) && StartsDark(u)
    ensures u[0] != 'I' ==> InPredicate(field + (" " + u)) == Fail
    ensures u[0] != 'B' ==> BetweenPredicate(field + (" " + u)) == Fail
    ensures u[0] != 'L' ==> LikePredicate(field + (" " + u)) == Fail
  {
    hide FieldName, Word;
    FieldNameOf(field, u);
    if u[0] != 'I' {
      WordMiss("IN", u, 0);
    }
    if u[0] != 'B' {
      WordMiss("BETWEEN", u, 0);
    }
    if u[0] != 'L' {
      WordMiss("LIKE", u, 0);
    }
  }

  lemma ComparisonOf(floats: real -> string, p: Predicate, k: string)
    requires p.Comparison? && PlainBase(Written(floats), p) && Closed(k)
    ensures ComparisonPredicate(ShowPredicate(floats, p, k)) == Ok(p, k)
  {
    hide LiteralValue, Operator, FieldName, Ws;
    var v := ShowLiteral(floats, p.value, k);
    LiteralOf(floats, p.value, k);
    OperatorOf(p.op, v);
    FieldNameOf(p.field, Lead(OpText(p.op), v));
    WsOf(" ", v);
  }

  lemma InOf(floats: real -> string, p: Predicate, k: string)
    requires p.In? && PlainBase(Written(floats), p)
    ensures InPredicate(ShowPredicate(floats, p, k)) == Ok(p, k)
  {
    hide LiteralValue, FieldName, Parenthesised, Word;
    var v := "(" + ShowLiterals(floats, p.values, ")" + k);
    LiteralListOf(floats, p.values, k);
    FieldNameOf(p.field, Lead("IN", v));
    WordOf("IN", " ", v);
  }

  lemma BetweenOf(floats: real -> string, p: Predicate, k: string)
    requires p.Between? && PlainBase(Written(floats), p) && Closed(k)
    ensures BetweenPredicate(ShowPredicate(floats, p, k)) == Ok(p, k)
  {
    hide LiteralValue, FieldName, Word, Ws;
    var v := ShowLiteral(floats, p.high, k);
    LiteralOf(floats, p.high, k);
    AndOf(v);
    var u := ShowLiteral(floats, p.low, Spaced("AND", v));
    LiteralOf(floats, p.low, Spaced("AND", v));
    FieldNameOf(p.field, Lead("BETWEEN", u));
    WordOf("BETWEEN", " ", u);
    WordOf("AND", " ", v);
  }

  lemma LikeOf(floats: real -> string, p: Predicate, k: string)
    requires p.Like? && PlainBase(Written(floats), p)
    ensures LikePredicate(ShowPredicate(floats, p, k)) == Ok(p, k)
  {
    hide FieldName, StringLiteral, Word;
    var v := Quoted(p.pattern, k);
    StringLiteralOf(p.pattern, k);
    FieldNameOf(p.field, Lead("LIKE", v));
    WordOf("LIKE", " ", v);
  }

  lemma BaseStartsDark(floats: real -> string, p: Predicate, k: string)
    requires PlainBase(Written(floats), p)
    ensures StartsDark(ShowPredicate(floats, p, k))
  {
  }

  lemma BaseOf(floats: real -> string, p: Predicate, k: string)
    requires PlainBase(Written(floats), p) && Closed(k)
    ensures BasePredicate(ShowPredicate(floats, p, k)) == Ok(p, k)
    ensures StartsDark(ShowPredicate(floats, p, k))
  {
    hide InPredicate, BetweenPredicate, LikePredicate, ComparisonPredicate, ShowLiteral, ShowLiterals, Quoted;
    BaseStartsDark(floats, p, k);
    match p
    case In(_, _) => InOf(floats, p, k);
    case Between(field, low, high) =>
      BetweenOf(floats, p, k);
      KeywordMiss(field, Lead("BETWEEN", ShowLiteral(floats, low, Spaced("AND", ShowLiteral(floats, high, k)))));
    case Like(field, pattern) =>
      LikeOf(floats, p, k);
      KeywordMiss(field, Lead("LIKE", Quoted(pattern, k)));
    case Comparison(field, op, value) =>
      ComparisonOf(floats, p, k);
      KeywordMiss(field, Lead(OpText(op), ShowLiteral(floats, value, k)));
  }

  lemma {:induction false} BasesOf(floats: real -> string, ps: seq<Predicate>, k: string)
    requires ps != [] && PlainBases(Written(floats), ps) && Closed(k) && NoSeparator("AND", k)
    ensures List1(BasePredicate, "AND", ShowPredicates(floats, ps, k)) == Ok(ps, k)
    ensures StartsDark(ShowPredicates(floats, ps, k))
  {
    hide BasePredicate, ShowPredicate, PlainBase, Separator, Spaced, More;
    if |ps| == 1 {
      BaseOf(floats, ps[0], k);
      MoreStop(BasePredicate, "AND", k);
      assert [ps[0]] + [] == ps;
    } else {
      var u := ShowPredicates(floats, ps[1..], k);
      BasesOf(floats, ps[1..], k);
      AndOf(u);
      BaseOf(floats, ps[0], Spaced("AND", u));
      ListStep(BasePredicate, "AND", ShowPredicates(floats, ps, k), Spaced("AND", u), u, ps, k);
    }
  }

  lemma WhereOf(floats: real -> string, ps: seq<Predicate>, k: string)
    requires PlainWhere(Written(floats), ps) && Closed(k) && NoSeparator("AND", k)
    ensures AndExpression(ShowPredicates(floats, ps, k)) == Ok(ps[0], k)
    ensures StartsDark(ShowPredicates(floats, ps, k))
  {
    hide BasePredicate, List1, Separator, PlainLiteral, PlainLiterals;
    if ps[0].And? {
      BasesOf(floats, ps[0].predicates, k);
    } else {
      BasesOf(floats, ps, k);
    }
  }

  // ---------- projections and calls ----------

  /** What may follow a projection: nothing that would extend it. */
  ghost predicate AfterProjection(k: string) {
    Closed(k) && NoLead("(", k) && NoLead("AS", k)
  }

  lemma AfterComma(u: string)
    ensures AfterProjection(Lead(",", u))
  {
    hide Ws, Tag;
    var s := Lead(",", u);
    WsNothing(s);
    TagMiss("(", s, 0);
    TagMiss("AS", s, 0);
  }

  lemma FieldOf(name: string, k: string)
    requires IsIdentifier(name) && AfterProjection(k)
    ensures OneProjection(name + k) == Ok(Field(name), k)
  {
    hide Identifier, Ws, Tag;
    ClosedStops(k);
    IdentifierOf(name, k);
    WsNothing(name + k);
  }

  lemma AliasedOf(field: string, alias: string, k: string)
    requires IsIdentifier(field) && IsIdentifier(alias) && Closed(k)
    ensures OneProjection(field + Spaced("AS", alias + k)) == Ok(Aliased(field, alias), k)
  {
    hide FieldName, Identifier, Ws, Word;
    var u := Lead("AS", alias + k);
    var s := field + (" " + u);
    ClosedStops(k);
    IdentifierOf(alias, k);
    FieldNameOf(field, u);
    WsNothing(s);
    WordMiss("(", u, 0);
    assert FunctionProjection(s) == Fail;
    WordOf("AS", " ", alias + k);
  }

  lemma FunctionOf(name: string, field: string, k: string)
    requires IsIdentifier(name) && IsIdentifier(field)
    ensures OneProjection(name + ("(" + (field + (")" + k)))) == Ok(Function(name, field), k)
  {
    hide Identifier, Ws, Word, Tag;
    var v := field + (")" + k);
    var s := name + ("(" + v);
    IdentifierOf(name, "(" + v);
    IdentifierOf(field, ")" + k);
    WsNothing(s);
    WsNothing("(" + v);
    WsNothing(")" + k);
    assert "(" + v == "(" + ("" + v) by { assert "" + v == v; }
    WordOf("(", "", v);
    TagOf(")", k);
  }

  lemma ProjectionOf(p: Projection, k: string)
    requires PlainProjection(p) && AfterProjection(k)
    ensures OneProjection(ShowProjection(p, k)) == Ok(p, k)
    ensures StartsDark(ShowProjection(p, k))
  {
    hide OneProjection;
    match p
    case Field(name) => FieldOf(name, k);
    case Aliased(field, alias) => AliasedOf(field, alias, k);
    case Function(name, field) => FunctionOf(name, field, k);
  }

  lemma {:induction false} ProjectionsOf(ps: seq<Projection>, k: string)
    requires ps != [] && PlainProjections(ps) && AfterProjection(k) && NoSeparator(",", k)
    ensures List1(OneProjection, ",", ShowProjections(ps, k)) == Ok(ps, k)
    ensures StartsDark(ShowProjections(ps, k))
  {
    hide OneProjection, ShowProjection, PlainProjection, Separator, AfterProjection, More, Lead;
    if |ps| == 1 {
      ProjectionOf(ps[0], k);
      MoreStop(OneProjection, ",", k);
      assert [ps[0]] + [] == ps;
    } else {
      var u := ShowProjections(ps[1..], k);
      ProjectionsOf(ps[1..], k);
      CommaOf(u);
      AfterComma(u);
      ProjectionOf(ps[0], Lead(",", u));
      ListStep(OneProjection, ",", ShowProjections(ps, k), Lead(",", u), u, ps, k);
    }
  }

  /** A parser that reads identifiers as they are written. */
  ghost predicate ReadsNames(elem: string -> Parse<string>) {
    && Shrinks(elem)
    && (forall x, k :: IsIdentifier(x) && Stops(IsIdChar, k) ==> elem(x + k) == Ok(x, k))
    && (forall k :: elem(")" + k) == Fail)
  }

  lemma IdentifierReadsNames()
    ensures ReadsNames(Identifier)
  {
    forall x, k | IsIdentifier(x) && Stops(IsIdChar, k) ensures Identifier(x + k) == Ok(x, k) {
      IdentifierOf(x, k);
    }
    forall k ensures Identifier(")" + k) == Fail {
      CloseOf(k);
    }
  }

  lemma OrderByArgReadsNames()
    ensures ReadsNames(OrderByArg)
  {
    forall x, k | IsIdentifier(x) && Stops(IsIdChar, k) ensures OrderByArg(x + k) == Ok(x, k) {
      IdentifierOf(x, k);
      StringMiss(x + k);
    }
    forall k ensures OrderByArg(")" + k) == Fail {
      CloseOf(k);
    }
  }

  lemma {:induction false} NamesOf(elem: string -> Parse<string>, xs: seq<string>, k: string)
    requires xs != [] && Names(xs) && ReadsNames(elem) && Closed(k) && NoSeparator(",", k)
    ensures List1(elem, ",", ShowNames(xs, k)) == Ok(xs, k)
    ensures StartsDark(ShowNames(xs, k))
  {
    hide Separator, More, Lead;
    if |xs| == 1 {
      ClosedStops(k);
      MoreStop(elem, ",", k);
      assert [xs[0]] + [] == xs;
    } else {
      var u := ShowNames(xs[1..], k);
      NamesOf(elem, xs[1..], k);
      CommaOf(u);
      ClosedStops(Lead(",", u));
      ListStep(elem, ",", ShowNames(xs, k), Lead(",", u), u, xs, k);
    }
  }

  lemma ArgumentsOf(elem: string -> Parse<string>, xs: seq<string>, k: string)
    requires Names(xs) && ReadsNames(elem)
    ensures Parenthesised(elem, "(" + ShowNames(xs, ")" + k)) == Ok(xs, k)
  {
    hide Tag;
    TagOf("(", ShowNames(xs, ")" + k));
    CloseOf(k);
    TagOf(")", k);
    if xs != [] {
      NamesOf(elem, xs, ")" + k);
    }
  }

  // ---------- clauses ----------

  /** How a clause can begin. */
  ghost predicate ClauseStart(s: string) {
    || StartsWith("WITH", s) || StartsWith("PROJECT", s) || StartsWith("BIAS", s) || StartsWith("ORDER", s)
    || StartsWith("LIMIT", s) || StartsWith("OFFSET", s) || StartsWith("EN", s)
  }

  /** Where a clause ends: the text ends, or whitespace leads to the next clause. */
  ghost predicate ClauseEnd(k: string) {
    k == [] || (IsSpace(k[0]) && (Ws(k) == [] || ClauseStart(Ws(k))))
  }

  lemma PrefixChar(t: string, s: string, i: nat)
    requires StartsWith(t, s) && i < |t|
    ensures s[i] == t[i]
  {
    assert s[..|t|][i] == s[i];
  }

  lemma StartLetter(s: string)
    requires ClauseStart(s)
    ensures StartsDark(s) && s[0] in {'W', 'P', 'B', 'O', 'L', 'E'}
  {
    if StartsWith("WITH", s) {
      PrefixChar("WITH", s, 0);
    } else if StartsWith("PROJECT", s) {
      PrefixChar("PROJECT", s, 0);
    } else if StartsWith("BIAS", s) {
      PrefixChar("BIAS", s, 0);
    } else if StartsWith("ORDER", s) {
      PrefixChar("ORDER", s, 0);
    } else if StartsWith("LIMIT", s) {
      PrefixChar("LIMIT", s, 0);
    } else if StartsWith("OFFSET", s) {
      PrefixChar("OFFSET", s, 0);
    } else {
      PrefixChar("EN", s, 0);
    }
  }

  /** No clause start continues the clause before it. */
  lemma EndStops(k: string)
    requires ClauseEnd(k)
    ensures Closed(k) && AfterProjection(k) && NoSeparator(",", k) && NoSeparator("AND", k)
    ensures NoLead("DESC", k) && NoLead("ASC", k) && Stops(IsDigit, k)
  {
    hide ClauseStart, Ws, Tag, Word;
    var u := Ws(k);
    if k == [] {
      WsNothing(k);
    } else if u != [] {
      StartLetter(u);
    }
    WordMiss(",", u, 0);
    WordMiss("AND", u, 0);
    TagMiss("(", u, 0);
    TagMiss("AS", u, 0);
    TagMiss("DESC", u, 0);
    TagMiss("ASC", u, 0);
  }

  lemma OnePredicate(fl: Floats, ps: seq<Predicate>)
    requires PlainWhere(fl, ps)
    ensures |ps| == 1
  {
  }

  lemma WhereClauseOf(floats: real -> string, ps: seq<Predicate>, k: string)
    requires PlainWhere(Written(floats), ps) && ClauseEnd(k)
    ensures MetadataWhereClause(ShowClause(floats, MetadataWhere(ps), k)) == Ok(MetadataWhere(ps), k)
  {
    hide AndExpression, ShowPredicates, ClauseEnd, PlainWhere, Word;
    assert |ps| == 1 by {
      OnePredicate(Written(floats), ps);
    }
    var u := ShowPredicates(floats, ps, k);
    EndStops(k);
    WhereOf(floats, ps, k);
    WordOf("WITH", " ", Lead("METADATA", Lead("WHERE", u)));
    WordOf("METADATA", " ", Lead("WHERE", u));
    WordOf("WHERE", " ", u);
    assert ps == [ps[0]];
  }

  lemma ProjectClauseOf(floats: real -> string, ps: seq<Projection>, k: string)
    requires ps != [] && PlainProjections(ps) && ClauseEnd(k)
    ensures ProjectOnClause(ShowClause(floats, ProjectOn(ps), k)) == Ok(ProjectOn(ps), k)
  {
    hide List1, ShowProjections, ClauseEnd, OneProjection, Word;
    var u := ShowProjections(ps, k);
    EndStops(k);
    ProjectionsOf(ps, k);
    WordOf("PROJECT", " ", Lead("ON", u));
    WordOf("ON", " ", u);
  }

  lemma BiasClauseOf(floats: real -> string, b: Bias, k: string)
    requires IsIdentifier(b.scoringFn) && Names(b.args)
    ensures BiasClause(ShowClause(floats, Biased(b), k)) == Ok(Biased(b), k)
  {
    hide Parenthesised, ShowNames, Identifier, Word;
    var u := "(" + ShowNames(b.args, ")" + k);
    IdentifierReadsNames();
    ArgumentsOf(Identifier, b.args, k);
    IdentifierOf(b.scoringFn, u);
    WordOf("BIAS", " ", b.scoringFn + u);
  }

  lemma DirectionOf(descending: bool, k: string)
    requires ClauseEnd(k)
    ensures Direction(if descending then " " + ("DESC" + k) else k) == Ok(descending, k)
  {
    hide Ws, Tag, ClauseEnd;
    EndStops(k);
    if descending {
      WsOf(" ", "DESC" + k);
      TagOf("DESC", k);
    }
  }

  lemma OrderPrefix(fn: string, u: string)
    requires IsIdentifier(fn) && Stops(IsIdChar, u)
    ensures OrderByClause(Lead("ORDER", Lead("BY", fn + u))) == OrderCall(fn, u)
  {
    hide OrderCall, Identifier, Ws;
    IdentifierOf(fn, u);
    WordOf("BY", " ", fn + u);
    WordOf("ORDER", " ", Lead("BY", fn + u));
  }

  lemma OrderClauseOf(floats: real -> string, o: OrderBy, k: string)
    requires IsIdentifier(o.scoringFn) && Names(o.args) && ClauseEnd(k)
    ensures OrderByClause(ShowClause(floats, Ordered(o), k)) == Ok(Ordered(o), k)
  {
    hide Parenthesised, ShowNames, OrderByArg, Direction, Lead, OrderByClause, Names, ClauseEnd;
    var k' := if o.descending then " " + ("DESC" + k) else k;
    DirectionOf(o.descending, k);
    OrderByArgReadsNames();
    ArgumentsOf(OrderByArg, o.args, k');
    OrderPrefix(o.scoringFn, "(" + ShowNames(o.args, ")" + k'));
  }

  lemma CountClauseOf(n: nat, k: string)
    requires n <= MaxU64 && ClauseEnd(k)
    ensures LimitClause(Lead("LIMIT", Decimal(n) + k)) == Ok(Limit(n), k)
    ensures OffsetClause(Lead("OFFSET", Decimal(n) + k)) == Ok(Offset(n), k)
  {
    hide Number, Word;
    EndStops(k);
    NumberOf(MaxU64, n, k);
    WordOf("LIMIT", " ", Decimal(n) + k);
    WordOf("OFFSET", " ", Decimal(n) + k);
  }

  lemma BudgetClauseOf(keyword: string, n: nat, k: string)
    requires n <= MaxU64
    ensures BudgetClause(keyword, Lead(keyword, Decimal(n) + ("ms" + k))) == Ok(Within(n), k)
  {
    hide Number, Word, Tag;
    NumberOf(MaxU64, n, "ms" + k);
    WordOf(keyword, " ", Decimal(n) + ("ms" + k));
    TagOf("ms", k);
  }

  /** Which clause parsers cannot accept a text, by its first characters. */
  lemma ClauseMiss(s: string)
    requires s != []
    ensures s[0] != 'W' ==> MetadataWhereClause(s) == Fail && BudgetClause("WITHIN", s) == Fail
    ensures s[0] != 'P' ==> ProjectOnClause(s) == Fail
    ensures s[0] != 'B' ==> BiasClause(s) == Fail
    ensures s[0] != 'O' ==> OrderByClause(s) == Fail && OffsetClause(s) == Fail
    ensures s[0] != 'L' ==> LimitClause(s) == Fail
  {
    hide Tag;
    if s[0] != 'W' {
      TagMiss("WITH", s, 0);
      TagMiss("WITHIN", s, 0);
    }
    if s[0] != 'P' {
      TagMiss("PROJECT", s, 0);
    }
    if s[0] != 'B' {
      TagMiss("BIAS", s, 0);
    }
    if s[0] != 'O' {
      TagMiss("ORDER", s, 0);
      TagMiss("OFFSET", s, 0);
    }
    if s[0] != 'L' {
      TagMiss("LIMIT", s, 0);
    }
  }

  /** WITHIN starts with WITH but is no metadata clause. */
  lemma WithinIsNotWith(u: string)
    ensures MetadataWhereClause("WITHIN" + u) == Fail
  {
    hide Ws, Tag;
    assert "WITHIN" + u == "WITH" + ("IN" + u);
    TagOf("WITH", "IN" + u);
    WsNothing("IN" + u);
    WordMiss("METADATA", "IN" + u, 0);
  }

  lemma OffsetIsNotOrder(u: string)
    ensures OrderByClause("OFFSET" + u) == Fail
  {
    TagMiss("ORDER", "OFFSET" + u, 1);
  }

  /** A printed clause parses back, whatever clause follows it. */
  lemma ClauseOf(floats: real -> string, c: Clause, k: string)
    requires PlainClause(Written(floats), c) && ClauseEnd(k)
    ensures AnyClause(ShowClause(floats, c, k)) == Ok(c, k)
  {
    hide MetadataWhereClause, ProjectOnClause, BiasClause, OrderByClause, LimitClause, OffsetClause, BudgetClause,
         ShowPredicates, ShowProjections, ShowCall, PlainWhere, PlainProjections, Names, IsIdentifier, ClauseEnd;
    var s := ShowClause(floats, c, k);
    ClauseMiss(s);
    match c
    case MetadataWhere(ps) => WhereClauseOf(floats, ps, k);
    case ProjectOn(ps) => ProjectClauseOf(floats, ps, k);
    case Biased(b) => BiasClauseOf(floats, b, k);
    case Ordered(o) => OrderClauseOf(floats, o, k);
    case Limit(n) => CountClauseOf(n, k);
    case Offset(n) =>
      CountClauseOf(n, k);
      OffsetIsNotOrder(" " + (Decimal(n) + k));
    case Within(n) =>
      BudgetClauseOf("WITHIN", n, k);
      WithinIsNotWith(" " + (Decimal(n) + ("ms" + k)));
  }
}
