/** The grammar: one function per parser. Alternatives are tried in order. */
module VqlGrammar {
  import opened Options
  import opened VqlLexer
  import opened VqlAst

  function OrElse<T>(a: Parse<T>, b: Parse<T>): Parse<T> {
    if a.Ok? then a else b
  }

  function Const<T, U>(v: U, p: Parse<T>): Parse<U> {
    var (_, s) :- p;
    Ok(v, s)
  }

  // ---------- literals and operators ----------

  function BooleanLiteral(s: string): (r: Parse<bool>)
    ensures Consumed(s, r)
  {
    OrElse(Const(true, Tag("true", s)), Const(false, Tag("false", s)))
  }

  function StringValue(s: string): (r: Parse<Literal>)
    ensures Consumed(s, r)
  {
    var (x, s) :- StringLiteral(s);
    Ok(String(x), s)
  }

  function BooleanValue(s: string): (r: Parse<Literal>)
    ensures Consumed(s, r)
  {
    var (b, s) :- BooleanLiteral(s);
    Ok(Boolean(b), s)
  }

  function FloatValue(s: string): (r: Parse<Literal>)
    ensures Consumed(s, r)
  {
    var (f, s) :- FloatLiteral(s);
    Ok(Float(f), s)
  }

  function IntegerValue(s: string): (r: Parse<Literal>)
    ensures Consumed(s, r)
  {
    var (n, s) :- Number(MaxI64, s);
    Ok(Integer(n), s)
  }

  function LiteralValue(s: string): (r: Parse<Literal>)
    ensures Consumed(s, r)
  {
    OrElse(StringValue(s), OrElse(BooleanValue(s), OrElse(FloatValue(s), OrElse(IntegerValue(s),
      Const(Null, Tag("null", s))))))
  }

  function OrderByArg(s: string): (r: Parse<string>)
    ensures Consumed(s, r)
  {
    OrElse(StringLiteral(s), Identifier(s))
  }

  function Operator(s: string): (r: Parse<ComparisonOp>)
    ensures Consumed(s, r)
  {
    OrElse(Const(Neq, Tag("!=", s)), OrElse(Const(Lte, Tag("<=", s)), OrElse(Const(Gte, Tag(">=", s)),
      OrElse(Const(Eq, Tag("=", s)), OrElse(Const(Lt, Tag("<", s)), Const(Gt, Tag(">", s)))))))
  }

  // ---------- predicates ----------

  /** The field every predicate starts with, and the whitespace after it. */
  function FieldName(s: string): (r: Parse<string>)
    ensures Consumed(s, r) && (r.Ok? ==> IsIdentifier(r.value))
  {
    var (field, s) :- Identifier(s);
    Ok(field, Ws(s))
  }

  function ComparisonPredicate(s: string): (r: Parse<Predicate>)
    ensures Consumed(s, r)
  {
    var (field, s) :- FieldName(s);
    var (op, s) :- Operator(s);
    var (value, s) :- LiteralValue(Ws(s));
    Ok(Comparison(field, op, value), s)
  }

  function InPredicate(s: string): (r: Parse<Predicate>)
    ensures Consumed(s, r)
  {
    var (field, s) :- FieldName(s);
    var (_, s) :- Word("IN", s);
    var (values, s) :- Parenthesised(LiteralValue, s);
    Ok(In(field, values), s)
  }

  function BetweenPredicate(s: string): (r: Parse<Predicate>)
    ensures Consumed(s, r)
  {
    var (field, s) :- FieldName(s);
    var (_, s) :- Word("BETWEEN", s);
    var (low, s) :- LiteralValue(s);
    var (_, s) :- Word("AND", Ws(s));
    var (high, s) :- LiteralValue(s);
    Ok(Between(field, low, high), s)
  }

  function LikePredicate(s: string): (r: Parse<Predicate>)
    ensures Consumed(s, r)
  {
    var (field, s) :- FieldName(s);
    var (_, s) :- Word("LIKE", s);
    var (pattern, s) :- StringLiteral(s);
    Ok(Like(field, pattern), s)
  }

  function BasePredicate(s: string): (r: Parse<Predicate>)
    ensures Consumed(s, r)
  {
    OrElse(InPredicate(s), OrElse(BetweenPredicate(s), OrElse(LikePredicate(s), ComparisonPredicate(s))))
  }

  /** One predicate stands alone, several become one AND. */
  function AndExpression(s: string): (r: Parse<Predicate>)
    ensures Consumed(s, r)
  {
    var (ps, s) :- List1(BasePredicate, "AND", s);
    if |ps| == 1 then Ok(ps[0], s) else Ok(And(ps), s)
  }

  // ---------- FIND ----------

  function VectorLiteral(s: string): (r: Parse<seq<real>>)
    ensures Consumed(s, r)
  {
    var (_, s) :- Word("VECTOR", s);
    var (_, s) :- Word("(", s);
    var values := List0(FloatLiteral, ",", s);
    var (_, s) :- Tag(")", Ws(values.rest));
    Ok(values.value, s)
  }

  datatype Source = Source(text: string, vector: Option<seq<real>>)

  function VectorSource(s: string): (r: Parse<Source>)
    ensures Consumed(s, r)
  {
    var (v, s) :- VectorLiteral(s);
    Ok(Source("", Some(v)), s)
  }

  function TextSource(s: string): (r: Parse<Source>)
    ensures Consumed(s, r)
  {
    var (x, s) :- StringLiteral(s);
    Ok(Source(x, None), s)
  }

  datatype Find = Find(find: string, similarity: SimilarityExpr)

  function FindExpr(s: string): (r: Parse<Find>)
    ensures Consumed(s, r)
  {
    var (find, s) :- OrElse(Const("SIMILARITY", Tag("SIMILARITY", s)), Const("SEMANTIC", Tag("SEMANTIC", s)));
    var (_, s) :- Word("(", s);
    var (field, s) :- FieldName(s);
    var (_, s) :- Word(",", s);
    var (source, s) :- OrElse(VectorSource(s), TextSource(s));
    var (_, s) :- Tag(")", Ws(s));
    Ok(Find(find, SimilarityExpr(field, source.text, source.vector)), s)
  }

  // ---------- clauses ----------

  function MetadataWhereClause(s: string): (r: Parse<Clause>)
    ensures Consumed(s, r)
  {
    var (_, s) :- Word("WITH", s);
    var (_, s) :- Word("METADATA", s);
    var (_, s) :- Word("WHERE", s);
    var (p, s) :- AndExpression(s);
    Ok(MetadataWhere([p]), s)
  }

  function Direction(s: string): (r: Parse<bool>)
    ensures r.Ok? && |r.rest| <= |s|
  {
    OrElse(Const(true, Tag("DESC", Ws(s))), OrElse(Const(false, Tag("ASC", Ws(s))), Ok(false, s)))
  }

  function OrderByClause(s: string): (r: Parse<Clause>)
    ensures Consumed(s, r)
  {
    var (_, s) :- Word("ORDER", s);
    var (_, s) :- Word("BY", s);
    var (fn, s) :- Identifier(s);
    OrderCall(fn, s)
  }

  /** The arguments and the optional direction. */
  function OrderCall(fn: string, s: string): (r: Parse<Clause>)
    ensures Consumed(s, r)
  {
    var (args, s) :- Parenthesised(OrderByArg, s);
    var direction := Direction(s);
    Ok(Ordered(OrderBy(fn, args, direction.value)), direction.rest)
  }

  function LimitClause(s: string): (r: Parse<Clause>)
    ensures Consumed(s, r)
  {
    var (_, s) :- Word("LIMIT", s);
    var (n, s) :- Number(MaxU64, s);
    Ok(Limit(n), s)
  }

  function OffsetClause(s: string): (r: Parse<Clause>)
    ensures Consumed(s, r)
  {
    var (_, s) :- Word("OFFSET", s);
    var (n, s) :- Number(MaxU64, s);
    Ok(Offset(n), s)
  }

  /** The budget clause under either of its keywords. */
  function BudgetClause(keyword: string, s: string): (r: Parse<Clause>)
    ensures Consumed(s, r)
  {
    var (_, s) :- Word(keyword, s);
    var (n, s) :- Number(MaxU64, s);
    var (_, s) :- Tag("ms", s);
    Ok(Within(n), s)
  }

  function FunctionProjection(s: string): (r: Parse<Projection>)
    ensures Consumed(s, r)
  {
    var (name, s) :- FieldName(s);
    var (_, s) :- Word("(", s);
    var (field, s) :- FieldName(s);
    var (_, s) :- Tag(")", s);
    Ok(Function(name, field), s)
  }

  function AliasedProjection(s: string): (r: Parse<Projection>)
    ensures Consumed(s, r)
  {
    var (field, s) :- FieldName(s);
    var (_, s) :- Word("AS", s);
    var (alias, s) :- Identifier(s);
    Ok(Aliased(field, alias), s)
  }

  function FieldProjection(s: string): (r: Parse<Projection>)
    ensures Consumed(s, r)
  {
    var (field, s) :- Identifier(s);
    Ok(Field(field), s)
  }

  function OneProjection(s: string): (r: Parse<Projection>)
    ensures Consumed(s, r)
  {
    OrElse(FunctionProjection(Ws(s)), OrElse(AliasedProjection(Ws(s)), FieldProjection(Ws(s))))
  }

  function ProjectOnClause(s: string): (r: Parse<Clause>)
    ensures Consumed(s, r)
  {
    var (_, s) :- Word("PROJECT", s);
    var (_, s) :- Word("ON", s);
    var (ps, s) :- List1(OneProjection, ",", s);
    Ok(ProjectOn(ps), s)
  }

  function BiasClause(s: string): (r: Parse<Clause>)
    ensures Consumed(s, r)
  {
    var (_, s) :- Word("BIAS", s);
    var (fn, s) :- Identifier(s);
    var (args, s) :- Parenthesised(Identifier, s);
    Ok(Biased(Bias(fn, args)), s)
  }

  function AnyClause(s: string): (r: Parse<Clause>)
    ensures Consumed(s, r)
  {
    OrElse(MetadataWhereClause(s), OrElse(ProjectOnClause(s), OrElse(BiasClause(s), OrElse(OrderByClause(s),
      OrElse(LimitClause(s), OrElse(OffsetClause(s), OrElse(BudgetClause("WITHIN", s), BudgetClause("EN", s))))))))
  }
}
