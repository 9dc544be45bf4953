/** Queries and their printed text. Every printer takes what is printed after it. */
module VqlAst {
  import opened Options
  import opened VqlLexer

  datatype ComparisonOp = Eq | Neq | Lt | Gt | Lte | Gte

  datatype Literal =
    | String(text: string)
    | Integer(number: int)
    | Float(float: real)
    | Boolean(truth: bool)
    | Null

  datatype Predicate =
    | Comparison(field: string, op: ComparisonOp, value: Literal)
    | In(field: string, values: seq<Literal>)
    | Between(field: string, low: Literal, high: Literal)
    | Like(field: string, pattern: string)
    | And(predicates: seq<Predicate>)

  datatype Projection =
    | Field(name: string)
    | Aliased(field: string, alias: string)
    | Function(name: string, field: string)

  datatype SimilarityExpr = SimilarityExpr(field: string, queryText: string, vector: Option<seq<real>>)

  datatype Bias = Bias(scoringFn: string, args: seq<string>)

  datatype OrderBy = OrderBy(scoringFn: string, args: seq<string>, descending: bool)

  datatype Query = Query(
    find: string,
    similarity: Option<SimilarityExpr>,
    metadataWhere: Option<seq<Predicate>>,
    projectOn: Option<seq<Projection>>,
    bias: Option<Bias>,
    orderBy: Option<OrderBy>,
    limit: Option<nat>,
    offset: Option<nat>,
    within: Option<nat>)

  // ---------- printing ----------

  /** A word between two spaces. */
  function Spaced(t: string, k: string): string {
    " " + (t + (" " + k))
  }

  /** A word and the space after it. */
  function Lead(t: string, k: string): string {
    t + (" " + k)
  }

  function OpText(op: ComparisonOp): string {
    match op
    case Eq => "="
    case Neq => "!="
    case Lt => "<"
    case Gt => ">"
    case Lte => "<="
    case Gte => ">="
  }

  function IntegerText(i: int): string {
    if i < 0 then "-" + Decimal(-i) else Decimal(i)
  }

  /** `floats` is the platform's text of a float. */
  function ShowLiteral(floats: real -> string, l: Literal, k: string): string {
    match l
    case String(x) => Quoted(x, k)
    case Integer(i) => IntegerText(i) + k
    case Float(f) => floats(f) + k
    case Boolean(b) => (if b then "true" else "false") + k
    case Null => "null" + k
  }

  function ShowLiterals(floats: real -> string, ls: seq<Literal>, k: string): string {
    if ls == [] then k
    else if |ls| == 1 then ShowLiteral(floats, ls[0], k)
    else ShowLiteral(floats, ls[0], Lead(",", ShowLiterals(floats, ls[1..], k)))
  }

  function ShowPredicate(floats: real -> string, p: Predicate, k: string): string
    decreases p
  {
    match p
    case Comparison(field, op, value) => field + Spaced(OpText(op), ShowLiteral(floats, value, k))
    case In(field, values) => field + Spaced("IN", "(" + ShowLiterals(floats, values, ")" + k))
    case Between(field, low, high) =>
      field + Spaced("BETWEEN", ShowLiteral(floats, low, Spaced("AND", ShowLiteral(floats, high, k))))
    case Like(field, pattern) => field + Spaced("LIKE", Quoted(pattern, k))
    case And(ps) => ShowPredicates(floats, ps, k)
  }

  function ShowPredicates(floats: real -> string, ps: seq<Predicate>, k: string): string
    decreases ps
  {
    if ps == [] then k
    else if |ps| == 1 then ShowPredicate(floats, ps[0], k)
    else ShowPredicate(floats, ps[0], Spaced("AND", ShowPredicates(floats, ps[1..], k)))
  }

  function ShowProjection(p: Projection, k: string): string {
    match p
    case Field(name) => name + k
    case Aliased(field, alias) => field + Spaced("AS", alias + k)
    case Function(name, field) => name + ("(" + (field + (")" + k)))
  }

  function ShowProjections(ps: seq<Projection>, k: string): string {
    if ps == [] then k
    else if |ps| == 1 then ShowProjection(ps[0], k)
    else ShowProjection(ps[0], Lead(",", ShowProjections(ps[1..], k)))
  }

  function ShowNames(xs: seq<string>, k: string): string {
    if xs == [] then k
    else if |xs| == 1 then xs[0] + k
    else xs[0] + Lead(",", ShowNames(xs[1..], k))
  }

  function ShowCall(fn: string, args: seq<string>, k: string): string {
    fn + ("(" + ShowNames(args, ")" + k))
  }

  /** Any optional clause after FIND. */
  datatype Clause =
    | MetadataWhere(predicates: seq<Predicate>)
    | ProjectOn(projections: seq<Projection>)
    | Biased(bias: Bias)
    | Ordered(orderBy: OrderBy)
    | Limit(count: nat)
    | Offset(count: nat)
    | Within(millis: nat)

  function ShowClause(floats: real -> string, c: Clause, k: string): string {
    match c
    case MetadataWhere(ps) => Lead("WITH", Lead("METADATA", Lead("WHERE", ShowPredicates(floats, ps, k))))
    case ProjectOn(ps) => Lead("PROJECT", Lead("ON", ShowProjections(ps, k)))
    case Biased(b) => Lead("BIAS", ShowCall(b.scoringFn, b.args, k))
    case Ordered(o) =>
      Lead("ORDER", Lead("BY", ShowCall(o.scoringFn, o.args, if o.descending then " " + ("DESC" + k) else k)))
    case Limit(n) => Lead("LIMIT", Decimal(n) + k)
    case Offset(n) => Lead("OFFSET", Decimal(n) + k)
    case Within(n) => Lead("WITHIN", Decimal(n) + ("ms" + k))
  }

  function Margin(): string {
    "\n  "
  }

  function ShowClauses(floats: real -> string, cs: seq<Clause>, k: string): string {
    if cs == [] then k else Margin() + ShowClause(floats, cs[0], ShowClauses(floats, cs[1..], k))
  }

  /** The clauses of a query in the order they are printed. */
  function ClausesOf(q: Query): seq<Clause> {
    (if q.metadataWhere.Some? then [MetadataWhere(q.metadataWhere.value)] else []) +
    ((if q.projectOn.Some? then [ProjectOn(q.projectOn.value)] else []) +
    ((if q.bias.Some? then [Biased(q.bias.value)] else []) +
    ((if q.orderBy.Some? then [Ordered(q.orderBy.value)] else []) +
    ((if q.limit.Some? then [Limit(q.limit.value)] else []) +
    ((if q.offset.Some? then [Offset(q.offset.value)] else []) +
    (if q.within.Some? then [Within(q.within.value)] else []))))))
  }

  function ShowSimilarity(e: SimilarityExpr, k: string): string {
    "(" + (e.field + Lead(",", Quoted(e.queryText, ")" + k)))
  }

  /** The text of a whole query. */
  function Display(floats: real -> string, q: Query): string {
    var clauses := ShowClauses(floats, ClausesOf(q), "");
    Lead("FIND", q.find + (if q.similarity.Some? then ShowSimilarity(q.similarity.value, clauses) else clauses))
  }
}
