/** The query language as syntax trees: every tree has a text and a meaning, stated without the parser. */
module VqlSyntax {
  import opened Options
  import opened VqlAst

  // ---------- characters and words ----------

  predicate Gap(g: string) {
    forall i :: 0 <= i < |g| ==> g[i] == ' ' || g[i] == '\t' || g[i] == '\r' || g[i] == '\n'
  }

  predicate Letter(c: char) {
    'a' <= c <= 'z' || 'A' <= c <= 'Z' || c == '_'
  }

  predicate Name(x: string) {
    x != "" && Letter(x[0]) && forall i :: 0 <= i < |x| ==> Letter(x[i]) || '0' <= x[i] <= '9'
  }

  predicate Unquoted(x: string) {
    forall i :: 0 <= i < |x| ==> x[i] != '\''
  }

  predicate Numeral(ds: string) {
    ds != "" && forall i :: 0 <= i < |ds| ==> '0' <= ds[i] <= '9'
  }

  function Tens(n: nat): (r: nat)
    ensures r > 0
  {
    if n == 0 then 1 else 10 * Tens(n - 1)
  }

  function Times(a: nat, b: nat): nat {
    a * b
  }

  /** The value of a numeral: each digit times its power of ten. */
  function Value(ds: string): nat
    requires forall i :: 0 <= i < |ds| ==> '0' <= ds[i] <= '9'
  {
    if ds == "" then 0 else Times(ds[0] as int - '0' as int, Tens(|ds| - 1)) + Value(ds[1..])
  }

  // ---------- lists ----------

  /** The whitespace before and after a separator. */
  datatype Sides = Sides(before: string, after: string)

  ghost predicate Sided(gaps: seq<Sides>) {
    forall i :: 0 <= i < |gaps| ==> Gap(gaps[i].before) && Gap(gaps[i].after)
  }

  /** Further items, each after a separator. */
  function TailText<U>(text: (U, string) -> string, items: seq<U>, gaps: seq<Sides>, sep: string, k: string): string
    requires |items| == |gaps|
  {
    if items == [] then k
    else gaps[0].before + (sep + (gaps[0].after + text(items[0], TailText(text, items[1..], gaps[1..], sep, k))))
  }

  function ListText<U>(text: (U, string) -> string, items: seq<U>, gaps: seq<Sides>, sep: string, k: string): string
    requires |items| == if items == [] then |gaps| else |gaps| + 1
  {
    if items == [] then k else text(items[0], TailText(text, items[1..], gaps, sep, k))
  }

  // ---------- literals ----------

  datatype LiteralTree =
    | Text(text: string)
    | Truth(truth: bool)
    | Decimals(whole: string, fraction: string)
    | Digits(digits: string)
    | Nothing

  ghost predicate LiteralFormed(l: LiteralTree) {
    match l
    case Text(x) => Unquoted(x)
    case Decimals(whole, fraction) => Numeral(whole) && Numeral(fraction)
    case Digits(ds) => Numeral(ds) && Value(ds) <= 0x7fff_ffff_ffff_ffff
    case _ => true
  }

  function LiteralText(l: LiteralTree, k: string): string {
    match l
    case Text(x) => "'" + (x + ("'" + k))
    case Truth(b) => (if b then "true" else "false") + k
    case Decimals(whole, fraction) => whole + ("." + (fraction + k))
    case Digits(ds) => ds + k
    case Nothing => "null" + k
  }

  function DecimalsValue(whole: string, fraction: string): real
    requires Numeral(whole) && Numeral(fraction)
  {
    Value(whole) as real + Value(fraction) as real / Tens(|fraction|) as real
  }

  /** `l` means the literal `v`. */
  ghost predicate LiteralMeans(l: LiteralTree, v: Literal) {
    LiteralFormed(l) &&
    match l
    case Text(x) => v == String(x)
    case Truth(b) => v == Boolean(b)
    case Decimals(whole, fraction) => v == Float(DecimalsValue(whole, fraction))
    case Digits(ds) => v == Integer(Value(ds))
    case Nothing => v == Null
  }

  /** The trees mean the values one by one. */
  ghost predicate AllMean<U(!new), T(!new)>(means: (U, T) -> bool, items: seq<U>, vs: seq<T>) {
    |items| == |vs| && forall i :: 0 <= i < |items| ==> means(items[i], vs[i])
  }

  // ---------- predicates ----------

  datatype PredicateTree =
    | Compares(field: string, g1: string, symbol: string, g2: string, value: LiteralTree)
    | Among(field: string, g1: string, g2: string, values: seq<LiteralTree>, gaps: seq<Sides>)
    | Ranges(field: string, g1: string, g2: string, low: LiteralTree, g3: string, g4: string, high: LiteralTree)
    | Matches(field: string, g1: string, g2: string, pattern: string)

  ghost predicate Symbol(symbol: string, op: ComparisonOp) {
    match op
    case Eq => symbol == "="
    case Neq => symbol == "!="
    case Lt => symbol == "<"
    case Gt => symbol == ">"
    case Lte => symbol == "<="
    case Gte => symbol == ">="
  }

  ghost predicate ListFormed<U>(items: seq<U>, gaps: seq<Sides>) {
    |items| == (if items == [] then |gaps| else |gaps| + 1) && Sided(gaps)
  }

  ghost function PredicateText(p: PredicateTree, k: string): string {
    match p
    case Compares(field, g1, symbol, g2, value) => field + (g1 + (symbol + (g2 + LiteralText(value, k))))
    case Among(field, g1, g2, values, gaps) =>
      if ListFormed(values, gaps)
      then field + (g1 + ("IN" + (g2 + ("(" + ListText(LiteralText, values, gaps, ",", ")" + k)))))
      else k
    case Ranges(field, g1, g2, low, g3, g4, high) =>
      field + (g1 + ("BETWEEN" + (g2 + LiteralText(low, g3 + ("AND" + (g4 + LiteralText(high, k)))))))
    case Matches(field, g1, g2, pattern) => field + (g1 + ("LIKE" + (g2 + ("'" + (pattern + ("'" + k))))))
  }

  ghost predicate PredicateMeans(p: PredicateTree, v: Predicate) {
    Name(p.field) && Gap(p.g1) && Gap(p.g2) &&
    match p
    case Compares(field, _, symbol, _, value) =>
      v.Comparison? && v.field == field && Symbol(symbol, v.op) && LiteralMeans(value, v.value)
    case Among(field, _, _, values, gaps) =>
      v.In? && v.field == field && ListFormed(values, gaps) && AllMean(LiteralMeans, values, v.values)
    case Ranges(field, _, _, low, g3, g4, high) =>
      && Gap(g3) && Gap(g4) && v.Between? && v.field == field
      && LiteralMeans(low, v.low) && LiteralMeans(high, v.high)
    case Matches(field, _, _, pattern) => Unquoted(pattern) && v == Like(field, pattern)
  }

  // ---------- FIND ----------

  datatype DecimalsTree = Pair(whole: string, fraction: string)

  function DecimalsText(d: DecimalsTree, k: string): string {
    d.whole + ("." + (d.fraction + k))
  }

  ghost predicate DecimalsMean(d: DecimalsTree, f: real) {
    Numeral(d.whole) && Numeral(d.fraction) && f == DecimalsValue(d.whole, d.fraction)
  }

  datatype SourceTree =
    | Words(text: string)
    | Numbers(g1: string, g2: string, values: seq<DecimalsTree>, gaps: seq<Sides>, g3: string)

  ghost function SourceText(x: SourceTree, k: string): string {
    match x
    case Words(text) => "'" + (text + ("'" + k))
    case Numbers(g1, g2, values, gaps, g3) =>
      if ListFormed(values, gaps)
      then "VECTOR" + (g1 + ("(" + (g2 + ListText(DecimalsText, values, gaps, ",", g3 + (")" + k)))))
      else k
  }

  /** A vector leaves the query text empty. */
  ghost predicate SourceMeans(x: SourceTree, text: string, vector: Option<seq<real>>) {
    match x
    case Words(t) => Unquoted(t) && text == t && vector == None
    case Numbers(g1, g2, values, gaps, g3) =>
      && Gap(g1) && Gap(g2) && Gap(g3) && ListFormed(values, gaps)
      && text == "" && vector.Some? && AllMean(DecimalsMean, values, vector.value)
  }

  datatype HeadTree = HeadTree(g1: string, find: string, g2: string, field: string, g3: string, g4: string,
                               source: SourceTree, g5: string)

  ghost function HeadText(h: HeadTree, k: string): string {
    "FIND" + (h.g1 + (h.find + ("(" + (h.g2 + (h.field + (h.g3 + ("," + (h.g4 +
      SourceText(h.source, h.g5 + (")" + k))))))))))
  }

  ghost predicate HeadMeans(h: HeadTree, find: string, e: SimilarityExpr) {
    && Gap(h.g1) && Gap(h.g2) && Gap(h.g3) && Gap(h.g4) && Gap(h.g5)
    && (h.find == "SIMILARITY" || h.find == "SEMANTIC") && find == h.find
    && Name(h.field) && e.field == h.field && SourceMeans(h.source, e.queryText, e.vector)
  }

  // ---------- clauses ----------

  datatype ProjectionTree =
    | Plain(g0: string, name: string)
    | Renamed(g0: string, name: string, g1: string, g2: string, alias: string)
    | Called(g0: string, name: string, g1: string, g2: string, field: string, g3: string)

  function ProjectionText(p: ProjectionTree, k: string): string {
    match p
    case Plain(g0, name) => g0 + (name + k)
    case Renamed(g0, name, g1, g2, alias) => g0 + (name + (g1 + ("AS" + (g2 + (alias + k)))))
    case Called(g0, name, g1, g2, field, g3) => g0 + (name + (g1 + ("(" + (g2 + (field + (g3 + (")" + k)))))))
  }

  ghost predicate ProjectionMeans(p: ProjectionTree, v: Projection) {
    Gap(p.g0) && Name(p.name) &&
    match p
    case Plain(_, name) => v == Field(name)
    case Renamed(_, name, g1, g2, alias) => Gap(g1) && Gap(g2) && Name(alias) && v == Aliased(name, alias)
    case Called(_, name, g1, g2, field, g3) =>
      Gap(g1) && Gap(g2) && Gap(g3) && Name(field) && v == Function(name, field)
  }

  datatype ArgumentTree = Quote(text: string) | Word(name: string)

  function ArgumentText(a: ArgumentTree, k: string): string {
    match a
    case Quote(x) => "'" + (x + ("'" + k))
    case Word(x) => x + k
  }

  ghost predicate ArgumentMeans(a: ArgumentTree, v: string) {
    match a
    case Quote(x) => Unquoted(x) && v == x
    case Word(x) => Name(x) && v == x
  }

  function NameText(x: string, k: string): string {
    x + k
  }

  ghost predicate NameMeans(x: string, v: string) {
    Name(x) && v == x
  }

  datatype DirectionTree = Unsaid | Down(g: string) | Up(g: string)

  function DirectionText(d: DirectionTree, k: string): string {
    match d
    case Unsaid => k
    case Down(g) => g + ("DESC" + k)
    case Up(g) => g + ("ASC" + k)
  }

  ghost predicate DirectionMeans(d: DirectionTree, descending: bool) {
    match d
    case Unsaid => !descending
    case Down(g) => Gap(g) && descending
    case Up(g) => Gap(g) && !descending
  }

  datatype ClauseTree =
    | Wheres(g1: string, g2: string, g3: string, items: seq<PredicateTree>, gaps: seq<Sides>)
    | Projects(g1: string, g2: string, projections: seq<ProjectionTree>, gaps: seq<Sides>)
    | Biases(g1: string, fn: string, names: seq<string>, gaps: seq<Sides>)
    | Orders(g1: string, g2: string, fn: string, args: seq<ArgumentTree>, gaps: seq<Sides>, direction: DirectionTree)
    | Limits(g1: string, digits: string)
    | Offsets(g1: string, digits: string)
    | Budgets(keyword: string, g1: string, digits: string)

  ghost function ClauseText(c: ClauseTree, k: string): string {
    match c
    case Wheres(g1, g2, g3, items, gaps) =>
      if !ListFormed(items, gaps) then k
      else "WITH" + (g1 + ("METADATA" + (g2 + ("WHERE" + (g3 + ListText(PredicateText, items, gaps, "AND", k))))))
    case Projects(g1, g2, items, gaps) =>
      if !ListFormed(items, gaps) then k
      else "PROJECT" + (g1 + ("ON" + (g2 + ListText(ProjectionText, items, gaps, ",", k))))
    case Biases(g1, fn, names, gaps) =>
      if !ListFormed(names, gaps) then k
      else "BIAS" + (g1 + (fn + ("(" + ListText(NameText, names, gaps, ",", ")" + k))))
    case Orders(g1, g2, fn, args, gaps, direction) =>
      if !ListFormed(args, gaps) then k
      else "ORDER" + (g1 + ("BY" + (g2 + (fn + ("(" + ListText(ArgumentText, args, gaps, ",",
             ")" + DirectionText(direction, k)))))))
    case Limits(g1, ds) => "LIMIT" + (g1 + (ds + k))
    case Offsets(g1, ds) => "OFFSET" + (g1 + (ds + k))
    case Budgets(keyword, g1, ds) => keyword + (g1 + (ds + ("ms" + k)))
  }

  ghost predicate CountMeans(ds: string, n: nat) {
    Numeral(ds) && n == Value(ds) <= 0xffff_ffff_ffff_ffff
  }

  ghost predicate ClauseMeans(c: ClauseTree, v: Clause) {
    Gap(c.g1) &&
    match c
    case Wheres(_, g2, g3, items, gaps) =>
      && Gap(g2) && Gap(g3) && items != [] && ListFormed(items, gaps)
      && v.MetadataWhere? && |v.predicates| == 1
      && if |items| == 1 then PredicateMeans(items[0], v.predicates[0])
         else v.predicates[0].And? && AllMean(PredicateMeans, items, v.predicates[0].predicates)
    case Projects(_, g2, items, gaps) =>
      && Gap(g2) && items != [] && ListFormed(items, gaps)
      && v.ProjectOn? && AllMean(ProjectionMeans, items, v.projections)
    case Biases(_, fn, names, gaps) =>
      && Name(fn) && ListFormed(names, gaps)
      && v.Biased? && v.bias.scoringFn == fn && AllMean(NameMeans, names, v.bias.args)
    case Orders(_, g2, fn, args, gaps, direction) =>
      && Gap(g2) && Name(fn) && ListFormed(args, gaps)
      && v.Ordered? && v.orderBy.scoringFn == fn && AllMean(ArgumentMeans, args, v.orderBy.args)
      && DirectionMeans(direction, v.orderBy.descending)
    case Limits(_, ds) => v.Limit? && CountMeans(ds, v.count)
    case Offsets(_, ds) => v.Offset? && CountMeans(ds, v.count)
    case Budgets(keyword, _, ds) => (keyword == "WITHIN" || keyword == "EN") && v.Within? && CountMeans(ds, v.millis)
  }

  // ---------- queries ----------

  datatype PartTree = PartTree(gap: string, clause: ClauseTree)

  datatype QueryTree = QueryTree(head: HeadTree, parts: seq<PartTree>, tail: string)

  ghost function PartsText(parts: seq<PartTree>, k: string): string {
    if parts == [] then k else parts[0].gap + ClauseText(parts[0].clause, PartsText(parts[1..], k))
  }

  ghost function QueryText(t: QueryTree): string {
    HeadText(t.head, PartsText(t.parts, t.tail))
  }

  ghost predicate PartMeans(p: PartTree, v: Clause) {
    Gap(p.gap) && ClauseMeans(p.clause, v)
  }

  ghost predicate PartsMean(parts: seq<PartTree>, cs: seq<Clause>) {
    |parts| == |cs| && forall i :: 0 <= i < |parts| ==> PartMeans(parts[i], cs[i])
  }
}
