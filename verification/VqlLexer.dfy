/** The tokens of the query language and the combinators built on them. */
module VqlLexer {

  /** What a parser returns: a value and the rest of the input, or a recoverable error. */
  datatype Parse<+T> = Fail | Ok(value: T, rest: string) {
    predicate IsFailure() {
      Fail?
    }
    function PropagateFailure<U>(): Parse<U>
      requires Fail?
    {
      Fail
    }
    function Extract(): (T, string)
      requires Ok?
    {
      (value, rest)
    }
  }

  /** Consumed at least one character. */
  ghost predicate Consumed<T>(s: string, r: Parse<T>) {
    r.Ok? ==> |r.rest| < |s|
  }

  // ---------- characters ----------

  predicate IsSpace(c: char) {
    c == ' ' || c == '\t' || c == '\r' || c == '\n'
  }

  predicate IsDigit(c: char) {
    '0' <= c <= '9'
  }

  predicate IsIdStart(c: char) {
    'a' <= c <= 'z' || 'A' <= c <= 'Z' || c == '_'
  }

  predicate IsIdChar(c: char) {
    IsIdStart(c) || IsDigit(c)
  }

  predicate NotQuote(c: char) {
    c != '\''
  }

  /** Length of the longest prefix of characters that satisfy p. */
  function Span(p: char -> bool, s: string): (n: nat)
    ensures n <= |s| && (forall i :: 0 <= i < n ==> p(s[i])) && (n < |s| ==> !p(s[n]))
  {
    SpanFrom(p, s, 0)
  }

  function SpanFrom(p: char -> bool, s: string, at: nat): (n: nat)
    requires at <= |s|
    ensures at <= n <= |s| && (forall i :: at <= i < n ==> p(s[i])) && (n < |s| ==> !p(s[n]))
    decreases |s| - at
  {
    if at < |s| && p(s[at]) then SpanFrom(p, s, at + 1) else at
  }

  ghost predicate All(p: char -> bool, s: string) {
    forall i :: 0 <= i < |s| ==> p(s[i])
  }

  ghost predicate Stops(p: char -> bool, k: string) {
    k == [] || !p(k[0])
  }

  /** The run ends exactly where a text of such characters meets something else. */
  lemma SpanOf(p: char -> bool, a: string, k: string)
    requires All(p, a) && Stops(p, k)
    ensures Span(p, a + k) == |a| && (a + k)[..|a|] == a && (a + k)[|a|..] == k
  {
    var s, n := a + k, Span(p, a + k);
    assert forall i :: 0 <= i < |a| ==> s[i] == a[i];
    assert k != [] ==> s[|a|] == k[0];
  }

  // ---------- tokens ----------

  /** Skips zero or more whitespace characters. */
  function Ws(s: string): (r: string)
    ensures |r| <= |s|
  {
    s[Span(IsSpace, s)..]
  }

  ghost predicate StartsDark(s: string) {
    s != [] && !IsSpace(s[0])
  }

  lemma WsOf(gap: string, u: string)
    requires All(IsSpace, gap) && Stops(IsSpace, u)
    ensures Ws(gap + u) == u
  {
    SpanOf(IsSpace, gap, u);
  }

  lemma WsNothing(u: string)
    requires Stops(IsSpace, u)
    ensures Ws(u) == u
  {
    assert "" + u == u;
    WsOf("", u);
  }

  predicate StartsWith(t: string, s: string) {
    |t| <= |s| && s[..|t|] == t
  }

  function Tag(t: string, s: string): (r: Parse<()>)
    ensures r.Ok? ==> |r.rest| + |t| == |s|
  {
    if StartsWith(t, s) then Ok((), s[|t|..]) else Fail
  }

  lemma TagOf(t: string, k: string)
    ensures Tag(t, t + k) == Ok((), k)
  {
    assert (t + k)[..|t|] == t && (t + k)[|t|..] == k;
  }

  lemma TagMiss(t: string, s: string, i: nat)
    requires i < |t| && (|s| <= i || s[i] != t[i])
    ensures Tag(t, s) == Fail
  {
    assert |t| <= |s| ==> s[..|t|][i] == s[i];
  }

  /** A keyword and the whitespace after it. */
  function Word(t: string, s: string): (r: Parse<()>)
    ensures r.Ok? ==> |r.rest| + |t| <= |s|
  {
    var (_, s) :- Tag(t, s);
    Ok((), Ws(s))
  }

  lemma WordOf(t: string, gap: string, u: string)
    requires All(IsSpace, gap) && Stops(IsSpace, u)
    ensures Word(t, t + (gap + u)) == Ok((), u)
  {
    TagOf(t, gap + u);
    WsOf(gap, u);
  }

  lemma WordMiss(t: string, s: string, i: nat)
    requires i < |t| && (|s| <= i || s[i] != t[i])
    ensures Word(t, s) == Fail
  {
    TagMiss(t, s, i);
  }

  ghost predicate IsIdentifier(x: string) {
    x != [] && IsIdStart(x[0]) && All(IsIdChar, x)
  }

  function Identifier(s: string): (r: Parse<string>)
    ensures Consumed(s, r) && (r.Ok? ==> IsIdentifier(r.value))
  {
    var n := Span(IsIdChar, s);
    if s == [] || !IsIdStart(s[0]) then Fail else Ok(s[..n], s[n..])
  }

  lemma IdentifierOf(x: string, k: string)
    requires IsIdentifier(x) && Stops(IsIdChar, k)
    ensures Identifier(x + k) == Ok(x, k) && (x + k)[0] == x[0]
  {
    SpanOf(IsIdChar, x, k);
  }

  ghost predicate NoQuotes(x: string) {
    All(NotQuote, x)
  }

  function StringLiteral(s: string): (r: Parse<string>)
    ensures Consumed(s, r) && (r.Ok? ==> NoQuotes(r.value))
  {
    var (_, s) :- Tag("'", s);
    var n := Span(NotQuote, s);
    var (_, rest) :- Tag("'", s[n..]);
    Ok(s[..n], rest)
  }

  function Quoted(x: string, k: string): string {
    "'" + (x + ("'" + k))
  }

  lemma StringLiteralOf(x: string, k: string)
    requires NoQuotes(x)
    ensures StringLiteral(Quoted(x, k)) == Ok(x, k)
  {
    TagOf("'", x + ("'" + k));
    SpanOf(NotQuote, x, "'" + k);
    TagOf("'", k);
  }

  // ---------- numbers ----------

  function DigitValue(c: char): nat
    requires IsDigit(c)
  {
    c as int - '0' as int
  }

  function DigitChar(d: nat): (c: char)
    requires d < 10
    ensures IsDigit(c) && DigitValue(c) == d
  {
    (d + '0' as int) as char
  }

  function DecimalValue(ds: string): nat
    requires All(IsDigit, ds)
  {
    if ds == [] then 0 else 10 * DecimalValue(ds[..|ds| - 1]) + DigitValue(ds[|ds| - 1])
  }

  function Decimal(n: nat): (ds: string)
    ensures ds != [] && All(IsDigit, ds)
  {
    if n < 10 then [DigitChar(n)] else Decimal(n / 10) + [DigitChar(n % 10)]
  }

  lemma {:induction false} DecimalRoundTrip(n: nat)
    ensures DecimalValue(Decimal(n)) == n
  {
    if n >= 10 {
      DecimalRoundTrip(n / 10);
      var a := Decimal(n / 10);
      assert Decimal(n)[..|a|] == a;
    } else {
      assert Decimal(n)[..0] == [];
      assert DecimalValue(Decimal(n)[..0]) == 0;
    }
  }

  /** Decimal text has no leading zeros. */
  lemma {:induction false} DecimalIsShort(n: nat)
    ensures Decimal(n)[0] == '0' ==> Decimal(n) == "0" && n == 0
  {
    if n >= 10 {
      DecimalIsShort(n / 10);
    }
  }

  const MaxI64: nat := 0x7fff_ffff_ffff_ffff
  const MaxU64: nat := 0xffff_ffff_ffff_ffff

  function Digits1(s: string): (r: Parse<string>)
    ensures Consumed(s, r) && (r.Ok? ==> r.value != [] && All(IsDigit, r.value))
  {
    var n := Span(IsDigit, s);
    if n == 0 then Fail else Ok(s[..n], s[n..])
  }

  /** One or more digits, rejected when the value does not fit. */
  function Number(max: nat, s: string): (r: Parse<nat>)
    ensures Consumed(s, r) && (r.Ok? ==> r.value <= max)
  {
    var (ds, rest) :- Digits1(s);
    if DecimalValue(ds) <= max then Ok(DecimalValue(ds), rest) else Fail
  }

  lemma Digits1Of(n: nat, k: string)
    requires Stops(IsDigit, k)
    ensures Digits1(Decimal(n) + k) == Ok(Decimal(n), k) && IsDigit((Decimal(n) + k)[0])
  {
    SpanOf(IsDigit, Decimal(n), k);
  }

  lemma NumberOf(max: nat, n: nat, k: string)
    requires n <= max && Stops(IsDigit, k)
    ensures Number(max, Decimal(n) + k) == Ok(n, k)
  {
    Digits1Of(n, k);
    DecimalRoundTrip(n);
  }

  function Power10(n: nat): (r: nat)
    ensures r > 0
  {
    if n == 0 then 1 else 10 * Power10(n - 1)
  }

  function FloatValueOf(whole: string, fraction: string): real
    requires All(IsDigit, whole) && All(IsDigit, fraction)
  {
    DecimalValue(whole) as real + DecimalValue(fraction) as real / Power10(|fraction|) as real
  }

  /** Digits, a dot, digits. */
  function FloatLiteral(s: string): (r: Parse<real>)
    ensures Consumed(s, r)
  {
    var (whole, s) :- Digits1(s);
    var (_, s) :- Tag(".", s);
    var (fraction, s) :- Digits1(s);
    Ok(FloatValueOf(whole, fraction), s)
  }

  // ---------- separated lists ----------

  ghost predicate Shrinks<T>(elem: string -> Parse<T>) {
    forall s :: Consumed(s, elem(s))
  }

  /** A separator with optional whitespace on both sides. */
  function Separator(t: string, s: string): (r: Parse<()>)
    ensures r.Ok? ==> |r.rest| + |t| <= |s|
  {
    Word(t, Ws(s))
  }

  /** Further elements after the first; a separator no element follows is left unread. */
  function More<T>(elem: string -> Parse<T>, t: string, s: string): (r: Parse<seq<T>>)
    requires Shrinks(elem)
    ensures r.Ok? && |r.rest| <= |s|
    decreases |s|
  {
    var a := Separator(t, s);
    if a.Fail? then Ok([], s)
    else
      var b := elem(a.rest);
      if b.Fail? then Ok([], s)
      else
        assert Consumed(a.rest, b);
        var c := More(elem, t, b.rest);
        Ok([b.value] + c.value, c.rest)
  }

  function List1<T>(elem: string -> Parse<T>, t: string, s: string): (r: Parse<seq<T>>)
    requires Shrinks(elem)
    ensures Consumed(s, r) && (r.Ok? ==> r.value != [])
  {
    var a := elem(s);
    assert Consumed(s, a);
    if a.Fail? then Fail else
      var c := More(elem, t, a.rest);
      Ok([a.value] + c.value, c.rest)
  }

  function List0<T>(elem: string -> Parse<T>, t: string, s: string): (r: Parse<seq<T>>)
    requires Shrinks(elem)
    ensures r.Ok? && |r.rest| <= |s|
  {
    var a := List1(elem, t, s);
    if a.Fail? then Ok([], s) else a
  }

  lemma MoreStep<T>(elem: string -> Parse<T>, t: string, s: string, u: string, x: T, k: string)
    requires Shrinks(elem) && Separator(t, s) == Ok((), u) && elem(u) == Ok(x, k)
    ensures More(elem, t, s) == Ok([x] + More(elem, t, k).value, More(elem, t, k).rest)
  {
  }

  /** `(` elements `)`. */
  function Parenthesised<T>(elem: string -> Parse<T>, s: string): (r: Parse<seq<T>>)
    requires Shrinks(elem)
    ensures Consumed(s, r)
  {
    var (_, s) :- Tag("(", s);
    var xs := List0(elem, ",", s);
    var (_, s) :- Tag(")", xs.rest);
    Ok(xs.value, s)
  }
}
