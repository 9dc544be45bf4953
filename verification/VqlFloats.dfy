/** Float literals are printed as the platform formats them. Which of them come back: those printed
    without a sign and with a dot, as digits that denote them. A whole number is printed without a dot
    and comes back as an integer, a negative one does not come back at all. */
module VqlFloats {
  import opened VqlLexer
  import opened VqlAst
  import opened VqlGrammar
  import opened VqlPrint

  /** A decimal numeral: an optional sign, digits, and perhaps a dot and more digits. */
  ghost predicate Numeral(text: string, negative: bool, whole: string, fraction: string) {
    && whole != [] && All(IsDigit, whole) && All(IsDigit, fraction)
    && text == (if negative then "-" else "") + (whole + (if fraction == [] then "" else "." + fraction))
  }

  ghost predicate DecimalText(text: string) {
    exists negative, whole, fraction :: Numeral(text, negative, whole, fraction)
  }

  /** The platform prints every float as a decimal numeral. */
  ghost predicate DecimalFloats(floats: real -> string) {
    forall f :: DecimalText(floats(f))
  }

  /** Such a platform: every float is printed as a whole number. */
  lemma DecimalFloatsExist()
    ensures DecimalFloats(_ => "0")
  {
    assert Numeral("0", false, "0", "");
  }

  lemma SignMiss(s: string)
    requires s != [] && s[0] == '-'
    ensures LiteralValue(s) == Fail
  {
    hide StringLiteral, BooleanLiteral, Digits1, Tag;
    StringMiss(s);
    BooleanMiss(s);
    DigitMiss(s);
    TagMiss("null", s, 0);
  }

  lemma WholeIsNoFloat(whole: string, k: string)
    requires whole != [] && All(IsDigit, whole) && Closed(k)
    ensures LiteralValue(whole + k).Ok? ==> LiteralValue(whole + k).value.Integer?
  {
    hide StringLiteral, BooleanLiteral, Digits1, Tag;
    var s := whole + k;
    ClosedStops(k);
    DigitsOf(whole, k);
    assert IsDigit(s[0]);
    StringMiss(s);
    BooleanMiss(s);
    TagMiss(".", k, 0);
    TagMiss("null", s, 0);
  }

  lemma DottedIsFloat(whole: string, fraction: string, k: string)
    requires whole != [] && fraction != [] && All(IsDigit, whole) && All(IsDigit, fraction) && Closed(k)
    ensures LiteralValue((whole + ("." + fraction)) + k) == Ok(Float(FloatValueOf(whole, fraction)), k)
  {
    var text, f := whole + ("." + fraction), FloatValueOf(whole, fraction);
    assert FloatParts(text, f, whole, fraction);
    FloatOf(text, f, k);
  }

  /** A numeral that reads as the float f was written as digits, dot, digits with value f. */
  lemma FloatBack(text: string, f: real, k: string)
    requires DecimalText(text) && Closed(k)
    requires LiteralValue(text + k).Ok? && LiteralValue(text + k).value == Float(f)
    ensures WritesFloat(text, f)
  {
    hide LiteralValue;
    var negative, whole, fraction :| Numeral(text, negative, whole, fraction);
    if negative {
      assert (text + k)[0] == '-';
      SignMiss(text + k);
    } else if fraction == [] {
      assert text == whole;
      WholeIsNoFloat(whole, k);
    } else {
      assert text == whole + ("." + fraction);
      DottedIsFloat(whole, fraction, k);
      assert FloatParts(text, f, whole, fraction);
    }
  }

  lemma NumeralDark(text: string, k: string)
    requires DecimalText(text)
    ensures StartsDark(text + k)
  {
    var negative, whole, fraction :| Numeral(text, negative, whole, fraction);
    assert (text + k)[0] == if negative then '-' else whole[0];
  }

  // ---------- literals that come back ----------

  lemma LiteralDark(floats: real -> string, l: Literal, k: string)
    requires DecimalFloats(floats) && PlainLiteral(AnyFloat, l)
    ensures StartsDark(ShowLiteral(floats, l, k))
  {
    match l
    case Integer(i) =>
      assert Decimal(i) != [] && IsDigit(Decimal(i)[0]);
      assert (Decimal(i) + k)[0] == Decimal(i)[0];
    case Float(f) => NumeralDark(floats(f), k);
    case _ =>
  }

  lemma LiteralBack(floats: real -> string, l: Literal, k: string)
    requires DecimalFloats(floats) && PlainLiteral(AnyFloat, l) && Closed(k)
    requires LiteralValue(ShowLiteral(floats, l, k)).Ok? && LiteralValue(ShowLiteral(floats, l, k)).value == l
    ensures PlainLiteral(Written(floats), l) && LiteralValue(ShowLiteral(floats, l, k)) == Ok(l, k)
  {
    hide LiteralValue;
    if l.Float? {
      FloatBack(floats(l.float), l.float, k);
    }
    LiteralOf(floats, l, k);
  }

  /** What is printed after the first of several literals. */
  ghost function LiteralsAfter(floats: real -> string, ls: seq<Literal>, k: string): string
    requires ls != []
  {
    if |ls| == 1 then k else Lead(",", ShowLiterals(floats, ls[1..], k))
  }

  lemma LiteralsSplit(floats: real -> string, ls: seq<Literal>, k: string)
    requires ls != [] && Closed(k)
    ensures ShowLiterals(floats, ls, k) == ShowLiteral(floats, ls[0], LiteralsAfter(floats, ls, k))
    ensures Closed(LiteralsAfter(floats, ls, k))
  {
  }

  lemma LiteralsDark(floats: real -> string, ls: seq<Literal>, k: string)
    requires DecimalFloats(floats) && ls != [] && PlainLiterals(AnyFloat, ls) && Closed(k)
    ensures StartsDark(ShowLiterals(floats, ls, k))
  {
    LiteralsSplit(floats, ls, k);
    LiteralDark(floats, ls[0], LiteralsAfter(floats, ls, k));
  }

  /** The rest of a list, as a list of its own. */
  lemma MoreAsList<T(!new)>(elem: string -> Parse<T>, t: string, r: string, u: string, xs: seq<T>)
    requires Shrinks(elem) && xs != [] && Separator(t, r) == Ok((), u) && More(elem, t, r).value == xs
    ensures List1(elem, t, u).Ok? && List1(elem, t, u).value == xs
  {
    hide Separator;
    var b := elem(u);
    assert Consumed(u, b);
  }

  lemma ListHead<T(!new)>(elem: string -> Parse<T>, t: string, s: string, xs: seq<T>)
    requires Shrinks(elem) && xs != [] && List1(elem, t, s).Ok? && List1(elem, t, s).value == xs
    ensures elem(s).Ok? && elem(s).value == xs[0] && More(elem, t, elem(s).rest).value == xs[1..]
  {
    var a := elem(s);
    assert Consumed(s, a);
    assert [a.value] + More(elem, t, a.rest).value == xs;
  }

  lemma {:induction false} LiteralsBack(floats: real -> string, ls: seq<Literal>, k: string)
    requires DecimalFloats(floats) && ls != [] && PlainLiterals(AnyFloat, ls) && Closed(k)
    requires List1(LiteralValue, ",", ShowLiterals(floats, ls, k)).Ok?
    requires List1(LiteralValue, ",", ShowLiterals(floats, ls, k)).value == ls
    ensures PlainLiterals(Written(floats), ls)
  {
    hide LiteralValue, ShowLiterals, ShowLiteral, PlainLiteral, Separator, More, List1, DecimalFloats, Closed;
    var r := LiteralsAfter(floats, ls, k);
    LiteralsSplit(floats, ls, k);
    ListHead(LiteralValue, ",", ShowLiterals(floats, ls, k), ls);
    LiteralBack(floats, ls[0], r);
    if |ls| > 1 {
      var u := ShowLiterals(floats, ls[1..], k);
      LiteralsDark(floats, ls[1..], k);
      CommaOf(u);
      MoreAsList(LiteralValue, ",", r, u, ls[1..]);
      LiteralsBack(floats, ls[1..], k);
    }
  }

  lemma LiteralListBack(floats: real -> string, ls: seq<Literal>, k: string)
    requires DecimalFloats(floats) && PlainLiterals(AnyFloat, ls)
    requires Parenthesised(LiteralValue, "(" + ShowLiterals(floats, ls, ")" + k)).Ok?
    requires Parenthesised(LiteralValue, "(" + ShowLiterals(floats, ls, ")" + k)).value == ls
    ensures PlainLiterals(Written(floats), ls)
  {
    hide LiteralValue, More, ShowLiterals, List1, PlainLiteral, DecimalFloats, Tag;
    TagOf("(", ShowLiterals(floats, ls, ")" + k));
    if ls != [] {
      LiteralsBack(floats, ls, ")" + k);
    }
  }

  // ---------- predicates that come back ----------

  lemma ComparisonBack(floats: real -> string, p: Predicate, k: string)
    requires DecimalFloats(floats) && p.Comparison? && PlainBase(AnyFloat, p) && Closed(k)
    requires ComparisonPredicate(ShowPredicate(floats, p, k)).Ok?
             && ComparisonPredicate(ShowPredicate(floats, p, k)).value == p
    ensures PlainBase(Written(floats), p)
  {
    hide LiteralValue, Operator, FieldName, Ws, ShowLiteral;
    var v := ShowLiteral(floats, p.value, k);
    LiteralDark(floats, p.value, k);
    OperatorOf(p.op, v);
    FieldNameOf(p.field, Lead(OpText(p.op), v));
    WsOf(" ", v);
    LiteralBack(floats, p.value, k);
  }

  lemma InBack(floats: real -> string, p: Predicate, k: string)
    requires DecimalFloats(floats) && p.In? && PlainBase(AnyFloat, p)
    requires InPredicate(ShowPredicate(floats, p, k)).Ok? && InPredicate(ShowPredicate(floats, p, k)).value == p
    ensures PlainBase(Written(floats), p)
  {
    hide LiteralValue, FieldName, Parenthesised, Word, ShowLiterals, PlainLiterals, DecimalFloats;
    var v := "(" + ShowLiterals(floats, p.values, ")" + k);
    FieldNameOf(p.field, Lead("IN", v));
    WordOf("IN", " ", v);
    LiteralListBack(floats, p.values, k);
  }

  lemma BetweenBack(floats: real -> string, p: Predicate, k: string)
    requires DecimalFloats(floats) && p.Between? && PlainBase(AnyFloat, p) && Closed(k)
    requires BetweenPredicate(ShowPredicate(floats, p, k)).Ok?
             && BetweenPredicate(ShowPredicate(floats, p, k)).value == p
    ensures PlainBase(Written(floats), p)
  {
    hide LiteralValue, FieldName, Word, Ws, ShowLiteral, PlainLiteral, DecimalFloats;
    var v := ShowLiteral(floats, p.high, k);
    var u := ShowLiteral(floats, p.low, Spaced("AND", v));
    LiteralDark(floats, p.high, k);
    LiteralDark(floats, p.low, Spaced("AND", v));
    AndOf(v);
    FieldNameOf(p.field, Lead("BETWEEN", u));
    WordOf("BETWEEN", " ", u);
    WordOf("AND", " ", v);
    LiteralBack(floats, p.low, Spaced("AND", v));
    LiteralBack(floats, p.high, k);
  }

  lemma ComesFrom(s: string)
    requires BasePredicate(s).Ok?
    ensures BasePredicate(s).value.In? ==> InPredicate(s) == BasePredicate(s)
    ensures BasePredicate(s).value.Between? ==> BetweenPredicate(s) == BasePredicate(s)
    ensures BasePredicate(s).value.Comparison? ==> ComparisonPredicate(s) == BasePredicate(s)
  {
    hide FieldName, LiteralValue, Word, Parenthesised, Operator, StringLiteral, Ws;
  }

  lemma BaseNeverAnd(s: string)
    ensures BasePredicate(s).Ok? ==> !BasePredicate(s).value.And?
  {
    hide FieldName, LiteralValue, Word, Parenthesised, Operator, StringLiteral, Ws;
  }

  lemma BaseBack(floats: real -> string, p: Predicate, k: string)
    requires DecimalFloats(floats) && PlainBase(AnyFloat, p) && Closed(k)
    requires BasePredicate(ShowPredicate(floats, p, k)).Ok? && BasePredicate(ShowPredicate(floats, p, k)).value == p
    ensures PlainBase(Written(floats), p) && BasePredicate(ShowPredicate(floats, p, k)) == Ok(p, k)
  {
    hide BasePredicate, InPredicate, BetweenPredicate, ComparisonPredicate, ShowPredicate, DecimalFloats, Closed;
    ComesFrom(ShowPredicate(floats, p, k));
    match p
    case Comparison(_, _, _) => ComparisonBack(floats, p, k);
      BaseOf(floats, p, k);
    case In(_, _) => InBack(floats, p, k);
      BaseOf(floats, p, k);
    case Between(_, _, _) => BetweenBack(floats, p, k);
      BaseOf(floats, p, k);
    case Like(_, _) => BaseOf(floats, p, k);
  }

  /** What is printed after the first of several predicates. */
  ghost function BasesAfter(floats: real -> string, ps: seq<Predicate>, k: string): string
    requires ps != []
  {
    if |ps| == 1 then k else Spaced("AND", ShowPredicates(floats, ps[1..], k))
  }

  lemma BasesSplit(floats: real -> string, ps: seq<Predicate>, k: string)
    requires ps != [] && Closed(k) && PlainBase(AnyFloat, ps[0])
    ensures ShowPredicates(floats, ps, k) == ShowPredicate(floats, ps[0], BasesAfter(floats, ps, k))
    ensures Closed(BasesAfter(floats, ps, k)) && StartsDark(ShowPredicates(floats, ps, k))
  {
  }

  lemma {:induction false} BasesBack(floats: real -> string, ps: seq<Predicate>, k: string)
    requires DecimalFloats(floats) && ps != [] && PlainBases(AnyFloat, ps) && Closed(k)
    requires List1(BasePredicate, "AND", ShowPredicates(floats, ps, k)).Ok?
    requires List1(BasePredicate, "AND", ShowPredicates(floats, ps, k)).value == ps
    ensures PlainBases(Written(floats), ps)
  {
    hide BasePredicate, ShowPredicates, ShowPredicate, PlainBase, Separator, More, List1, DecimalFloats, Closed, Spaced;
    var r := BasesAfter(floats, ps, k);
    BasesSplit(floats, ps, k);
    ListHead(BasePredicate, "AND", ShowPredicates(floats, ps, k), ps);
    BaseBack(floats, ps[0], r);
    if |ps| > 1 {
      var u := ShowPredicates(floats, ps[1..], k);
      BasesSplit(floats, ps[1..], k);
      AndOf(u);
      MoreAsList(BasePredicate, "AND", r, u, ps[1..]);
      BasesBack(floats, ps[1..], k);
    }
  }

  /** A WHERE condition that comes back as printed has only floats whose text denotes them. */
  lemma WhereBack(floats: real -> string, ps: seq<Predicate>, k: string)
    requires DecimalFloats(floats) && PlainWhere(AnyFloat, ps) && Closed(k)
    requires AndExpression(ShowPredicates(floats, ps, k)).Ok?
             && AndExpression(ShowPredicates(floats, ps, k)).value == ps[0]
    ensures PlainWhere(Written(floats), ps)
  {
    hide BasePredicate, List1, DecimalFloats, Closed, PlainLiteral, PlainLiterals;
    var s := ShowPredicates(floats, ps, k);
    var found := List1(BasePredicate, "AND", s).value;
    ListHead(BasePredicate, "AND", s, found);
    BaseNeverAnd(s);
    if ps[0].And? {
      BasesBack(floats, ps[0].predicates, k);
    } else {
      assert |found| == 1 && found == [ps[0]] == ps;
      BasesBack(floats, ps, k);
    }
  }
}
