/** The recursive JSON parser, as an expression over the combinators, and how it behaves. */
module JsonParser {
  import opened Text
  import opened Values
  import opened Outcomes
  import opened Scanners
  import opened Chains
  import opened Combinators
  import opened Laws
  import opened Recursion
  import opened JsonSyntax

  // ---- parse_value and parse_json ----

  function Alternatives(fmt: NumberFormat): seq<Expr> {
    [ Literal(["null"], Nul),
      BoolLiteral,
      Leaf(fmt.read),
      View,
      Bracketed("[", ",", "]", Self),
      ParseMap("{", ",", ":", "}", View, Self) ]
  }

  /** The function handed to `recurse`; Self is its parameter. */
  function ValueBody(fmt: NumberFormat): Expr {
    Either(Alternatives(fmt))
  }

  function ParseValue(fmt: NumberFormat, s: string): Outcome {
    Recurse(ValueBody(fmt), s)
  }

  function ValueParser(fmt: NumberFormat): Parser { s => ParseValue(fmt, s) }

  /** whitespace_enclose(p), p being what Self stands for */
  const WHOLE_TEXT: Expr := Enclose(SKIP_WHITESPACE, Self, SKIP_WHITESPACE)

  function ParseJson(fmt: NumberFormat, s: string): Outcome {
    Run(WHOLE_TEXT, s, ValueParser(fmt))
  }

  function ViewParser(): Parser { s => ViewParse(s) }

  // ---- the six alternatives exclude each other ----

  /** Which alternative a text can match, judged by how it begins. */
  function Kind(s: string): (k: nat)
    ensures k < 6
  {
    if s == "" then 2
    else if "null" <= s then 0
    else if s[0] == 't' || s[0] == 'f' then 1
    else if s[0] == '"' then 3
    else if s[0] == '[' then 4
    else if s[0] == '{' then 5
    else 2
  }

  /** What the alternatives do on a text, with `v` for the recursive calls. */
  function Alternative(fmt: NumberFormat, i: nat, s: string, v: Parser): Outcome {
    match i
    case 0 => if "null" <= s then Good(s[4..], Nul, 0) else Bad(0)
    case 1 => BoolParse(s)
    case 2 => fmt.read(s)
    case 3 => ViewParse(s)
    case 4 => BracketedParse("[", ",", "]", v, s)
    case _ => MapParse("{", ",", "}", PairParser(":", ViewParser(), v), s)
  }

  lemma BracketedCongruence(o: string, m: string, c: string, f: Parser, g: Parser, s: string)
    requires Same(f, g)
    ensures BracketedParse(o, m, c, f, s) == BracketedParse(o, m, c, g, s)
  {
    hide BracketedParse;
    BracketedMonotone(o, m, c, f, g, s, Everywhere());
    BracketedMonotone(o, m, c, g, f, s, Everywhere());
  }

  lemma MapCongruence(k1: Parser, k2: Parser, v1: Parser, v2: Parser, s: string)
    requires Same(k1, k2) && Same(v1, v2)
    ensures MapParse("{", ",", "}", PairParser(":", k1, v1), s) == MapParse("{", ",", "}", PairParser(":", k2, v2), s)
  {
    hide MapParse;
    var d, p, q := Everywhere(), PairParser(":", k1, v1), PairParser(":", k2, v2);
    PairMonotone(":", k1, k2, v1, v2, d);
    PairMonotone(":", k2, k1, v2, v1, d);
    MapMonotone("{", ",", "}", p, q, s, d);
    MapMonotone("{", ",", "}", q, p, s, d);
  }

  lemma AlternativeIs(fmt: NumberFormat, i: nat, s: string, self: Parser)
    requires i < 6
    ensures Run(Alternatives(fmt)[i], s, self) == Alternative(fmt, i, s, self)
  {
    hide ViewParse, BracketedParse, MapParse, BoolParse;
    if i == 0 {
      LiteralIs("null", Nul, s, self);
    } else if i == 2 {
      LeafIs(fmt.read, s, self);
    } else if i == 4 {
      BracketedIs("[", ",", "]", Self, s, self);
      BracketedCongruence("[", ",", "]", ParserOf(Self, self), self, s);
    } else if i == 5 {
      ParseMapIs("{", ",", ":", "}", View, Self, s, self);
      MapCongruence(ParserOf(View, self), ViewParser(), ParserOf(Self, self), self, s);
    }
  }

  lemma OnlyItsKind(fmt: NumberFormat, i: nat, s: string, self: Parser)
    requires fmt.ReadsPrefixes() && i < 6 && i != Kind(s)
    ensures Run(Alternatives(fmt)[i], s, self) == Bad(0)
  {
    hide Run, ViewBody, Elements, Collect, ThenClose;
    AlternativeIs(fmt, i, s, self);
    if i == 2 {
      assert fmt.ReadsPrefix(s);
    }
  }

  /** On every text at most one alternative does anything, whatever Self stands for. */
  lemma AlternativesExclusive(fmt: NumberFormat, s: string, self: Parser)
    requires fmt.ReadsPrefixes()
    ensures Exclusive(Alternatives(fmt), s, self)
    ensures Run(ValueBody(fmt), s, self) == Run(Alternatives(fmt)[Kind(s)], s, self)
  {
    hide Run;
    var ps := Alternatives(fmt);
    forall i | 0 <= i < |ps| && i != Kind(s) ensures Run(ps[i], s, self) == Bad(0) {
      OnlyItsKind(fmt, i, s, self);
    }
    ExclusiveEither(ps, s, self, Kind(s));
    EitherIs(ps, s, self);
  }

  /** The six alternatives may be written in any order: the recursive parser is the same. */
  lemma AnyOrderSameParser(fmt: NumberFormat, order: seq<nat>, s: string)
    requires fmt.ReadsPrefixes() && Permutation(order, 6)
    ensures Recurse(Either(Reorder(Alternatives(fmt), order)), s) == ParseValue(fmt, s)
  {
    hide Run, Recurse;
    var body := Either(Reorder(Alternatives(fmt), order));
    forall x, f ensures AlikeOn(body, ValueBody(fmt), x, f) {
      AlternativesExclusive(fmt, x, f);
      EitherReorders(Alternatives(fmt), order, x, f);
    }
    SameBodiesRecurseAlike(body, ValueBody(fmt), s);
  }

  // ---- what one call does ----

  /** One call of parse_value, with `v` in place of the recursive calls. */
  function ValueStep(fmt: NumberFormat, v: Parser, s: string): Outcome {
    Alternative(fmt, Kind(s), s, v)
  }

  lemma BodyIsStep(fmt: NumberFormat, s: string, self: Parser)
    requires fmt.ReadsPrefixes()
    ensures Run(ValueBody(fmt), s, self) == ValueStep(fmt, self, s)
  {
    hide Run, Alternatives, Alternative;
    AlternativesExclusive(fmt, s, self);
    AlternativeIs(fmt, Kind(s), s, self);
  }

  // ---- every nested call gets a strictly shorter text, so parse_value always returns ----

  /** `p` returns on every text shorter than `n`. */
  ghost predicate ReturnsBelow(p: Parser, n: nat) {
    forall s :: |s| < n ==> p(s) != Diverge
  }

  lemma {:induction false} ChainReturns(elem: Parser, l: string, s: string, n: nat)
    requires l != "" && Shrinks(elem) && ReturnsBelow(elem, n) && |s| <= n
    ensures Chain(elem, SepParser(l), s).Links?
    decreases |s|
  {
    var m := SepParse(l, s);
    if m.Good? {
      SepShrinksStrictly(l, s);
      var o := elem(m.rest);
      if o.Good? {
        ChainReturns(elem, l, o.rest, n);
      }
    }
  }

  lemma SepShrinksStrictly(l: string, s: string)
    requires l != ""
    ensures SepParse(l, s).Good? ==> |SepParse(l, s).rest| + |l| <= |s|
  {
  }

  lemma ElementsReturns(elem: Parser, l: string, s: string)
    requires l != "" && Shrinks(elem) && ReturnsBelow(elem, |s| + 1)
    ensures Elements(elem, SepParser(l), s).Links?
  {
    hide Chain;
    var o := elem(s);
    if o.Good? {
      ChainReturns(elem, l, o.rest, |s| + 1);
    }
  }

  lemma PairParseReturns(key: Parser, val: Parser, s: string, n: nat)
    requires Shrinks(key) && ReturnsBelow(key, n) && ReturnsBelow(val, n) && |s| < n
    ensures PairParse(":", key, val, s) != Diverge
  {
    hide SepParse;
    var o := key(s);
    if o.Good? {
      SepShrinksStrictly(":", o.rest);
      SepReturns(":", o.rest);
    }
  }

  lemma SepReturns(l: string, s: string)
    ensures SepParse(l, s) != Diverge
  {
  }

  lemma PairReturns(key: Parser, val: Parser, n: nat)
    requires Shrinks(key) && ReturnsBelow(key, n) && ReturnsBelow(val, n)
    ensures ReturnsBelow(PairParser(":", key, val), n)
  {
    hide PairParse;
    forall s | |s| < n ensures PairParse(":", key, val, s) != Diverge {
      PairParseReturns(key, val, s, n);
    }
  }

  lemma ViewParserShrinks()
    ensures Shrinks(ViewParser())
  {
    forall s ensures ViewParser()(s).Good? ==> IsSuffix(ViewParser()(s).rest, s) {
      LeafShrinks(s);
    }
  }

  lemma ArrayReturns(v: Parser, s: string)
    requires Shrinks(v) && ReturnsBelow(v, |s|)
    ensures BracketedParse("[", ",", "]", v, s) != Diverge
  {
    if "[" <= s {
      hide Elements;
      ElementsReturns(v, ",", OpenParse("[", s).rest);
    }
  }

  lemma ObjectReturns(v: Parser, s: string)
    requires Shrinks(v) && ReturnsBelow(v, |s|)
    ensures MapParse("{", ",", "}", PairParser(":", ViewParser(), v), s) != Diverge
  {
    if "{" <= s {
      hide Elements, Collect, PairParser, ViewParser;
      var pair := PairParser(":", ViewParser(), v);
      ViewParserShrinks();
      ViewParserReturns(|s|);
      PairReturns(ViewParser(), v, |s|);
      PairShrinks(":", ViewParser(), v);
      var t := OpenParse("{", s).rest;
      ElementsReturns(pair, ",", t);
      MapLoopElements(pair, SepParser(","), t);
    }
  }

  lemma ViewParserReturns(n: nat)
    ensures ReturnsBelow(ViewParser(), n)
  {
    hide ViewBody;
  }

  /** A step returns if the recursive calls return on all strictly shorter texts. */
  lemma StepReturns(fmt: NumberFormat, v: Parser, s: string)
    requires Shrinks(v) && ReturnsBelow(v, |s|)
    ensures ValueStep(fmt, v, s) != Diverge
  {
    hide ViewBody, BracketedParse, MapParse;
    ArrayReturns(v, s);
    ObjectReturns(v, s);
  }

  lemma {:induction false} ValueReturns(fmt: NumberFormat, s: string)
    requires fmt.ReadsPrefixes()
    ensures ParseValue(fmt, s) != Diverge
    decreases |s|
  {
    var inner := Inner(ValueBody(fmt), |s|);
    assert ReturnsBelow(inner, |s|) by {
      forall x | |x| < |s| ensures inner(x) != Diverge {
        ValueReturns(fmt, x);
      }
    }
    InnerShrinks(ValueBody(fmt), |s|);
    BodyIsStep(fmt, s, inner);
    hide Run, ValueStep;
    StepReturns(fmt, inner, s);
  }

  lemma ValueParserShrinks(fmt: NumberFormat)
    ensures Shrinks(ValueParser(fmt))
  {
    RecursiveShrinks(ValueBody(fmt));
    forall s ensures ValueParser(fmt)(s) == Recursive(ValueBody(fmt))(s) {
    }
  }

  /** parse_value is one step in which the recursive calls are parse_value itself. */
  lemma ValueUnfolds(fmt: NumberFormat, s: string)
    requires fmt.ReadsPrefixes()
    ensures ParseValue(fmt, s) == ValueStep(fmt, ValueParser(fmt), s).After(1)
    ensures ParseValue(fmt, s) != Diverge
  {
    hide Run;
    ValueReturns(fmt, s);
    RecurseUnfolds(ValueBody(fmt), s);
    var v, r := ValueParser(fmt), Recursive(ValueBody(fmt));
    forall x ensures v(x) == r(x) {
    }
    ValueParserShrinks(fmt);
    RunIsLocal(ValueBody(fmt), s, v, r);
    BodyIsStep(fmt, s, v);
  }

  /** parse_value is the only parser that satisfies its own equation. */
  lemma ValueIsUnique(fmt: NumberFormat, f: Parser)
    requires fmt.ReadsPrefixes()
    ensures Solves(ValueBody(fmt), f) <==> forall s :: f(s) == ParseValue(fmt, s)
  {
    hide Run, Recurse, ValueBody;
    if Solves(ValueBody(fmt), f) {
      forall s ensures f(s) == ParseValue(fmt, s) {
        ValueReturns(fmt, s);
        RecurseIsLeast(ValueBody(fmt), f, s);
      }
    }
    if forall s :: f(s) == ParseValue(fmt, s) {
      var r := Recursive(ValueBody(fmt));
      RecursiveShrinks(ValueBody(fmt));
      forall s ensures Solved(ValueBody(fmt), f, s) {
        RecurseUnfolds(ValueBody(fmt), s);
        forall x ensures r(x) == f(x) {
        }
        RunIsLocal(ValueBody(fmt), s, r, f);
      }
    }
  }

  lemma JsonUnfolds(fmt: NumberFormat, s: string)
    requires fmt.ReadsPrefixes()
    ensures ParseJson(fmt, s) == match ParseValue(fmt, SkipChars(WHITESPACE, s))
      case Good(r, v, c) => Good(SkipChars(WHITESPACE, r), v, c)
      case other => other
  {
    var v := ValueParser(fmt);
    var t := SkipChars(WHITESPACE, s);
    EncloseIs(SKIP_WHITESPACE, Self, SKIP_WHITESPACE, s, v);
    CharsIs(WHITESPACE, s, v);
    SelfIs(t, v);
    ValueReturns(fmt, t);
    hide Run, Recurse;
    var o := ParseValue(fmt, t);
    if o.Good? {
      CharsIs(WHITESPACE, o.rest, v);
    }
  }
}
