/** `recurse`: a parser handed to its own definition. */
module Recursion {
  import opened Text
  import opened Values
  import opened Outcomes
  import opened Scanners
  import opened Chains
  import opened Combinators
  import opened Laws

  /** What Self stands for inside a run on a text of length `n`. A call on a shorter text runs the body
      there and counts one call; a call on a text that is not shorter would recur for ever. */
  function Inner(body: Expr, n: nat): Parser
    decreases n, 0
  {
    s => if |s| < n then Recurse(body, s) else Diverge
  }

  /** recurse(body) */
  function Recurse(body: Expr, s: string): Outcome
    decreases |s|, 1
  {
    Run(body, s, Inner(body, |s|)).After(1)
  }

  function Recursive(body: Expr): Parser { s => Recurse(body, s) }

  // ---- runs are monotone in what Self stands for ----

  lemma ThenMonotone(o: Outcome, p: Outcome, f: Parser, g: Parser, d: Domain)
    requires Below(o, p, d) && Refines(f, g, d)
    ensures Below(o.Then(f), p.Then(g), d)
  {
    if o.Good? {
      assert Below(f(o.rest), g(o.rest), d);
    }
  }

  lemma EncloseMonotone(pre: Outcome, pre': Outcome, p: Parser, p': Parser, q: Parser, q': Parser, d: Domain)
    requires Below(pre, pre', d) && Refines(p, p', d) && Refines(q, q', d)
    ensures Below(EncloseParse(pre, p, q), EncloseParse(pre', p', q'), d)
  {
    if pre.Good? {
      assert Below(p(pre.rest), p'(pre.rest), d);
      if p(pre.rest).Good? {
        assert Below(q(p(pre.rest).rest), q'(p(pre.rest).rest), d);
      }
    }
  }

  lemma FoldedMonotone(o: Outcome, p: Outcome, f: Parser, g: Parser, op: (Value, Value) -> Value, d: Domain)
    requires Below(o, p, d) && Refines(f, g, d)
    ensures Below(Folded(o, f, op), Folded(p, g, op), d)
  {
    if o.Good? {
      FoldLoopMonotone(f, g, op, o.rest, o.value, d);
    }
  }

  lemma LiteralsStay(l: string, s: string, d: Domain)
    requires Closed(d) && d(s)
    ensures OpenParse(l, s).Good? ==> d(OpenParse(l, s).rest)
    ensures SepParse(l, s).Good? ==> d(SepParse(l, s).rest)
    ensures CloseParse(l, s).Good? ==> d(CloseParse(l, s).rest)
  {
    hide OpenParse, SepParse, CloseParse, IsSuffix;
    SepParseShrinks(l, s);
    SepShrinks(l);
  }

  lemma SepParserStays(l: string, d: Domain)
    requires Closed(d)
    ensures Refines(SepParser(l), SepParser(l), d)
  {
    hide SepParse;
    forall s | d(s) ensures Below(SepParse(l, s), SepParse(l, s), d) {
      LiteralsStay(l, s, d);
    }
  }

  lemma ElementsMonotone(e1: Parser, e2: Parser, s1: Parser, s2: Parser, s: string, d: Domain)
    requires Refines(e1, e2, d) && Refines(s1, s2, d) && d(s)
    ensures var l := Elements(e1, s1, s); l.Links? ==> l == Elements(e2, s2, s) && d(l.rest)
  {
    assert Below(e1(s), e2(s), d);
    if e1(s).Good? {
      ChainMonotone(e1, e2, s1, s2, e1(s).rest, d);
    }
  }

  lemma CloseMonotone(o: Outcome, p: Outcome, closing: string, d: Domain)
    requires Closed(d) && Below(o, p, d)
    ensures Below(ThenClose(o, closing), ThenClose(p, closing), d)
  {
    hide CloseParse;
    if o.Good? {
      LiteralsStay(closing, o.rest, d);
    }
  }

  lemma BracketedMonotone(o: string, m: string, c: string, f: Parser, g: Parser, s: string, d: Domain)
    requires Closed(d) && Refines(f, g, d) && d(s)
    ensures Below(BracketedParse(o, m, c, f, s), BracketedParse(o, m, c, g, s), d)
  {
    hide Elements, OpenParse, ThenClose;
    var open := OpenParse(o, s);
    LiteralsStay(o, s, d);
    if open.Good? {
      SepParserStays(m, d);
      ElementsMonotone(f, g, SepParser(m), SepParser(m), open.rest, d);
      CloseMonotone(ListOf(Elements(f, SepParser(m), open.rest)), ListOf(Elements(g, SepParser(m), open.rest)), c, d);
    }
    DivergeStays(c);
  }

  lemma DivergeStays(closing: string)
    ensures ThenClose(Diverge, closing) == Diverge
  {
  }

  lemma MapMonotone(o: string, m: string, c: string, f: Parser, g: Parser, s: string, d: Domain)
    requires Closed(d) && Refines(f, g, d) && d(s)
    ensures Below(MapParse(o, m, c, f, s), MapParse(o, m, c, g, s), d)
  {
    hide Elements, Collect, OpenParse, ThenClose, InsertAll;
    var open := OpenParse(o, s);
    LiteralsStay(o, s, d);
    if open.Good? {
      SepParserStays(m, d);
      ElementsMonotone(f, g, SepParser(m), SepParser(m), open.rest, d);
      MapLoopElements(f, SepParser(m), open.rest);
      MapLoopElements(g, SepParser(m), open.rest);
      CloseMonotone(MapOf(Elements(f, SepParser(m), open.rest)), MapOf(Elements(g, SepParser(m), open.rest)), c, d);
    }
    DivergeStays(c);
  }

  lemma PairParseMonotone(colon: string, k1: Parser, k2: Parser, v1: Parser, v2: Parser, s: string, d: Domain)
    requires Closed(d) && Refines(k1, k2, d) && Refines(v1, v2, d) && d(s)
    ensures Below(PairParse(colon, k1, v1, s), PairParse(colon, k2, v2, s), d)
  {
    hide SepParse;
    assert Below(k1(s), k2(s), d);
    var o := k1(s);
    if o.Good? {
      var sep := SepParse(colon, o.rest);
      LiteralsStay(colon, o.rest, d);
      ThenMonotone(sep, sep, v1, v2, d);
    }
  }

  lemma PairMonotone(colon: string, k1: Parser, k2: Parser, v1: Parser, v2: Parser, d: Domain)
    requires Closed(d) && Refines(k1, k2, d) && Refines(v1, v2, d)
    ensures Refines(PairParser(colon, k1, v1), PairParser(colon, k2, v2), d)
  {
    hide PairParse;
    forall s | d(s) ensures Below(PairParse(colon, k1, v1, s), PairParse(colon, k2, v2, s), d) {
      PairParseMonotone(colon, k1, k2, v1, v2, s, d);
    }
  }

  lemma TextsStay(e: Expr, s: string, self: Parser, d: Domain)
    requires e.Leaf? || e.Literal? || e.Chars? || e.CountChars? || e.BoolLiteral? || e.View? || e.Integer? || e.Pure?
    requires Closed(d) && d(s)
    ensures Run(e, s, self).Good? ==> d(Run(e, s, self).rest)
  {
    hide LiteralParse, BoolParse, ViewParse, IntParse, SkipChars;
    LeafShrinks(s);
  }

  /** A run that does not diverge does not change when Self becomes more defined on the texts it can reach. */
  lemma {:induction false} RunMonotone(e: Expr, s: string, f: Parser, g: Parser, d: Domain)
    requires Closed(d) && Refines(f, g, d) && d(s)
    ensures Below(Run(e, s, f), Run(e, s, g), d)
    decreases e, 0, 1
  {
    hide LiteralParse, BoolParse, ViewParse, IntParse, SkipChars;
    match e
    case MapTo(_, p) => RunMonotone(p, s, f, g, d);
    case Either(ps) => EitherMonotone(ps, s, f, g, d);
    case Enclose(_, _, _) => EnclosedMonotone(e, s, f, g, d);
    case Match(ps) => MatchMonotone(ps, s, f, g, d);
    case Join(ps, last) =>
      MatchMonotone(ps, s, f, g, d);
      ParserOfMonotone(last, f, g, d);
      ThenMonotone(RunMatch(ps, s, f), RunMatch(ps, s, g), ParserOf(last, f), ParserOf(last, g), d);
    case Then(p, q) =>
      RunMonotone(p, s, f, g, d);
      ParserOfMonotone(q, f, g, d);
      ThenMonotone(Run(p, s, f), Run(p, s, g), ParserOf(q, f), ParserOf(q, g), d);
    case TryParse(p) => RunMonotone(p, s, f, g, d);
    case FoldLeft(initial, next, op) =>
      RunMonotone(initial, s, f, g, d);
      ParserOfMonotone(next, f, g, d);
      FoldedMonotone(Run(initial, s, f), Run(initial, s, g), ParserOf(next, f), ParserOf(next, g), op, d);
    case Make(_, ps) => AllMonotone(ps, s, f, g, d);
    case Sequence(elem, sep) =>
      ParserOfMonotone(elem, f, g, d);
      ParserOfMonotone(sep, f, g, d);
      ElementsMonotone(ParserOf(elem, f), ParserOf(elem, g), ParserOf(sep, f), ParserOf(sep, g), s, d);
    case Bracketed(_, _, _, _) => FusedMonotone(e, s, f, g, d);
    case ParseMap(_, _, _, _, _, _) => MappingMonotone(e, s, f, g, d);
    case Self =>
      assert Below(f(s), g(s), d);
    case _ => TextsStay(e, s, f, d);
  }

  lemma EnclosedMonotone(e: Expr, s: string, f: Parser, g: Parser, d: Domain)
    requires e.Enclose? && Closed(d) && Refines(f, g, d) && d(s)
    ensures Below(Run(e, s, f), Run(e, s, g), d)
    decreases e, 0, 0
  {
    hide Run, EncloseParse;
    EncloseIs(e.pre, e.p, e.post, s, f);
    EncloseIs(e.pre, e.p, e.post, s, g);
    RunMonotone(e.pre, s, f, g, d);
    ParserOfMonotone(e.p, f, g, d);
    ParserOfMonotone(e.post, f, g, d);
    EncloseMonotone(Run(e.pre, s, f), Run(e.pre, s, g), ParserOf(e.p, f), ParserOf(e.p, g),
                    ParserOf(e.post, f), ParserOf(e.post, g), d);
  }

  lemma FusedMonotone(e: Expr, s: string, f: Parser, g: Parser, d: Domain)
    requires e.Bracketed? && Closed(d) && Refines(f, g, d) && d(s)
    ensures Below(Run(e, s, f), Run(e, s, g), d)
    decreases e, 0, 0
  {
    hide Run, BracketedParse;
    BracketedIs(e.opening, e.comma, e.closing, e.elem, s, f);
    BracketedIs(e.opening, e.comma, e.closing, e.elem, s, g);
    ParserOfMonotone(e.elem, f, g, d);
    BracketedMonotone(e.opening, e.comma, e.closing, ParserOf(e.elem, f), ParserOf(e.elem, g), s, d);
  }

  lemma MappingMonotone(e: Expr, s: string, f: Parser, g: Parser, d: Domain)
    requires e.ParseMap? && Closed(d) && Refines(f, g, d) && d(s)
    ensures Below(Run(e, s, f), Run(e, s, g), d)
    decreases e, 0, 0
  {
    hide Run, MapParse, PairParser;
    ParseMapIs(e.opening, e.comma, e.colon, e.closing, e.key, e.val, s, f);
    ParseMapIs(e.opening, e.comma, e.colon, e.closing, e.key, e.val, s, g);
    ParserOfMonotone(e.key, f, g, d);
    ParserOfMonotone(e.val, f, g, d);
    PairMonotone(e.colon, ParserOf(e.key, f), ParserOf(e.key, g), ParserOf(e.val, f), ParserOf(e.val, g), d);
    MapMonotone(e.opening, e.comma, e.closing, PairParser(e.colon, ParserOf(e.key, f), ParserOf(e.val, f)),
                PairParser(e.colon, ParserOf(e.key, g), ParserOf(e.val, g)), s, d);
  }

  lemma ParserOfMonotone(e: Expr, f: Parser, g: Parser, d: Domain)
    requires Closed(d) && Refines(f, g, d)
    ensures Refines(ParserOf(e, f), ParserOf(e, g), d)
    decreases e, 1
  {
    hide Run;
    forall s | d(s) ensures Below(Run(e, s, f), Run(e, s, g), d) {
      RunMonotone(e, s, f, g, d);
    }
  }

  lemma {:induction false} EitherMonotone(ps: seq<Expr>, s: string, f: Parser, g: Parser, d: Domain)
    requires Closed(d) && Refines(f, g, d) && d(s)
    ensures Below(RunEither(ps, s, f), RunEither(ps, s, g), d)
    decreases ps, 1
  {
    hide Run;
    if ps != [] {
      RunMonotone(ps[0], s, f, g, d);
      EitherMonotone(ps[1..], s, f, g, d);
    }
  }

  lemma {:induction false} MatchMonotone(ps: seq<Expr>, s: string, f: Parser, g: Parser, d: Domain)
    requires Closed(d) && Refines(f, g, d) && d(s)
    ensures Below(RunMatch(ps, s, f), RunMatch(ps, s, g), d)
    decreases ps, 1
  {
    hide Run;
    if ps != [] {
      RunMonotone(ps[0], s, f, g, d);
      var o := Run(ps[0], s, f);
      if o.Good? {
        MatchMonotone(ps[1..], o.rest, f, g, d);
      }
    }
  }

  lemma {:induction false} AllMonotone(ps: seq<Expr>, s: string, f: Parser, g: Parser, d: Domain)
    requires Closed(d) && Refines(f, g, d) && d(s)
    ensures Below(RunAll(ps, s, f), RunAll(ps, s, g), d)
    decreases ps, 1
  {
    hide Run;
    if ps != [] {
      RunMonotone(ps[0], s, f, g, d);
      var o := Run(ps[0], s, f);
      if o.Good? {
        AllMonotone(ps[1..], o.rest, f, g, d);
      }
    }
  }

  lemma SuffixesAreClosed(t: string)
    ensures Closed(SuffixesOf(t))
  {
    forall s, r | IsSuffix(s, t) && IsSuffix(r, s) ensures IsSuffix(r, t) {
      SuffixIsTransitive(r, s, t);
    }
  }

  /** What a successful run of any expression leaves is a suffix of its text. */
  lemma RunShrinks(e: Expr, s: string, self: Parser)
    requires Shrinks(self)
    ensures Run(e, s, self).Good? ==> IsSuffix(Run(e, s, self).rest, s)
  {
    hide Run, Closed;
    var d := SuffixesOf(s);
    SuffixesAreClosed(s);
    forall x | d(x) ensures Below(self(x), self(x), d) {
      if self(x).Good? {
        SuffixIsTransitive(self(x).rest, x, s);
      }
    }
    RunMonotone(e, s, self, self, d);
  }

  /** A run depends on Self only at suffixes of its text. */
  lemma RunIsLocal(e: Expr, s: string, f: Parser, g: Parser)
    requires Shrinks(f) && forall x :: IsSuffix(x, s) ==> f(x) == g(x)
    ensures Run(e, s, f) == Run(e, s, g)
  {
    hide Run, Closed;
    var d := SuffixesOf(s);
    SuffixesAreClosed(s);
    forall x | d(x) ensures Below(f(x), g(x), d) && Below(g(x), f(x), d) {
      if f(x).Good? {
        SuffixIsTransitive(f(x).rest, x, s);
      }
    }
    RunMonotone(e, s, f, g, d);
    RunMonotone(e, s, g, f, d);
  }

  // ---- recurse ties the knot ----

  /** recurse(body) is the body run with Self standing for recurse(body) itself, on every text: where the
      one diverges so does the other. */
  lemma RecurseUnfolds(body: Expr, s: string)
    ensures Recurse(body, s) == Run(body, s, Recursive(body)).After(1)
  {
    hide Run;
    var inner := Inner(body, |s|);
    InnerShrinks(body, |s|);
    if Recurse(body, s) == Diverge {
      forall x | IsSuffix(x, s) ensures inner(x) == Recursive(body)(x) {
        assert |x| == |s| ==> x == s;
      }
      RunIsLocal(body, s, inner, Recursive(body));
    } else {
      RecursiveRefines(body, |s|);
      RunMonotone(body, s, inner, Recursive(body), Everywhere());
    }
  }

  lemma RecursiveRefines(body: Expr, n: nat)
    ensures Refines(Inner(body, n), Recursive(body), Everywhere())
  {
    hide Run;
    forall x ensures Below(Inner(body, n)(x), Recurse(body, x), Everywhere()) {
    }
  }

  /** `f` satisfies the equation of recurse(body). */
  ghost predicate Solves(body: Expr, f: Parser) {
    forall s :: Solved(body, f, s)
  }

  ghost predicate Solved(body: Expr, f: Parser, s: string) {
    f(s) == Run(body, s, f).After(1)
  }

  /** recurse(body) is the least solution: where it returns, every solution returns the same. */
  lemma {:induction false} RecurseIsLeast(body: Expr, f: Parser, s: string)
    requires Solves(body, f)
    ensures Recurse(body, s) == Diverge || Recurse(body, s) == f(s)
    decreases |s|
  {
    hide Run;
    var inner := Inner(body, |s|);
    forall x ensures Below(inner(x), f(x), Everywhere()) {
      if |x| < |s| {
        RecurseIsLeast(body, f, x);
      }
    }
    RunMonotone(body, s, inner, f, Everywhere());
    assert Solved(body, f, s);
  }

  lemma RecurseSolves(body: Expr)
    ensures Solves(body, Recursive(body))
  {
    hide Run, Recurse;
    forall s ensures Solved(body, Recursive(body), s) {
      RecurseUnfolds(body, s);
    }
  }

  lemma {:induction false} InnerShrinks(body: Expr, n: nat)
    ensures Shrinks(Inner(body, n))
    decreases n
  {
    forall s | Inner(body, n)(s).Good? ensures IsSuffix(Inner(body, n)(s).rest, s) {
      InnerShrinks(body, |s|);
      RunShrinks(body, s, Inner(body, |s|));
    }
  }

  lemma RecursiveShrinks(body: Expr)
    ensures Shrinks(Recursive(body))
  {
    forall s | Recurse(body, s).Good? ensures IsSuffix(Recurse(body, s).rest, s) {
      InnerShrinks(body, |s|);
      RunShrinks(body, s, Inner(body, |s|));
    }
  }

  ghost predicate AlikeOn(b1: Expr, b2: Expr, s: string, self: Parser) {
    Run(b1, s, self) == Run(b2, s, self)
  }

  /** Bodies that run alike, whatever Self stands for, define the same recursive parser. */
  lemma {:induction false} SameBodiesRecurseAlike(b1: Expr, b2: Expr, s: string)
    requires forall x, f :: AlikeOn(b1, b2, x, f)
    ensures Recurse(b1, s) == Recurse(b2, s)
    decreases |s|
  {
    hide Run;
    var f, g := Inner(b1, |s|), Inner(b2, |s|);
    forall x ensures f(x) == g(x) {
      if |x| < |s| {
        SameBodiesRecurseAlike(b1, b2, x);
      }
    }
    InnerShrinks(b1, |s|);
    RunIsLocal(b2, s, f, g);
    assert AlikeOn(b1, b2, s, f);
  }
}
