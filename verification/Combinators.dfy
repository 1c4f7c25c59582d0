/** Parsers as expressions over the library's combinators, and what running one on a text yields. */
module Combinators {
  import opened Text
  import opened Values
  import opened Outcomes
  import opened Scanners
  import opened Chains

  datatype Expr =
    | Leaf(leaf: LeafParser)                                // any other parser written by hand
    | Literal(lits: seq<string>, constant: Value)           // literal, literal_makes, literal_constant
    | Chars(cs: set<char>)                                  // zero_or_more_chars
    | CountChars(cs: set<char>)                             // count_chars
    | BoolLiteral                                           // bool_parser
    | View                                                  // view_parser<'"', '"', '\\'>
    | Integer(lo: int, hi: int)                             // charconv<T> for a signed T
    | Pure(constant: Value)
    | MapTo(func: Value -> Value, p: Expr)                  // map
    | Either(ps: seq<Expr>)
    | Enclose(pre: Expr, p: Expr, post: Expr)
    | Match(ps: seq<Expr>)
    | Join(ps: seq<Expr>, last: Expr)
    | Then(p: Expr, q: Expr)                                // p >> q
    | TryParse(p: Expr)
    | FoldLeft(initial: Expr, next: Expr, op: (Value, Value) -> Value)
    | Make(build: seq<Value> -> Value, ps: seq<Expr>)
    | Sequence(elem: Expr, sep: Expr)                       // sequence(elem, sep), sequence<Sep>(elem)
    | Bracketed(opening: string, comma: string, closing: string, elem: Expr)
    | ParseMap(opening: string, comma: string, colon: string, closing: string, key: Expr, val: Expr)
    | Self                                                  // the parser handed to recurse's function

  // ---- named parsers ----

  const SKIP_WHITESPACE: Expr := Chars(WHITESPACE)

  function Lit(l: string): Expr { Literal([l], Empty) }

  function Separator(l: string): Expr { Match([SKIP_WHITESPACE, Lit(l), SKIP_WHITESPACE]) }

  function Opening(l: string): Expr { Match([Lit(l), SKIP_WHITESPACE]) }

  function Closing(l: string): Expr { Match([SKIP_WHITESPACE, Lit(l)]) }

  function BuildPair(vs: seq<Value>): Value {
    if |vs| == 2 then Pair(vs[0], vs[1]) else Empty
  }

  /** make<tuplet::pair, colon>(key, val) */
  function PairOf(colon: string, key: Expr, val: Expr): Expr {
    Make(BuildPair, [key, Join([Separator(colon)], val)])
  }

  // ---- what those parsers do, on text ----

  function LitParse(l: string, s: string): Outcome {
    if l <= s then Good(s[|l|..], Empty, 0) else Bad(0)
  }

  function OpenParse(l: string, s: string): Outcome {
    if l <= s then Good(SkipChars(WHITESPACE, s[|l|..]), Empty, 0) else Bad(0)
  }

  function CloseParse(l: string, s: string): Outcome {
    LitParse(l, SkipChars(WHITESPACE, s))
  }

  function SepParse(l: string, s: string): Outcome {
    OpenParse(l, SkipChars(WHITESPACE, s))
  }

  function SepParser(l: string): Parser { s => SepParse(l, s) }

  /** The outcome `pre` of the prefix, then `p`, then `post`; the value is that of `p`. */
  function EncloseParse(pre: Outcome, p: Parser, post: Parser): Outcome {
    match pre
    case Diverge => Diverge
    case Bad(c) => Bad(c)
    case Good(s1, _, c1) =>
      match p(s1)
      case Diverge => Diverge
      case Bad(c2) => Bad(c1 + c2)
      case Good(s2, v, c2) =>
        match post(s2)
        case Diverge => Diverge
        case Bad(c3) => Bad(c1 + c2 + c3)
        case Good(s3, _, c3) => Good(s3, v, c1 + c2 + c3)
  }

  function Optional(o: Outcome, s: string): Outcome {
    match o
    case Good(r, v, c) => Good(r, Just(v), c)
    case Bad(c) => Good(s, Nothing, c)
    case Diverge => Diverge
  }

  function Folded(initial: Outcome, next: Parser, op: (Value, Value) -> Value): Outcome {
    match initial
    case Good(r, v, c) => FoldLoop(next, op, r, v).After(c)
    case other => other
  }

  function Built(build: seq<Value> -> Value, o: Outcome): Outcome {
    if o.Good? && o.value.List? then Good(o.rest, build(o.value.items), o.calls) else o
  }

  function PairParse(colon: string, key: Parser, val: Parser, s: string): Outcome {
    match key(s)
    case Good(m, k, c) => PairRest(colon, k, val, m).After(c)
    case other => other
  }

  function PairRest(colon: string, k: Value, val: Parser, m: string): Outcome {
    SepParse(colon, m).Then(val).PairedWith(k)
  }

  function PairParser(colon: string, key: Parser, val: Parser): Parser {
    s => PairParse(colon, key, val, s)
  }

  /** The closing literal after a loop that ended at `o.rest` with `o.value`. */
  function ThenClose(o: Outcome, closing: string): Outcome {
    match o
    case Diverge => Diverge
    case Bad(c) => Bad(c)
    case Good(q, v, c) =>
      match CloseParse(closing, q)
      case Diverge => Diverge
      case Bad(_) => Bad(c)
      case Good(r, _, _) => Good(r, v, c)
  }

  function ListOf(l: Links): Outcome {
    match l
    case Endless => Diverge
    case Links(vs, q, c) => Good(q, List(vs), c)
  }

  function MapOf(l: Links): Outcome {
    match l
    case Endless => Diverge
    case Links(vs, q, c) => Good(q, InsertAll(Map([]), vs), c)
  }

  /** The fused form: opening, elements, closing in one function. */
  function BracketedParse(opening: string, comma: string, closing: string, elem: Parser, s: string): Outcome {
    match OpenParse(opening, s)
    case Diverge => Diverge
    case Bad(_) => Bad(0)
    case Good(t, _, _) => ThenClose(ListOf(Elements(elem, SepParser(comma), t)), closing)
  }

  /** The fused map parser: pairs go into the map as they are read. */
  function MapParse(opening: string, comma: string, closing: string, pair: Parser, s: string): Outcome {
    match OpenParse(opening, s)
    case Diverge => Diverge
    case Bad(_) => Bad(0)
    case Good(t, _, _) => ThenClose(Collect(pair, SepParser(comma), t), closing)
  }

  /** An optional first pair, then the loop. */
  function Collect(pair: Parser, sep: Parser, t: string): Outcome {
    match pair(t)
    case Diverge => Diverge
    case Bad(c) => Good(t, Map([]), c)
    case Good(r, v, c) => MapLoop(pair, sep, r, Insert(Map([]), v)).After(c)
  }

  // ---- running an expression; `self` is what Self stands for ----

  function Run(e: Expr, s: string, self: Parser): Outcome
    decreases e, 0
  {
    match e
    case Leaf(f) => f(s)
    case Literal(lits, v) => LiteralParse(lits, v, s)
    case Chars(cs) => Good(SkipChars(cs, s), Empty, 0)
    case CountChars(cs) => Good(SkipChars(cs, s), Int(|s| - |SkipChars(cs, s)|), 0)
    case BoolLiteral => BoolParse(s)
    case View => ViewParse(s)
    case Integer(lo, hi) => IntParse(lo, hi, s)
    case Pure(v) => Good(s, v, 0)
    case MapTo(f, p) => Run(p, s, self).Map(f)
    case Either(ps) => RunEither(ps, s, self)
    case Enclose(pre, p, post) => EncloseParse(Run(pre, s, self), ParserOf(p, self), ParserOf(post, self))
    case Match(ps) => RunMatch(ps, s, self)
    case Join(ps, last) => RunMatch(ps, s, self).Then(ParserOf(last, self))
    case Then(p, q) => Run(p, s, self).Then(ParserOf(q, self))
    case TryParse(p) => Optional(Run(p, s, self), s)
    case FoldLeft(initial, next, op) => Folded(Run(initial, s, self), ParserOf(next, self), op)
    case Make(build, ps) => Built(build, RunAll(ps, s, self))
    case Sequence(elem, sep) => ListOf(Elements(ParserOf(elem, self), ParserOf(sep, self), s))
    case Bracketed(o, m, c, elem) => BracketedParse(o, m, c, ParserOf(elem, self), s)
    case ParseMap(o, m, colon, c, key, val) =>
      MapParse(o, m, c, PairParser(colon, ParserOf(key, self), ParserOf(val, self)), s)
    case Self => self(s)
  }

  function ParserOf(e: Expr, self: Parser): Parser
    decreases e, 1
  {
    s => Run(e, s, self)
  }

  /** The first alternative that succeeds, each tried on the same text. */
  function RunEither(ps: seq<Expr>, s: string, self: Parser): Outcome
    decreases ps, 0
  {
    if ps == [] then Bad(0)
    else
      match Run(ps[0], s, self)
      case Bad(c) => RunEither(ps[1..], s, self).After(c)
      case other => other
  }

  /** All parsers in sequence, discarding their values. */
  function RunMatch(ps: seq<Expr>, s: string, self: Parser): Outcome
    decreases ps, 0
  {
    if ps == [] then Good(s, Empty, 0)
    else
      match Run(ps[0], s, self)
      case Good(r, _, c) => RunMatch(ps[1..], r, self).After(c)
      case other => other
  }

  function Prepend(v: Value, o: Outcome): Outcome {
    if o.Good? && o.value.List? then Good(o.rest, List([v] + o.value.items), o.calls) else o
  }

  /** All parsers in sequence, keeping their values in order. */
  function RunAll(ps: seq<Expr>, s: string, self: Parser): (o: Outcome)
    ensures o.Good? ==> o.value.List? && |o.value.items| == |ps|
    decreases ps, 0
  {
    if ps == [] then Good(s, List([]), 0)
    else
      match Run(ps[0], s, self)
      case Diverge => Diverge
      case Bad(c) => Bad(c)
      case Good(r, v, c) => Prepend(v, RunAll(ps[1..], r, self)).After(c)
  }

  // ---- short lists ----

  function MatchParser(ps: seq<Expr>, self: Parser): Parser { s => RunMatch(ps, s, self) }

  lemma Match1(p: Expr, s: string, self: Parser)
    ensures RunMatch([p], s, self) == Run(p, s, self).Map(_ => Empty)
  {
    hide Run;
    assert [p][1..] == [];
  }

  lemma MatchCons(p: Expr, ps: seq<Expr>, s: string, self: Parser)
    ensures RunMatch([p] + ps, s, self) == Run(p, s, self).Then(MatchParser(ps, self))
  {
    hide Run;
    assert ([p] + ps)[1..] == ps;
  }

  lemma All1(p: Expr, s: string, self: Parser)
    ensures RunAll([p], s, self) == Run(p, s, self).Map(v => List([v]))
  {
    hide Run;
    assert [p][1..] == [];
    var o := Run(p, s, self);
    if o.Good? {
      assert RunAll([], o.rest, self) == Good(o.rest, List([]), 0);
    }
  }

  lemma AllCons(p: Expr, ps: seq<Expr>, s: string, self: Parser)
    ensures var o := Run(p, s, self);
      && (!o.Good? ==> RunAll([p] + ps, s, self) == o)
      && (o.Good? ==> RunAll([p] + ps, s, self) == Prepend(o.value, RunAll(ps, o.rest, self)).After(o.calls))
  {
    hide Run;
    assert ([p] + ps)[1..] == ps;
  }

  // ---- the static always-good flag ----

  /** Whether the result type of a parser is one that `result_traits` certifies as always good. */
  predicate AlwaysGood(e: Expr) {
    match e
    case Chars(_) | CountChars(_) | Pure(_) | TryParse(_) | Sequence(_, _) => true
    case MapTo(_, p) => AlwaysGood(p)
    case Either(ps) => exists i :: 0 <= i < |ps| && AlwaysGood(ps[i])
    case Match(ps) => forall i :: 0 <= i < |ps| ==> AlwaysGood(ps[i])
    case Join(ps, last) => (forall i :: 0 <= i < |ps| ==> AlwaysGood(ps[i])) && AlwaysGood(last)
    case Make(_, ps) => ps == [] || (|ps| == 1 && AlwaysGood(ps[0]))
    case _ => false
  }

  /** (flag(p1) || ... || flag(pn)) */
  predicate AnyGood(ps: seq<Expr>) {
    ps != [] && (AlwaysGood(ps[0]) || AnyGood(ps[1..]))
  }

  /** (flag(p1) && ... && flag(pn)) */
  predicate AllGood(ps: seq<Expr>) {
    ps == [] || (AlwaysGood(ps[0]) && AllGood(ps[1..]))
  }

  lemma {:induction false} AnyGoodIs(ps: seq<Expr>)
    ensures AnyGood(ps) <==> exists i :: 0 <= i < |ps| && AlwaysGood(ps[i])
  {
    hide AlwaysGood;
    if ps != [] {
      AnyGoodIs(ps[1..]);
      if i :| 0 <= i < |ps| && AlwaysGood(ps[i]) {
        assert i > 0 ==> ps[1..][i - 1] == ps[i];
      }
      if i :| 0 <= i < |ps[1..]| && AlwaysGood(ps[1..][i]) {
        assert ps[i + 1] == ps[1..][i];
      }
    }
  }

  lemma {:induction false} AllGoodIs(ps: seq<Expr>)
    ensures AllGood(ps) <==> forall i :: 0 <= i < |ps| ==> AlwaysGood(ps[i])
  {
    hide AlwaysGood;
    if ps != [] {
      AllGoodIs(ps[1..]);
      assert forall i :: 0 < i < |ps| ==> ps[i] == ps[1..][i - 1];
      assert forall i :: 0 <= i < |ps[1..]| ==> ps[1..][i] == ps[i + 1];
    }
  }

  lemma ListFlagIs(ps: seq<Expr>)
    ensures AlwaysGood(Either(ps)) <==> exists i :: 0 <= i < |ps| && AlwaysGood(ps[i])
    ensures AlwaysGood(Match(ps)) <==> forall i :: 0 <= i < |ps| ==> AlwaysGood(ps[i])
  {
  }

  lemma JoinFlagIs(p: Expr, ps: seq<Expr>)
    ensures AlwaysGood(Join(ps, p)) <==> AlwaysGood(Match(ps)) && AlwaysGood(p)
  {
  }

  lemma InheritedFlagIs(f: Value -> Value, build: seq<Value> -> Value, p: Expr, ps: seq<Expr>)
    ensures AlwaysGood(MapTo(f, p)) <==> AlwaysGood(p)
    ensures AlwaysGood(Make(build, ps)) <==> ps == [] || (|ps| == 1 && AlwaysGood(ps[0]))
  {
  }

  /** The flag, as the result types fold it: `either` takes any alternative's, `match` and `join` all of
      theirs, and `map` and the one-argument `make` inherit it. */
  lemma FlagsFold(f: Value -> Value, build: seq<Value> -> Value, p: Expr, ps: seq<Expr>)
    ensures AlwaysGood(Either(ps)) <==> AnyGood(ps)
    ensures AlwaysGood(Match(ps)) <==> AllGood(ps)
    ensures AlwaysGood(Join(ps, p)) <==> AllGood(ps) && AlwaysGood(p)
    ensures AlwaysGood(MapTo(f, p)) <==> AlwaysGood(p)
    ensures AlwaysGood(Make(build, ps)) <==> ps == [] || (|ps| == 1 && AlwaysGood(ps[0]))
  {
    hide AlwaysGood, AnyGood, AllGood;
    ListFlagIs(ps);
    JoinFlagIs(p, ps);
    InheritedFlagIs(f, build, p, ps);
    AnyGoodIs(ps);
    AllGoodIs(ps);
  }

  /** The flag is sound: an always-good parser fails on no text. */
  lemma {:induction false} AlwaysGoodIsSound(e: Expr, s: string, self: Parser)
    requires AlwaysGood(e)
    ensures !Run(e, s, self).Bad?
    decreases e, 0
  {
    match e
    case MapTo(_, p) => AlwaysGoodIsSound(p, s, self);
    case Either(ps) =>
      var i :| 0 <= i < |ps| && AlwaysGood(ps[i]);
      EitherAlwaysGood(ps, i, s, self);
    case Match(ps) => MatchAlwaysGood(ps, s, self);
    case Join(ps, last) =>
      MatchAlwaysGood(ps, s, self);
      var o := RunMatch(ps, s, self);
      if o.Good? {
        AlwaysGoodIsSound(last, o.rest, self);
      }
    case Make(_, ps) =>
      if ps != [] {
        AlwaysGoodIsSound(ps[0], s, self);
        assert ps == [ps[0]];
        All1(ps[0], s, self);
      }
    case _ =>
  }

  /** `either` with an always-good alternative never falls off its end. */
  lemma {:induction false} EitherAlwaysGood(ps: seq<Expr>, i: nat, s: string, self: Parser)
    requires i < |ps| && AlwaysGood(ps[i])
    ensures !RunEither(ps, s, self).Bad?
    decreases ps, 1
  {
    if i == 0 {
      AlwaysGoodIsSound(ps[0], s, self);
    } else {
      EitherAlwaysGood(ps[1..], i - 1, s, self);
    }
  }

  lemma {:induction false} MatchAlwaysGood(ps: seq<Expr>, s: string, self: Parser)
    requires forall i :: 0 <= i < |ps| ==> AlwaysGood(ps[i])
    ensures !RunMatch(ps, s, self).Bad?
    decreases ps, 1
  {
    if ps != [] {
      AlwaysGoodIsSound(ps[0], s, self);
      var o := Run(ps[0], s, self);
      if o.Good? {
        MatchAlwaysGood(ps[1..], o.rest, self);
      }
    }
  }

  // ---- what single parsers leave is a suffix of their text ----

  lemma LeafShrinks(s: string)
    ensures BoolParse(s).Good? ==> IsSuffix(BoolParse(s).rest, s)
    ensures ViewParse(s).Good? ==> IsSuffix(ViewParse(s).rest, s)
  {
    if ViewParse(s).Good? {
      var c := ViewBody(s[1..]);
      ViewBodyExact(s[1..], c.body, c.after);
      assert s == ("\"" + c.body + "\"") + c.after;
      SuffixAfter("\"" + c.body + "\"", c.after);
    }
  }

  /** `string_parser`, too, can stand in an expression. */
  lemma StringIsLeaf()
    ensures IsLeaf((s: string) => StringParse(s))
  {
    forall s | StringParse(s).Good? ensures IsSuffix(StringParse(s).rest, s) {
      hide StringBody;
      var c := StringBody(s[1..]);
      StringBodySound(s[1..]);
      var b := RawBody(s[1..], c.after);
      SuffixAfter(b + "\"", c.after);
      SuffixIsTransitive(c.after, s[1..], s);
    }
  }

  lemma SepShrinks(l: string)
    ensures Shrinks(SepParser(l))
    ensures forall s :: OpenParse(l, s).Good? ==> IsSuffix(OpenParse(l, s).rest, s)
    ensures forall s :: CloseParse(l, s).Good? ==> IsSuffix(CloseParse(l, s).rest, s)
  {
    forall s | OpenParse(l, s).Good? ensures IsSuffix(OpenParse(l, s).rest, s) {
      SuffixIsTransitive(OpenParse(l, s).rest, s[|l|..], s);
    }
    forall s | CloseParse(l, s).Good? ensures IsSuffix(CloseParse(l, s).rest, s) {
      SuffixIsTransitive(CloseParse(l, s).rest, SkipChars(WHITESPACE, s), s);
    }
    forall s ensures SepParser(l)(s).Good? ==> IsSuffix(SepParser(l)(s).rest, s) {
      SepParseShrinks(l, s);
    }
  }

  lemma SepParseShrinks(l: string, s: string)
    ensures SepParse(l, s).Good? ==> IsSuffix(SepParse(l, s).rest, s)
  {
    var t := SkipChars(WHITESPACE, s);
    if l <= t {
      hide IsSuffix;
      SuffixAfter(t[..|l|], t[|l|..]);
      assert t == t[..|l|] + t[|l|..];
      SuffixIsTransitive(SkipChars(WHITESPACE, t[|l|..]), t[|l|..], t);
      SuffixIsTransitive(SepParse(l, s).rest, t, s);
    }
  }

  lemma ThenShrinks(o: Outcome, q: Parser, s: string)
    requires Shrinks(q) && (o.Good? ==> IsSuffix(o.rest, s))
    ensures o.Then(q).Good? ==> IsSuffix(o.Then(q).rest, s)
  {
    if o.Then(q).Good? {
      SuffixIsTransitive(q(o.rest).rest, o.rest, s);
    }
  }

  lemma PairParseShrinks(colon: string, key: Parser, val: Parser, s: string)
    requires Shrinks(key) && Shrinks(val)
    ensures PairParse(colon, key, val, s).Good? ==> IsSuffix(PairParse(colon, key, val, s).rest, s)
  {
    hide SepParse, IsSuffix;
    var k := key(s);
    if PairParse(colon, key, val, s).Good? {
      SepParseShrinks(colon, k.rest);
      ThenShrinks(SepParse(colon, k.rest), val, k.rest);
      SuffixIsTransitive(PairParse(colon, key, val, s).rest, k.rest, s);
    }
  }

  lemma PairShrinks(colon: string, key: Parser, val: Parser)
    requires Shrinks(key) && Shrinks(val)
    ensures Shrinks(PairParser(colon, key, val))
  {
    hide PairParse, IsSuffix;
    forall s ensures PairParse(colon, key, val, s).Good? ==> IsSuffix(PairParse(colon, key, val, s).rest, s) {
      PairParseShrinks(colon, key, val, s);
    }
  }

  /** The pairs `parse_map` reads are those `sequence` would read; the map is filled with all of them. */
  lemma MapLoopElements(pair: Parser, sep: Parser, t: string)
    ensures Collect(pair, sep, t) == MapOf(Elements(pair, sep, t))
  {
    hide Chain, MapLoop;
    var o := pair(t);
    if o.Good? {
      MapLoopIsChain(pair, sep, o.rest, Insert(Map([]), o.value));
    }
  }
}
