/** Laws of the combinators: every fused or specialised form means what its composition means. */
module Laws {
  import opened Text
  import opened Values
  import opened Outcomes
  import opened Scanners
  import opened Chains
  import opened Combinators

  // ---- loops depend only on what their parsers do ----

  ghost predicate Same(p: Parser, q: Parser) {
    forall s :: p(s) == q(s)
  }

  lemma ElementsSame(e1: Parser, e2: Parser, s1: Parser, s2: Parser, s: string)
    requires Same(e1, e2) && Same(s1, s2)
    ensures Elements(e1, s1, s) == Elements(e2, s2, s)
  {
    if e1(s).Good? {
      ChainMonotone(e1, e2, s1, s2, e1(s).rest, Everywhere());
      ChainMonotone(e2, e1, s2, s1, e1(s).rest, Everywhere());
    }
  }

  // ---- one step of Run ----

  lemma LeafIs(f: LeafParser, s: string, self: Parser)
    ensures Run(Leaf(f), s, self) == f(s)
  {
    hide RunEither, RunMatch, RunAll, EncloseParse, Optional, Folded, Built, BracketedParse, MapParse, Elements;
  }

  lemma SelfIs(s: string, self: Parser)
    ensures Run(Self, s, self) == self(s)
  {
    hide RunEither, RunMatch, RunAll, EncloseParse, Optional, Folded, Built, BracketedParse, MapParse, Elements;
  }

  lemma CharsIs(cs: set<char>, s: string, self: Parser)
    ensures Run(Chars(cs), s, self) == Good(SkipChars(cs, s), Empty, 0)
  {
    hide RunEither, RunMatch, RunAll, EncloseParse, Optional, Folded, Built, BracketedParse, MapParse, Elements;
  }

  lemma CountCharsIs(cs: set<char>, s: string, self: Parser)
    ensures Run(CountChars(cs), s, self) == Good(SkipChars(cs, s), Int(|s| - |SkipChars(cs, s)|), 0)
  {
    hide RunEither, RunMatch, RunAll, EncloseParse, Optional, Folded, Built, BracketedParse, MapParse, Elements;
  }

  lemma LiteralsAre(lits: seq<string>, v: Value, s: string, self: Parser)
    ensures Run(Literal(lits, v), s, self) == LiteralParse(lits, v, s)
  {
    hide LiteralParse;
  }

  lemma LiteralIs(l: string, v: Value, s: string, self: Parser)
    ensures Run(Literal([l], v), s, self) == if l <= s then Good(s[|l|..], v, 0) else Bad(0)
  {
    hide Run;
    LiteralsAre([l], v, s, self);
  }

  lemma BoolIs(s: string, self: Parser)
    ensures Run(BoolLiteral, s, self) == BoolParse(s)
  {
    hide BoolParse;
  }

  lemma ViewIs(s: string, self: Parser)
    ensures Run(View, s, self) == ViewParse(s)
  {
    hide ViewParse;
  }

  lemma IntegerIs(lo: int, hi: int, s: string, self: Parser)
    ensures Run(Integer(lo, hi), s, self) == IntParse(lo, hi, s)
  {
    hide IntParse;
  }

  lemma PureIs(v: Value, s: string, self: Parser)
    ensures Run(Pure(v), s, self) == Good(s, v, 0)
  {
    hide RunEither, RunMatch, RunAll, EncloseParse, Optional, Folded, Built, BracketedParse, MapParse, Elements;
  }

  lemma EitherIs(ps: seq<Expr>, s: string, self: Parser)
    ensures Run(Either(ps), s, self) == RunEither(ps, s, self)
  {
    hide RunEither, RunMatch, RunAll, EncloseParse, Optional, Folded, Built, BracketedParse, MapParse, Elements;
  }

  lemma MapToIs(f: Value -> Value, p: Expr, s: string, self: Parser)
    ensures Run(MapTo(f, p), s, self) == Run(p, s, self).Map(f)
  {
    hide RunEither, RunMatch, RunAll, EncloseParse, Optional, Folded, Built, BracketedParse, MapParse, Elements;
  }

  lemma EncloseIs(pre: Expr, p: Expr, post: Expr, s: string, self: Parser)
    ensures Run(Enclose(pre, p, post), s, self)
         == EncloseParse(Run(pre, s, self), ParserOf(p, self), ParserOf(post, self))
  {
    hide RunEither, RunMatch, RunAll, EncloseParse, Optional, Folded, Built, BracketedParse, MapParse, Elements;
  }

  lemma MatchIs(ps: seq<Expr>, s: string, self: Parser)
    ensures Run(Match(ps), s, self) == RunMatch(ps, s, self)
  {
    hide RunMatch;
  }

  lemma JoinIs(ps: seq<Expr>, last: Expr, s: string, self: Parser)
    ensures Run(Join(ps, last), s, self) == RunMatch(ps, s, self).Then(ParserOf(last, self))
  {
    hide RunEither, RunMatch, RunAll, EncloseParse, Optional, Folded, Built, BracketedParse, MapParse, Elements;
  }

  lemma ThenIs(p: Expr, q: Expr, s: string, self: Parser)
    ensures Run(Then(p, q), s, self) == Run(p, s, self).Then(ParserOf(q, self))
  {
    hide RunEither, RunMatch, RunAll, EncloseParse, Optional, Folded, Built, BracketedParse, MapParse, Elements;
  }

  lemma TryIs(p: Expr, s: string, self: Parser)
    ensures Run(TryParse(p), s, self) == Optional(Run(p, s, self), s)
  {
    hide RunEither, RunMatch, RunAll, EncloseParse, Optional, Folded, Built, BracketedParse, MapParse, Elements;
  }

  lemma FoldLeftIs(initial: Expr, next: Expr, op: (Value, Value) -> Value, s: string, self: Parser)
    ensures Run(FoldLeft(initial, next, op), s, self) == Folded(Run(initial, s, self), ParserOf(next, self), op)
  {
    hide RunEither, RunMatch, RunAll, EncloseParse, Optional, Folded, Built, BracketedParse, MapParse, Elements;
  }

  lemma MakeIs(build: seq<Value> -> Value, ps: seq<Expr>, s: string, self: Parser)
    ensures Run(Make(build, ps), s, self) == Built(build, RunAll(ps, s, self))
  {
    hide RunEither, RunMatch, RunAll, EncloseParse, Optional, Folded, Built, BracketedParse, MapParse, Elements;
  }

  lemma SequenceIs(elem: Expr, sep: Expr, s: string, self: Parser)
    ensures Run(Sequence(elem, sep), s, self) == ListOf(Elements(ParserOf(elem, self), ParserOf(sep, self), s))
  {
    hide RunEither, RunMatch, RunAll, EncloseParse, Optional, Folded, Built, BracketedParse, MapParse, Elements;
  }

  lemma BracketedIs(o: string, m: string, c: string, elem: Expr, s: string, self: Parser)
    ensures Run(Bracketed(o, m, c, elem), s, self) == BracketedParse(o, m, c, ParserOf(elem, self), s)
  {
    hide RunEither, RunMatch, RunAll, EncloseParse, Optional, Folded, Built, BracketedParse, MapParse, Elements;
  }

  lemma ParseMapIs(o: string, m: string, colon: string, c: string, key: Expr, val: Expr, s: string, self: Parser)
    ensures Run(ParseMap(o, m, colon, c, key, val), s, self)
         == MapParse(o, m, c, PairParser(colon, ParserOf(key, self), ParserOf(val, self)), s)
  {
    hide RunEither, RunMatch, RunAll, EncloseParse, Optional, Folded, Built, BracketedParse, MapParse, Elements;
  }

  lemma AllSplit(ps: seq<Expr>, s: string, self: Parser)
    requires ps != []
    ensures var o := Run(ps[0], s, self);
      && (!o.Good? ==> RunAll(ps, s, self) == o)
      && (o.Good? ==> RunAll(ps, s, self) == Prepend(o.value, RunAll(ps[1..], o.rest, self)).After(o.calls))
  {
    hide Run;
  }

  lemma AllOfNone(s: string, self: Parser)
    ensures RunAll([], s, self) == Good(s, List([]), 0)
  {
  }

  // ---- literals with surrounding whitespace ----

  lemma LitIs(l: string, s: string, self: Parser)
    ensures Run(Lit(l), s, self) == LitParse(l, s)
  {
    LiteralIs(l, Empty, s, self);
  }

  lemma OpeningIs(l: string, s: string, self: Parser)
    ensures Run(Opening(l), s, self) == OpenParse(l, s)
  {
    hide Run, RunMatch, SkipChars;
    var p, w := Lit(l), SKIP_WHITESPACE;
    MatchIs([p, w], s, self);
    assert [p, w] == [p] + [w];
    MatchCons(p, [w], s, self);
    LitIs(l, s, self);
    if l <= s {
      Match1(w, s[|l|..], self);
      CharsIs(WHITESPACE, s[|l|..], self);
    }
  }

  lemma ClosingIs(l: string, s: string, self: Parser)
    ensures Run(Closing(l), s, self) == CloseParse(l, s)
  {
    hide Run, RunMatch, SkipChars;
    var p, w := Lit(l), SKIP_WHITESPACE;
    MatchIs([w, p], s, self);
    assert [w, p] == [w] + [p];
    MatchCons(w, [p], s, self);
    CharsIs(WHITESPACE, s, self);
    Match1(p, SkipChars(WHITESPACE, s), self);
    LitIs(l, SkipChars(WHITESPACE, s), self);
  }

  lemma SeparatorIs(l: string, s: string, self: Parser)
    ensures Run(Separator(l), s, self) == SepParse(l, s)
  {
    hide Run, RunMatch, SkipChars, OpenParse;
    var p, w := Lit(l), SKIP_WHITESPACE;
    MatchIs([w, p, w], s, self);
    assert [w, p, w] == [w] + [p, w];
    MatchCons(w, [p, w], s, self);
    CharsIs(WHITESPACE, s, self);
    MatchIs([p, w], SkipChars(WHITESPACE, s), self);
    OpeningIs(l, SkipChars(WHITESPACE, s), self);
  }

  // ---- sequence is the greedy chain ----

  /** sequence(elem, sep) returns `vs` and leaves `r` exactly when these are the values along the greedy
      chain from `s`, or there is no first element and nothing was read. */
  lemma SequenceIsGreedy(elem: Expr, sep: Expr, s: string, self: Parser, vs: seq<Value>, r: string)
    ensures var o, first := Run(Sequence(elem, sep), s, self), Run(elem, s, self);
      (o.Good? && o.value == List(vs) && o.rest == r)
      <==> if vs == [] then first.Bad? && r == s
           else first.Good? && vs[0] == first.value
                && Greedy(ParserOf(elem, self), ParserOf(sep, self), first.rest, vs[1..], r)
  {
    hide Run, Chain, Greedy;
    SequenceIs(elem, sep, s, self);
    var e, p := ParserOf(elem, self), ParserOf(sep, self);
    var first := Run(elem, s, self);
    if first.Good? {
      var l := Chain(e, p, first.rest);
      if vs != [] {
        ChainIsGreedy(e, p, first.rest, vs[1..], r);
        assert l.Links? && vs == [first.value] + l.items ==> vs[1..] == l.items;
        assert vs == [vs[0]] + vs[1..];
      }
    }
  }

  // ---- fused sequence and parse_map ----

  lemma SeparatedElements(elem: Expr, m: string, s: string, self: Parser)
    ensures Run(Sequence(elem, Separator(m)), s, self) == ListOf(Elements(ParserOf(elem, self), SepParser(m), s))
  {
    SequenceIs(elem, Separator(m), s, self);
    hide Run;
    var p, sep := ParserOf(elem, self), ParserOf(Separator(m), self);
    forall x ensures sep(x) == SepParser(m)(x) {
      SeparatorIs(m, x, self);
    }
    ElementsSame(p, p, SepParser(m), sep, s);
  }

  lemma EnclosedElements(o: string, m: string, c: string, elem: Parser, p: Parser, post: Parser, s: string)
    requires forall x :: p(x) == ListOf(Elements(elem, SepParser(m), x))
    requires forall x :: post(x) == CloseParse(c, x)
    ensures BracketedParse(o, m, c, elem, s) == EncloseParse(OpenParse(o, s), p, post)
  {
  }

  /** sequence<o, m, c>(elem) is an opening, sequence<m>(elem) and a closing, enclosed. */
  lemma FusedSequence(o: string, m: string, c: string, elem: Expr, s: string, self: Parser)
    ensures Run(Bracketed(o, m, c, elem), s, self)
         == Run(Enclose(Opening(o), Sequence(elem, Separator(m)), Closing(c)), s, self)
  {
    BracketedIs(o, m, c, elem, s, self);
    var p, post := Sequence(elem, Separator(m)), Closing(c);
    EncloseIs(Opening(o), p, post, s, self);
    hide Run;
    OpeningIs(o, s, self);
    forall x ensures ParserOf(p, self)(x) == ListOf(Elements(ParserOf(elem, self), SepParser(m), x)) {
      SeparatedElements(elem, m, x, self);
    }
    forall x ensures ParserOf(post, self)(x) == CloseParse(c, x) {
      ClosingIs(c, x, self);
    }
    EnclosedElements(o, m, c, ParserOf(elem, self), ParserOf(p, self), ParserOf(post, self), s);
  }

  function FillMap(list: Value): Value {
    if list.List? then InsertAll(Map([]), list.items) else list
  }

  lemma JoinOfTwo(p: Expr, last: Expr, s: string, self: Parser)
    ensures Run(Join([p], last), s, self) == Run(p, s, self).Then(ParserOf(last, self))
  {
    JoinIs([p], last, s, self);
    hide Run;
    Match1(p, s, self);
  }

  lemma TwoBuilt(key: Expr, other: Expr, s: string, self: Parser)
    ensures Run(Make(BuildPair, [key, other]), s, self) == match Run(key, s, self)
      case Good(m, k, c) => Run(other, m, self).PairedWith(k).After(c)
      case other => other
  {
    MakeIs(BuildPair, [key, other], s, self);
    hide Run, RunAll;
    assert [key, other] == [key] + [other];
    AllCons(key, [other], s, self);
    var k := Run(key, s, self);
    if k.Good? {
      All1(other, k.rest, self);
    }
  }

  lemma PairIs(colon: string, key: Expr, val: Expr, s: string, self: Parser)
    ensures Run(PairOf(colon, key, val), s, self)
         == PairParse(colon, ParserOf(key, self), ParserOf(val, self), s)
  {
    var j := Join([Separator(colon)], val);
    TwoBuilt(key, j, s, self);
    hide Run, SepParse;
    var k := Run(key, s, self);
    if k.Good? {
      JoinOfTwo(Separator(colon), val, k.rest, self);
      SeparatorIs(colon, k.rest, self);
    }
  }

  lemma FilledElements(o: string, m: string, c: string, pair: Parser, elem: Parser, s: string)
    requires Same(elem, pair)
    ensures MapParse(o, m, c, pair, s) == BracketedParse(o, m, c, elem, s).Map(FillMap)
  {
    hide Elements, Collect, OpenParse, CloseParse, InsertAll;
    var open := OpenParse(o, s);
    if open.Good? {
      ElementsSame(elem, pair, SepParser(m), SepParser(m), open.rest);
      MapLoopElements(pair, SepParser(m), open.rest);
    }
  }

  /** parse_map is the bracketed sequence of its pairs, followed by filling a map with them in order. */
  lemma FusedMap(o: string, m: string, colon: string, c: string, key: Expr, val: Expr, s: string, self: Parser)
    ensures Run(ParseMap(o, m, colon, c, key, val), s, self)
         == Run(MapTo(FillMap, Bracketed(o, m, c, PairOf(colon, key, val))), s, self)
  {
    var e := PairOf(colon, key, val);
    ParseMapIs(o, m, colon, c, key, val, s, self);
    MapToIs(FillMap, Bracketed(o, m, c, e), s, self);
    BracketedIs(o, m, c, e, s, self);
    hide Run;
    var pair := PairParser(colon, ParserOf(key, self), ParserOf(val, self));
    forall x ensures ParserOf(e, self)(x) == pair(x) {
      PairIs(colon, key, val, x, self);
    }
    FilledElements(o, m, c, pair, ParserOf(e, self), s);
  }

  // ---- fold_left ----

  /** fold_left(elem, sep >> elem, op) succeeds exactly when sequence(elem, sep) is not empty, and then
      leaves the same rest and folds the same list from the left. */
  lemma FoldLeftIsFoldOfSequence(elem: Expr, sep: Expr, op: (Value, Value) -> Value, s: string, self: Parser)
    ensures Run(FoldLeft(elem, Then(sep, elem), op), s, self)
      == match Run(Sequence(elem, sep), s, self)
         case Good(r, vs, c) =>
           if vs.items == [] then Bad(c) else Good(r, FoldItems(op, vs.items[0], vs.items[1..]), c)
         case other => other
  {
    hide Run;
    FoldLeftIs(elem, Then(sep, elem), op, s, self);
    SequenceIs(elem, sep, s, self);
    var o := Run(elem, s, self);
    if o.Good? {
      var e, p, n := ParserOf(elem, self), ParserOf(sep, self), ParserOf(Then(sep, elem), self);
      forall x ensures n(x) == Round(e, p, x) {
        ThenIs(sep, elem, x, self);
      }
      FoldLoopIsChain(e, p, n, op, o.rest, o.value);
      var l := Chain(e, p, o.rest);
      if l.Links? {
        assert ([o.value] + l.items)[1..] == l.items;
      }
    }
  }

  // ---- join, >> and match ----

  /** A bracketing of a list of parsers. */
  datatype Bracketing = One(e: Expr) | Two(left: Bracketing, right: Bracketing) {
    function Leaves(): (ps: seq<Expr>)
      ensures ps != []
    {
      match this
      case One(e) => [e]
      case Two(l, r) => l.Leaves() + r.Leaves()
    }

    /** The parsers combined by >> in this bracketing. */
    function Chained(): Expr {
      match this
      case One(e) => e
      case Two(l, r) => Then(l.Chained(), r.Chained())
    }
  }

  /** join(p1, ..., pn) */
  function JoinOf(ps: seq<Expr>): Expr
    requires ps != []
  {
    Join(ps[..|ps| - 1], ps[|ps| - 1])
  }

  lemma {:induction false} MatchAppend(ps: seq<Expr>, qs: seq<Expr>, s: string, self: Parser)
    ensures RunMatch(ps + qs, s, self) == RunMatch(ps, s, self).Then(MatchParser(qs, self))
    decreases |ps|
  {
    hide Run;
    if ps == [] {
      assert ps + qs == qs;
    } else {
      assert (ps + qs)[1..] == ps[1..] + qs;
      var o := Run(ps[0], s, self);
      if o.Good? {
        MatchAppend(ps[1..], qs, o.rest, self);
      }
    }
  }

  lemma JoinAppend(ps: seq<Expr>, qs: seq<Expr>, s: string, self: Parser)
    requires ps != [] && qs != []
    ensures Run(JoinOf(ps + qs), s, self) == Run(JoinOf(ps), s, self).Then(ParserOf(JoinOf(qs), self))
  {
    hide Run, RunMatch;
    var init, last := ps[..|ps| - 1], ps[|ps| - 1];
    var init', last' := qs[..|qs| - 1], qs[|qs| - 1];
    var f, g := ParserOf(last, self), ParserOf(last', self);
    var middle := MatchParser([last] + init', self);
    assert JoinOf(ps + qs) == Join(init + ([last] + init'), last');
    JoinIs(init + ([last] + init'), last', s, self);
    MatchAppend(init, [last] + init', s, self);
    JoinIs(init, last, s, self);
    var tail := ParserOf(JoinOf(qs), self);
    var both: Parser := x => f(x).Then(tail);
    forall x ensures middle(x).Then(g) == both(x) {
      MatchCons(last, init', x, self);
      forall y ensures MatchParser(init', self)(y).Then(g) == tail(y) {
        JoinIs(init', last', y, self);
      }
      ThenAssociates(f(x), MatchParser(init', self), g, tail);
    }
    ThenAssociates(RunMatch(init, s, self), middle, g, both);
    ThenAssociates(RunMatch(init, s, self), f, tail, both);
  }

  lemma JoinOfOne(e: Expr, s: string, self: Parser)
    ensures Run(JoinOf([e]), s, self) == Run(e, s, self)
  {
    assert [e][..0] == [];
    JoinIs([], e, s, self);
    hide Run;
    assert RunMatch([], s, self) == Good(s, Empty, 0);
  }

  /** join(p1, ..., pn) equals p1 >> ... >> pn under any bracketing. */
  lemma {:induction false} JoinIsThen(b: Bracketing, s: string, self: Parser)
    ensures Run(b.Chained(), s, self) == Run(JoinOf(b.Leaves()), s, self)
    decreases b
  {
    match b
    case One(e) =>
      JoinOfOne(e, s, self);
    case Two(l, r) =>
      ThenIs(l.Chained(), r.Chained(), s, self);
      hide Run;
      JoinIsThen(l, s, self);
      JoinAppend(l.Leaves(), r.Leaves(), s, self);
      var o := Run(l.Chained(), s, self);
      if o.Good? {
        JoinIsThen(r, o.rest, self);
      }
  }

  /** A match nested inside a match can be flattened. */
  lemma MatchFlattens(ps: seq<Expr>, qs: seq<Expr>, rs: seq<Expr>, s: string, self: Parser)
    ensures Run(Match(ps + [Match(qs)] + rs), s, self) == Run(Match(ps + qs + rs), s, self)
  {
    var m := Match(qs);
    assert ps + [m] + rs == ps + ([m] + rs);
    assert ps + qs + rs == ps + (qs + rs);
    MatchAppend(ps, [m] + rs, s, self);
    MatchAppend(ps, qs + rs, s, self);
    var o := RunMatch(ps, s, self);
    if o.Good? {
      MatchCons(m, rs, o.rest, self);
      MatchAppend(qs, rs, o.rest, self);
    }
  }

  // ---- either ----

  /** The index of the first alternative that does not fail, or their number. */
  function FirstNotBad(ps: seq<Expr>, s: string, self: Parser): (i: nat)
    ensures i <= |ps|
    ensures forall j :: 0 <= j < i ==> Run(ps[j], s, self).Bad?
    ensures i < |ps| ==> !Run(ps[i], s, self).Bad?
  {
    if ps == [] || !Run(ps[0], s, self).Bad? then 0 else 1 + FirstNotBad(ps[1..], s, self)
  }

  function CallsBefore(ps: seq<Expr>, i: nat, s: string, self: Parser): nat
    requires i <= |ps| && forall j :: 0 <= j < i ==> Run(ps[j], s, self).Bad?
  {
    if i == 0 then 0 else Run(ps[0], s, self).calls + CallsBefore(ps[1..], i - 1, s, self)
  }

  /** either returns what its first alternative that does not fail returns on the original text. */
  lemma {:induction false} EitherIsFirst(ps: seq<Expr>, s: string, self: Parser)
    ensures var i := FirstNotBad(ps, s, self);
      Run(Either(ps), s, self)
      == (if i < |ps| then Run(ps[i], s, self) else Bad(0)).After(CallsBefore(ps, i, s, self))
    decreases |ps|
  {
    if ps != [] && Run(ps[0], s, self).Bad? {
      EitherIsFirst(ps[1..], s, self);
    }
  }

  /** At most one alternative does anything on `s`: all others fail there without a recursive call. */
  ghost predicate Exclusive(ps: seq<Expr>, s: string, self: Parser) {
    forall i, j :: 0 <= i < j < |ps| ==> Run(ps[i], s, self) == Bad(0) || Run(ps[j], s, self) == Bad(0)
  }

  lemma {:induction false} ExclusiveEither(ps: seq<Expr>, s: string, self: Parser, k: nat)
    requires k < |ps|
    requires forall i :: 0 <= i < |ps| && i != k ==> Run(ps[i], s, self) == Bad(0)
    ensures RunEither(ps, s, self) == Run(ps[k], s, self)
    decreases |ps|
  {
    if k > 0 {
      assert forall i :: 0 <= i < |ps[1..]| ==> ps[1..][i] == ps[i + 1];
      ExclusiveEither(ps[1..], s, self, k - 1);
    } else {
      NothingElse(ps[1..], s, self);
    }
  }

  lemma {:induction false} NothingElse(ps: seq<Expr>, s: string, self: Parser)
    requires forall i :: 0 <= i < |ps| ==> Run(ps[i], s, self) == Bad(0)
    ensures RunEither(ps, s, self) == Bad(0)
    decreases |ps|
  {
    if ps != [] {
      NothingElse(ps[1..], s, self);
    }
  }

  /** `order` lists every index below `n` once. */
  ghost predicate Permutation(order: seq<nat>, n: nat) {
    && |order| == n
    && (forall i :: 0 <= i < n ==> order[i] < n)
    && (forall k :: 0 <= k < n ==> k in order)
    && (forall i, j :: 0 <= i < j < n ==> order[i] != order[j])
  }

  function Reorder(ps: seq<Expr>, order: seq<nat>): seq<Expr>
    requires forall i :: 0 <= i < |order| ==> order[i] < |ps|
  {
    seq(|order|, i requires 0 <= i < |order| => ps[order[i]])
  }

  /** Alternatives that exclude each other may be tried in any order. */
  lemma EitherReorders(ps: seq<Expr>, order: seq<nat>, s: string, self: Parser)
    requires Permutation(order, |ps|) && Exclusive(ps, s, self)
    ensures Run(Either(Reorder(ps, order)), s, self) == Run(Either(ps), s, self)
  {
    var qs := Reorder(ps, order);
    if i :| 0 <= i < |ps| && Run(ps[i], s, self) != Bad(0) {
      ExclusiveEither(ps, s, self, i);
      assert i in order;
      var k :| 0 <= k < |order| && order[k] == i;
      forall j | 0 <= j < |qs| && j != k ensures Run(qs[j], s, self) == Bad(0) {
        assert order[j] != order[k];
      }
      ExclusiveEither(qs, s, self, k);
    } else {
      NothingElse(ps, s, self);
      NothingElse(qs, s, self);
    }
  }
}
