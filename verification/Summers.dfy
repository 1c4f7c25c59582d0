/** The four benchmark parsers that add up a comma-separated list of numbers: a fold, two coroutines and a
    hand-written loop, and how their results are related on every text. */
module Summers {
  import opened Text
  import opened Values
  import opened Outcomes
  import opened Scanners
  import opened Chains
  import opened Combinators
  import opened Laws
  import opened Recursion
  import opened Windows
  import opened Machine
  import opened Coroutines

  const PARSE_INT: Expr := Integer(INT_MIN, INT_MAX)
  const PARSE_LONG: Expr := Integer(LONG_MIN, LONG_MAX)
  const COMMA_SEPARATOR: Expr := Separator(",")
  const NEXT_INT: Expr := Then(COMMA_SEPARATOR, PARSE_INT)

  /** Adds a number to the sum, as unbounded integers. */
  function Plus(a: Value, b: Value): Value {
    if a.Int? && b.Int? then Int(a.i + b.i) else Empty
  }

  const ADD_WITH_FOLD: Expr := FoldLeft(PARSE_LONG, NEXT_INT, Plus)

  // ---- the coroutines ----

  /** The local `sum`, and how far the coroutine has come. */
  datatype Locals = First | Loop(sum: int) | Last(sum: int)

  function Number(v: Value): int { if v.Int? then v.i else 0 }

  /** Adds each number that the awaited optional holds, until it holds none. */
  function AddWithTryParse(l: Locals): Command<Locals> {
    match l
    case First => Await(PARSE_INT, v => Loop(Number(v)))
    case Loop(sum) => Await(TryParse(NEXT_INT), (v: Value) => if v.Just? then Loop(sum + Number(v.some)) else Last(sum))
    case Last(sum) => CoReturn(Int(sum))
  }

  /** Lets the awaited parser add each number to `sum`, until that parser reports none. */
  function AddWithTestThen(l: Locals): Command<Locals> {
    match l
    case First => Await(PARSE_INT, v => Loop(Number(v)))
    case Loop(sum) => AwaitTest(NEXT_INT, v => Loop(sum + Number(v)), (k, go) => if go then k else Last(sum))
    case Last(sum) => CoReturn(Int(sum))
  }

  /** The two coroutines do the same on every text, command by command. */
  lemma {:induction false} TestThenIsTryParse(l: Locals, s: string, self: Parser, fuel: nat)
    ensures Sequenced(AddWithTestThen, l, s, self, fuel) == Sequenced(AddWithTryParse, l, s, self, fuel)
    decreases fuel
  {
    hide Run;
    if fuel > 0 {
      match l
      case First =>
        var o := Run(PARSE_INT, s, self);
        if o.Good? {
          TestThenIsTryParse(Loop(Number(o.value)), o.rest, self, fuel - 1);
        }
      case Loop(sum) =>
        TryIs(NEXT_INT, s, self);
        var o := Run(NEXT_INT, s, self);
        if o.Good? {
          TestThenIsTryParse(Loop(sum + Number(o.value)), o.rest, self, fuel - 1);
        } else {
          TestThenIsTryParse(Last(sum), s, self, fuel - 1);
        }
      case Last(_) =>
    }
  }

  // ---- what they all compute: the sum of a greedy chain ----

  function IntParser(): Parser { s => IntParse(INT_MIN, INT_MAX, s) }

  /** A comma among characters of `cs`. */
  function CommaParse(cs: set<char>, s: string): Outcome {
    var t := SkipChars(cs, s);
    if "," <= t then Good(SkipChars(cs, t[1..]), Empty, 0) else Bad(0)
  }

  function CommaParser(cs: set<char>): Parser { s => CommaParse(cs, s) }

  /** The numbers of the list at the start of `s`, with characters of `cs` allowed around its commas. */
  function Numbers(cs: set<char>, s: string): Links {
    Elements(IntParser(), CommaParser(cs), s)
  }

  function Sum(items: seq<Value>): int {
    if items == [] then 0 else Number(items[0]) + Sum(items[1..])
  }

  function SumOf(l: Links): Outcome {
    match l
    case Endless => Diverge
    case Links(vs, q, c) => if vs == [] then Bad(c) else Good(q, Int(Sum(vs)), c)
  }

  // ---- one round ----

  /** A comma and a number, at least two characters; never a call, never endless. */
  lemma CommaRound(cs: set<char>, s: string)
    requires ',' !in cs
    ensures var o := Round(IntParser(), CommaParser(cs), s);
      && o != Diverge && o.calls == 0
      && (o.Good? ==> IsSuffix(o.rest, s) && |o.rest| + 2 <= |s|
                      && o.value.Int? && INT_MIN <= o.value.i <= INT_MAX)
  {
    var t := SkipChars(cs, s);
    if "," <= t {
      var u := SkipChars(cs, t[1..]);
      var o := IntParse(INT_MIN, INT_MAX, u);
      if o.Good? {
        SuffixIsTransitive(u, t[1..], t);
        SuffixIsTransitive(u, t, s);
        SuffixIsTransitive(o.rest, u, s);
      }
    }
  }

  /** What a comma among `cs` consumes. */
  lemma CommaCut(cs: set<char>, s: string) returns (w: string, w': string)
    requires CommaParse(cs, s).Good?
    ensures s == w + "," + w' + CommaParse(cs, s).rest
    ensures AllIn(w, cs) && AllIn(w', cs) && StartsOutside(CommaParse(cs, s).rest, cs)
  {
    hide SkipChars, Taken, AllIn, StartsOutside;
    var t := SkipChars(cs, s);
    w, w' := Taken(cs, s), Taken(cs, t[1..]);
    TakenThenRest(cs, s);
    TakenThenRest(cs, t[1..]);
    Glue4(s, w, t, ",", t[1..], w', CommaParse(cs, s).rest);
  }

  lemma CommaExact(cs: set<char>, w: string, w': string, u: string)
    requires ',' !in cs && AllIn(w, cs) && AllIn(w', cs) && StartsOutside(u, cs)
    ensures CommaParse(cs, w + "," + w' + u) == Good(u, Empty, 0)
  {
    var t := "," + (w' + u);
    assert w + "," + w' + u == w + t;
    assert t[1..] == w' + u;
    SkipCharsExact(cs, w, t);
    SkipCharsExact(cs, w', u);
  }

  lemma ReadsDigit(d: string, n: nat, rest: string)
    requires |d| == 1 && d[0] in DIGITS && n == d[0] as int - '0' as int && StartsOutside(rest, DIGITS)
    ensures IntParser()(d + rest) == Good(rest, Int(n), 0)
  {
    assert Natural(d) == n by { assert d[..0] == ""; }
    hide IntParse, Natural;
    assert SignText(false) + (d + rest) == d + rest;
    IntParseExact(INT_MIN, INT_MAX, false, d, rest);
  }

  lemma NoCommaNoRound(cs: set<char>, s: string)
    requires StartsOutside(s, cs) && !("," <= s)
    ensures Round(IntParser(), CommaParser(cs), s) == Bad(0)
  {
    hide IntParser, SkipChars;
    SkipNone(cs, s);
  }

  lemma NextIntIs(s: string, self: Parser)
    ensures Run(NEXT_INT, s, self) == Round(IntParser(), CommaParser(WHITESPACE), s)
  {
    ThenIs(COMMA_SEPARATOR, PARSE_INT, s, self);
    SeparatorIs(",", s, self);
    var o := SepParse(",", s);
    if o.Good? {
      ParseIntIs(o.rest, self);
    }
  }

  lemma ParseIntIs(s: string, self: Parser)
    ensures Run(PARSE_INT, s, self) == IntParser()(s)
  {
    hide Run;
    IntegerIs(INT_MIN, INT_MAX, s, self);
  }

  // ---- the coroutines and the fold compute that sum ----

  lemma {:induction false} FoldedSum(a: int, items: seq<Value>)
    requires forall i :: 0 <= i < |items| ==> items[i].Int?
    ensures FoldItems(Plus, Int(a), items) == Int(a + Sum(items))
    decreases |items|
  {
    if items != [] {
      FoldedSum(a + items[0].i, items[1..]);
    }
  }

  /** `cs` is what may stand around a comma: no comma itself, nothing a number could begin with. */
  predicate Around(cs: set<char>) {
    ',' !in cs && '-' !in cs && cs !! DIGITS
  }

  /** The loop ends, calls nothing, reads only ints, and takes at least two characters for each. */
  lemma {:induction false} ChainOfInts(cs: set<char>, s: string)
    requires Around(cs)
    ensures var l := Chain(IntParser(), CommaParser(cs), s);
      && l.Links? && l.calls == 0 && IsSuffix(l.rest, s)
      && (forall i :: 0 <= i < |l.items| ==> l.items[i].Int? && INT_MIN <= l.items[i].i <= INT_MAX)
      && 2 * |l.items| + |l.rest| <= |s|
    decreases |s|
  {
    hide IntParser, CommaParser, DIGITS;
    CommaRound(cs, s);
    var o := Round(IntParser(), CommaParser(cs), s);
    if o.Good? {
      ChainOfInts(cs, o.rest);
      SuffixIsTransitive(Chain(IntParser(), CommaParser(cs), o.rest).rest, o.rest, s);
    }
  }

  /** One round of the coroutine's loop. */
  lemma LoopStep(sum: int, s: string, self: Parser, fuel: nat)
    requires fuel >= 2
    ensures var o := Run(NEXT_INT, s, self);
      Sequenced(AddWithTryParse, Loop(sum), s, self, fuel)
      == if o.Good? then Sequenced(AddWithTryParse, Loop(sum + Number(o.value)), o.rest, self, fuel - 1).After(o.calls)
         else if o.Bad? then Good(s, Int(sum), o.calls)
         else Diverge
  {
    hide Run;
    TryIs(NEXT_INT, s, self);
    if Run(NEXT_INT, s, self).Bad? {
      assert Sequenced(AddWithTryParse, Last(sum), s, self, fuel - 1) == Good(s, Int(sum), 0);
    }
  }

  function SummedFrom(sum: int, l: Links): Outcome {
    match l
    case Endless => Diverge
    case Links(vs, q, c) => Good(q, Int(sum + Sum(vs)), c)
  }

  /** One round of the chain, in terms of the sum. */
  lemma SumRound(cs: set<char>, sum: int, s: string)
    requires Around(cs)
    ensures var o := Round(IntParser(), CommaParser(cs), s);
      SummedFrom(sum, Chain(IntParser(), CommaParser(cs), s))
      == if o.Good? then SummedFrom(sum + Number(o.value), Chain(IntParser(), CommaParser(cs), o.rest))
         else Good(s, Int(sum), 0)
  {
    hide IntParser, CommaParser, DIGITS;
    CommaRound(cs, s);
    var o := Round(IntParser(), CommaParser(cs), s);
    if o.Good? {
      ChainOfInts(cs, o.rest);
      var vs := Chain(IntParser(), CommaParser(cs), o.rest).items;
      assert ([o.value] + vs)[1..] == vs;
    }
  }

  /** The loop of the coroutine, from a running sum. */
  lemma {:induction false} LoopSums(sum: int, s: string, self: Parser, fuel: nat)
    requires fuel >= |s| + 2
    ensures Sequenced(AddWithTryParse, Loop(sum), s, self, fuel)
         == SummedFrom(sum, Chain(IntParser(), CommaParser(WHITESPACE), s))
    decreases fuel
  {
    hide Run, Sequenced, IntParser, CommaParser, Chain, Round, SummedFrom, AddWithTryParse;
    LoopStep(sum, s, self, fuel);
    NextIntIs(s, self);
    CommaRound(WHITESPACE, s);
    SumRound(WHITESPACE, sum, s);
    var o := Round(IntParser(), CommaParser(WHITESPACE), s);
    if o.Good? {
      LoopSums(sum + Number(o.value), o.rest, self, fuel - 1);
      ChainOfInts(WHITESPACE, o.rest);
    }
  }

  lemma FirstStep(s: string, self: Parser, fuel: nat)
    requires fuel > 0
    ensures var o := Run(PARSE_INT, s, self);
      Sequenced(AddWithTryParse, First, s, self, fuel)
      == if o.Good? then Sequenced(AddWithTryParse, Loop(Number(o.value)), o.rest, self, fuel - 1).After(o.calls) else o
  {
    hide Run;
  }

  /** |s| + 3 commands are enough for either coroutine. */
  lemma SequencedSum(s: string, self: Parser)
    ensures Sequenced(AddWithTryParse, First, s, self, |s| + 3) == SumOf(Numbers(WHITESPACE, s))
    ensures Sequenced(AddWithTestThen, First, s, self, |s| + 3) == SumOf(Numbers(WHITESPACE, s))
    ensures SumOf(Numbers(WHITESPACE, s)) != Diverge
  {
    hide Run, IntParser, CommaParser, Chain, Sequenced, SumOf, Numbers;
    var o := IntParser()(s);
    FirstStep(s, self, |s| + 3);
    ParseIntIs(s, self);
    IntIsFine(s);
    SumOfNumbers(WHITESPACE, s);
    if o.Good? {
      LoopSums(o.value.i, o.rest, self, |s| + 2);
      ChainOfInts(WHITESPACE, o.rest);
    }
    TestThenIsTryParse(First, s, self, |s| + 3);
  }

  /** Both coroutines succeed exactly on texts that begin with a list of ints, and return its sum. */
  lemma CoroutinesSum(s: string, self: Parser)
    ensures Executed(AddWithTryParse, First, s, self) == SumOf(Numbers(WHITESPACE, s))
    ensures Executed(AddWithTestThen, First, s, self) == SumOf(Numbers(WHITESPACE, s))
  {
    hide Run, Sequenced, Numbers, SumOf, Executed;
    SequencedSum(s, self);
    ExecutedIs(AddWithTryParse, First, s, self, |s| + 3);
    ExecutedIs(AddWithTestThen, First, s, self, |s| + 3);
  }

  lemma IntIsFine(s: string)
    ensures var o := IntParser()(s);
      && o != Diverge && o.calls == 0
      && (o.Good? ==> IsSuffix(o.rest, s) && |o.rest| < |s| && o.value.Int? && INT_MIN <= o.value.i <= INT_MAX)
  {
  }

  lemma LongOrInt(s: string, self: Parser)
    ensures var o, p := Run(PARSE_LONG, s, self), IntParser()(s);
      && o != Diverge && o.calls == 0
      && (o.Good? ==> o.value.Int?)
      && (p.Good? ==> o == p)
  {
    hide Run;
    IntegerIs(LONG_MIN, LONG_MAX, s, self);
  }

  /** The fold's loop, from a running sum. */
  lemma FoldLoopSums(sum: int, s: string, self: Parser)
    ensures FoldLoop(ParserOf(NEXT_INT, self), Plus, s, Int(sum))
         == SummedFrom(sum, Chain(IntParser(), CommaParser(WHITESPACE), s))
  {
    hide Run, FoldLoop, Chain, IntParser, CommaParser;
    var next := ParserOf(NEXT_INT, self);
    forall x ensures next(x) == Round(IntParser(), CommaParser(WHITESPACE), x) {
      NextIntIs(x, self);
    }
    FoldLoopIsChain(IntParser(), CommaParser(WHITESPACE), next, Plus, s, Int(sum));
    ChainOfInts(WHITESPACE, s);
    FoldedSum(sum, Chain(IntParser(), CommaParser(WHITESPACE), s).items);
  }

  /** What the fold returns: the first number is read as a long, the others as ints. */
  lemma FoldSums(s: string, self: Parser)
    ensures var o := Run(PARSE_LONG, s, self);
      Run(ADD_WITH_FOLD, s, self)
      == if o.Good? then SummedFrom(o.value.i, Chain(IntParser(), CommaParser(WHITESPACE), o.rest)) else Bad(0)
  {
    hide Run, FoldLoop, Chain;
    FoldLeftIs(PARSE_LONG, NEXT_INT, Plus, s, self);
    LongOrInt(s, self);
    var o := Run(PARSE_LONG, s, self);
    if o.Good? {
      FoldLoopSums(o.value.i, o.rest, self);
    }
  }

  /** SumOf in terms of the first number. */
  lemma SumOfNumbers(cs: set<char>, s: string)
    requires Around(cs)
    ensures var o := IntParser()(s);
      SumOf(Numbers(cs, s))
      == if o.Good? then SummedFrom(o.value.i, Chain(IntParser(), CommaParser(cs), o.rest)) else Bad(0)
  {
    hide Chain, IntParser, CommaParser;
    IntIsFine(s);
    var o := IntParser()(s);
    if o.Good? {
      ChainOfInts(cs, o.rest);
      var vs := Chain(IntParser(), CommaParser(cs), o.rest).items;
      assert ([o.value] + vs)[1..] == vs;
    }
  }

  /** The fold agrees with the coroutines except where the first number fits long but not int: there the
      coroutines fail and the fold does not. */
  lemma FoldAgrees(s: string, self: Parser)
    ensures Run(ADD_WITH_FOLD, s, self) == Executed(AddWithTryParse, First, s, self)
       <==> (Run(PARSE_LONG, s, self).Good? ==> Run(PARSE_INT, s, self).Good?)
  {
    hide Run, Executed, Chain, IntParser, CommaParser;
    CoroutinesSum(s, self);
    FoldSums(s, self);
    SumOfNumbers(WHITESPACE, s);
    LongOrInt(s, self);
    ParseIntIs(s, self);
    IntIsFine(s);
  }

  /** The condition of FoldAgrees fails, and with it the agreement, on a number between the two ranges. */
  lemma FoldCanDisagree(self: Parser)
    ensures Run(ADD_WITH_FOLD, "3000000000", self) == Good("", Int(3000000000), 0)
    ensures Executed(AddWithTryParse, First, "3000000000", self) == Bad(0)
  {
    hide Run, Executed, Chain, SkipChars, Taken, Natural, FoldLoop;
    var d := "3000000000";
    ThreeBillion();
    assert SignText(false) + (d + "") == d;
    IntParseExact(INT_MIN, INT_MAX, false, d, "");
    IntParseExact(LONG_MIN, LONG_MAX, false, d, "");
    assert Run(PARSE_LONG, d, self) == IntParse(LONG_MIN, LONG_MAX, d) by { IntegerIs(LONG_MIN, LONG_MAX, d, self); }
    FoldSums(d, self);
    CoroutinesSum(d, self);
    SumOfNumbers(WHITESPACE, d);
    SumRound(WHITESPACE, 3000000000, "");
  }

  lemma ThreeBillion()
    ensures AllIn("3000000000", DIGITS) && Natural("3000000000") == 3000000000
  {
    assert Natural("3") == 3 by { assert "3"[..0] == ""; }
    hide Natural, AllIn;
    Thousandfold("3");
    assert "3" + "000" == "3000";
    Thousandfold("3000");
    assert "3000" + "000" == "3000000";
    Thousandfold("3000000");
    assert "3000000" + "000" == "3000000000";
  }

  lemma Thousandfold(d: string)
    requires AllIn(d, DIGITS)
    ensures AllIn(d + "000", DIGITS) && Natural(d + "000") == 1000 * Natural(d)
  {
    assert d + "000" == d + "0" + "0" + "0";
    TenTimes(d);
    TenTimes(d + "0");
    TenTimes(d + "0" + "0");
    hide Natural;
  }

  lemma TenTimes(d: string)
    requires AllIn(d, DIGITS)
    ensures AllIn(d + "0", DIGITS) && Natural(d + "0") == 10 * Natural(d)
  {
    assert (d + "0")[..|d|] == d;
  }
}
