/** The hand-written loop that adds up a list of numbers, compared with the combinator programs. */
module Baseline {
  import opened Text
  import opened Values
  import opened Outcomes
  import opened Scanners
  import opened Chains
  import opened Combinators
  import opened Laws
  import opened Recursion
  import opened Windows
  import opened Machine
  import opened Coroutines
  import opened Promises
  import opened Summers
  import opened Accumulator

  const SPACES: set<char> := {' '}

  // ---- add_w_baseline ----

  /** std::from_chars(begin, end, value) for an int. */
  method FromChars(buf: string, begin: nat, end: nat) returns (ok: bool, ptr: nat, value: int)
    requires begin <= end <= |buf|
    ensures match IntParser()(buf[begin..end])
      case Good(rest, v, _) => ok && begin <= ptr <= end && buf[ptr..end] == rest && v == Int(value)
      case Bad(_) => !ok
      case Diverge => false
  {
    hide IntParse;
    IntIsFine(buf[begin..end]);
    var o := IntParse(INT_MIN, INT_MAX, buf[begin..end]);
    if o.Good? {
      SuffixOfWindow(buf, begin, end, o.rest);
      return true, end - |o.rest|, o.value.i;
    }
    return false, begin, 0;
  }

  lemma SuffixOfWindow(buf: string, begin: nat, end: nat, r: string)
    requires begin <= end <= |buf| && IsSuffix(r, buf[begin..end])
    ensures buf[end - |r|..end] == r
  {
  }

  /** Moves past spaces. */
  method SkipSpaces(buf: string, begin0: nat, end: nat) returns (begin: nat)
    requires begin0 <= end <= |buf|
    ensures begin0 <= begin <= end && buf[begin..end] == SkipChars(SPACES, buf[begin0..end])
  {
    var st := ZeroOrMoreChars(SPACES, Window(buf, begin0, end));
    begin := st.begin;
  }

  /** One round of the loop: a comma among spaces, then a number. */
  method NextNumber(buf: string, begin0: nat, end: nat) returns (ok: bool, ptr: nat, value: int)
    requires begin0 <= end <= |buf|
    ensures match Round(IntParser(), CommaParser(SPACES), buf[begin0..end])
      case Good(rest, v, _) => ok && begin0 <= ptr <= end && buf[ptr..end] == rest && v == Int(value)
      case Bad(_) => !ok
      case Diverge => false
  {
    hide SkipChars, IntParser;
    ghost var t := SkipChars(SPACES, buf[begin0..end]);
    var begin := SkipSpaces(buf, begin0, end);
    if begin != end && buf[begin] == ',' {
      begin := begin + 1;
    } else {
      assert !("," <= t);
      return false, begin0, 0;
    }
    assert buf[begin..end] == t[1..];
    begin := SkipSpaces(buf, begin, end);
    ok, ptr, value := FromChars(buf, begin, end);
  }

  /** On a window of at most MOST_CHARACTERS `sum` fits a long whenever the loop comes round. */
  method AddWithBaseline(sv: State) returns (r: Raw)
    requires sv.Valid()
    ensures Encodes(r, 0, ByState, sv, SumOf(Numbers(SPACES, sv.Text())))
  {
    hide Chain, IntParser, CommaParser, Round, Earned, FitsLong;
    SumOfNumbers(SPACES, sv.Text());
    IntIsFine(sv.Text());
    var end := sv.end;
    var ok, parseResultStart, value := FromChars(sv.buf, sv.begin, end);
    if !ok {
      return Failure(ByState);
    }
    ghost var all := SummedFrom(value, Chain(IntParser(), CommaParser(SPACES), sv.buf[parseResultStart..end]));
    var sum := value;
    EarnedFirst(sv.Text());
    EarnedFits(sum, sv.Size(), end - parseResultStart);
    while true
      invariant sv.begin <= parseResultStart <= end
      invariant all == SummedFrom(sum, Chain(IntParser(), CommaParser(SPACES), sv.buf[parseResultStart..end]))
      invariant Earned(sum, sv.Size(), end - parseResultStart)
      invariant sv.Size() <= MOST_CHARACTERS ==> FitsLong(sum)
      decreases end - parseResultStart
    {
      CommaRound(SPACES, sv.buf[parseResultStart..end]);
      SumRound(SPACES, sum, sv.buf[parseResultStart..end]);
      var more, ptr, next := NextNumber(sv.buf, parseResultStart, end);
      if !more {
        break;
      }
      EarnedMore(SPACES, sum, sv.Size(), sv.buf[parseResultStart..end]);
      EarnedFits(sum + next, sv.Size(), end - ptr);
      sum := sum + next;
      parseResultStart := ptr;
    }
    return StateResult(Window(sv.buf, parseResultStart, end), Int(sum));
  }

  /** The two coroutines as they run, on a promise object. */
  method AddWithCoroutine(testThen: bool, sv: State, dc: Expr -> bool) returns (r: Raw, ghost calls: nat)
    requires sv.Valid()
    ensures Encodes(r, calls, ByState, sv, SumOf(Numbers(WHITESPACE, sv.Text())))
  {
    hide Run, Sequenced, SumOf, Numbers, Inner;
    SequencedSum(sv.Text(), Inner(Self, 0));
    if testThen {
      r, calls := ParseCoroutine(ByState, AddWithTestThen, First, Self, 0, sv, dc, |sv.Text()| + 3);
    } else {
      r, calls := ParseCoroutine(ByState, AddWithTryParse, First, Self, 0, sv, dc, |sv.Text()| + 3);
    }
  }

  // ---- the hand-written loop reads a prefix of what the combinators read ----

  /** Text without tab, LF or CR. */
  predicate Plain(s: string) {
    AllOutside(s, {'\t', '\n', '\r'})
  }

  predicate AllOutside(s: string, cs: set<char>) {
    forall i :: 0 <= i < |s| ==> s[i] !in cs
  }

  function CombinatorRound(s: string): Outcome { Round(IntParser(), CommaParser(WHITESPACE), s) }

  function BaselineRound(s: string): Outcome { Round(IntParser(), CommaParser(SPACES), s) }

  /** The separator a successful round of the combinators reads. */
  function SeparatorRead(s: string): string
    requires CombinatorRound(s).Good?
  {
    CommaRound(WHITESPACE, s);
    CommaShrinks(s);
    s[..|s| - |CommaParse(WHITESPACE, s).rest|]
  }

  lemma CommaShrinks(s: string)
    requires CommaParse(WHITESPACE, s).Good?
    ensures |CommaParse(WHITESPACE, s).rest| <= |s|
  {
    var w, w' := CommaCut(WHITESPACE, s);
  }

  lemma SeparatorReadIs(s: string, w: string, w': string, u: string)
    requires CombinatorRound(s).Good? && CommaParse(WHITESPACE, s).rest == u && s == w + "," + w' + u
    ensures SeparatorRead(s) == w + "," + w'
  {
    hide CommaParse;
  }

  /** A round of the hand-written loop is a round of the combinators with the same result. */
  lemma BaselineRoundIsRound(s: string)
    requires BaselineRound(s).Good?
    ensures CombinatorRound(s) == BaselineRound(s) && Plain(SeparatorRead(s))
  {
    hide CommaParse, IntParser, SeparatorRead, Plain, AllIn;
    var w, w' := CommaCut(SPACES, s);
    var u := CommaParse(SPACES, s).rest;
    NumberStart(u);
    SpacesAreWhitespace(w);
    SpacesAreWhitespace(w');
    CommaExact(WHITESPACE, w, w', u);
    CommaExact(SPACES, w, w', u);
    SeparatorReadIs(s, w, w', u);
    SpacesArePlain(w, w');
  }

  lemma SpacesAreWhitespace(w: string)
    requires AllIn(w, SPACES)
    ensures AllIn(w, WHITESPACE)
  {
  }

  lemma SpacesArePlain(w: string, w': string)
    requires AllIn(w, SPACES) && AllIn(w', SPACES)
    ensures Plain(w + "," + w')
  {
  }

  lemma NumberStart(u: string)
    requires IntParser()(u).Good?
    ensures StartsOutside(u, WHITESPACE) && StartsOutside(u, SPACES)
  {
    hide IntParse;
  }

  /** And a round of the combinators whose separator holds no tab, LF or CR is one of the hand-written loop. */
  lemma PlainRoundIsBaselineRound(s: string)
    requires CombinatorRound(s).Good? && Plain(SeparatorRead(s))
    ensures BaselineRound(s) == CombinatorRound(s)
  {
    hide CommaParse, IntParser, SeparatorRead, Plain, AllIn;
    var w, w' := CommaCut(WHITESPACE, s);
    var u := CommaParse(WHITESPACE, s).rest;
    NumberStart(u);
    SeparatorReadIs(s, w, w', u);
    PlainWhitespace(w, w');
    CommaExact(WHITESPACE, w, w', u);
    CommaExact(SPACES, w, w', u);
  }

  lemma PlainWhitespace(w: string, w': string)
    requires Plain(w + "," + w') && AllIn(w, WHITESPACE) && AllIn(w', WHITESPACE)
    ensures AllIn(w, SPACES) && AllIn(w', SPACES)
  {
    var t := w + "," + w';
    forall i | 0 <= i < |w| ensures w[i] in SPACES {
      assert t[i] == w[i];
    }
    forall i | 0 <= i < |w'| ensures w'[i] in SPACES {
      assert t[|w| + 1 + i] == w'[i];
    }
  }

  /** Every separator the combinators read from here on is free of tab, LF and CR. */
  predicate PlainSeparators(s: string)
    decreases |s|
  {
    CommaRound(WHITESPACE, s);
    var o := CombinatorRound(s);
    o.Good? ==> Plain(SeparatorRead(s)) && PlainSeparators(o.rest)
  }

  /** What the hand-written loop reads is a prefix of what the combinators read; and the two stop at the same
      place, having read the same, exactly when all those separators are plain. */
  lemma {:induction false} ChainsCompared(s: string)
    ensures var b, c := Chain(IntParser(), CommaParser(SPACES), s), Chain(IntParser(), CommaParser(WHITESPACE), s);
      && b.Links? && c.Links?
      && b.items <= c.items
      && (PlainSeparators(s) <==> b == c)
      && (PlainSeparators(s) <==> b.rest == c.rest)
    decreases |s|
  {
    hide SkipChars, IntParser, CommaParser, SeparatorRead, Plain, Chain;
    ChainOfInts(SPACES, s);
    ChainOfInts(WHITESPACE, s);
    ChainIsRounds(SPACES, s);
    ChainIsRounds(WHITESPACE, s);
    CommaRound(SPACES, s);
    CommaRound(WHITESPACE, s);
    if BaselineRound(s).Good? {
      BaselineRoundIsRound(s);
      ChainsCompared(CombinatorRound(s).rest);
    } else if CombinatorRound(s).Good? && Plain(SeparatorRead(s)) {
      PlainRoundIsBaselineRound(s);
    }
  }

  lemma ChainIsRounds(cs: set<char>, s: string)
    requires Around(cs)
    ensures var o := Round(IntParser(), CommaParser(cs), s);
      Chain(IntParser(), CommaParser(cs), s)
      == if o.Good? then Linked(o.value, Chain(IntParser(), CommaParser(cs), o.rest)) else Links([], s, 0)
  {
    hide IntParser, CommaParser, DIGITS;
    CommaRound(cs, s);
  }

  function Linked(v: Value, l: Links): Links {
    match l
    case Endless => Endless
    case Links(vs, q, c) => Links([v] + vs, q, c)
  }

  // ---- the hand-written loop against the coroutines ----

  /** On every text the hand-written loop reads a prefix of the numbers the combinators read. */
  lemma BaselineReadsPrefix(s: string)
    ensures Numbers(SPACES, s).Links? && Numbers(WHITESPACE, s).Links?
    ensures Numbers(SPACES, s).items <= Numbers(WHITESPACE, s).items
  {
    hide IntParser, CommaParser, Chain, PlainSeparators;
    IntIsFine(s);
    var o := IntParser()(s);
    if o.Good? {
      ChainsCompared(o.rest);
    }
  }

  /** The hand-written loop agrees with the coroutines on success, sum and remainder exactly when the separators
      these read hold no tab, LF or CR. */
  lemma BaselineAgrees(s: string, self: Parser)
    ensures SumOf(Numbers(SPACES, s)) == Executed(AddWithTryParse, First, s, self)
       <==> (IntParser()(s).Good? ==> PlainSeparators(IntParser()(s).rest))
  {
    hide IntParser, CommaParser, Chain, PlainSeparators, Executed;
    IntIsFine(s);
    CoroutinesSum(s, self);
    SumOfNumbers(SPACES, s);
    SumOfNumbers(WHITESPACE, s);
    var o := IntParser()(s);
    if o.Good? {
      ChainsCompared(o.rest);
    }
  }

  lemma {:induction false} PlainTextHasPlainSeparators(s: string)
    requires Plain(s)
    ensures PlainSeparators(s)
    decreases |s|
  {
    hide IntParser, CommaParse;
    CommaRound(WHITESPACE, s);
    var o := CombinatorRound(s);
    if o.Good? {
      CommaShrinks(s);
      PlainTextHasPlainSeparators(o.rest);
    }
  }

  /** In particular they agree on every text without tab, LF and CR. */
  lemma BaselineAgreesOnPlainText(s: string, self: Parser)
    requires Plain(s)
    ensures SumOf(Numbers(SPACES, s)) == Executed(AddWithTryParse, First, s, self)
    ensures SumOf(Numbers(SPACES, s)) == Executed(AddWithTestThen, First, s, self)
  {
    hide IntParser, CommaParser, Executed, Numbers, PlainSeparators;
    CoroutinesSum(s, self);
    BaselineAgrees(s, self);
    if IntParser()(s).Good? {
      IntIsFine(s);
      PlainTextHasPlainSeparators(IntParser()(s).rest);
    }
  }

  /** A tab before a comma stops the hand-written loop, and not the coroutines. */
  lemma BaselineCanDisagree(self: Parser)
    ensures SumOf(Numbers(SPACES, "1\t,2")) == Good("\t,2", Int(1), 0)
    ensures Executed(AddWithTryParse, First, "1\t,2", self) == Good("", Int(3), 0)
  {
    hide Executed, Chain, IntParser, CommaParser, Round, Numbers;
    var text, tail := "1\t,2", "\t,2";
    ReadsDigit("1", 1, tail);
    assert "1" + tail == text;
    TabThenTwo();
    CoroutinesSum(text, self);
    SumOfNumbers(SPACES, text);
    SumOfNumbers(WHITESPACE, text);
    SumRound(SPACES, 1, tail);
    SumRound(WHITESPACE, 1, tail);
    SumRound(WHITESPACE, 3, "");
  }

  lemma TabThenTwo()
    ensures Round(IntParser(), CommaParser(WHITESPACE), "\t,2") == Good("", Int(2), 0)
    ensures Round(IntParser(), CommaParser(SPACES), "\t,2") == Bad(0)
    ensures Round(IntParser(), CommaParser(WHITESPACE), "") == Bad(0)
  {
    hide IntParser, CommaParse;
    var two, tail := "2", "\t,2";
    ReadsDigit(two, 2, "");
    assert two + "" == two;
    assert "\t" + "," + "" + two == tail;
    CommaExact(WHITESPACE, "\t", "", two);
    NoCommaNoRound(SPACES, tail);
    NoCommaNoRound(WHITESPACE, "");
  }
}
