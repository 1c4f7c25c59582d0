/** How far a running sum can get on a text of n characters: the exact condition for the sums of the fold,
    whose first number is a long, to stay in the range of a 64-bit long, and the exact length up to which
    those of the other summers do. */
module Accumulator {
  import opened Text
  import opened Values
  import opened Outcomes
  import opened Scanners
  import opened Chains
  import opened Combinators
  import opened Laws
  import opened Coroutines
  import opened Decimal
  import opened Summers

  predicate FitsLong(x: int) { LONG_MIN <= x <= LONG_MAX }

  /** The number written with k nines. */
  function Nines(k: nat): nat {
    if k == 0 then 0 else 10 * Nines(k - 1) + 9
  }

  /** The direction a sum is pushed in: up by numbers, or down by numbers with a minus. */
  datatype Side = Up | Down {

    /** The characters of one round before its digits: the comma, and the minus. */
    function Head(): nat { if Up? then 1 else 2 }

    /** The largest step a single int makes. */
    function Top(): nat { if Up? then INT_MAX else -INT_MIN }

    /** The most that one round of k characters can move the sum. */
    function Most(k: nat): nat {
      if k <= Head() then 0 else if k >= Head() + 10 then Top() else Nines(k - Head())
    }

    /** The most that n characters can move the sum: full steps, and one with what is left. */
    function Far(n: nat): nat {
      if Up? then (n / 11) * INT_MAX + Most(n % 11) else (n / 12) * -INT_MIN + Most(n % 12)
    }

    function Width(): nat { Head() + 10 }

    /** `x` as a move in this direction. */
    function Toward(x: int): int { if Up? then x else -x }

    /** The end of the range in this direction. */
    function Limit(): int { if Up? then LONG_MAX else -LONG_MIN }
  }

  // ---- digits ----

  lemma NinesGrow(a: nat, b: nat)
    requires a <= b
    ensures Nines(a) <= Nines(b)
  {
  }

  lemma NinesAdd(a: nat, b: nat, c: nat)
    requires a + b <= c
    ensures Nines(a) + Nines(b) <= Nines(c + 1)
  {
    NinesGrow(a, c);
    NinesGrow(b, c);
  }

  lemma NineNines()
    ensures Nines(9) == 999_999_999 && Nines(10) == 9_999_999_999
  {
    assert Nines(3) == 999;
    assert Nines(6) == 999_999;
    assert Nines(9) == 999_999_999;
  }

  lemma {:induction false} NaturalBelow(d: string)
    requires AllIn(d, DIGITS)
    ensures Natural(d) <= Nines(|d|)
  {
    if d != "" {
      NaturalBelow(d[..|d| - 1]);
    }
  }

  lemma {:induction false} DigitsLength(n: nat, k: nat)
    requires 0 < k && Nines(k - 1) < n <= Nines(k)
    ensures |Digits(n)| == k
    decreases k
  {
    if n >= 10 {
      assert k > 1;
      DigitsLength(n / 10, k - 1);
    }
  }

  // ---- the ranges of int and long ----

  /** A decimal number, with what follows it, as it is written. */
  function Written(n: int, rest: string): string {
    SignText(n < 0) + (Digits(if n < 0 then -n else n) + rest)
  }

  lemma WrittenParses(lo: int, hi: int, n: int, rest: string, self: Parser)
    requires StartsOutside(rest, DIGITS)
    ensures Run(Integer(lo, hi), Written(n, rest), self) == if lo <= n <= hi then Good(rest, Int(n), 0) else Bad(0)
  {
    hide Run, IntParse, Natural, Digits;
    IntParseExact(lo, hi, n < 0, Digits(if n < 0 then -n else n), rest);
    IntegerIs(lo, hi, Written(n, rest), self);
  }

  /** A number is read as an int exactly when it has 32 bits, and as a long exactly when it has 64. */
  lemma RangesExact(n: int, rest: string, self: Parser)
    requires StartsOutside(rest, DIGITS)
    ensures Run(PARSE_INT, Written(n, rest), self)
         == if -PowerOfTwo(31) <= n < PowerOfTwo(31) then Good(rest, Int(n), 0) else Bad(0)
    ensures Run(PARSE_LONG, Written(n, rest), self)
         == if -PowerOfTwo(63) <= n < PowerOfTwo(63) then Good(rest, Int(n), 0) else Bad(0)
  {
    hide Run, Written, PowerOfTwo;
    RangesAre();
    WrittenParses(INT_MIN, INT_MAX, n, rest, self);
    WrittenParses(LONG_MIN, LONG_MAX, n, rest, self);
  }

  /** A sum fits a long exactly when it has 64 bits. */
  lemma FitsLongIs(x: int)
    ensures FitsLong(x) <==> -PowerOfTwo(63) <= x < PowerOfTwo(63)
  {
    hide PowerOfTwo;
    RangesAre();
  }

  // ---- how far n characters reach ----

  lemma FarStep(side: Side, n: nat)
    ensures n < side.Width() ==> side.Far(n) == side.Most(n)
    ensures n >= side.Width() ==> side.Far(n) == side.Top() + side.Far(n - side.Width())
  {
    hide Side.Most;
    if n >= side.Width() {
      if side.Up? {
        assert n / 11 == (n - 11) / 11 + 1 && n % 11 == (n - 11) % 11;
      } else {
        assert n / 12 == (n - 12) / 12 + 1 && n % 12 == (n - 12) % 12;
      }
    }
  }

  lemma MostGrows(side: Side, k: nat, m: nat)
    requires k <= m
    ensures side.Most(k) <= side.Most(m) <= side.Top()
    ensures k < side.Width() ==> side.Most(k) <= Nines(9)
  {
    NineNines();
    if side.Head() < k < side.Width() {
      NinesGrow(k - side.Head(), 9);
      if m < side.Width() {
        NinesGrow(k - side.Head(), m - side.Head());
      }
    }
    if side.Head() < m < side.Width() {
      NinesGrow(m - side.Head(), 9);
    }
  }

  lemma {:induction false} FarGrows(side: Side, n: nat, m: nat)
    requires n <= m
    ensures side.Far(n) <= side.Far(m)
    decreases m
  {
    hide Side.Far, Side.Most;
    FarStep(side, n);
    FarStep(side, m);
    if n >= side.Width() {
      FarGrows(side, n - side.Width(), m - side.Width());
    } else {
      MostGrows(side, n, m);
    }
  }

  /** Splitting a round off never reaches further. */
  lemma {:induction false} FarAdds(side: Side, k: nat, n: nat)
    ensures side.Most(k) + side.Far(n) <= side.Far(k + n)
    decreases n
  {
    hide Side.Far, Side.Most;
    var w := side.Width();
    FarStep(side, n);
    FarStep(side, k + n);
    MostGrows(side, k, k);
    if n >= w {
      FarAdds(side, k, n - w);
    } else if k >= w {
      FarGrows(side, n, k + n - w);
    } else if k + n >= w {
      NineNines();
      MostGrows(side, n, n);
    } else {
      MostAdds(side, k, n);
    }
  }

  lemma MostAdds(side: Side, k: nat, n: nat)
    requires k + n < side.Width()
    ensures side.Most(k) + side.Most(n) <= side.Most(k + n)
  {
    hide Nines, Side.Far, Side.Top;
    var h := side.Head();
    if k <= h || n <= h {
      MostGrows(side, k, k + n);
      MostGrows(side, n, k + n);
    } else {
      NinesAdd(k - h, n - h, k + n - h - 1);
    }
  }

  // ---- one round moves the sum by at most Most ----

  lemma NumberMoves(side: Side, s: string, before: nat)
    requires IntParser()(s).Good? && before > 0
    ensures var o := IntParser()(s);
      |o.rest| < |s| && o.value.Int? && side.Toward(o.value.i) <= side.Most(before + |s| - |o.rest|)
  {
    hide IntParse, Natural, AllIn;
    IntIsFine(s);
    var o := IntParse(INT_MIN, INT_MAX, s);
    var negative, d := IntParseCut(INT_MIN, INT_MAX, s);
    NaturalBelow(d);
    assert |s| == |SignText(negative)| + |d| + |o.rest|;
    var k := before + |s| - |o.rest|;
    if negative == side.Down? && side.Head() < k < side.Width() {
      NinesGrow(|d|, k - side.Head());
    }
  }

  lemma RoundMoves(side: Side, cs: set<char>, s: string)
    requires Around(cs) && Round(IntParser(), CommaParser(cs), s).Good?
    ensures var o := Round(IntParser(), CommaParser(cs), s);
      o.value.Int? && |o.rest| < |s| && side.Toward(o.value.i) <= side.Most(|s| - |o.rest|)
  {
    hide IntParser, SkipChars, Side.Most, DIGITS;
    CommaRound(cs, s);
    var u := CommaParse(cs, s).rest;
    var w, w' := CommaCut(cs, s);
    NumberMoves(side, u, |s| - |u|);
  }

  // ---- running sums ----

  /** The sums on the way through a list, from `sum` on. */
  predicate StaysInRange(cs: set<char>, sum: int, t: string)
    requires Around(cs)
    decreases |t|
  {
    CommaRound(cs, t);
    var o := Round(IntParser(), CommaParser(cs), t);
    FitsLong(sum) && (o.Good? ==> StaysInRange(cs, sum + Number(o.value), o.rest))
  }

  /** The ends of the range are out of reach: n characters cannot move `sum` past them. */
  predicate OutOfReach(sum: int, n: nat) {
    LONG_MIN + Down.Far(n) <= sum <= LONG_MAX - Up.Far(n)
  }

  lemma {:induction false} OutOfReachStays(cs: set<char>, sum: int, t: string)
    requires Around(cs) && OutOfReach(sum, |t|)
    ensures StaysInRange(cs, sum, t)
    decreases |t|
  {
    hide IntParser, CommaParser, Round, Side.Far, Side.Most, DIGITS;
    CommaRound(cs, t);
    var o := Round(IntParser(), CommaParser(cs), t);
    if o.Good? {
      RoundMoves(Up, cs, t);
      RoundMoves(Down, cs, t);
      FarAdds(Up, |t| - |o.rest|, |o.rest|);
      FarAdds(Down, |t| - |o.rest|, |o.rest|);
      OutOfReachStays(cs, sum + o.value.i, o.rest);
    }
  }

  /** All sums on the way include the last one. */
  lemma {:induction false} LastSumFits(cs: set<char>, sum: int, t: string)
    requires Around(cs) && StaysInRange(cs, sum, t)
    ensures var o := SummedFrom(sum, Chain(IntParser(), CommaParser(cs), t));
      o.Good? && o.value.Int? && FitsLong(o.value.i)
    decreases |t|
  {
    hide IntParser, CommaParser, Round, Chain, SummedFrom, DIGITS;
    CommaRound(cs, t);
    SumRound(cs, sum, t);
    var o := Round(IntParser(), CommaParser(cs), t);
    if o.Good? {
      LastSumFits(cs, sum + Number(o.value), o.rest);
    }
  }

  // ---- a text that reaches as far as any ----

  function Step(side: Side, x: nat): string {
    SignText(side.Down?) + Digits(x)
  }

  /** The list of n characters that moves a sum the most. */
  function Farthest(side: Side, n: nat): string {
    if n >= side.Width() then "," + (Step(side, side.Top()) + Farthest(side, n - side.Width()))
    else if n > side.Head() then "," + (Step(side, Nines(n - side.Head())) + "")
    else ",-"[..n]
  }

  lemma StepLengths(side: Side, k: nat)
    ensures |Step(side, side.Top())| == side.Width() - 1
    ensures 0 < k ==> |Step(side, Nines(k))| == k + side.Head() - 1
  {
    hide Digits;
    NineNines();
    DigitsLength(side.Top(), 10);
    if 0 < k {
      DigitsLength(Nines(k), k);
    }
  }

  lemma {:induction false} FarthestLength(side: Side, n: nat)
    ensures |Farthest(side, n)| == n
    ensures StartsOutside(Farthest(side, n), DIGITS)
    decreases n
  {
    hide Step;
    if n >= side.Width() {
      StepLengths(side, 0);
      FarthestLength(side, n - side.Width());
    } else if n > side.Head() {
      StepLengths(side, n - side.Head());
    }
  }

  /** A comma and a number are one round. */
  lemma StepIsRound(side: Side, cs: set<char>, x: nat, rest: string)
    requires Around(cs) && x <= side.Top() && StartsOutside(rest, DIGITS)
    ensures Round(IntParser(), CommaParser(cs), "," + (Step(side, x) + rest)) == Good(rest, Int(side.Toward(x)), 0)
  {
    hide IntParse, CommaParse, Natural, Digits;
    var d := Digits(x);
    var u := SignText(side.Down?) + (d + rest);
    Regroup(SignText(side.Down?), d, rest);
    assert d[0] in DIGITS;
    assert u[0] == if side.Down? then '-' else d[0];
    assert "" + "," + "" + u == "," + (Step(side, x) + rest);
    CommaExact(cs, "", "", u);
    IntParseExact(INT_MIN, INT_MAX, side.Down?, d, rest);
  }

  lemma NoStep(cs: set<char>, n: nat)
    requires Around(cs) && n <= 2
    ensures Round(IntParser(), CommaParser(cs), ",-"[..n]).Bad?
  {
    var t := ",-"[..n];
    if n == 0 {
      NoCommaNoRound(cs, t);
    } else {
      var u := t[1..];
      assert "" + "," + "" + u == t;
      CommaExact(cs, "", "", u);
      assert u == if n == 1 then "" else "-";
      NoNumber();
    }
  }

  lemma NoNumber()
    ensures IntParser()("").Bad? && IntParser()("-").Bad?
  {
    assert "-"[1..] == "";
  }

  lemma LastStepSum(side: Side, cs: set<char>, sum: int, n: nat)
    requires Around(cs) && side.Head() < n < side.Width()
    ensures SummedFrom(sum, Chain(IntParser(), CommaParser(cs), Farthest(side, n)))
         == Good("", Int(sum + side.Toward(side.Far(n))), 0)
  {
    hide IntParser, CommaParser, Round, Chain, SummedFrom, Side.Far, Step, Nines, DIGITS;
    FarStep(side, n);
    SumRound(cs, sum, Farthest(side, n));
    var x := Nines(n - side.Head());
    NineNines();
    NinesGrow(n - side.Head(), 9);
    StepIsRound(side, cs, x, "");
    NoCommaNoRound(cs, "");
    SumRound(cs, sum + side.Toward(x), "");
  }

  /** That text moves the sum exactly that far. */
  lemma {:induction false} FarthestSum(side: Side, cs: set<char>, sum: int, n: nat)
    requires Around(cs)
    ensures var o := SummedFrom(sum, Chain(IntParser(), CommaParser(cs), Farthest(side, n)));
      o.Good? && o.value == Int(sum + side.Toward(side.Far(n)))
    decreases n
  {
    hide IntParser, CommaParser, Round, Chain, SummedFrom, Side.Far, Step, Nines, DIGITS;
    FarStep(side, n);
    SumRound(cs, sum, Farthest(side, n));
    if n >= side.Width() {
      var m := n - side.Width();
      FarthestLength(side, m);
      StepIsRound(side, cs, side.Top(), Farthest(side, m));
      FarthestSum(side, cs, sum + side.Toward(side.Top()), m);
    } else if n > side.Head() {
      LastStepSum(side, cs, sum, n);
    } else {
      NoStep(cs, n);
    }
  }

  /** No text of n characters takes a sum out of the range exactly when the ends are out of reach. */
  lemma StaysExactly(cs: set<char>, sum: int, n: nat)
    requires Around(cs)
    ensures (forall t :: |t| == n ==> StaysInRange(cs, sum, t)) <==> OutOfReach(sum, n)
  {
    hide StaysInRange, OutOfReach, Farthest;
    if OutOfReach(sum, n) {
      forall t | |t| == n ensures StaysInRange(cs, sum, t) {
        OutOfReachStays(cs, sum, t);
      }
    } else {
      var side := Exposed(sum, n);
      FarthestLength(side, n);
      FarthestLeaves(side, cs, sum, n);
    }
  }

  /** The side on which `sum` can leave the range. */
  function Exposed(sum: int, n: nat): Side {
    if sum > LONG_MAX - Up.Far(n) then Up else Down
  }

  lemma FarthestLeaves(side: Side, cs: set<char>, sum: int, n: nat)
    requires Around(cs) && !OutOfReach(sum, n) && side == Exposed(sum, n)
    ensures !StaysInRange(cs, sum, Farthest(side, n))
  {
    hide StaysInRange, Farthest, Chain, IntParser, CommaParser, Side.Far, SummedFrom;
    FarthestSum(side, cs, sum, n);
    if StaysInRange(cs, sum, Farthest(side, n)) {
      LastSumFits(cs, sum, Farthest(side, n));
    }
  }

  // ---- add_w_fold ----

  /** The values of fold_left's accumulator, from `acc` on, are all values of a long. */
  ghost predicate AccumulatorsFit(next: Parser, s: string, acc: Value)
    decreases |s|
  {
    && acc.Int? && FitsLong(acc.i)
    && var o := next(s);
       (o.Good? && |o.rest| < |s| ==> AccumulatorsFit(next, o.rest, Plus(acc, o.value)))
  }

  /** On `s` the fold's accumulator never leaves the range. */
  ghost predicate FoldFits(s: string, self: Parser) {
    var o := Run(PARSE_LONG, s, self);
    o.Good? ==> AccumulatorsFit(ParserOf(NEXT_INT, self), o.rest, o.value)
  }

  lemma {:induction false} AccumulatorsStay(s: string, sum: int, self: Parser)
    ensures AccumulatorsFit(ParserOf(NEXT_INT, self), s, Int(sum)) <==> StaysInRange(WHITESPACE, sum, s)
    decreases |s|
  {
    hide Run, IntParser, CommaParser, Round;
    NextIntIs(s, self);
    CommaRound(WHITESPACE, s);
    var o := Round(IntParser(), CommaParser(WHITESPACE), s);
    if o.Good? {
      AccumulatorsStay(o.rest, sum + o.value.i, self);
    }
  }

  /** `s` begins with the long v, and n characters follow it. */
  predicate BeginsWith(s: string, v: int, n: nat) {
    var o := IntParse(LONG_MIN, LONG_MAX, s);
    o.Good? && o.value == Int(v) && |o.rest| == n
  }

  lemma FoldStays(s: string, v: int, n: nat, self: Parser)
    requires BeginsWith(s, v, n)
    ensures FoldFits(s, self) <==> StaysInRange(WHITESPACE, v, IntParse(LONG_MIN, LONG_MAX, s).rest)
  {
    hide Run, IntParse, StaysInRange, AccumulatorsFit;
    IntegerIs(LONG_MIN, LONG_MAX, s, self);
    AccumulatorsStay(IntParse(LONG_MIN, LONG_MAX, s).rest, v, self);
  }

  lemma LongBegins(v: int, rest: string)
    requires FitsLong(v) && StartsOutside(rest, DIGITS)
    ensures var d := Digits(if v < 0 then -v else v);
      var s := SignText(v < 0) + (d + rest);
      BeginsWith(s, v, |rest|) && IntParse(LONG_MIN, LONG_MAX, s).rest == rest
  {
    hide IntParse, Natural, Digits;
    IntParseExact(LONG_MIN, LONG_MAX, v < 0, Digits(if v < 0 then -v else v), rest);
  }

  lemma RestLength(s: string, v: int, n: nat)
    requires BeginsWith(s, v, n)
    ensures IntParse(LONG_MIN, LONG_MAX, s).Good? && |IntParse(LONG_MIN, LONG_MAX, s).rest| == n
  {
    hide IntParse;
  }

  lemma FoldStaysWithin(s: string, v: int, n: nat, self: Parser)
    requires BeginsWith(s, v, n) && OutOfReach(v, n)
    ensures FoldFits(s, self)
  {
    hide BeginsWith, FoldFits, StaysInRange, OutOfReach, IntParse;
    FoldStays(s, v, n, self);
    RestLength(s, v, n);
    OutOfReachStays(WHITESPACE, v, IntParse(LONG_MIN, LONG_MAX, s).rest);
  }

  /** A text on which the fold's accumulator leaves the range. */
  lemma FoldLeaves(v: int, n: nat, self: Parser) returns (s: string)
    requires FitsLong(v) && !OutOfReach(v, n)
    ensures BeginsWith(s, v, n) && !FoldFits(s, self)
  {
    hide BeginsWith, FoldFits, StaysInRange, OutOfReach, IntParse, Farthest, Exposed, Digits, FitsLong;
    var side := Exposed(v, n);
    var rest := Farthest(side, n);
    FarthestLength(side, n);
    LongBegins(v, rest);
    s := SignText(v < 0) + (Digits(if v < 0 then -v else v) + rest);
    FoldStays(s, v, n, self);
    FarthestLeaves(side, WHITESPACE, v, n);
  }

  /** The fold keeps its accumulator in the range, on every text that begins with the long v and has n more
      characters, exactly when n characters cannot move v past an end of the range. */
  lemma FoldFitsExactly(v: int, n: nat, self: Parser)
    requires FitsLong(v)
    ensures (forall s :: BeginsWith(s, v, n) ==> FoldFits(s, self)) <==> OutOfReach(v, n)
  {
    hide BeginsWith, FoldFits, OutOfReach;
    if OutOfReach(v, n) {
      forall s | BeginsWith(s, v, n) ensures FoldFits(s, self) {
        FoldStaysWithin(s, v, n, self);
      }
    } else {
      var s := FoldLeaves(v, n, self);
    }
  }

  lemma ReadsLong(d: string, n: nat, rest: string, self: Parser)
    requires d != "" && AllIn(d, DIGITS) && Natural(d) == n && n <= LONG_MAX && StartsOutside(rest, DIGITS)
    ensures Run(PARSE_LONG, d + rest, self) == Good(rest, Int(n), 0)
  {
    hide Run, IntParse, Natural, AllIn, StartsOutside;
    assert SignText(false) + (d + rest) == d + rest;
    IntParseExact(LONG_MIN, LONG_MAX, false, d, rest);
    IntegerIs(LONG_MIN, LONG_MAX, d + rest, self);
  }

  lemma FoldAddsOne(d: string, n: nat, self: Parser)
    requires d != "" && AllIn(d, DIGITS) && Natural(d) == n && n <= LONG_MAX
    ensures Run(ADD_WITH_FOLD, d + ",1", self) == Good("", Int(n + 1), 0)
  {
    hide Run, Chain, IntParser, CommaParser, Round, Natural, AllIn, SummedFrom;
    ReadsLong(d, n, ",1", self);
    FoldSums(d + ",1", self);
    CommaThenOne();
    SumRound(WHITESPACE, n, ",1");
    SumRound(WHITESPACE, n + 1, "");
  }

  /** The fold's sum can leave the range: the largest long, and one more. */
  lemma FoldCanOverflow(self: Parser)
    ensures var s := Digits(LONG_MAX) + ",1";
      Run(ADD_WITH_FOLD, s, self) == Good("", Int(LONG_MAX + 1), 0) && !FitsLong(LONG_MAX + 1)
  {
    hide Run, Natural, AllIn, Digits;
    FoldAddsOne(Digits(LONG_MAX), LONG_MAX, self);
  }

  lemma CommaThenOne()
    ensures Round(IntParser(), CommaParser(WHITESPACE), ",1") == Good("", Int(1), 0)
    ensures Round(IntParser(), CommaParser(WHITESPACE), "") == Bad(0)
  {
    hide IntParser, CommaParse;
    var one := "1";
    ReadsDigit(one, 1, "");
    assert one + "" == one;
    assert "" + "," + "" + one == ",1";
    CommaExact(WHITESPACE, "", "", one);
    NoCommaNoRound(WHITESPACE, "");
  }

  // ---- the summers whose first number is an int ----

  /** The longest texts on which no sum of ints can leave the range. */
  const MOST_CHARACTERS: nat := 47_244_640_278

  /** The sums on the way through a list of ints. */
  predicate SumsFit(cs: set<char>, s: string)
    requires Around(cs)
  {
    var o := IntParser()(s);
    o.Good? ==> StaysInRange(cs, Number(o.value), o.rest)
  }

  lemma Threshold()
    ensures Up.Far(MOST_CHARACTERS + 1) == LONG_MAX - 1 && Up.Far(MOST_CHARACTERS + 2) == LONG_MAX + 8
    ensures Down.Far(MOST_CHARACTERS + 1) <= -LONG_MIN
  {
    ThresholdUp();
    ThresholdDown();
  }

  lemma ThresholdUp()
    ensures Up.Far(MOST_CHARACTERS + 1) == LONG_MAX - 1 && Up.Far(MOST_CHARACTERS + 2) == LONG_MAX + 8
  {
    assert Nines(1) == 9;
    hide Nines;
    var n := MOST_CHARACTERS + 1;
    assert n / 11 == (n + 1) / 11 == 4_294_967_298 && n % 11 == 1 && (n + 1) % 11 == 2;
  }

  lemma ThresholdDown()
    ensures Down.Far(MOST_CHARACTERS + 1) <= -LONG_MIN
  {
    hide Nines, Side.Most;
    var n := MOST_CHARACTERS + 1;
    MostGrows(Down, n % 12, 12);
    assert n / 12 == 3_937_053_356;
  }

  /** A first number is worth as much as a round with its comma left out. */
  lemma ShortSumsFit(cs: set<char>, s: string)
    requires Around(cs) && |s| <= MOST_CHARACTERS
    ensures SumsFit(cs, s)
  {
    hide IntParser, StaysInRange, Side.Far, Side.Most;
    var o := IntParser()(s);
    if o.Good? {
      Threshold();
      FirstMoves(Up, s);
      FirstMoves(Down, s);
      FarGrows(Up, |s| + 1, MOST_CHARACTERS + 1);
      FarGrows(Down, |s| + 1, MOST_CHARACTERS + 1);
      OutOfReachStays(cs, o.value.i, o.rest);
    }
  }

  lemma FirstMoves(side: Side, s: string)
    requires IntParser()(s).Good?
    ensures var o := IntParser()(s);
      |o.rest| < |s| && o.value.Int? && side.Toward(o.value.i) + side.Far(|o.rest|) <= side.Far(|s| + 1)
  {
    hide IntParser, Side.Far, Side.Most;
    NumberMoves(side, s, 1);
    var o := IntParser()(s);
    FarAdds(side, 1 + |s| - |o.rest|, |o.rest|);
  }

  /** On every longer length there is a text whose sum is past the end. */
  lemma LongSumsCanOverflow(cs: set<char>, n: nat) returns (s: string)
    requires Around(cs) && n > MOST_CHARACTERS
    ensures |s| == n
    ensures var o := SumOf(Numbers(cs, s)); o.Good? && o.value.Int? && o.value.i > LONG_MAX
    ensures !SumsFit(cs, s)
  {
    hide IntParser, CommaParser, Chain, SummedFrom, SumOf, Numbers, StaysInRange, Side.Far, Side.Most, Step, Farthest;
    var m := n - 10;
    var rest := Farthest(Up, m);
    s := Step(Up, INT_MAX) + rest;
    FarthestLength(Up, m);
    StepLengths(Up, 0);
    StepIsNumber(INT_MAX, rest);
    SumOfNumbers(cs, s);
    FarthestSum(Up, cs, INT_MAX, m);
    FarStep(Up, n + 1);
    Threshold();
    FarGrows(Up, MOST_CHARACTERS + 2, n + 1);
    if SumsFit(cs, s) {
      LastSumFits(cs, INT_MAX, rest);
    }
  }

  lemma StepIsNumber(x: nat, rest: string)
    requires x <= INT_MAX && StartsOutside(rest, DIGITS)
    ensures IntParser()(Step(Up, x) + rest) == Good(rest, Int(x), 0)
  {
    hide IntParse, Natural, Digits;
    Regroup(SignText(false), Digits(x), rest);
    IntParseExact(INT_MIN, INT_MAX, false, Digits(x), rest);
  }

  /** The sums of ints stay in the range on all texts of n characters exactly when n is at most
      MOST_CHARACTERS, whatever may stand around the commas. */
  lemma SumsFitExactly(cs: set<char>, n: nat)
    requires Around(cs)
    ensures (forall s :: |s| == n ==> SumsFit(cs, s)) <==> n <= MOST_CHARACTERS
  {
    hide SumsFit, SumOf, Numbers;
    if n <= MOST_CHARACTERS {
      forall s | |s| == n ensures SumsFit(cs, s) {
        ShortSumsFit(cs, s);
      }
    } else {
      var s := LongSumsCanOverflow(cs, n);
    }
  }

  lemma {:induction false} PrefixFits(cs: set<char>, sum: int, t: string, k: nat)
    requires Around(cs) && StaysInRange(cs, sum, t)
    requires Chain(IntParser(), CommaParser(cs), t).Links? && k <= |Chain(IntParser(), CommaParser(cs), t).items|
    ensures FitsLong(sum + Sum(Chain(IntParser(), CommaParser(cs), t).items[..k]))
    decreases |t|
  {
    hide IntParser, CommaParser, DIGITS;
    CommaRound(cs, t);
    var l := Chain(IntParser(), CommaParser(cs), t);
    var o := Round(IntParser(), CommaParser(cs), t);
    if k > 0 && o.Good? {
      PrefixFits(cs, sum + Number(o.value), o.rest, k - 1);
      assert l.items[..k][1..] == Chain(IntParser(), CommaParser(cs), o.rest).items[..k - 1];
    }
  }

  /** A list read from n characters has at most (n + 1) / 2 numbers; and every sum on the way fits a long for
      n up to MOST_CHARACTERS. */
  lemma AccumulatorBound(cs: set<char>, s: string, k: nat)
    requires Around(cs) && Numbers(cs, s).Links? && k <= |Numbers(cs, s).items|
    ensures 2 * |Numbers(cs, s).items| <= |s| + 1
    ensures |s| <= MOST_CHARACTERS ==> FitsLong(Sum(Numbers(cs, s).items[..k]))
  {
    hide IntParser, CommaParser, Chain, DIGITS, StaysInRange;
    IntIsFine(s);
    var o := IntParser()(s);
    if o.Good? {
      ChainOfInts(cs, o.rest);
      if k > 0 && |s| <= MOST_CHARACTERS {
        ShortSumsFit(cs, s);
        PrefixFits(cs, o.value.i, o.rest, k - 1);
        var vs := Chain(IntParser(), CommaParser(cs), o.rest).items;
        assert Numbers(cs, s).items == [o.value] + vs;
        assert ([o.value] + vs)[..k][1..] == vs[..k - 1];
      }
    }
  }

  // ---- every state a running summer reaches ----

  /** `sum` is what can have been added up from the part of n characters that is no longer left. */
  predicate Earned(sum: int, n: nat, left: nat) {
    left <= n && sum <= Up.Far(n + 1 - left) && -sum <= Down.Far(n + 1 - left)
  }

  lemma EarnedFirst(s: string)
    requires IntParser()(s).Good?
    ensures var o := IntParser()(s);
      |o.rest| < |s| && o.value.Int? && Earned(o.value.i, |s|, |o.rest|)
  {
    hide IntParser, Side.Far, Side.Most;
    var o := IntParser()(s);
    NumberMoves(Up, s, 1);
    NumberMoves(Down, s, 1);
    FarAdds(Up, 1 + |s| - |o.rest|, 0);
    FarAdds(Down, 1 + |s| - |o.rest|, 0);
    FarGrows(Up, 0, 0);
    Nothing();
  }

  lemma Nothing()
    ensures Up.Far(0) == 0 && Down.Far(0) == 0
  {
  }

  lemma EarnedMore(cs: set<char>, sum: int, n: nat, t: string)
    requires Around(cs) && Earned(sum, n, |t|) && Round(IntParser(), CommaParser(cs), t).Good?
    ensures var o := Round(IntParser(), CommaParser(cs), t);
      |o.rest| < |t| && o.value.Int? && Earned(sum + o.value.i, n, |o.rest|)
  {
    hide IntParser, CommaParser, Round, Side.Far, Side.Most;
    var o := Round(IntParser(), CommaParser(cs), t);
    RoundMoves(Up, cs, t);
    RoundMoves(Down, cs, t);
    FarAdds(Up, |t| - |o.rest|, n + 1 - |t|);
    FarAdds(Down, |t| - |o.rest|, n + 1 - |t|);
  }

  lemma EarnedFits(sum: int, n: nat, left: nat)
    requires Earned(sum, n, left)
    ensures n <= MOST_CHARACTERS ==> FitsLong(sum)
  {
    hide Side.Far;
    if n <= MOST_CHARACTERS {
      Threshold();
      FarGrows(Up, n + 1 - left, MOST_CHARACTERS + 1);
      FarGrows(Down, n + 1 - left, MOST_CHARACTERS + 1);
    }
  }

  /** The promise of a summing coroutine: what it has read pays for its sum. */
  ghost predicate Solvent(m: Promise<Locals>, s: string) {
    m.status.Running? ==>
      if m.status.locals.First? then m.state == s else Earned(m.status.locals.sum, |s|, |m.state|)
  }

  lemma StepIsSolvent(body: Body<Locals>, m: Promise<Locals>, s: string, self: Parser)
    requires body == AddWithTryParse || body == AddWithTestThen
    requires Solvent(m, s)
    ensures Solvent(Advance(body, m, self), s)
  {
    hide Run, IntParser, CommaParser, Round, Earned;
    if m.status.Running? {
      match m.status.locals
      case First =>
        ParseIntIs(s, self);
        IntIsFine(s);
        if IntParser()(s).Good? {
          EarnedFirst(s);
        }
      case Loop(sum) =>
        TryIs(NEXT_INT, m.state, self);
        NextIntIs(m.state, self);
        CommaRound(WHITESPACE, m.state);
        if Round(IntParser(), CommaParser(WHITESPACE), m.state).Good? {
          EarnedMore(WHITESPACE, sum, |s|, m.state);
        }
      case Last(_) =>
    }
  }

  /** In every state a summing coroutine reaches on a text of at most MOST_CHARACTERS, its sum fits a long. */
  lemma {:induction false} RunningSumsFit(body: Body<Locals>, s: string, self: Parser, n: nat)
    requires body == AddWithTryParse || body == AddWithTestThen
    ensures Solvent(Steps(body, Start(First, s), self, n), s)
    ensures var m := Steps(body, Start(First, s), self, n);
      |s| <= MOST_CHARACTERS && m.status.Running? && !m.status.locals.First? ==> FitsLong(m.status.locals.sum)
    decreases n
  {
    hide Advance, Earned;
    if n > 0 {
      RunningSumsFit(body, s, self, n - 1);
      StepIsSolvent(body, Steps(body, Start(First, s), self, n - 1), s, self);
    }
    var m := Steps(body, Start(First, s), self, n);
    if m.status.Running? && !m.status.locals.First? {
      EarnedFits(m.status.locals.sum, |s|, |m.state|);
    }
  }
}
