/** Decimal integers as a number format: the laws the JSON results ask of a number format can be met. */
module Decimal {
  import opened Text
  import opened Values
  import opened Outcomes
  import opened Scanners
  import opened JsonSyntax

  const DIGIT_CHARS: string := "0123456789"

  function Digits(n: nat): (d: string)
    ensures d != "" && AllIn(d, DIGITS) && Natural(d) == n
  {
    if n < 10 then
      var d := [DIGIT_CHARS[n]];
      assert d[..0] == "";
      d
    else
      var d, last := Digits(n / 10), DIGIT_CHARS[n % 10];
      assert (d + [last])[..|d|] == d;
      d + [last]
  }

  function IntText(n: int): string {
    if n < 0 then "-" + Digits(-n) else Digits(n)
  }

  function AsNumber(i: Value): Value {
    if i.Int? then Num(i.i as real) else i
  }

  function ReadLong(s: string): Outcome {
    IntParse(LONG_MIN, LONG_MAX, s).Map(AsNumber)
  }

  function LongReader(): LeafParser {
    assert IsLeaf((s: string) => ReadLong(s)) by {
      forall s
        ensures ReadLong(s) != Diverge && ReadLong(s).calls == 0
        ensures ReadLong(s).Good? ==> IsSuffix(ReadLong(s).rest, s)
      {
      }
    }
    (s: string) => ReadLong(s)
  }

  function ShowLong(x: real): string { IntText(x.Floor) }

  predicate FitsLong(x: real) {
    x == x.Floor as real && LONG_MIN <= x.Floor <= LONG_MAX
  }

  function Longs(): NumberFormat {
    NumberFormat(LongReader(), x => ShowLong(x), x => FitsLong(x))
  }

  // ---- the laws ----

  lemma LongsReadPrefixes()
    ensures Longs().ReadsPrefixes()
  {
    var fmt := Longs();
    forall s ensures fmt.ReadsPrefix(s) {
      var o := IntParse(LONG_MIN, LONG_MAX, s);
      if o.Good? {
        hide IntParse, NumberFormat.ReadsPrefix;
        var negative, d := IntParseCut(LONG_MIN, LONG_MAX, s);
        PrefixReads(s, negative, d);
      }
    }
  }

  lemma PrefixReads(s: string, negative: bool, d: string)
    requires IntParse(LONG_MIN, LONG_MAX, s).Good?
    requires d != "" && AllIn(d, DIGITS) && s == SignText(negative) + (d + IntParse(LONG_MIN, LONG_MAX, s).rest)
    requires IntParse(LONG_MIN, LONG_MAX, s).value == Int(Signed(negative, d))
    ensures Longs().ReadsPrefix(s)
  {
    hide IntParse, Signed;
    var o := IntParse(LONG_MIN, LONG_MAX, s);
    var u := SignText(negative) + (d + "");
    Regroup(SignText(negative), d, o.rest);
    assert d + "" == d;
    assert s[..|s| - |o.rest|] == u;
    IntParseExact(LONG_MIN, LONG_MAX, negative, d, "");
    assert ReadLong(s).value.num.Floor == o.value.i;
  }

  lemma NotADigit(rest: string)
    requires Delimited(rest)
    ensures StartsOutside(rest, DIGITS)
  {
  }

  lemma StopsAtOne(text: string, rest: string)
    requires ReadLong(text).Good? && ReadLong(text).rest == "" && Delimited(rest)
    ensures ReadLong(text + rest) == Good(rest, ReadLong(text).value, 0)
  {
    NotADigit(rest);
    hide IntParse, AllIn, Signed, SignText, StartsOutside, Delimited;
    var negative, d := IntParseCut(LONG_MIN, LONG_MAX, text);
    assert d + "" == d;
    Regroup(SignText(negative), d, rest);
    IntParseExact(LONG_MIN, LONG_MAX, negative, d, rest);
    InRange(text);
  }

  lemma InRange(text: string)
    requires ReadLong(text).Good?
    ensures var o := IntParse(LONG_MIN, LONG_MAX, text); o.value.Int? && LONG_MIN <= o.value.i <= LONG_MAX
  {
  }

  lemma LongsStopAtDelimiters()
    ensures Longs().StopsAtDelimiters()
  {
    var fmt := Longs();
    forall text, rest ensures fmt.StopsAt(text, rest) {
      hide ReadLong;
      if fmt.Full(text) && Delimited(rest) {
        StopsAtOne(text, rest);
      }
    }
  }

  lemma ReadsShown(n: int)
    requires LONG_MIN <= n <= LONG_MAX
    ensures ReadLong(IntText(n)) == Good("", Num(n as real), 0)
  {
    var d := Digits(if n < 0 then -n else n);
    assert IntText(n) == SignText(n < 0) + (d + "") by { assert d + "" == d; }
    assert Signed(n < 0, d) == n;
    hide IntParse, AllIn, Signed, IntText, Natural;
    IntParseExact(LONG_MIN, LONG_MAX, n < 0, d, "");
  }

  lemma LongsReadBack()
    ensures Longs().ReadsBack()
  {
    var fmt := Longs();
    forall x | fmt.fits(x) ensures fmt.read(fmt.show(x)) == Good("", Num(x), 0) {
      hide ReadLong, IntText;
      ReadsShown(x.Floor);
    }
  }

  /** Decimal integers in the range of `long` obey all three laws. */
  lemma LongsLawful()
    ensures Longs().Lawful()
  {
    LongsReadPrefixes();
    LongsStopAtDelimiters();
    LongsReadBack();
  }
}
