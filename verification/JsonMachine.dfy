/** The JSON parser and printer as they run: over a window, with loops and results, and on an output. */
module JsonMachine {
  import opened Text
  import opened Values
  import opened Outcomes
  import opened Combinators
  import opened Laws
  import opened Recursion
  import opened JsonSyntax
  import opened JsonCost
  import opened JsonParser
  import opened JsonPrinter
  import opened JsonRoundTrip
  import opened Windows
  import opened Machine

  lemma InnerIs(fmt: NumberFormat, t: string, n: nat)
    requires |t| < n
    ensures Inner(ValueBody(fmt), n)(t) == ValueParser(fmt)(t)
  {
    hide Run;
  }

  /** On texts up to length n, a recursion bounded by n is the recursive parser itself. */
  lemma BoundIsEnough(fmt: NumberFormat, s: string)
    requires fmt.ReadsPrefixes()
    ensures Run(WHOLE_TEXT, s, Inner(ValueBody(fmt), |s| + 1)) == ParseJson(fmt, s)
  {
    hide Run, Recurse, Inner, ValueParser, ValueBody, SkipChars;
    var f, g := Inner(ValueBody(fmt), |s| + 1), ValueParser(fmt);
    var t := SkipChars(WHITESPACE, s);
    EncloseIs(SKIP_WHITESPACE, Self, SKIP_WHITESPACE, s, f);
    EncloseIs(SKIP_WHITESPACE, Self, SKIP_WHITESPACE, s, g);
    CharsIs(WHITESPACE, s, f);
    CharsIs(WHITESPACE, s, g);
    SelfIs(t, f);
    SelfIs(t, g);
    InnerIs(fmt, t, |s| + 1);
    var o := g(t);
    if o.Good? {
      CharsIs(WHITESPACE, o.rest, f);
      CharsIs(WHITESPACE, o.rest, g);
    }
  }

  lemma TextFrugal(fmt: NumberFormat, s: string)
    requires fmt.ReadsPrefixes()
    ensures Frugal(ParseJson(fmt, s), s)
  {
    hide ParseJson, ParseValue, SkipChars;
    JsonUnfolds(fmt, s);
    ValueFrugal(fmt, SkipChars(WHITESPACE, s));
  }

  lemma CallsAreFew(r: Raw, calls: nat, st: State, o: Outcome)
    requires st.Valid() && Means(r, calls, st, o) && Frugal(o, st.Text())
    ensures calls <= if r.Good() then st.Size() - r.st.Size() else st.Size() + 1
  {
  }

  /** parse_json on a window; parse_value is entered at most once more than the window is long. */
  method ParseText(fmt: NumberFormat, st: State, dc: Expr -> bool) returns (r: Raw, ghost calls: nat)
    requires fmt.ReadsPrefixes() && st.Valid()
    ensures Encodes(r, calls, KindOf(WHOLE_TEXT, dc), st, ParseJson(fmt, st.Text()))
    ensures calls <= if r.Good() then st.Size() - r.st.Size() else st.Size() + 1
  {
    hide Run, Recurse, ParseJson, State.Text, Frugal, AlwaysGood;
    TextFrugal(fmt, st.Text());
    BoundIsEnough(fmt, st.Text());
    JsonUnfolds(fmt, st.Text());
    ValueReturns(fmt, SkipChars(WHITESPACE, st.Text()));
    r, calls := Parse(WHOLE_TEXT, ValueBody(fmt), |st.Text()| + 1, st, dc);
    CallsAreFew(r, calls, st, ParseJson(fmt, st.Text()));
  }

  /** Prints a value and parses what was printed. */
  method PrintAndParse(fmt: NumberFormat, indentation: string, v: Value, dc: Expr -> bool) returns (r: Raw)
    requires fmt.Lawful() && IsJson(fmt, v) && StringsSafe(v) && Blank(indentation)
    ensures r.Good() && r.st.Window? && r.st.begin == r.st.end && r.GetValue() == Forget(v)
  {
    hide ParseJson, Print, Forget, StringsSafe;
    var formatter := new Formatter(indentation);
    formatter.Format(fmt, v);
    var text := formatter.out;
    assert text == Print(fmt, indentation, v) by { assert "" + text == text; }
    PrintThenParse(fmt, indentation, v);
    var st := Window(text, 0, |text|);
    assert st.Text() == text;
    var back, _ := ParseText(fmt, st, dc);
    r := back;
  }
}
