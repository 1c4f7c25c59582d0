/** parse_value accepts exactly the texts of the JSON grammar, and each with exactly one meaning. */
module JsonGrammar {
  import opened Text
  import opened Values
  import opened Outcomes
  import opened Scanners
  import opened Chains
  import opened Combinators
  import opened Laws
  import opened JsonSyntax
  import opened Recursion
  import opened JsonParser

  // ---- separators and elements ----

  lemma SepExact(l: string, b: string, a: string, x: string)
    requires Blank(b) && Blank(a)
    requires l != "" && StartsOutside(l, WHITESPACE) && StartsOutside(x, WHITESPACE)
    ensures SepParse(l, b + l + a + x) == Good(x, Empty, 0)
  {
    BlankIs(b);
    BlankIs(a);
    Glue4(b + (l + (a + x)), b, l + (a + x), l, a + x, a, x);
    SkipCharsExact(WHITESPACE, b, l + (a + x));
    assert (l + (a + x))[|l|..] == a + x;
    SkipCharsExact(WHITESPACE, a, x);
  }

  lemma SepCut(l: string, s: string) returns (b: string, a: string)
    requires SepParse(l, s).Good?
    ensures Blank(b) && Blank(a)
    ensures s == b + l + a + SepParse(l, s).rest
  {
    hide SkipChars, Taken;
    b := Taken(WHITESPACE, s);
    var t := SkipChars(WHITESPACE, s);
    a := Taken(WHITESPACE, t[|l|..]);
    TakenThenRest(WHITESPACE, s);
    TakenThenRest(WHITESPACE, t[|l|..]);
    Glue4(s, b, t, l, t[|l|..], a, SepParse(l, s).rest);
    BlankIs(b);
    BlankIs(a);
  }

  lemma OpenExact(l: string, a: string, x: string)
    requires Blank(a) && StartsOutside(x, WHITESPACE)
    ensures OpenParse(l, l + a + x) == Good(x, Empty, 0)
  {
    BlankIs(a);
    assert (l + a + x)[|l|..] == a + x;
    SkipCharsExact(WHITESPACE, a, x);
  }

  lemma OpenCut(l: string, s: string) returns (a: string)
    requires OpenParse(l, s).Good?
    ensures Blank(a)
    ensures s == l + a + OpenParse(l, s).rest
  {
    hide SkipChars, Taken;
    a := Taken(WHITESPACE, s[|l|..]);
    TakenThenRest(WHITESPACE, s[|l|..]);
    Glue3(s, l, s[|l|..], a, OpenParse(l, s).rest);
    BlankIs(a);
  }

  lemma CloseExact(l: string, b: string, x: string)
    requires Blank(b) && l != "" && StartsOutside(l, WHITESPACE)
    ensures CloseParse(l, b + l + x) == Good(x, Empty, 0)
  {
    BlankIs(b);
    assert b + l + x == b + (l + x);
    SkipCharsExact(WHITESPACE, b, l + x);
    assert (l + x)[|l|..] == x;
  }

  lemma CloseCut(l: string, s: string) returns (b: string)
    requires CloseParse(l, s).Good?
    ensures Blank(b)
    ensures s == b + l + CloseParse(l, s).rest
  {
    hide SkipChars, Taken;
    b := Taken(WHITESPACE, s);
    TakenThenRest(WHITESPACE, s);
    var t := SkipChars(WHITESPACE, s);
    Glue3(s, b, t, l, t[|l|..]);
    BlankIs(b);
  }

  /** No separator can be read where a closing bracket stands. */
  lemma NoSepAtClose(l: string, b: string, x: string)
    requires Blank(b) && (l == "]" || l == "}")
    ensures SepParse(",", b + l + x) == Bad(0) && Delimited(b + l + x)
  {
    BlankIs(b);
    assert b + l + x == b + (l + x);
    SkipCharsExact(WHITESPACE, b, l + x);
    assert b == "" ==> b + l + x == l + x;
  }

  lemma ElementsStep(elem: Parser, l: string, s: string)
    requires l != "" && Shrinks(elem) && elem(s).Good? && SepParse(l, elem(s).rest).Good?
    requires var e := Elements(elem, SepParser(l), SepParse(l, elem(s).rest).rest); e.Links? && e.items != []
    ensures var m := SepParse(l, elem(s).rest).rest;
      var e, f := Elements(elem, SepParser(l), s), Elements(elem, SepParser(l), m);
      e.Links? && e.items == [elem(s).value] + f.items && e.rest == f.rest
  {
    SepShrinksStrictly(l, elem(s).rest);
    hide SepParse;
    var m := SepParser(l)(elem(s).rest).rest;
    assert elem(m).Good?;
  }

  /** What a chain collected from `r` is what `Elements` collects after the first separator. */
  lemma ChainAsElements(elem: Parser, l: string, r: string)
    requires Chain(elem, SepParser(l), r).Links? && Chain(elem, SepParser(l), r).items != []
    ensures SepParse(l, r).Good?
    ensures var e, c := Elements(elem, SepParser(l), SepParse(l, r).rest), Chain(elem, SepParser(l), r);
      e.Links? && e.items == c.items && e.rest == c.rest
  {
    hide SepParse;
  }

  // ---- soundness: what parse_value accepts has a syntax tree ----

  lemma {:induction false} ValueSound(fmt: NumberFormat, s: string) returns (t: Tree)
    requires fmt.ReadsPrefixes() && ParseValue(fmt, s).Good?
    ensures var o := ParseValue(fmt, s);
      t.WellFormed(fmt) && s == t.Text() + o.rest && t.Meaning(fmt) == o.value && t.EndsBefore(fmt, o.rest)
    decreases |s|, 1
  {
    hide Recurse, BracketedParse, MapParse, MemberParser, ViewParse, BoolParse;
    ValueUnfolds(fmt, s);
    var k := Kind(s);
    if k == 0 {
      t := NullText;
    } else if k == 1 {
      t := BoolSound(s);
    } else if k == 2 {
      t := NumberSound(fmt, s);
    } else if k == 3 {
      KeySound(s);
      t := StrText(ViewParse(s).value.text);
    } else if k == 4 {
      t := ArraySound(fmt, s);
    } else {
      MemberParserIs(fmt);
      t := ObjectSound(fmt, s);
    }
  }

  lemma BoolSound(s: string) returns (t: Tree)
    requires BoolParse(s).Good?
    ensures t.BoolText? && s == t.Text() + BoolParse(s).rest && Bool(t.flag) == BoolParse(s).value
  {
    t := BoolText("true" <= s);
  }

  lemma NumberSound(fmt: NumberFormat, s: string) returns (t: Tree)
    requires fmt.ReadsPrefixes() && fmt.read(s).Good?
    ensures var o := fmt.read(s);
      t.WellFormed(fmt) && s == t.Text() + o.rest && t.Meaning(fmt) == o.value && t.EndsBefore(fmt, o.rest)
  {
    var o := fmt.read(s);
    assert fmt.ReadsPrefix(s);
    t := NumText(s[..|s| - |o.rest|]);
    assert IsSuffix(o.rest, s);
    assert s == t.Text() + o.rest;
  }

  lemma {:induction false} ItemsSound(fmt: NumberFormat, s: string) returns (items: Items)
    requires fmt.ReadsPrefixes()
    requires var e := Elements(ValueParser(fmt), SepParser(","), s); e.Links? && e.items != []
    ensures var e := Elements(ValueParser(fmt), SepParser(","), s);
      items.WellFormed(fmt) && s == items.Text() + e.rest && items.Meanings(fmt) == e.items
    decreases |s|, 2
  {
    var v := ValueParser(fmt);
    var r := v(s).rest;
    var c := Chain(v, SepParser(","), r);
    var t := ValueSound(fmt, s);
    if c.items == [] {
      ChainUnmoved(v, SepParser(","), r);
      items := LastItem(t);
    } else {
      hide Recurse, Chain, SepParse;
      ChainAsElements(v, ",", r);
      var m := SepParse(",", r).rest;
      SepShrinksStrictly(",", r);
      ValueShorter(fmt, s);
      var b, a := SepCut(",", r);
      var more := ItemsSound(fmt, m);
      items := Item(t, b, a, more);
      GlueItem(s, t.Text(), r, b, a, m, more.Text(), c.rest);
    }
  }

  lemma GlueItem(s: string, t: string, r: string, b: string, a: string, m: string, more: string, q: string)
    requires s == t + r && r == b + "," + a + m && m == more + q
    ensures s == t + (b + "," + a + more) + q
  {
    Regroup(b + "," + a, more, q);
    Regroup(t, b + "," + a + more, q);
  }

  lemma GlueBrackets(s: string, o: string, a: string, x: string, body: string, q: string, b: string, c: string,
      r: string)
    requires s == o + a + x && x == body + q && q == b + c + r
    ensures s == o + a + body + b + c + r
  {
    Regroup(o + a, body, q);
    Regroup(o + a + body, b + c, r);
    Regroup(o + a + body, b, c);
  }

  lemma GlueEmpty(s: string, o: string, a: string, x: string, b: string, c: string, r: string)
    requires s == o + a + x && x == b + c + r && Blank(a) && Blank(b)
    ensures s == o + (a + b) + c + r && Blank(a + b)
  {
    Regroup(o + a, b + c, r);
    Regroup(o + a, b, c);
    Regroup(o, a, b);
  }

  lemma ValueShorter(fmt: NumberFormat, s: string)
    ensures ParseValue(fmt, s).Good? ==> IsSuffix(ParseValue(fmt, s).rest, s)
  {
    ValueParserShrinks(fmt);
    assert ValueParser(fmt)(s) == ParseValue(fmt, s);
  }

  lemma ChainUnmoved(elem: Parser, sep: Parser, s: string)
    requires Chain(elem, sep, s).Links? && Chain(elem, sep, s).items == []
    ensures Chain(elem, sep, s).rest == s
  {
  }

  /** The pieces of a successful bracketed sequence. */
  lemma BracketedParts(o: string, m: string, c: string, elem: Parser, s: string) returns (x: string, e: Links)
    requires BracketedParse(o, m, c, elem, s).Good?
    ensures OpenParse(o, s).Good? && x == OpenParse(o, s).rest && |x| + |o| <= |s|
    ensures e == Elements(elem, SepParser(m), x) && e.Links? && CloseParse(c, e.rest).Good?
    ensures BracketedParse(o, m, c, elem, s).rest == CloseParse(c, e.rest).rest
    ensures BracketedParse(o, m, c, elem, s).value == List(e.items)
  {
    hide Elements;
    x := OpenParse(o, s).rest;
    e := Elements(elem, SepParser(m), x);
  }

  /** The pieces of a successful map. */
  lemma MapParts(o: string, m: string, c: string, pair: Parser, s: string) returns (x: string, e: Links)
    requires MapParse(o, m, c, pair, s).Good?
    ensures OpenParse(o, s).Good? && x == OpenParse(o, s).rest && |x| + |o| <= |s|
    ensures e == Elements(pair, SepParser(m), x) && e.Links? && CloseParse(c, e.rest).Good?
    ensures MapParse(o, m, c, pair, s).rest == CloseParse(c, e.rest).rest
    ensures MapParse(o, m, c, pair, s).value == InsertAll(Map([]), e.items)
  {
    hide Elements, Collect;
    x := OpenParse(o, s).rest;
    e := Elements(pair, SepParser(m), x);
    MapLoopElements(pair, SepParser(m), x);
  }

  lemma ArraySound(fmt: NumberFormat, s: string) returns (t: Tree)
    requires fmt.ReadsPrefixes()
    requires BracketedParse("[", ",", "]", ValueParser(fmt), s).Good?
    ensures var o := BracketedParse("[", ",", "]", ValueParser(fmt), s);
      t.WellFormed(fmt) && s == t.Text() + o.rest && t.Meaning(fmt) == o.value && t.EndsBefore(fmt, o.rest)
    decreases |s|, 0
  {
    var v := ValueParser(fmt);
    hide BracketedParse, ValueParser, Elements, OpenParse, CloseParse;
    var o := BracketedParse("[", ",", "]", v, s);
    var x, e := BracketedParts("[", ",", "]", v, s);
    var a := OpenCut("[", s);
    var b := CloseCut("]", e.rest);
    if e.items == [] {
      ElementsUnmoved(v, SepParser(","), x);
      t := EmptyArray(a + b);
      GlueEmpty(s, "[", a, x, b, "]", o.rest);
    } else {
      var items := ItemsSound(fmt, x);
      t := Array(a, items, b);
      GlueBrackets(s, "[", a, x, items.Text(), e.rest, b, "]", o.rest);
    }
  }

  lemma ElementsUnmoved(elem: Parser, sep: Parser, s: string)
    requires Elements(elem, sep, s).Links? && Elements(elem, sep, s).items == []
    ensures Elements(elem, sep, s).rest == s && elem(s).Bad?
  {
  }

  function MemberParser(fmt: NumberFormat): Parser {
    PairParser(":", ViewParser(), ValueParser(fmt))
  }

  /** The pieces of a successful key, colon and value. */
  lemma PairParts(key: Parser, val: Parser, s: string) returns (k: Outcome, t: string)
    requires PairParse(":", key, val, s).Good?
    ensures k == key(s) && k.Good? && SepParse(":", k.rest).Good? && t == SepParse(":", k.rest).rest
    ensures val(t).Good? && PairParse(":", key, val, s).rest == val(t).rest
    ensures PairParse(":", key, val, s).value == Pair(k.value, val(t).value)
    ensures |t| < |k.rest|
  {
    k := key(s);
    t := SepParse(":", k.rest).rest;
    SepShrinksStrictly(":", k.rest);
  }

  lemma KeySound(s: string)
    requires ViewParse(s).Good?
    ensures var o := ViewParse(s); ViewSafe(o.value.text) && s == "\"" + o.value.text + "\"" + o.rest && |o.rest| < |s|
  {
    ViewBodySound(s[1..]);
    var o := ViewParse(s);
    Regroup("\"", o.value.text, "\"" + o.rest);
    Regroup("\"" + o.value.text, "\"", o.rest);
  }

  lemma MemberParserIs(fmt: NumberFormat)
    ensures MemberParser(fmt) == PairParser(":", ViewParser(), ValueParser(fmt))
  {
  }

  lemma MemberSound(fmt: NumberFormat, s: string) returns (m: Member)
    requires fmt.ReadsPrefixes() && MemberParser(fmt)(s).Good?
    ensures var o := MemberParser(fmt)(s);
      m.WellFormed(fmt) && s == m.Text() + o.rest && m.Pair(fmt) == o.value
    decreases |s|, 2
  {
    var v := ValueParser(fmt);
    assert MemberParser(fmt)(s) == PairParse(":", ViewParser(), v, s);
    var k, t := PairParts(ViewParser(), v, s);
    hide Recurse, ViewParse, SepParse, MemberParser, PairParse;
    KeySound(s);
    var b, a := SepCut(":", k.rest);
    var val := ValueSound(fmt, t);
    m := Member(k.value.text, b, a, val);
    var q := "\"" + m.key + "\"";
    var r := v(t).rest;
    Regroup(b + ":" + a, val.Text(), r);
    Regroup(q, b + ":" + a + val.Text(), r);
  }

  lemma {:induction false} MembersSound(fmt: NumberFormat, s: string) returns (ms: Members)
    requires fmt.ReadsPrefixes()
    requires var e := Elements(MemberParser(fmt), SepParser(","), s); e.Links? && e.items != []
    ensures var e := Elements(MemberParser(fmt), SepParser(","), s);
      ms.WellFormed(fmt) && s == ms.Text() + e.rest && ms.Pairs(fmt) == e.items
    decreases |s|, 3
  {
    var p := MemberParser(fmt);
    var r := p(s).rest;
    var c := Chain(p, SepParser(","), r);
    var t := MemberSound(fmt, s);
    if c.items == [] {
      ChainUnmoved(p, SepParser(","), r);
      ms := LastMember(t);
    } else {
      hide PairParser, Chain, SepParse;
      ChainAsElements(p, ",", r);
      var m := SepParse(",", r).rest;
      SepShrinksStrictly(",", r);
      var b, a := SepCut(",", r);
      var more := MembersSound(fmt, m);
      ms := Also(t, b, a, more);
      GlueItem(s, t.Text(), r, b, a, m, more.Text(), c.rest);
    }
  }

  lemma ObjectSound(fmt: NumberFormat, s: string) returns (t: Tree)
    requires fmt.ReadsPrefixes()
    requires MapParse("{", ",", "}", MemberParser(fmt), s).Good?
    ensures var o := MapParse("{", ",", "}", MemberParser(fmt), s);
      t.WellFormed(fmt) && s == t.Text() + o.rest && t.Meaning(fmt) == o.value && t.EndsBefore(fmt, o.rest)
    decreases |s|, 0
  {
    var p := MemberParser(fmt);
    hide MapParse, MemberParser, Elements, OpenParse, CloseParse;
    var o := MapParse("{", ",", "}", p, s);
    var x, e := MapParts("{", ",", "}", p, s);
    var a := OpenCut("{", s);
    var b := CloseCut("}", e.rest);
    if e.items == [] {
      ElementsUnmoved(p, SepParser(","), x);
      t := EmptyObject(a + b);
      GlueEmpty(s, "{", a, x, b, "}", o.rest);
    } else {
      var ms := MembersSound(fmt, x);
      t := Object(a, ms, b);
      GlueBrackets(s, "{", a, x, ms.Text(), e.rest, b, "}", o.rest);
    }
  }

  // ---- completeness: every text of the grammar is accepted with its meaning ----

  /** Every tree is read back with its meaning, and exactly its own text is consumed. */
  lemma {:induction false} ValueComplete(fmt: NumberFormat, t: Tree, rest: string)
    requires fmt.ReadsPrefixes() && fmt.StopsAtDelimiters()
    requires t.WellFormed(fmt) && t.EndsBefore(fmt, rest)
    ensures var o := ParseValue(fmt, t.Text() + rest);
      o.Good? && o.rest == rest && o.value == t.Meaning(fmt)
    decreases t
  {
    hide Recurse, BracketedParse, MapParse, PairParser, ViewParse, BoolParse, Kind, ViewSafe, Blank, InsertAll;
    hide Items.Text, Items.Meanings, Items.WellFormed, Members.Text, Members.Pairs, Members.WellFormed;
    var s := t.Text() + rest;
    ValueUnfolds(fmt, s);
    match t
    case NullText => NullComplete(rest);
    case BoolText(b) => BoolComplete(b, rest);
    case NumText(n) => NumberComplete(fmt, n, rest);
    case StrText(w) => KeyComplete(w, rest);
    case EmptyArray(ws) => EmptyArrayComplete(fmt, ws, rest);
    case Array(a, items, b) => ArrayComplete(fmt, a, items, b, rest);
    case EmptyObject(ws) => EmptyObjectComplete(fmt, ws, rest);
    case Object(a, ms, b) => ObjectComplete(fmt, a, ms, b, rest);
  }

  lemma NullComplete(rest: string)
    ensures var s := "null" + rest; Kind(s) == 0 && "null" <= s && s[4..] == rest
  {
  }

  lemma BoolComplete(b: bool, rest: string)
    ensures var s := BoolText(b).Text() + rest;
      Kind(s) == 1 && BoolParse(s) == Good(rest, Bool(b), 0)
  {
    var s := BoolText(b).Text() + rest;
    assert s[0] == if b then 't' else 'f';
    if b {
      assert s[4..] == rest;
    } else {
      assert s[5..] == rest;
    }
  }

  lemma NumberComplete(fmt: NumberFormat, n: string, rest: string)
    requires fmt.ReadsPrefixes() && fmt.Full(n) && fmt.read(n + rest).Good?
    ensures Kind(n + rest) == 2
  {
    assert fmt.ReadsPrefix(n + rest);
  }

  lemma KeyComplete(w: string, rest: string)
    requires ViewSafe(w)
    ensures var s := "\"" + w + "\"" + rest; Kind(s) == 3 && ViewParse(s) == Good(rest, Str(w), 0)
  {
    var s := "\"" + w + "\"" + rest;
    assert s[0] == '"' && s[1..] == w + "\"" + rest;
    ViewBodyComplete(w, rest);
  }

  lemma FailsAtClose(fmt: NumberFormat, s: string)
    requires fmt.ReadsPrefixes() && s != "" && (s[0] == ']' || s[0] == '}')
    ensures ParseValue(fmt, s) == Bad(1)
    ensures MemberParser(fmt)(s) == Bad(0)
  {
    hide Recurse, Alternatives, ViewBody, ValueParser, PairRest;
    ValueUnfolds(fmt, s);
    assert fmt.ReadsPrefix(s);
    assert ViewParser()(s) == Bad(0);
  }

  /** A bracketed sequence put together from its pieces. */
  lemma BracketedWhole(o: string, m: string, c: string, elem: Parser, s: string, x: string, rest: string)
    requires OpenParse(o, s) == Good(x, Empty, 0)
    requires var e := Elements(elem, SepParser(m), x); e.Links? && CloseParse(c, e.rest) == Good(rest, Empty, 0)
    ensures var e := Elements(elem, SepParser(m), x);
      BracketedParse(o, m, c, elem, s) == Good(rest, List(e.items), e.calls)
  {
    hide Elements, OpenParse, CloseParse;
  }

  lemma MapWhole(o: string, m: string, c: string, pair: Parser, s: string, x: string, rest: string)
    requires OpenParse(o, s) == Good(x, Empty, 0)
    requires var e := Elements(pair, SepParser(m), x); e.Links? && CloseParse(c, e.rest) == Good(rest, Empty, 0)
    ensures var e := Elements(pair, SepParser(m), x);
      MapParse(o, m, c, pair, s) == Good(rest, InsertAll(Map([]), e.items), e.calls)
  {
    hide Elements, Collect, OpenParse, CloseParse;
    MapLoopElements(pair, SepParser(m), x);
  }

  /** Reading the brackets of a non-empty array or object. */
  lemma Layout(o: string, a: string, body: string, b: string, c: string, rest: string)
    requires Blank(a) && Blank(b) && |o| == 1 && (c == "]" || c == "}")
    requires body != "" && StartsOutside(body, WHITESPACE)
    ensures var s, tail := o + a + body + b + c + rest, b + c + rest;
      && s[0] == o[0]
      && OpenParse(o, s) == Good(body + tail, Empty, 0)
      && CloseParse(c, tail) == Good(rest, Empty, 0)
      && SepParse(",", tail) == Bad(0) && Delimited(tail)
  {
    var tail := b + c + rest;
    var x := body + tail;
    GlueBrackets(o + a + x, o, a, x, body, tail, b, c, rest);
    hide SkipChars;
    assert x[0] == body[0];
    OpenExact(o, a, x);
    NoSepAtClose(c, b, rest);
    CloseExact(c, b, rest);
    hide OpenParse, CloseParse, SepParse, Delimited;
  }

  /** Reading the brackets of an empty array or object. */
  lemma EmptyLayout(o: string, ws: string, c: string, rest: string)
    requires Blank(ws) && |o| == 1 && (c == "]" || c == "}")
    ensures var s := o + ws + c + rest;
      s[0] == o[0] && OpenParse(o, s) == Good(c + rest, Empty, 0)
    ensures CloseParse(c, c + rest) == Good(rest, Empty, 0)
  {
    Regroup(o + ws, c, rest);
    OpenExact(o, ws, c + rest);
    CloseExact(c, "", rest);
    assert "" + c + rest == c + rest;
  }

  lemma EmptyArrayComplete(fmt: NumberFormat, ws: string, rest: string)
    requires fmt.ReadsPrefixes() && Blank(ws)
    ensures var s := "[" + ws + "]" + rest;
      var o := BracketedParse("[", ",", "]", ValueParser(fmt), s);
      Kind(s) == 4 && o.Good? && o.rest == rest && o.value == List([])
  {
    hide OpenParse, CloseParse, Recurse, BracketedParse;
    var x := "]" + rest;
    EmptyLayout("[", ws, "]", rest);
    FailsAtClose(fmt, x);
    assert Elements(ValueParser(fmt), SepParser(","), x) == Links([], x, 1);
    BracketedWhole("[", ",", "]", ValueParser(fmt), "[" + ws + "]" + rest, x, rest);
  }

  lemma EmptyObjectComplete(fmt: NumberFormat, ws: string, rest: string)
    requires fmt.ReadsPrefixes() && Blank(ws)
    ensures var s := "{" + ws + "}" + rest;
      var o := MapParse("{", ",", "}", MemberParser(fmt), s);
      Kind(s) == 5 && o.Good? && o.rest == rest && o.value == Map([])
  {
    var x := "}" + rest;
    hide OpenParse, CloseParse, MemberParser, MapParse, Recurse;
    FailsAtClose(fmt, x);
    EmptyLayout("{", ws, "}", rest);
    assert Elements(MemberParser(fmt), SepParser(","), x) == Links([], x, 0);
    MapWhole("{", ",", "}", MemberParser(fmt), "{" + ws + "}" + rest, x, rest);
  }

  lemma ArrayComplete(fmt: NumberFormat, a: string, items: Items, b: string, rest: string)
    requires fmt.ReadsPrefixes() && fmt.StopsAtDelimiters()
    requires Blank(a) && Blank(b) && items.WellFormed(fmt)
    ensures var s := "[" + a + items.Text() + b + "]" + rest;
      var o := BracketedParse("[", ",", "]", ValueParser(fmt), s);
      Kind(s) == 4 && o.Good? && o.rest == rest && o.value == List(items.Meanings(fmt))
    decreases items, 1
  {
    hide OpenParse, CloseParse, Elements, BracketedParse, ValueParser, SepParse, Delimited, Items.Text;
    var body, tail := items.Text(), b + "]" + rest;
    ItemsStart(fmt, items);
    Layout("[", a, body, b, "]", rest);
    ItemsComplete(fmt, items, tail);
    BracketedWhole("[", ",", "]", ValueParser(fmt), "[" + a + body + b + "]" + rest, body + tail, rest);
  }

  lemma {:induction false} ItemsComplete(fmt: NumberFormat, items: Items, tail: string)
    requires fmt.ReadsPrefixes() && fmt.StopsAtDelimiters()
    requires items.WellFormed(fmt) && Delimited(tail)
    requires Round(ValueParser(fmt), SepParser(","), tail).Bad?
    ensures var e := Elements(ValueParser(fmt), SepParser(","), items.Text() + tail);
      e.Links? && e.items == items.Meanings(fmt) && e.rest == tail
    decreases items, 0
  {
    hide Recurse, SepParse, Elements, Delimited;
    var v := ValueParser(fmt);
    match items
    case LastItem(t) =>
      EndsBeforeDelimiter(fmt, t, tail);
      ValueComplete(fmt, t, tail);
      ElementsLast(v, ",", t.Text() + tail);
    case Item(t, b, a, more) =>
      var x := more.Text() + tail;
      var r := b + "," + a + x;
      ItemsStart(fmt, more);
      SepAhead(b, a, more.Text(), tail);
      EndsBeforeDelimiter(fmt, t, r);
      ValueComplete(fmt, t, r);
      ItemsComplete(fmt, more, tail);
      GlueItem(t.Text() + r, t.Text(), r, b, a, x, more.Text(), tail);
      ValueParserShrinks(fmt);
      ElementsStep(v, ",", t.Text() + r);
  }

  /** A comma with whitespace around it, before a value or a key. */
  lemma SepAhead(b: string, a: string, more: string, tail: string)
    requires Blank(b) && Blank(a) && StartsOutside(more, WHITESPACE) && more != ""
    ensures SepParse(",", b + "," + a + (more + tail)) == Good(more + tail, Empty, 0)
    ensures Delimited(b + "," + a + (more + tail))
  {
    var x := more + tail;
    assert x[0] == more[0];
    SepExact(",", b, a, x);
    var r := b + "," + a + x;
    assert r[0] == if b == "" then ',' else b[0];
  }

  lemma EndsBeforeDelimiter(fmt: NumberFormat, t: Tree, rest: string)
    requires fmt.StopsAtDelimiters() && t.WellFormed(fmt) && Delimited(rest)
    ensures t.EndsBefore(fmt, rest)
  {
    if t.NumText? {
      assert fmt.StopsAt(t.num, rest);
    }
  }

  lemma ElementsLast(elem: Parser, l: string, s: string)
    requires elem(s).Good? && Round(elem, SepParser(l), elem(s).rest).Bad?
    ensures var e := Elements(elem, SepParser(l), s);
      e.Links? && e.items == [elem(s).value] && e.rest == elem(s).rest
  {
    hide SepParse;
  }

  lemma ObjectComplete(fmt: NumberFormat, a: string, ms: Members, b: string, rest: string)
    requires fmt.ReadsPrefixes() && fmt.StopsAtDelimiters()
    requires Blank(a) && Blank(b) && ms.WellFormed(fmt)
    ensures var s := "{" + a + ms.Text() + b + "}" + rest;
      var o := MapParse("{", ",", "}", MemberParser(fmt), s);
      Kind(s) == 5 && o.Good? && o.rest == rest && o.value == InsertAll(Map([]), ms.Pairs(fmt))
    decreases ms, 1
  {
    hide OpenParse, CloseParse, Elements, MapParse, MemberParser, SepParse, Delimited, Members.Text;
    var body, tail := ms.Text(), b + "}" + rest;
    MembersStart(ms);
    Layout("{", a, body, b, "}", rest);
    MembersComplete(fmt, ms, tail);
    MapWhole("{", ",", "}", MemberParser(fmt), "{" + a + body + b + "}" + rest, body + tail, rest);
  }

  lemma MemberComplete(fmt: NumberFormat, m: Member, rest: string)
    requires fmt.ReadsPrefixes() && fmt.StopsAtDelimiters()
    requires m.WellFormed(fmt) && Delimited(rest)
    ensures var o := MemberParser(fmt)(m.Text() + rest);
      o.Good? && o.rest == rest && o.value == m.Pair(fmt)
    decreases m
  {
    var x := m.val.Text() + rest;
    var r := m.before + ":" + m.after + x;
    var q := "\"" + m.key + "\"";
    Regroup(m.before + ":" + m.after, m.val.Text(), rest);
    Regroup(q, m.before + ":" + m.after + m.val.Text(), rest);
    KeyComplete(m.key, r);
    TextStarts(fmt, m.val);
    assert x[0] == m.val.Text()[0];
    SepExact(":", m.before, m.after, x);
    EndsBeforeDelimiter(fmt, m.val, rest);
    ValueComplete(fmt, m.val, rest);
    hide Recurse, SepParse, ViewParse;
    assert MemberParser(fmt)(m.Text() + rest) == PairParse(":", ViewParser(), ValueParser(fmt), q + r);
  }

  lemma {:induction false} MembersComplete(fmt: NumberFormat, ms: Members, tail: string)
    requires fmt.ReadsPrefixes() && fmt.StopsAtDelimiters()
    requires ms.WellFormed(fmt) && Delimited(tail)
    requires Round(MemberParser(fmt), SepParser(","), tail).Bad?
    ensures var e := Elements(MemberParser(fmt), SepParser(","), ms.Text() + tail);
      e.Links? && e.items == ms.Pairs(fmt) && e.rest == tail
    decreases ms, 0
  {
    hide MemberParser, SepParse, Elements, Delimited;
    var p := MemberParser(fmt);
    match ms
    case LastMember(m) =>
      MemberComplete(fmt, m, tail);
      ElementsLast(p, ",", m.Text() + tail);
    case Also(m, b, a, more) =>
      var x := more.Text() + tail;
      var r := b + "," + a + x;
      MembersStart(more);
      SepAhead(b, a, more.Text(), tail);
      MemberComplete(fmt, m, r);
      MembersComplete(fmt, more, tail);
      GlueItem(m.Text() + r, m.Text(), r, b, a, x, more.Text(), tail);
      MemberParserShrinks(fmt);
      ElementsStep(p, ",", m.Text() + r);
  }

  lemma MemberParserShrinks(fmt: NumberFormat)
    ensures Shrinks(MemberParser(fmt))
  {
    ViewParserShrinks();
    ValueParserShrinks(fmt);
    PairShrinks(":", ViewParser(), ValueParser(fmt));
  }

  // ---- trailing commas ----

  /** A comma before a closing bracket is no separator, and no bracket can be closed before it. */
  lemma CommaBeforeClose(fmt: NumberFormat, b: string, a: string, c: string, rest: string)
    requires fmt.ReadsPrefixes() && Blank(b) && Blank(a) && (c == "]" || c == "}")
    ensures var tail := b + "," + a + (c + rest);
      && Delimited(tail)
      && Round(ValueParser(fmt), SepParser(","), tail).Bad?
      && Round(MemberParser(fmt), SepParser(","), tail).Bad?
      && CloseParse(c, tail) == Bad(0)
  {
    hide Recurse, MemberParser, SepParse, CloseParse;
    SepAhead(b, a, c, rest);
    FailsAtClose(fmt, c + rest);
    NoCloseAtComma(c, b, a + (c + rest));
    Regroup(b + ",", a, c + rest);
  }

  lemma NoCloseAtComma(c: string, b: string, x: string)
    requires Blank(b) && (c == "]" || c == "}")
    ensures CloseParse(c, b + "," + x) == Bad(0)
  {
    BlankIs(b);
    assert b + "," + x == b + ("," + x);
    SkipCharsExact(WHITESPACE, b, "," + x);
  }

  /** An array with a comma after its last item is rejected, whatever follows it. */
  lemma NoTrailingCommaInArray(fmt: NumberFormat, a: string, items: Items, b: string, a': string, rest: string)
    requires fmt.ReadsPrefixes() && fmt.StopsAtDelimiters() && items.WellFormed(fmt)
    requires Blank(a) && Blank(b) && Blank(a')
    ensures ParseValue(fmt, "[" + a + (items.Text() + (b + "," + a' + ("]" + rest)))).Bad?
  {
    hide Recurse, OpenParse, CloseParse, Elements, SepParse, Round, Delimited, Items.Text;
    var tail := b + "," + a' + ("]" + rest);
    var x := items.Text() + tail;
    var s := "[" + a + x;
    ItemsStart(fmt, items);
    assert x[0] == items.Text()[0] && s[0] == '[';
    OpenExact("[", a, x);
    CommaBeforeClose(fmt, b, a', "]", rest);
    ItemsComplete(fmt, items, tail);
    ValueUnfolds(fmt, s);
  }

  /** So is an object with a comma after its last member. */
  lemma NoTrailingCommaInObject(fmt: NumberFormat, a: string, ms: Members, b: string, a': string, rest: string)
    requires fmt.ReadsPrefixes() && fmt.StopsAtDelimiters() && ms.WellFormed(fmt)
    requires Blank(a) && Blank(b) && Blank(a')
    ensures ParseValue(fmt, "{" + a + (ms.Text() + (b + "," + a' + ("}" + rest)))).Bad?
  {
    hide Recurse, OpenParse, CloseParse, Elements, Collect, SepParse, Round, Delimited, Members.Text, MemberParser;
    var tail := b + "," + a' + ("}" + rest);
    var x := ms.Text() + tail;
    var s := "{" + a + x;
    MembersStart(ms);
    assert x[0] == '"' && s[0] == '{';
    OpenExact("{", a, x);
    CommaBeforeClose(fmt, b, a', "}", rest);
    MembersComplete(fmt, ms, tail);
    MapLoopElements(MemberParser(fmt), SepParser(","), x);
    MemberParserIs(fmt);
    ValueUnfolds(fmt, s);
  }

  // ---- both directions ----

  /** `text` is a JSON text with meaning `v` that `rest` does not extend. */
  ghost predicate Derives(fmt: NumberFormat, t: Tree, s: string, v: Value, rest: string) {
    t.WellFormed(fmt) && s == t.Text() + rest && t.Meaning(fmt) == v && t.EndsBefore(fmt, rest)
  }

  /** parse_value returns v and rest exactly when the text is a JSON text for v followed by rest, where
      rest may be anything unless the value is a number that rest would extend. */
  lemma ParseValueExact(fmt: NumberFormat, s: string, v: Value, rest: string)
    requires fmt.ReadsPrefixes() && fmt.StopsAtDelimiters()
    ensures var o := ParseValue(fmt, s);
      (o.Good? && o.value == v && o.rest == rest) <==> exists t :: Derives(fmt, t, s, v, rest)
  {
    hide Recurse;
    var o := ParseValue(fmt, s);
    if o.Good? && o.value == v && o.rest == rest {
      var t := ValueSound(fmt, s);
      assert Derives(fmt, t, s, v, rest);
    }
    if t :| Derives(fmt, t, s, v, rest) {
      ValueComplete(fmt, t, rest);
    }
  }

  /** The grammar is unambiguous: a text has one meaning. */
  lemma OneMeaning(fmt: NumberFormat, t: Tree, u: Tree)
    requires fmt.ReadsPrefixes() && fmt.StopsAtDelimiters()
    requires t.WellFormed(fmt) && u.WellFormed(fmt) && t.Text() == u.Text()
    ensures t.Meaning(fmt) == u.Meaning(fmt)
  {
    hide Recurse;
    EndsBeforeDelimiter(fmt, t, "");
    EndsBeforeDelimiter(fmt, u, "");
    ValueComplete(fmt, t, "");
    ValueComplete(fmt, u, "");
  }

  // ---- whole documents ----

  /** `s` is a JSON document: a value with whitespace around it. */
  ghost predicate Document(fmt: NumberFormat, a: string, t: Tree, b: string, s: string, v: Value) {
    && Blank(a) && Blank(b)
    && t.WellFormed(fmt) && t.Meaning(fmt) == v
    && s == a + t.Text() + b
  }

  lemma TwoItems(t: Tree, more: Items)
    ensures Item(t, "", "", more).Text() == t.Text() + ("" + "," + "" + more.Text())
  {
  }

  /** No delimiter is asked for in vain: each can stand right after a number in a document. */
  lemma DelimiterOccurs(fmt: NumberFormat, n: string, rest: string)
      returns (a: string, t: Tree, b: string, before: string, after: string)
    requires fmt.Full(n) && Delimited(rest) && rest != ""
    ensures Document(fmt, a, t, b, before + n + [rest[0]] + after, t.Meaning(fmt))
  {
    var c := rest[0];
    var num := NumText(n);
    a, b, before, after := "", "", "", "";
    if IsBlank(c) {
      t, b := num, [c];
      assert "" + n + [c] == "" + n + [c] + "";
    } else if c == ',' {
      var last := LastItem(num);
      var items := Item(num, "", "", last);
      t, before, after := Array("", items, ""), "[", n + "]";
      TwoItems(num, last);
      assert num.Text() == n && last.Text() == n;
      assert last.WellFormed(fmt) && items.WellFormed(fmt);
      assert "[" + "" + (n + ("" + "," + "" + n)) + "" + "]" == "[" + n + [c] + (n + "]");
      assert "" + t.Text() + "" == t.Text();
    } else if c == ']' {
      t, before := Array("", LastItem(num), ""), "[";
      assert LastItem(num).Text() == n && LastItem(num).WellFormed(fmt);
      assert "[" + "" + n + "" + "]" == "[" + n + [c] + "";
      assert "" + t.Text() + "" == t.Text();
    } else {
      var ms := LastMember(Member("", "", "", num));
      t, before := Object("", ms, ""), "{\"\":";
      var m := "\"" + "" + "\"" + ("" + ":" + "" + n);
      EmptyIsViewSafe();
      assert num.Text() == n && ms.member.Text() == m && ms.Text() == m;
      assert num.WellFormed(fmt) && ms.member.WellFormed(fmt) && ms.WellFormed(fmt);
      assert t.Text() == "{" + "" + m + "" + "}";
      assert "{" + "" + m + "" + "}" == "{\"\":" + n + [c] + "";
      assert "" + t.Text() + "" == t.Text();
    }
  }

  /** Every document is read to its end, with its meaning. */
  lemma DocumentComplete(fmt: NumberFormat, a: string, t: Tree, b: string, s: string, v: Value)
    requires fmt.ReadsPrefixes() && fmt.StopsAtDelimiters() && Document(fmt, a, t, b, s, v)
    ensures var o := ParseJson(fmt, s); o.Good? && o.rest == "" && o.value == v
  {
    hide Run, Recurse;
    BlankIs(a);
    BlankIs(b);
    JsonUnfolds(fmt, s);
    TextStarts(fmt, t);
    Regroup(a, t.Text(), b);
    var x := t.Text() + b;
    assert x[0] == t.Text()[0];
    SkipCharsExact(WHITESPACE, a, x);
    EndsBeforeDelimiter(fmt, t, b);
    ValueComplete(fmt, t, b);
    SkipCharsExact(WHITESPACE, b, "");
    assert b + "" == b;
  }

  lemma DocumentSound(fmt: NumberFormat, s: string) returns (a: string, t: Tree, b: string)
    requires fmt.ReadsPrefixes() && ParseJson(fmt, s).Good? && ParseJson(fmt, s).rest == ""
    ensures Document(fmt, a, t, b, s, ParseJson(fmt, s).value)
  {
    hide ParseJson, Recurse, Taken;
    JsonUnfolds(fmt, s);
    var x := SkipChars(WHITESPACE, s);
    a := Taken(WHITESPACE, s);
    t := ValueSound(fmt, x);
    b := ParseValue(fmt, x).rest;
    TakenThenRest(WHITESPACE, s);
    TakenThenRest(WHITESPACE, b);
    assert Taken(WHITESPACE, b) + "" == Taken(WHITESPACE, b);
    Regroup(a, t.Text(), b);
    BlankIs(a);
    BlankIs(b);
  }

  /** parse_json reads a text to its end, with value v, exactly when the text is a document meaning v. */
  lemma ParseJsonExact(fmt: NumberFormat, s: string, v: Value)
    requires fmt.ReadsPrefixes() && fmt.StopsAtDelimiters()
    ensures var o := ParseJson(fmt, s);
      (o.Good? && o.rest == "" && o.value == v) <==> exists a, t, b :: Document(fmt, a, t, b, s, v)
  {
    hide ParseJson, Document;
    var o := ParseJson(fmt, s);
    if o.Good? && o.rest == "" && o.value == v {
      var a, t, b := DocumentSound(fmt, s);
    }
    if a, t, b :| Document(fmt, a, t, b, s, v) {
      DocumentComplete(fmt, a, t, b, s, v);
    }
  }
}
