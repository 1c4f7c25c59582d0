/** Backtracking never re-parses: how often parse_value is invoked while reading a text. */
module JsonCost {
  import opened Text
  import opened Values
  import opened Outcomes
  import opened Scanners
  import opened Chains
  import opened Combinators
  import opened Laws
  import opened Recursion
  import opened JsonSyntax
  import opened JsonParser
  import opened JsonGrammar

  /** At most one call for each character consumed on success, and at most one more than the length of
      the text on failure. */
  predicate Frugal(o: Outcome, s: string) {
    match o
    case Good(r, _, c) => |r| <= |s| && c <= |s| - |r|
    case Bad(c) => c <= |s| + 1
    case Diverge => false
  }

  ghost predicate FrugalBelow(p: Parser, n: nat) {
    forall s :: |s| < n ==> Frugal(p(s), s)
  }

  /** A chain costs no more than it consumes, unless its last element failed after a separator. */
  lemma {:induction false} ChainFrugal(elem: Parser, l: string, s: string, n: nat)
    requires l != "" && FrugalBelow(elem, n) && |s| <= n
    ensures var c := Chain(elem, SepParser(l), s);
      c.Links? && |c.rest| <= |s| && c.calls <= |s| - |c.rest| + if SepParse(l, c.rest).Good? then |c.rest| else 0
    decreases |s|
  {
    hide SepParse;
    SepShrinksStrictly(l, s);
    SepCostsNothing(l, s);
    var m := SepParse(l, s);
    if m.Good? {
      var o := elem(m.rest);
      assert Frugal(o, m.rest);
      if o.Good? {
        ChainFrugal(elem, l, o.rest, n);
      }
    }
  }

  lemma SepCostsNothing(l: string, s: string)
    ensures SepParse(l, s) != Diverge && SepParse(l, s).calls == 0
  {
  }

  lemma ElementsFrugal(elem: Parser, l: string, t: string)
    requires l != "" && FrugalBelow(elem, |t| + 1) && elem(t).Good?
    ensures var e := Elements(elem, SepParser(l), t);
      e.Links? && |e.rest| <= |t| && e.calls <= |t| - |e.rest| + if SepParse(l, e.rest).Good? then |e.rest| else 0
  {
    hide SepParse, Chain;
    ChainFrugal(elem, l, elem(t).rest, |t| + 1);
    assert Frugal(elem(t), t);
  }

  /** Where a comma can be read no bracket can be closed. */
  lemma NoCloseAtSep(c: string, q: string)
    requires (c == "]" || c == "}") && SepParse(",", q).Good?
    ensures CloseParse(c, q) == Bad(0)
  {
  }

  lemma CloseCosts(c: string, q: string)
    requires c != ""
    ensures CloseParse(c, q) != Diverge && CloseParse(c, q).calls == 0
    ensures CloseParse(c, q).Good? ==> |CloseParse(c, q).rest| < |q|
  {
  }

  /** Elements and the closing bracket after them, where `t` begins after the opening bracket. */
  lemma ClosedFrugal(elem: Parser, c: string, t: string)
    requires FrugalBelow(elem, |t| + 1) && (c == "]" || c == "}")
    requires elem(t).Bad? ==> StartsOutside(t, WHITESPACE) && (c <= t ==> elem(t).calls <= 1)
    ensures var e := Elements(elem, SepParser(","), t);
      Frugal(ThenClose(ListOf(e), c), t) && Frugal(ThenClose(MapOf(e), c), t)
  {
    var e := Elements(elem, SepParser(","), t);
    assert Frugal(elem(t), t);
    if elem(t).Good? {
      ElementsFrugal(elem, ",", t);
      if SepParse(",", e.rest).Good? {
        NoCloseAtSep(c, e.rest);
      }
    }
    hide SepParse, Elements, InsertAll;
    CloseCosts(c, e.rest);
    hide CloseParse;
    if elem(t).Bad? && CloseParse(c, t).Good? {
      CloseAtStart(c, t);
    }
  }

  lemma CloseAtStart(c: string, t: string)
    requires StartsOutside(t, WHITESPACE) && CloseParse(c, t).Good?
    ensures c <= t
  {
  }

  lemma OpenCosts(o: string, s: string)
    requires |o| == 1 && o <= s
    ensures OpenParse(o, s).Good? && OpenParse(o, s).calls == 0
    ensures |OpenParse(o, s).rest| < |s| && StartsOutside(OpenParse(o, s).rest, WHITESPACE)
  {
  }

  // ---- parse_value ----

  lemma ArrayFrugal(fmt: NumberFormat, s: string)
    requires fmt.ReadsPrefixes() && "[" <= s && FrugalBelow(ValueParser(fmt), |s|)
    ensures Frugal(BracketedParse("[", ",", "]", ValueParser(fmt), s).After(1), s)
  {
    hide ValueParser, OpenParse, Elements, CloseParse;
    var v := ValueParser(fmt);
    OpenCosts("[", s);
    var t := OpenParse("[", s).rest;
    if "]" <= t {
      ClosesAtOnce(fmt, t);
    }
    ClosedFrugal(v, "]", t);
  }

  lemma ClosesAtOnce(fmt: NumberFormat, t: string)
    requires fmt.ReadsPrefixes() && ("]" <= t || "}" <= t)
    ensures ValueParser(fmt)(t) == Bad(1) && MemberParser(fmt)(t) == Bad(0)
  {
    hide Recurse;
    FailsAtClose(fmt, t);
    hide MemberParser;
  }

  lemma PairRestFrugal(k: Value, val: Parser, m: string, n: nat)
    requires FrugalBelow(val, n) && |m| <= n
    ensures Frugal(PairRest(":", k, val, m), m)
  {
    hide SepParse;
    SepShrinksStrictly(":", m);
    SepCostsNothing(":", m);
    var t := SepParse(":", m);
    if t.Good? {
      assert Frugal(val(t.rest), t.rest);
    }
  }

  lemma MembersFrugal(fmt: NumberFormat, n: nat)
    requires FrugalBelow(ValueParser(fmt), n)
    ensures FrugalBelow(MemberParser(fmt), n)
  {
    hide ValueParser, ViewBody, PairRest;
    var v := ValueParser(fmt);
    forall x | |x| < n ensures Frugal(MemberParser(fmt)(x), x) {
      var k := ViewParse(x);
      KeyIsShorter(x);
      assert MemberParser(fmt)(x) == PairParse(":", ViewParser(), v, x);
      if k.Good? {
        PairRestFrugal(k.value, v, k.rest, n);
      }
    }
  }

  lemma ObjectFrugal(fmt: NumberFormat, s: string)
    requires fmt.ReadsPrefixes() && "{" <= s && FrugalBelow(ValueParser(fmt), |s|)
    ensures Frugal(MapParse("{", ",", "}", MemberParser(fmt), s).After(1), s)
  {
    hide MemberParser, OpenParse, Elements, CloseParse, Collect;
    var p := MemberParser(fmt);
    MembersFrugal(fmt, |s|);
    OpenCosts("{", s);
    var t := OpenParse("{", s).rest;
    if "}" <= t {
      ClosesAtOnce(fmt, t);
    }
    MapLoopElements(p, SepParser(","), t);
    ClosedFrugal(p, "}", t);
  }

  /** On every text parse_value is invoked at most once per character consumed when it succeeds, and at
      most once more than the text is long when it fails, all failed attempts and nested calls counted. */
  lemma {:induction false} ValueFrugal(fmt: NumberFormat, s: string)
    requires fmt.ReadsPrefixes()
    ensures Frugal(ParseValue(fmt, s), s)
    decreases |s|
  {
    hide Recurse, BracketedParse, MapParse, PairParser, ViewBody;
    var v := ValueParser(fmt);
    assert FrugalBelow(v, |s|) by {
      forall x | |x| < |s| ensures Frugal(v(x), x) {
        ValueFrugal(fmt, x);
      }
    }
    ValueUnfolds(fmt, s);
    var k := Kind(s);
    if k == 2 {
      assert fmt.ReadsPrefix(s);
    } else if k == 3 {
      LeafShrinks(s);
      KeyIsShorter(s);
    } else if k == 4 {
      ArrayFrugal(fmt, s);
    } else if k == 5 {
      MemberParserIs(fmt);
      ObjectFrugal(fmt, s);
    }
  }

  lemma KeyIsShorter(s: string)
    ensures ViewParse(s).Good? ==> |ViewParse(s).rest| < |s|
  {
    if ViewParse(s).Good? {
      KeySound(s);
    }
  }
}
