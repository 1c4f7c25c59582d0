/** `state`: a window into a character buffer, possibly null; and the parsers that move over its
    characters in place. A parameter the source passes by reference is returned as a result. */
module Windows {
  import opened Text
  import opened Values
  import opened Outcomes
  import opened Scanners

  /** `_begin` and `_end` as indices into the buffer they point into; `Null` when they are null. */
  datatype State = Null | Window(buf: string, begin: nat, end: nat) {

    predicate Valid() {
      Window? && begin <= end <= |buf|
    }

    function Text(): string
      requires Valid()
    {
      buf[begin..end]
    }

    function Size(): nat
      requires Valid()
    {
      end - begin
    }

    /** remove_prefix(n), substr(n) */
    function Drop(n: nat): (st: State)
      requires Valid() && n <= Size()
      ensures Within(st, this) && st.Text() == Text()[n..]
    {
      Window(buf, begin + n, end)
    }

    /** The window onto the last |rest| characters: where a parser that leaves `rest` stands. */
    function At(rest: string): (st: State)
      requires Valid() && IsSuffix(rest, Text())
      ensures Within(st, this) && st.Text() == rest
    {
      Drop(Size() - |rest|)
    }
  }

  /** `st'` is a valid window of the same buffer with the same end, and begins no earlier. */
  predicate Within(st': State, st: State) {
    st.Valid() && st'.Valid() && st'.buf == st.buf && st'.end == st.end && st.begin <= st'.begin
  }

  // ---- starts_with and check_and_update ----

  method StartsWith(st: State, prefix: string) returns (b: bool)
    requires st.Valid()
    ensures b <==> prefix <= st.Text()
  {
    if st.Size() < |prefix| {
      return false;
    }
    var i := 0;
    while i < |prefix|
      invariant 0 <= i <= |prefix|
      invariant prefix[..i] == st.Text()[..i]
    {
      if prefix[i] != st.buf[st.begin + i] {
        assert st.Text()[i] != prefix[i];
        return false;
      }
      i := i + 1;
    }
    assert prefix == prefix[..i];
    return true;
  }

  /** string_literal, char_literal and empty_literal: the state moves only on a match. */
  method CheckAndUpdate(lit: string, st: State) returns (ok: bool, st': State)
    requires st.Valid()
    ensures ok <==> lit <= st.Text()
    ensures st' == if ok then st.Drop(|lit|) else st
  {
    ok := StartsWith(st, lit);
    st' := if ok then st.Drop(|lit|) else st;
  }

  /** Tries the literals in order until one matches. */
  method CheckAny(lits: seq<string>, st: State) returns (ok: bool, st': State)
    requires st.Valid()
    ensures ok <==> LiteralParse(lits, Empty, st.Text()).Good?
    ensures st' == if ok then st.At(LiteralParse(lits, Empty, st.Text()).rest) else st
  {
    ok, st' := false, st;
    var i := 0;
    assert lits[0..] == lits;
    while i < |lits| && !ok
      invariant 0 <= i <= |lits|
      invariant !ok ==> st' == st && LiteralParse(lits, Empty, st.Text()) == LiteralParse(lits[i..], Empty, st.Text())
      invariant ok ==> LiteralParse(lits, Empty, st.Text()).Good?
      invariant ok ==> st' == st.At(LiteralParse(lits, Empty, st.Text()).rest)
    {
      ok, st' := CheckAndUpdate(lits[i], st);
      assert lits[i..][0] == lits[i] && lits[i..][1..] == lits[i + 1..];
      i := i + 1;
    }
  }

  // ---- zero_or_more_chars and count_chars ----

  method ZeroOrMoreChars(cs: set<char>, st: State) returns (st': State)
    requires st.Valid()
    ensures st' == st.At(SkipChars(cs, st.Text()))
  {
    hide SkipChars;
    var begin, end := st.begin, st.end;
    while begin < end && st.buf[begin] in cs
      invariant st.begin <= begin <= end == st.end
      invariant SkipChars(cs, st.Text()) == SkipChars(cs, st.buf[begin..end])
    {
      SkipOne(cs, st.buf[begin..end]);
      assert st.buf[begin..end][1..] == st.buf[begin + 1..end];
      begin := begin + 1;
    }
    st' := Window(st.buf, begin, end);
    SkipNone(cs, st.buf[begin..end]);
  }

  lemma SkipOne(cs: set<char>, t: string)
    requires t != "" && t[0] in cs
    ensures SkipChars(cs, t) == SkipChars(cs, t[1..])
  {
  }

  lemma SkipNone(cs: set<char>, t: string)
    requires StartsOutside(t, cs)
    ensures SkipChars(cs, t) == t
  {
  }

  method CountChars(cs: set<char>, st: State) returns (st': State, count: nat)
    requires st.Valid()
    ensures st' == st.At(SkipChars(cs, st.Text()))
    ensures count == |st.Text()| - |SkipChars(cs, st.Text())|
  {
    var size := st.Size();
    var i := 0;
    assert st.Text()[0..] == st.Text();
    while i < size
      invariant 0 <= i <= size
      invariant SkipChars(cs, st.Text()) == SkipChars(cs, st.Text()[i..])
    {
      var current := st.buf[st.begin + i];
      assert current == st.Text()[i..][0];
      if current !in cs {
        break;
      }
      assert st.Text()[i..][1..] == st.Text()[i + 1..];
      i := i + 1;
    }
    st', count := st.Drop(i), i;
  }

  /** The result of a scan over a window: where it ended and what it read. */
  datatype Scanned = NoScan | Scanned(st: State, value: Value)

  /** `r` is what `o` says, on the window `st`. */
  predicate ScanIs(r: Scanned, st: State, o: Outcome)
    requires st.Valid()
  {
    match o
    case Good(rest, v, _) => IsSuffix(rest, st.Text()) && r == Scanned(st.At(rest), v)
    case Bad(_) => r == NoScan
    case Diverge => false
  }

  // ---- bool_parser ----

  method ScanBool(st: State) returns (r: Scanned)
    requires st.Valid()
    ensures ScanIs(r, st, BoolParse(st.Text()))
  {
    var isTrue := StartsWith(st, "true");
    if isTrue {
      return Scanned(st.Drop(4), Bool(true));
    }
    var isFalse := StartsWith(st, "false");
    if isFalse {
      return Scanned(st.Drop(5), Bool(false));
    }
    return NoScan;
  }

  // ---- view_parser<'"', '"', '\\'> ----

  /** How far into the text the scan has come: the first `k` characters belong to the view. */
  ghost predicate ViewScanned(t: string, k: nat) {
    k <= |t| && ViewBody(t) == Push(t[..k], ViewBody(t[k..]))
  }

  /** The number of characters the loop passes over in one round. */
  function ViewRound(t: string): nat {
    if "\\\"" <= t then 2 else 1
  }

  lemma ViewAdvances(t: string, k: nat)
    requires ViewScanned(t, k) && k < |t| && t[k] != '"'
    ensures ViewScanned(t, k + ViewRound(t[k..]))
  {
    var n := ViewRound(t[k..]);
    assert t[k..][n..] == t[k + n..] && t[k..][..n] == t[k..k + n];
    hide Push;
    PushPush(t[..k], t[k..k + n], ViewBody(t[k + n..]));
    assert t[..k] + t[k..k + n] == t[..k + n];
  }

  lemma ViewEnds(t: string, k: nat)
    requires ViewScanned(t, k) && k < |t| && t[k] == '"'
    ensures ViewBody(t) == Cut(t[..k], t[k + 1..])
  {
    assert t[k..][1..] == t[k + 1..];
    assert t[..k] + "" == t[..k];
  }

  lemma ViewNeverEnds(t: string)
    requires ViewScanned(t, |t|)
    ensures ViewBody(t) == NoCut
  {
    assert t[|t|..] == "";
  }

  /** An escape and the quote after it, if there is one; otherwise one character. */
  method PassOver(st0: State) returns (st: State)
    requires st0.Valid() && st0.Size() > 0
    ensures st == st0.Drop(ViewRound(st0.Text()))
  {
    var ok;
    ok, st := CheckAndUpdate("\\", st0);
    if ok {
      ok, st := CheckAndUpdate("\"", st);
      assert "\\\"" <= st0.Text() <==> "\"" <= st0.Text()[1..];
    } else {
      st := st.Drop(1);
    }
  }

  lemma ViewReturns(st0: State, k: nat, st: State)
    requires st0.Valid() && "\"" <= st0.Text() && k + 1 < st0.Size() && st == st0.Drop(k + 2)
    requires ViewBody(st0.Text()[1..]) == Cut(st0.Text()[1..][..k], st0.Text()[1..][k + 1..])
    ensures ScanIs(Scanned(st, Str(st0.buf[st0.begin + 1..st0.begin + 1 + k])), st0, ViewParse(st0.Text()))
  {
    var s := st0.Text();
    assert s[1..][k + 1..] == s[k + 2..] && s[1..][..k] == st0.buf[st0.begin + 1..st0.begin + 1 + k];
    assert IsSuffix(s[k + 2..], s);
  }

  method ScanView(st0: State) returns (r: Scanned)
    requires st0.Valid()
    ensures ScanIs(r, st0, ViewParse(st0.Text()))
  {
    hide ViewBody, ViewScanned;
    var ok, st := CheckAndUpdate("\"", st0);
    if ok {
      var viewBegin := st.begin;
      ghost var t := st.Text();
      ViewStarts(t);
      while st.Size() > 0
        invariant st.Valid() && viewBegin <= st.begin && st == Window(st0.buf, st.begin, st0.end)
        invariant ViewScanned(t, st.begin - viewBegin)
        decreases st.Size()
      {
        var viewEnd := st.begin;
        ghost var k := viewEnd - viewBegin;
        assert st.Text() == t[k..];
        ok, st := CheckAndUpdate("\"", st);
        if ok {
          ViewEnds(t, k);
          ViewReturns(st0, k, st);
          return Scanned(st, Str(st0.buf[viewBegin..viewEnd]));
        }
        ViewAdvances(t, k);
        st := PassOver(st);
      }
      ViewNeverEnds(t);
    }
    return NoScan;
  }

  lemma ViewStarts(t: string)
    ensures ViewScanned(t, 0)
  {
    assert t[0..] == t;
    if ViewBody(t).Cut? {
      assert "" + ViewBody(t).body == ViewBody(t).body;
    }
  }

  lemma PushPush(a: string, b: string, c: Cut)
    ensures Push(a, Push(b, c)) == Push(a + b, c)
  {
    if c.Cut? {
      Regroup(a, b, c.body);
    }
  }

  // ---- string_parser ----

  /** The text runs out right after a recognised escape, with no quote before that. */
  predicate RunsPast(t: string) {
    if t == "" then true
    else if t[0] == '"' then false
    else if t[0] == '\\' then |t| > 1 && Decode(t[1]) != "" && RunsPast(t[2..])
    else |t| > 1 && RunsPast(t[1..])
  }

  /** The windows on which the parser looks at the byte just after their end. */
  predicate ReadsPast(s: string) {
    "\"" <= s && |s| > 1 && RunsPast(s[1..])
  }

  /** It looks there and finds a quote, which is not part of the window. */
  predicate Overruns(st: State)
    requires st.Valid()
  {
    ReadsPast(st.Text()) && st.end < |st.buf| && st.buf[st.end] == '"'
  }

  function Prefixed(str: string, d: Decoded): Decoded {
    if d.Decoded? then Decoded(str + d.text) else Malformed
  }

  /** After `i` characters, `str` is what has been decoded of the body. */
  ghost predicate StringScanned(s: string, i: nat, str: string) {
    && 1 <= i <= |s|
    && StringBody(s[1..]) == Push(str, StringBody(s[i..]))
    && Unescape(s[1..]) == Prefixed(str, Unescape(s[i..]))
    && RunsPast(s[1..]) == RunsPast(s[i..])
  }

  lemma StringStarts(s: string)
    requires s != ""
    ensures StringScanned(s, 1, "")
  {
    hide StringBody, Unescape, RunsPast;
    var c, d := StringBody(s[1..]), Unescape(s[1..]);
    assert c.Cut? ==> "" + c.body == c.body;
    assert d.Decoded? ==> "" + d.text == d.text;
  }

  /** One round of the loop on what is left of the text. */
  lemma StringRound(t: string, val: string)
    requires |t| > 1 && t[0] != '"' && val == (if t[0] == '\\' then Decode(t[1]) else [t[0]]) && val != ""
    ensures var u := t[if t[0] == '\\' then 2 else 1..];
      && StringBody(t) == Push(val, StringBody(u))
      && Unescape(t) == Prefixed(val, Unescape(u))
      && RunsPast(t) == RunsPast(u)
  {
    assert t[..1] == [t[0]];
  }

  lemma StringAdvances(s: string, i: nat, str: string, val: string)
    requires StringScanned(s, i, str) && i + 1 < |s| && s[i] != '"'
    requires val == (if s[i] == '\\' then Decode(s[i + 1]) else [s[i]]) && val != ""
    ensures StringScanned(s, if s[i] == '\\' then i + 2 else i + 1, str + val)
  {
    hide StringBody, Unescape, RunsPast, Push, Decode;
    var n := if s[i] == '\\' then 2 else 1;
    assert s[i..][n..] == s[i + n..];
    StringRound(s[i..], val);
    PushPush(str, val, StringBody(s[i + n..]));
    var d := Unescape(s[i + n..]);
    assert d.Decoded? ==> str + (val + d.text) == str + val + d.text;
  }

  /** The loop stops short of the end, where no quote stands or an escape is not recognised. */
  lemma StringFails(s: string, i: nat, str: string)
    requires StringScanned(s, i, str) && i < |s| && s[i] != '"'
    requires i == |s| - 1 || (s[i] == '\\' && Decode(s[i + 1]) == "")
    ensures StringBody(s[1..]) == NoCut && !RunsPast(s[1..])
  {
    if i == |s| - 1 {
      assert s[i..] == [s[i]];
      assert [s[i]][1..] == "";
    }
  }

  /** The loop stops past the end of the window. */
  lemma StringPasses(s: string, str: string)
    requires StringScanned(s, |s|, str)
    ensures StringBody(s[1..]) == NoCut && RunsPast(s[1..]) && Unescape(s[1..]) == Decoded(str)
  {
    assert s[|s|..] == "";
    assert str + "" == str;
  }

  lemma StringEnds(s: string, i: nat, str: string)
    requires StringScanned(s, i, str) && i < |s| && s[i] == '"'
    ensures StringBody(s[1..]) == Cut(str, s[i + 1..]) && !RunsPast(s[1..])
  {
    assert s[i..][1..] == s[i + 1..];
    assert str + "" == str;
  }

  /** Exactly as specified, except on a window whose last escape ends it and that a quote follows: there
      the parser succeeds although the text holds no closing quote, and leaves a window that begins one
      past its own end. */
  method ScanString(st: State) returns (r: Scanned)
    requires st.Valid() && (ReadsPast(st.Text()) ==> st.end < |st.buf|)
    ensures !Overruns(st) ==> ScanIs(r, st, StringParse(st.Text()))
    ensures Overruns(st) ==>
      && StringParse(st.Text()) == Bad(0)
      && r.Scanned? && r.st == Window(st.buf, st.end + 1, st.end)
      && r.value.Str? && Unescape(st.Text()[1..]) == Decoded(r.value.text)
  {
    hide StringBody, StringScanned, RunsPast, Unescape, Decode;
    ghost var s := st.Text();
    if st.Size() >= 2 && st.buf[st.begin] == '"' {
      var str := "";
      var i := 1;
      var count := st.Size() - 1;
      StringStarts(s);
      while i < count
        invariant 1 <= i <= count + 1
        invariant StringScanned(s, i, str)
      {
        var c := st.buf[st.begin + i];
        assert s[i] == c && s[i + 1] == st.buf[st.begin + i + 1];
        var val := [c];
        ghost var k := i;
        if c == '\\' {
          val := Decode(st.buf[st.begin + i + 1]);
          if val == "" {
            StringFails(s, i, str);
            return NoScan;
          }
          i := i + 2;
        } else if c == '"' {
          break;
        } else {
          i := i + 1;
        }
        StringAdvances(s, k, str, val);
        str := str + val;
      }
      if i == |s| {
        StringPasses(s, str);
      } else if s[i] == '"' {
        StringEnds(s, i, str);
      } else {
        StringFails(s, i, str);
      }
      assert i < |s| ==> s[i] == st.buf[st.begin + i];
      if st.buf[st.begin + i] == '"' {
        return Scanned(Window(st.buf, st.begin + i + 1, st.end), Str(str));
      }
    } else {
      ShortHasNoString(s);
    }
    return NoScan;
  }

  lemma ShortHasNoString(s: string)
    requires |s| < 2 || s[0] != '"'
    ensures StringParse(s) == Bad(0)
  {
    assert "\"" <= s ==> s[1..] == "";
  }

  /** The window onto the first three of four characters: a quote, a newline escape, and a quote after them. */
  lemma StringCanOverrun()
    ensures var st := Window("\"\\n\"", 0, 3); st.Valid() && Overruns(st) && StringParse(st.Text()) == Bad(0)
  {
    var st := Window("\"\\n\"", 0, 3);
    assert st.Text() == "\"\\n";
    assert st.Text()[1..] == "\\n";
    assert st.Text()[1..][2..] == "";
  }
}
