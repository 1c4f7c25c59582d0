/** The parsers that look at characters directly: literals, booleans, quoted strings, integers. */
module Scanners {
  import opened Text
  import opened Values
  import opened Outcomes

  // ---- literal<lits...>, literal_makes, literal_constant ----

  /** The index of the first literal that is a prefix of the text, or the number of literals. */
  function FirstPrefix(lits: seq<string>, s: string): (i: nat)
    ensures i <= |lits|
    ensures forall j :: 0 <= j < i ==> !(lits[j] <= s)
    ensures i < |lits| ==> lits[i] <= s
  {
    if lits == [] || lits[0] <= s then 0 else 1 + FirstPrefix(lits[1..], s)
  }

  function LiteralParse(lits: seq<string>, constant: Value, s: string): (o: Outcome)
    ensures o != Diverge && o.calls == 0
    ensures o.Good? ==> IsSuffix(o.rest, s) && o.value == constant
    ensures var i := FirstPrefix(lits, s);
      if i < |lits| then o.Good? && s == lits[i] + o.rest else o == Bad(0)
  {
    if lits == [] then Bad(0)
    else if lits[0] <= s then Good(s[|lits[0]|..], constant, 0)
    else LiteralParse(lits[1..], constant, s)
  }

  function BoolParse(s: string): Outcome {
    if "true" <= s then Good(s[4..], Bool(true), 0)
    else if "false" <= s then Good(s[5..], Bool(false), 0)
    else Bad(0)
  }

  // ---- view_parser<'"', '"', '\\'> ----

  /** A body cut off at a closing quote, and the text after that quote. */
  datatype Cut = NoCut | Cut(body: string, after: string)

  function Push(head: string, c: Cut): Cut {
    if c.Cut? then Cut(head + c.body, c.after) else NoCut
  }

  /** Scans for the closing quote; a quote directly after a backslash is passed over. */
  function ViewBody(t: string): Cut {
    if t == "" then NoCut
    else if t[0] == '"' then Cut("", t[1..])
    else if "\\\"" <= t then Push(t[..2], ViewBody(t[2..]))
    else Push(t[..1], ViewBody(t[1..]))
  }

  function ViewParse(s: string): (o: Outcome)
    ensures o.Good? ==> o.value.Str?
  {
    if "\"" <= s then
      match ViewBody(s[1..])
      case NoCut => Bad(0)
      case Cut(body, after) => Good(after, Str(body), 0)
    else Bad(0)
  }

  /** Every quote comes directly after a backslash. */
  predicate QuotesEscaped(w: string) {
    forall k :: 0 <= k < |w| && w[k] == '"' ==> k > 0 && w[k - 1] == '\\'
  }

  /** Every quote comes directly after a backslash, and the text does not end in a backslash. */
  predicate ViewSafe(w: string) {
    QuotesEscaped(w) && (w != "" ==> w[|w| - 1] != '\\')
  }

  lemma ViewSafePush(head: string, w: string)
    requires head == "\\\"" || (|head| == 1 && head[0] != '"' && (head[0] == '\\' ==> w != "" && w[0] != '"'))
    ensures ViewSafe(head + w) <==> ViewSafe(w)
  {
    var t := head + w;
    assert forall k :: 0 <= k < |w| ==> t[k + |head|] == w[k];
    assert w != "" ==> t[|t| - 1] == w[|w| - 1];
    if ViewSafe(w) {
      forall k | 0 <= k < |t| && t[k] == '"' ensures k > 0 && t[k - 1] == '\\' {
        if k >= |head| {
          assert w[k - |head|] == '"';
        }
      }
    }
    if ViewSafe(t) {
      forall k | 0 <= k < |w| && w[k] == '"' ensures k > 0 && w[k - 1] == '\\' {
        assert t[k + |head|] == '"';
        assert t[k + |head| - 1] == '\\';
        assert t[|head| - 1] == head[|head| - 1];
      }
    }
  }

  lemma {:induction false} ViewBodySound(t: string)
    requires ViewBody(t).Cut?
    ensures var c := ViewBody(t); t == c.body + "\"" + c.after && ViewSafe(c.body)
  {
    hide ViewSafe;
    if t[0] == '"' {
      EmptyIsViewSafe();
    } else {
      var n := if "\\\"" <= t then 2 else 1;
      ViewBodySound(t[n..]);
      var c := ViewBody(t[n..]);
      HeadBack(t, n, c.body, c.after);
      ViewSafePush(t[..n], c.body);
    }
  }

  lemma HeadBack(t: string, n: nat, w: string, r: string)
    requires n <= |t| && t[n..] == w + "\"" + r
    ensures t == t[..n] + w + "\"" + r
    ensures |w| + n < |t| && (w != "" ==> w[0] == t[n]) && (w == "" ==> t[n] == '"')
  {
    assert t == t[..n] + t[n..];
    assert t[n..][0] == t[n];
  }

  lemma EmptyIsViewSafe()
    ensures ViewSafe("")
  {
  }

  lemma {:induction false} ViewBodyComplete(w: string, r: string)
    requires ViewSafe(w)
    ensures ViewBody(w + "\"" + r) == Cut(w, r)
  {
    var t := w + "\"" + r;
    if w == "" {
      assert t[1..] == r;
    } else {
      assert t[0] == w[0];
      var n := if "\\\"" <= w then 2 else 1;
      assert "\\\"" <= t <==> n == 2 by { assert |w| > 1 ==> t[1] == w[1]; }
      assert w == w[..n] + w[n..] && t[n..] == w[n..] + "\"" + r;
      ViewSafePush(w[..n], w[n..]);
      ViewBodyComplete(w[n..], r);
      assert t[..n] == w[..n];
    }
  }

  /** The view found is exactly the text before the first quote that no backslash precedes directly. */
  lemma ViewBodyExact(t: string, w: string, r: string)
    ensures ViewBody(t) == Cut(w, r) <==> t == w + "\"" + r && ViewSafe(w)
  {
    hide ViewBody, ViewSafe;
    if ViewBody(t).Cut? {
      ViewBodySound(t);
    }
    if ViewSafe(w) {
      ViewBodyComplete(w, r);
    }
  }

  /** `parse_string_view` succeeds exactly when the text opens with a quote and some later quote is not
      directly preceded by a backslash. */
  lemma ViewParseSucceeds(s: string)
    ensures ViewParse(s).Good? <==>
      "\"" <= s && exists k :: 1 <= k < |s| && s[k] == '"' && s[k - 1] != '\\'
  {
    if "\"" <= s {
      var t := s[1..];
      if ViewBody(t).Cut? {
        var w := ViewBody(t).body;
        ViewBodyExact(t, w, ViewBody(t).after);
        assert s[|w| + 1] == '"' && s[|w|] != '\\';
      }
      if exists k :: 1 <= k < |s| && s[k] == '"' && s[k - 1] != '\\' {
        var k :| 1 <= k < |s| && s[k] == '"' && s[k - 1] != '\\';
        OpenQuoteCuts(t, k - 1);
      }
    }
  }

  lemma {:induction false} OpenQuoteCuts(t: string, k: nat)
    requires k < |t| && t[k] == '"' && (k > 0 ==> t[k - 1] != '\\')
    ensures ViewBody(t).Cut?
  {
    if t[0] != '"' {
      var n := if "\\\"" <= t then 2 else 1;
      OpenQuoteCuts(t[n..], k - n);
    }
  }

  // ---- string_parser ----

  /** The character an escape code stands for, if the code is one the parser recognises. */
  function Decode(code: char): string {
    match code
    case 'b' => [8 as char]
    case 'f' => [12 as char]
    case 'n' => "\n"
    case 'r' => "\r"
    case 't' => "\t"
    case '\\' => "\\"
    case '"' => "\""
    case _ => ""
  }

  /** The decoded text before the closing quote, and the text after that quote. A backslash and the
      code after it are always consumed together. */
  function StringBody(t: string): (c: Cut)
    ensures c.Cut? ==> |c.after| < |t|
  {
    if t == "" then NoCut
    else if t[0] == '"' then Cut("", t[1..])
    else if t[0] == '\\' then
      if |t| < 2 || Decode(t[1]) == "" then NoCut else Push(Decode(t[1]), StringBody(t[2..]))
    else Push(t[..1], StringBody(t[1..]))
  }

  function StringParse(s: string): (o: Outcome)
    ensures o.Good? ==> |o.rest| + 2 <= |s| && o.value.Str?
  {
    if "\"" <= s then
      match StringBody(s[1..])
      case NoCut => Bad(0)
      case Cut(text, after) => Good(after, Str(text), 0)
    else Bad(0)
  }

  datatype Decoded = Malformed | Decoded(text: string)

  /** What a raw string body stands for; `Malformed` if it holds an unknown or unfinished escape, or a
      quote that no escape covers. */
  function Unescape(body: string): Decoded {
    if body == "" then Decoded("")
    else if body[0] == '"' then Malformed
    else
      var n := if body[0] == '\\' then 2 else 1;
      var head := if n == 1 then body[..1] else if |body| < 2 then "" else Decode(body[1]);
      if head == "" then Malformed
      else
        match Unescape(body[n..])
        case Malformed => Malformed
        case Decoded(text) => Decoded(head + text)
  }

  /** The text a cut leaves outside its rest: the raw body, without the closing quote. */
  function RawBody(t: string, after: string): string
    requires |after| < |t|
  {
    t[..|t| - |after| - 1]
  }

  lemma UnescapePush(head: string, b: string)
    requires (|head| == 1 && head[0] != '"' && head[0] != '\\')
          || (|head| == 2 && head[0] == '\\' && Decode(head[1]) != "")
    ensures Unescape(head + b) == match Unescape(b)
      case Malformed => Malformed
      case Decoded(text) => Decoded((if |head| == 1 then head else Decode(head[1])) + text)
  {
    assert (head + b)[|head|..] == b;
    assert (head + b)[..1] == head[..1];
  }

  lemma RawBodyPush(t: string, n: nat, after: string)
    requires n + |after| < |t|
    requires t[n..] == RawBody(t[n..], after) + "\"" + after
    ensures RawBody(t, after) == t[..n] + RawBody(t[n..], after)
    ensures t == RawBody(t, after) + "\"" + after
  {
    assert t == t[..n] + t[n..];
  }

  lemma {:induction false} StringBodySound(t: string)
    requires StringBody(t).Cut?
    ensures var c := StringBody(t);
      && |c.after| < |t|
      && t == RawBody(t, c.after) + "\"" + c.after
      && Unescape(RawBody(t, c.after)) == Decoded(c.body)
  {
    var c := StringBody(t);
    if t[0] == '"' {
      assert RawBody(t, c.after) == "";
    } else {
      var n := if t[0] == '\\' then 2 else 1;
      hide RawBody;
      StringBodySound(t[n..]);
      UnescapePush(t[..n], RawBody(t[n..], c.after));
      RawBodyPush(t, n, c.after);
    }
  }

  /** `parse_string` accepts a quoted body exactly when the body unescapes, and returns what it
      stands for. */
  lemma {:induction false} StringBodyExact(b: string, text: string, r: string)
    ensures StringBody(b + "\"" + r) == Cut(text, r) <==> Unescape(b) == Decoded(text)
  {
    var t := b + "\"" + r;
    if StringBody(t) == Cut(text, r) {
      StringBodySound(t);
      assert RawBody(t, r) == b;
    }
    if Unescape(b) == Decoded(text) {
      if b == "" {
        assert t[1..] == r;
      } else {
        var n := if b[0] == '\\' then 2 else 1;
        assert t[n..] == b[n..] + "\"" + r;
        StringBodyExact(b[n..], Unescape(b[n..]).text, r);
        assert b[..n] == t[..n];
      }
    }
  }

  // ---- the two string parsers compared ----

  lemma QuotesEscapedPush(head: string, b: string)
    requires QuotesEscaped(b)
    requires head != "" && head[0] != '"' && (|head| == 1 || (|head| == 2 && head[0] == '\\'))
    ensures QuotesEscaped(head + b)
  {
    var t := head + b;
    forall k | 0 <= k < |t| && t[k] == '"' ensures k > 0 && t[k - 1] == '\\' {
      if k >= |head| {
        assert b[k - |head|] == '"';
      }
    }
  }

  lemma {:induction false} UnescapableBody(b: string)
    requires Unescape(b).Decoded?
    ensures QuotesEscaped(b)
  {
    if b != "" {
      hide QuotesEscaped;
      var n := if b[0] == '\\' then 2 else 1;
      UnescapableBody(b[n..]);
      QuotesEscapedPush(b[..n], b[n..]);
      assert b == b[..n] + b[n..];
    }
  }

  /** If `string_parser` succeeds on a raw body, `view_parser` agrees (the same rest, and a view that
      unescapes to the string) exactly when that body does not end in a backslash. */
  lemma ViewFollowsString(s: string)
    requires StringParse(s).Good?
    ensures var o, v := StringParse(s), ViewParse(s);
      && var b := s[1..|s| - |o.rest| - 1];
         && Unescape(b) == Decoded(o.value.text)
         && (v == Good(o.rest, Str(b), 0) <==> !(b != "" && b[|b| - 1] == '\\'))
  {
    var t := s[1..];
    var c := StringBody(t);
    StringBodySound(t);
    var b := RawBody(t, c.after);
    assert b == s[1..|s| - |c.after| - 1];
    UnescapableBody(b);
    ViewBodyExact(t, b, c.after);
  }

  /** No two backslashes stand next to each other. */
  predicate NoDoubleBackslash(b: string) {
    forall k :: 0 < k < |b| && b[k - 1] == '\\' ==> b[k] != '\\'
  }

  /** Every backslash is followed by a code `string_parser` recognises. */
  predicate EscapesKnown(b: string) {
    forall k :: 0 <= k < |b| && b[k] == '\\' ==> k + 1 < |b| && Decode(b[k + 1]) != ""
  }

  lemma {:induction false} SafeBodyUnescapes(b: string)
    requires NoDoubleBackslash(b) && EscapesKnown(b)
    requires QuotesEscaped(b)
    ensures Unescape(b).Decoded?
  {
    if b != "" {
      assert b[0] != '"';
      var n := if b[0] == '\\' then 2 else 1;
      var d := b[n..];
      assert forall k :: 0 <= k < |d| ==> d[k] == b[k + n];
      forall k | 0 <= k < |d| && d[k] == '"' ensures k > 0 && d[k - 1] == '\\' {
        assert b[k + n] == '"' && b[k + n - 1] == '\\';
      }
      SafeBodyUnescapes(d);
    }
  }

  /** Conversely, if `view_parser` succeeds then `string_parser` returns what the view stands for, with
      the same rest, exactly when the view unescapes; it does whenever no two backslashes are adjacent
      and every escape is a known one. */
  lemma StringFollowsView(s: string)
    requires ViewParse(s).Good?
    ensures var v := ViewParse(s);
      && (forall text :: StringParse(s) == Good(v.rest, Str(text), 0) <==> Unescape(v.value.text) == Decoded(text))
      && (NoDoubleBackslash(v.value.text) && EscapesKnown(v.value.text) ==> Unescape(v.value.text).Decoded?)
  {
    var t := s[1..];
    var w, r := ViewBody(t).body, ViewBody(t).after;
    ViewBodyExact(t, w, r);
    forall text ensures StringParse(s) == Good(r, Str(text), 0) <==> Unescape(w) == Decoded(text) {
      StringBodyExact(w, text, r);
    }
    if NoDoubleBackslash(w) && EscapesKnown(w) {
      SafeBodyUnescapes(w);
    }
  }

  lemma StringThenView(s: string)
    requires StringParse(s).Good? && NoDoubleBackslash(s[1..|s| - |StringParse(s).rest| - 1])
    ensures var o, v := StringParse(s), ViewParse(s);
      v.Good? && v.rest == o.rest && Unescape(v.value.text) == Decoded(o.value.text) && EscapesKnown(v.value.text)
  {
    ViewFollowsString(s);
    hide StringParse, ViewParse, Unescape;
    var b := s[1..|s| - |StringParse(s).rest| - 1];
    if b != "" && b[|b| - 1] == '\\' {
      EndsInPair(b);
    }
    KnownEscapes(b);
  }

  /** On a body without adjacent backslashes the parsers agree: `string_parser` succeeds exactly when
      `view_parser` does and all escapes in its view are known, and then the rests are the same and the
      view unescapes to the string. */
  lemma StringAndViewAgree(s: string)
    requires StringParse(s).Good? ==> NoDoubleBackslash(s[1..|s| - |StringParse(s).rest| - 1])
    requires ViewParse(s).Good? ==> NoDoubleBackslash(ViewParse(s).value.text)
    ensures StringParse(s).Good? <==> ViewParse(s).Good? && EscapesKnown(ViewParse(s).value.text)
    ensures StringParse(s).Good? ==>
      && ViewParse(s).rest == StringParse(s).rest
      && Unescape(ViewParse(s).value.text) == Decoded(StringParse(s).value.text)
  {
    if StringParse(s).Good? {
      StringThenView(s);
    } else if ViewParse(s).Good? {
      StringFollowsView(s);
    }
  }

  /** Both succeed, leave the same rest, and the view unescapes to the string. */
  predicate SameString(o: Outcome, v: Outcome) {
    o.Good? && v.Good? && o.rest == v.rest && o.value.Str? && v.value.Str?
    && Unescape(v.value.text) == Decoded(o.value.text)
  }

  /** `s` is a quoted body in which every quote directly follows a backslash, which does not end in one,
      and which unescapes. */
  predicate QuotedAlike(s: string, w: string, r: string) {
    s == "\"" + (w + "\"" + r) && ViewSafe(w) && Unescape(w).Decoded?
  }

  /** On every text the two parsers succeed alike exactly when the text is quoted in a way both read alike;
      so where one of them succeeds this decides whether they agree. */
  lemma StringAndViewExact(s: string)
    ensures SameString(StringParse(s), ViewParse(s)) <==> exists w, r :: QuotedAlike(s, w, r)
  {
    var o, v := StringParse(s), ViewParse(s);
    if SameString(o, v) {
      var w := v.value.text;
      ViewBodyExact(s[1..], w, v.rest);
      assert s == "\"" + s[1..];
      assert QuotedAlike(s, w, v.rest);
    }
    if w, r :| QuotedAlike(s, w, r) {
      assert s[1..] == w + "\"" + r;
      ViewBodyExact(s[1..], w, r);
      StringBodyExact(w, Unescape(w).text, r);
    }
  }

  lemma StringReadsPair(r: string)
    ensures StringParse("\"" + ("\\\\" + "\"" + r)) == Good(r, Str("\\"), 0)
  {
    var body := "\\\\";
    assert body[2..] == "";
    assert ("\"" + (body + "\"" + r))[1..] == body + "\"" + r;
    StringBodyExact(body, "\\", r);
  }

  lemma ViewRunsOn()
    ensures ViewParse("\"\\\\\"") == Bad(0)
    ensures ViewParse("\"\\\\\"\"") == Good("", Str("\\\\\""), 0)
  {
    var t := "\\\\\"";
    assert "\"\\\\\""[1..] == t && t[1..][2..] == "";
    assert "\"\\\\\"\""[1..] == t + "\"" + "";
    ViewBodyExact(t + "\"" + "", t, "");
  }

  /** Two backslashes before a quote: `string_parser` reads an escaped backslash and stops at that quote, and
      `view_parser` takes the quote for an escaped one and runs on, to fail or to find a later quote. */
  lemma StringAndViewCanDisagree()
    ensures StringParse("\"\\\\\"") == Good("", Str("\\"), 0) && ViewParse("\"\\\\\"") == Bad(0)
    ensures StringParse("\"\\\\\"\"") == Good("\"", Str("\\"), 0)
    ensures ViewParse("\"\\\\\"\"") == Good("", Str("\\\\\""), 0)
  {
    hide StringParse, ViewParse;
    StringReadsPair("");
    StringReadsPair("\"");
    assert "\"" + ("\\\\" + "\"" + "") == "\"\\\\\"" && "\"" + ("\\\\" + "\"" + "\"") == "\"\\\\\"\"";
    ViewRunsOn();
  }

  lemma {:induction false} EndsInPair(b: string)
    requires Unescape(b).Decoded? && b != "" && b[|b| - 1] == '\\'
    ensures |b| >= 2 && b[|b| - 2] == '\\'
  {
    var n := if b[0] == '\\' then 2 else 1;
    if |b| > n {
      EndsInPair(b[n..]);
    }
  }

  lemma {:induction false} KnownEscapes(b: string)
    requires Unescape(b).Decoded? && NoDoubleBackslash(b)
    ensures EscapesKnown(b)
  {
    if b != "" {
      var n := if b[0] == '\\' then 2 else 1;
      var d := b[n..];
      assert forall k :: 0 <= k < |d| ==> d[k] == b[k + n];
      KnownEscapes(d);
      forall k | 0 <= k < |b| && b[k] == '\\' ensures k + 1 < |b| && Decode(b[k + 1]) != "" {
        if k >= n {
          assert d[k - n] == '\\';
          assert d[k - n + 1] == b[k + 1];
        }
      }
    }
  }

  /** The code point that an escape code stands for, 0 for one that is not recognised. */
  function CodePoint(code: char): nat {
    if code == 'b' then 8
    else if code == 'f' then 12
    else if code == 'n' then 10
    else if code == 'r' then 13
    else if code == 't' then 9
    else if code == '\\' then 92
    else if code == '"' then 34
    else 0
  }

  /** An escape is accepted exactly when its code is one of seven, and then stands for that code point. */
  lemma EscapesExact(code: char, r: string)
    ensures StringParse("\"" + (['\\', code] + "\"" + r))
         == if code in "bfnrt\\\"" then Good(r, Str([CodePoint(code) as char]), 0) else Bad(0)
  {
    var b := ['\\', code];
    var t := b + "\"" + r;
    assert ("\"" + t)[1..] == t;
    assert b[2..] == "";
    DecodeIs(code);
    hide StringBody, Decode;
    if code in "bfnrt\\\"" {
      StringBodyExact(b, Decode(code), r);
    } else {
      UnknownEscape(t);
    }
  }

  lemma DecodeIs(code: char)
    ensures Decode(code) == if code in "bfnrt\\\"" then [CodePoint(code) as char] else ""
  {
  }

  lemma UnknownEscape(t: string)
    requires |t| >= 2 && t[0] == '\\' && Decode(t[1]) == ""
    ensures StringBody(t) == NoCut
  {
  }

  /** The inverse of the parser's escape switch. */
  function EscapeChar(c: char): (e: string)
    ensures |e| == 2 <==> c as int in {8, 9, 10, 12, 13, 34, 92}
    ensures if c == '"' || c == '\\' || |e| != 1 then |e| == 2 && e[0] == '\\' && Decode(e[1]) == [c] else e == [c]
  {
    if c == 8 as char then "\\b"
    else if c == 12 as char then "\\f"
    else if c == '\n' then "\\n"
    else if c == '\r' then "\\r"
    else if c == '\t' then "\\t"
    else if c == '\\' then "\\\\"
    else if c == '"' then "\\\""
    else [c]
  }

  function Escape(text: string): string {
    if text == "" then "" else EscapeChar(text[0]) + Escape(text[1..])
  }

  lemma {:induction false} UnescapeEscape(text: string)
    ensures Unescape(Escape(text)) == Decoded(text)
  {
    hide Decode, EscapeChar;
    if text != "" {
      UnescapeEscape(text[1..]);
      UnescapePush(EscapeChar(text[0]), Escape(text[1..]));
    }
  }

  /** Any string, escaped and quoted, is read back by `string_parser` with the following text untouched. */
  lemma EscapeRoundTrip(text: string, rest: string)
    ensures StringParse("\"" + Escape(text) + "\"" + rest) == Good(rest, Str(text), 0)
  {
    UnescapeEscape(text);
    StringBodyExact(Escape(text), text, rest);
    hide Escape, StringBody, Unescape;
    var s := "\"" + Escape(text) + "\"" + rest;
    assert s[1..] == Escape(text) + "\"" + rest;
  }

  // ---- charconv<T>, T a signed integer type with values lo..hi ----

  function PowerOfTwo(k: nat): int {
    if k == 0 then 1 else 2 * PowerOfTwo(k - 1)
  }

  const INT_MIN: int := -0x8000_0000
  const INT_MAX: int := 0x7fff_ffff
  const LONG_MIN: int := -0x8000_0000_0000_0000
  const LONG_MAX: int := 0x7fff_ffff_ffff_ffff

  const DIGITS: set<char> := {'0', '1', '2', '3', '4', '5', '6', '7', '8', '9'}

  function Natural(digits: string): nat
    requires AllIn(digits, DIGITS)
  {
    if digits == "" then 0
    else 10 * Natural(digits[..|digits| - 1]) + (digits[|digits| - 1] as int - '0' as int)
  }

  function Signed(negative: bool, digits: string): int
    requires AllIn(digits, DIGITS)
  {
    if negative then -(Natural(digits) as int) else Natural(digits)
  }

  function Unsigned(s: string): string {
    if "-" <= s then s[1..] else s
  }

  lemma PowersAdd(a: nat, b: nat)
    ensures PowerOfTwo(a + b) == PowerOfTwo(a) * PowerOfTwo(b)
  {
    if b > 0 {
      PowersAdd(a, b - 1);
    }
  }

  /** `int` has 32 bits and `long` has 64, in two's complement. */
  lemma RangesAre()
    ensures INT_MIN == -PowerOfTwo(31) && INT_MAX == PowerOfTwo(31) - 1
    ensures LONG_MIN == -PowerOfTwo(63) && LONG_MAX == PowerOfTwo(63) - 1
  {
    assert PowerOfTwo(3) == 8;
    assert PowerOfTwo(7) == 128;
    PowersAdd(8, 8);
    PowersAdd(16, 15);
    PowersAdd(8, 7);
    PowersAdd(31, 32);
    PowersAdd(16, 16);
  }

  /** `std::from_chars` for a signed type: an optional minus, the longest run of digits, and failure
      when there are no digits or the number is outside the type. */
  function IntParse(lo: int, hi: int, s: string): (o: Outcome)
    ensures o != Diverge && o.calls == 0
    ensures o.Good? ==>
      && IsSuffix(o.rest, s) && |o.rest| < |s| && StartsOutside(o.rest, DIGITS)
      && (s[0] == '-' || s[0] in DIGITS)
      && o.value.Int? && lo <= o.value.i <= hi
  {
    var t := Unsigned(s);
    var digits, rest := Taken(DIGITS, t), SkipChars(DIGITS, t);
    if digits == "" then Bad(0)
    else
      var n := Signed("-" <= s, digits);
      if lo <= n <= hi then
        assert IsSuffix(rest, s) by { if "-" <= s { SuffixIsTransitive(rest, t, s); } }
        assert !("-" <= s) ==> s[0] == digits[0];
        Good(rest, Int(n), 0)
      else Bad(0)
  }

  function SignText(negative: bool): string { if negative then "-" else "" }

  lemma SignedText(negative: bool, t: string)
    requires t != "" && t[0] != '-'
    ensures var s := SignText(negative) + t; Unsigned(s) == t && ("-" <= s <==> negative)
  {
    var s := SignText(negative) + t;
    assert negative ==> s[1..] == t;
    assert !negative ==> s == t;
  }

  /** An integer followed by anything but a digit is read whole. */
  lemma IntParseExact(lo: int, hi: int, negative: bool, d: string, rest: string)
    requires d != "" && AllIn(d, DIGITS) && StartsOutside(rest, DIGITS)
    ensures IntParse(lo, hi, SignText(negative) + (d + rest))
      == if lo <= Signed(negative, d) <= hi then Good(rest, Int(Signed(negative, d)), 0) else Bad(0)
  {
    assert (d + rest)[0] == d[0] && d[0] in DIGITS;
    SignedText(negative, d + rest);
    SkipCharsExact(DIGITS, d, rest);
    hide SkipChars, Taken, Signed, Unsigned, AllIn, SignText, StartsOutside;
  }

  /** What a successful parse consumed is a sign, if any, and digits. */
  lemma IntParseCut(lo: int, hi: int, s: string) returns (negative: bool, d: string)
    requires IntParse(lo, hi, s).Good?
    ensures d != "" && AllIn(d, DIGITS)
    ensures s == SignText(negative) + (d + IntParse(lo, hi, s).rest)
    ensures IntParse(lo, hi, s).value == Int(Signed(negative, d))
  {
    hide SkipChars, Signed;
    negative := "-" <= s;
    d := Taken(DIGITS, Unsigned(s));
    TakenThenRest(DIGITS, Unsigned(s));
    assert s == SignText(negative) + Unsigned(s);
  }

  /** What an integer parser returns, both ways: a sign, if any, one or more digits that no digit follows,
      and their number within the type's range. */
  lemma IntParseSucceeds(lo: int, hi: int, s: string, n: int, rest: string)
    ensures IntParse(lo, hi, s) == Good(rest, Int(n), 0) <==>
      exists negative, d :: IsNumber(s, negative, d, n, rest) && lo <= n <= hi
  {
    hide IntParse, Natural;
    var o := IntParse(lo, hi, s);
    if o == Good(rest, Int(n), 0) {
      var negative, d := IntParseCut(lo, hi, s);
      assert IsNumber(s, negative, d, n, rest);
    }
    if negative, d :| IsNumber(s, negative, d, n, rest) && lo <= n <= hi {
      IntParseExact(lo, hi, negative, d, rest);
    }
  }

  /** `s` is the decimal number n followed by something that is no digit. */
  predicate IsNumber(s: string, negative: bool, d: string, n: int, rest: string) {
    d != "" && AllIn(d, DIGITS) && StartsOutside(rest, DIGITS)
    && s == SignText(negative) + (d + rest) && n == Signed(negative, d)
  }
}
