/** Printing a JSON value and parsing the text again: what comes back, and exactly when it is the value. */
module JsonRoundTrip {
  import opened Text
  import opened Values
  import opened Outcomes
  import opened Scanners
  import opened JsonSyntax
  import opened JsonParser
  import opened JsonGrammar
  import opened JsonPrinter

  /** Every string and key holds a quote only directly after a backslash and ends in no backslash. */
  predicate StringsSafe(v: Value) {
    match v
    case Str(s) => ViewSafe(s)
    case List(items) => forall i :: 0 <= i < |items| ==> StringsSafe(items[i])
    case Map(es) => forall i :: 0 <= i < |es| ==> ViewSafe(es[i].key) && StringsSafe(es[i].val)
    case _ => true
  }

  predicate NoEmptyObject(v: Value) {
    match v
    case List(items) => forall i :: 0 <= i < |items| ==> NoEmptyObject(items[i])
    case Map(es) => es != [] && forall i :: 0 <= i < |es| ==> NoEmptyObject(es[i].val)
    case _ => true
  }

  // ---- what printing forgets: an empty object is written as an empty array ----

  function Forget(v: Value): Value
    decreases v
  {
    match v
    case List(items) => List(ForgetItems(items))
    case Map(es) => if es == [] then List([]) else Map(ForgetEntries(es))
    case _ => v
  }

  function ForgetItems(items: seq<Value>): (r: seq<Value>)
    ensures |r| == |items|
    decreases items
  {
    if items == [] then [] else [Forget(items[0])] + ForgetItems(items[1..])
  }

  function ForgetEntries(es: seq<Entry>): (r: seq<Entry>)
    ensures |r| == |es|
    ensures forall i :: 0 <= i < |es| ==> r[i].key == es[i].key
    decreases es
  {
    if es == [] then [] else [Entry(es[0].key, Forget(es[0].val))] + ForgetEntries(es[1..])
  }

  /** Nothing is forgotten exactly when no object anywhere is empty. */
  lemma {:induction false} ForgetsNothing(v: Value)
    ensures Forget(v) == v <==> NoEmptyObject(v)
    decreases v
  {
    match v
    case List(items) => ForgetsNoItem(items);
    case Map(es) => ForgetsNoEntry(es);
    case _ =>
  }

  lemma {:induction false} ForgetsNoItem(items: seq<Value>)
    ensures ForgetItems(items) == items <==> forall i :: 0 <= i < |items| ==> NoEmptyObject(items[i])
    decreases items
  {
    if items != [] {
      ForgetsNothing(items[0]);
      ForgetsNoItem(items[1..]);
      var f := ForgetItems(items);
      assert f[0] == Forget(items[0]) && f[1..] == ForgetItems(items[1..]);
      assert items == [items[0]] + items[1..];
      assert forall i :: 0 < i < |items| ==> items[i] == items[1..][i - 1];
    }
  }

  lemma {:induction false} ForgetsNoEntry(es: seq<Entry>)
    ensures ForgetEntries(es) == es <==> forall i :: 0 <= i < |es| ==> NoEmptyObject(es[i].val)
    decreases es
  {
    if es != [] {
      ForgetsNothing(es[0].val);
      ForgetsNoEntry(es[1..]);
      var f := ForgetEntries(es);
      assert f[0] == Entry(es[0].key, Forget(es[0].val)) && f[1..] == ForgetEntries(es[1..]);
      assert es == [es[0]] + es[1..];
      assert forall i :: 0 < i < |es| ==> es[i] == es[1..][i - 1];
    }
  }

  // ---- the syntax tree of a printed value ----

  function TreeOf(fmt: NumberFormat, depth: string, v: Value): Tree
    decreases v
  {
    match v
    case Bool(b) => BoolText(b)
    case Num(x) => NumText(fmt.show(x))
    case Str(s) => StrText(s)
    case List(items) => if items == [] then EmptyArray("") else Array("", ItemsOf(fmt, depth, items), "")
    case Map(es) =>
      if es == [] then EmptyArray("")
      else Object("\n" + (depth + INDENT), MembersOf(fmt, depth + INDENT, es), "\n" + depth)
    case _ => NullText
  }

  function ItemsOf(fmt: NumberFormat, depth: string, items: seq<Value>): Items
    requires items != []
    decreases items
  {
    var t := TreeOf(fmt, depth, items[0]);
    if |items| == 1 then LastItem(t) else Item(t, "", " ", ItemsOf(fmt, depth, items[1..]))
  }

  function MembersOf(fmt: NumberFormat, depth: string, es: seq<Entry>): Members
    requires es != []
    decreases es
  {
    var m := Member(es[0].key, "", " ", TreeOf(fmt, depth, es[0].val));
    if |es| == 1 then LastMember(m) else Also(m, "", "\n" + depth, MembersOf(fmt, depth, es[1..]))
  }

  /** The printed text is the text of that tree. */
  lemma {:induction false} PrintIsTree(fmt: NumberFormat, depth: string, v: Value)
    requires IsJson(fmt, v)
    ensures Print(fmt, depth, v) == TreeOf(fmt, depth, v).Text()
    decreases v, 0
  {
    match v
    case List(items) =>
      if items != [] {
        ItemsAreTrees(fmt, depth, items);
      }
    case Map(es) =>
      if es != [] {
        EntriesAreTrees(fmt, depth + INDENT, es);
        ObjectText(depth + INDENT, MembersOf(fmt, depth + INDENT, es).Text(), depth);
      }
    case _ =>
  }

  lemma ObjectText(inner: string, body: string, depth: string)
    ensures "{\n" + (inner + body) + "\n" + depth + "}" == "{" + ("\n" + inner) + body + ("\n" + depth) + "}"
  {
  }

  lemma {:induction false} ItemsAreTrees(fmt: NumberFormat, depth: string, items: seq<Value>)
    requires items != [] && forall i :: 0 <= i < |items| ==> IsJson(fmt, items[i])
    ensures PrintItems(fmt, depth, items) == ItemsOf(fmt, depth, items).Text()
    decreases items, 1
  {
    PrintIsTree(fmt, depth, items[0]);
    if |items| > 1 {
      ItemsAreTrees(fmt, depth, items[1..]);
      assert "" + "," + " " == ", ";
    }
  }

  /** Each entry is printed after its indentation; a tree keeps that with the whitespace before it. */
  lemma {:induction false} EntriesAreTrees(fmt: NumberFormat, depth: string, es: seq<Entry>)
    requires es != [] && forall i :: 0 <= i < |es| ==> IsJson(fmt, es[i].val)
    ensures PrintEntries(fmt, depth, es) == depth + MembersOf(fmt, depth, es).Text()
    decreases es, 1
  {
    var ms := MembersOf(fmt, depth, es);
    PrintIsTree(fmt, depth, es[0].val);
    EntryText(depth, es[0].key, Print(fmt, depth, es[0].val));
    assert PrintEntry(fmt, depth, es[0]) == depth + ms.member.Text();
    if |es| > 1 {
      EntriesAreTrees(fmt, depth, es[1..]);
      NextEntryText(depth, ms.member.Text(), ms.more.Text());
    }
  }

  lemma EntryText(depth: string, key: string, val: string)
    ensures depth + "\"" + key + "\": " + val == depth + ("\"" + key + "\"" + ("" + ":" + " " + val))
  {
    assert "\": " == "\"" + ("" + ":" + " ");
  }

  lemma NextEntryText(depth: string, m: string, more: string)
    ensures depth + m + (",\n" + (depth + more)) == depth + (m + ("" + "," + ("\n" + depth) + more))
  {
  }

  /** With safe strings and whitespace for indentation the tree is well formed. */
  lemma {:induction false} TreeIsWellFormed(fmt: NumberFormat, depth: string, v: Value)
    requires fmt.ReadsBack() && IsJson(fmt, v) && StringsSafe(v) && Blank(depth)
    ensures TreeOf(fmt, depth, v).WellFormed(fmt)
    decreases v, 0
  {
    match v
    case List(items) =>
      if items != [] {
        ItemsAreWellFormed(fmt, depth, items);
      }
    case Map(es) =>
      if es != [] {
        MembersAreWellFormed(fmt, depth + INDENT, es);
      }
    case _ =>
  }

  lemma {:induction false} ItemsAreWellFormed(fmt: NumberFormat, depth: string, items: seq<Value>)
    requires fmt.ReadsBack() && Blank(depth)
    requires items != [] && forall i :: 0 <= i < |items| ==> IsJson(fmt, items[i]) && StringsSafe(items[i])
    ensures ItemsOf(fmt, depth, items).WellFormed(fmt)
    decreases items, 1
  {
    TreeIsWellFormed(fmt, depth, items[0]);
    if |items| > 1 {
      ItemsAreWellFormed(fmt, depth, items[1..]);
    }
  }

  lemma {:induction false} MembersAreWellFormed(fmt: NumberFormat, depth: string, es: seq<Entry>)
    requires fmt.ReadsBack() && Blank(depth)
    requires es != []
    requires forall i :: 0 <= i < |es| ==> IsJson(fmt, es[i].val) && ViewSafe(es[i].key) && StringsSafe(es[i].val)
    ensures MembersOf(fmt, depth, es).WellFormed(fmt)
    decreases es, 1
  {
    TreeIsWellFormed(fmt, depth, es[0].val);
    if |es| > 1 {
      MembersAreWellFormed(fmt, depth, es[1..]);
    }
  }

  /** The tree means the value, but for empty objects. */
  lemma {:induction false} TreeMeans(fmt: NumberFormat, depth: string, v: Value)
    requires fmt.ReadsBack() && IsJson(fmt, v)
    ensures TreeOf(fmt, depth, v).Meaning(fmt) == Forget(v)
    decreases v, 0
  {
    match v
    case List(items) =>
      if items != [] {
        ItemsMean(fmt, depth, items);
      }
    case Map(es) =>
      if es != [] {
        MembersMean(fmt, depth + INDENT, es);
        ForgetKeepsOrder(es);
        InsertAllRebuilds([], ForgetEntries(es));
        assert [] + ForgetEntries(es) == ForgetEntries(es);
      }
    case _ =>
  }

  lemma {:induction false} ItemsMean(fmt: NumberFormat, depth: string, items: seq<Value>)
    requires fmt.ReadsBack() && items != [] && forall i :: 0 <= i < |items| ==> IsJson(fmt, items[i])
    ensures ItemsOf(fmt, depth, items).Meanings(fmt) == ForgetItems(items)
    decreases items, 1
  {
    TreeMeans(fmt, depth, items[0]);
    if |items| > 1 {
      ItemsMean(fmt, depth, items[1..]);
    }
  }

  lemma {:induction false} MembersMean(fmt: NumberFormat, depth: string, es: seq<Entry>)
    requires fmt.ReadsBack() && es != [] && forall i :: 0 <= i < |es| ==> IsJson(fmt, es[i].val)
    ensures MembersOf(fmt, depth, es).Pairs(fmt) == EntryPairs(ForgetEntries(es))
    decreases es, 1
  {
    TreeMeans(fmt, depth, es[0].val);
    var f := ForgetEntries(es);
    assert f[1..] == ForgetEntries(es[1..]);
    if |es| > 1 {
      MembersMean(fmt, depth, es[1..]);
    } else {
      assert EntryPairs(f[1..]) == [];
    }
  }

  lemma {:induction false} ForgetKeepsOrder(es: seq<Entry>)
    requires Sorted(es)
    ensures Sorted(ForgetEntries(es))
    decreases |es|
  {
    if |es| >= 2 {
      ForgetKeepsOrder(es[1..]);
      assert ForgetEntries(es)[1..] == ForgetEntries(es[1..]);
    }
  }

  // ---- every string in a parsed value is safe ----

  lemma {:induction false} MeaningIsSafe(fmt: NumberFormat, t: Tree)
    requires fmt.ReadsPrefixes() && t.WellFormed(fmt)
    ensures StringsSafe(t.Meaning(fmt))
    decreases t, 0
  {
    match t
    case NumText(n) => assert fmt.ReadsPrefix(n);
    case Array(_, items, _) => MeaningsAreSafe(fmt, items);
    case Object(_, ms, _) =>
      PairsAreSafe(fmt, ms);
      InsertAllIsSafe(Map([]), ms.Pairs(fmt));
    case _ =>
  }

  lemma {:induction false} MeaningsAreSafe(fmt: NumberFormat, items: Items)
    requires fmt.ReadsPrefixes() && items.WellFormed(fmt)
    ensures forall i :: 0 <= i < |items.Meanings(fmt)| ==> StringsSafe(items.Meanings(fmt)[i])
    decreases items, 1
  {
    MeaningIsSafe(fmt, items.item);
    if items.Item? {
      MeaningsAreSafe(fmt, items.more);
    }
  }

  predicate SafePair(p: Value) {
    p.Pair? && p.first.Str? && ViewSafe(p.first.text) && StringsSafe(p.second)
  }

  lemma {:induction false} PairsAreSafe(fmt: NumberFormat, ms: Members)
    requires fmt.ReadsPrefixes() && ms.WellFormed(fmt)
    ensures forall i :: 0 <= i < |ms.Pairs(fmt)| ==> SafePair(ms.Pairs(fmt)[i])
    decreases ms, 1
  {
    MeaningIsSafe(fmt, ms.member.val);
    if ms.Also? {
      PairsAreSafe(fmt, ms.more);
    }
  }

  lemma {:induction false} EmplaceIsSafe(es: seq<Entry>, k: string, v: Value)
    requires StringsSafe(Map(es)) && ViewSafe(k) && StringsSafe(v)
    ensures StringsSafe(Map(Emplace(es, k, v)))
    decreases |es|
  {
    hide ViewSafe, Less;
    if es != [] && es[0].key != k && !Less(k, es[0].key) {
      EmplaceIsSafe(es[1..], k, v);
    }
  }

  lemma {:induction false} InsertAllIsSafe(m: Value, pairs: seq<Value>)
    requires m.Map? && StringsSafe(m) && forall i :: 0 <= i < |pairs| ==> SafePair(pairs[i])
    ensures StringsSafe(InsertAll(m, pairs))
    decreases |pairs|
  {
    if pairs != [] {
      EmplaceIsSafe(m.entries, pairs[0].first.text, pairs[0].second);
      InsertAllIsSafe(Insert(m, pairs[0]), pairs[1..]);
    }
  }

  // ---- every parsed value is a JSON value ----

  lemma {:induction false} MeaningIsJson(fmt: NumberFormat, t: Tree)
    requires fmt.ReadsPrefixes() && t.WellFormed(fmt)
    ensures IsJson(fmt, t.Meaning(fmt))
    decreases t, 0
  {
    match t
    case NumText(n) => assert fmt.ReadsPrefix(n);
    case Array(_, items, _) => MeaningsAreJson(fmt, items);
    case Object(_, ms, _) =>
      PairsAreJson(fmt, ms);
      InsertAllIsJson(fmt, Map([]), ms.Pairs(fmt));
    case _ =>
  }

  lemma {:induction false} MeaningsAreJson(fmt: NumberFormat, items: Items)
    requires fmt.ReadsPrefixes() && items.WellFormed(fmt)
    ensures forall i :: 0 <= i < |items.Meanings(fmt)| ==> IsJson(fmt, items.Meanings(fmt)[i])
    decreases items, 1
  {
    MeaningIsJson(fmt, items.item);
    if items.Item? {
      MeaningsAreJson(fmt, items.more);
    }
  }

  predicate JsonPair(fmt: NumberFormat, p: Value) {
    p.Pair? && p.first.Str? && IsJson(fmt, p.second)
  }

  lemma {:induction false} PairsAreJson(fmt: NumberFormat, ms: Members)
    requires fmt.ReadsPrefixes() && ms.WellFormed(fmt)
    ensures forall i :: 0 <= i < |ms.Pairs(fmt)| ==> JsonPair(fmt, ms.Pairs(fmt)[i])
    decreases ms, 1
  {
    MeaningIsJson(fmt, ms.member.val);
    if ms.Also? {
      PairsAreJson(fmt, ms.more);
    }
  }

  predicate EntriesAreJson(fmt: NumberFormat, es: seq<Entry>) {
    forall i :: 0 <= i < |es| ==> IsJson(fmt, es[i].val)
  }

  lemma {:induction false} EmplaceIsJson(fmt: NumberFormat, es: seq<Entry>, k: string, v: Value)
    requires IsJson(fmt, v) && EntriesAreJson(fmt, es)
    ensures EntriesAreJson(fmt, Emplace(es, k, v))
    decreases |es|
  {
    hide Less;
    if es != [] && es[0].key != k && !Less(k, es[0].key) {
      EmplaceIsJson(fmt, es[1..], k, v);
    }
  }

  lemma {:induction false} InsertAllIsJson(fmt: NumberFormat, m: Value, pairs: seq<Value>)
    requires m.Map? && IsJson(fmt, m) && forall i :: 0 <= i < |pairs| ==> JsonPair(fmt, pairs[i])
    ensures IsJson(fmt, InsertAll(m, pairs))
    decreases |pairs|
  {
    if pairs != [] {
      EmplaceIsJson(fmt, m.entries, pairs[0].first.text, pairs[0].second);
      EmplaceSorted(m.entries, pairs[0].first.text, pairs[0].second);
      InsertAllIsJson(fmt, Insert(m, pairs[0]), pairs[1..]);
    }
  }

  // ---- the round trip ----

  /** A printed value with safe strings is read to the end of its text; what comes back is the value
      with its empty objects replaced by empty arrays. */
  lemma PrintThenParse(fmt: NumberFormat, depth: string, v: Value)
    requires fmt.Lawful() && IsJson(fmt, v) && StringsSafe(v) && Blank(depth)
    ensures var o := ParseJson(fmt, Print(fmt, depth, v)); o.Good? && o.rest == "" && o.value == Forget(v)
  {
    hide ParseJson, Print, Forget;
    var t := TreeOf(fmt, depth, v);
    PrintIsTree(fmt, depth, v);
    TreeIsWellFormed(fmt, depth, v);
    TreeMeans(fmt, depth, v);
    assert t.Text() == "" + t.Text() + "";
    assert Document(fmt, "", t, "", t.Text(), Forget(v));
    DocumentComplete(fmt, "", t, "", t.Text(), Forget(v));
  }

  /** Parsing never produces a string or key that is not safe. */
  lemma ParsedIsSafe(fmt: NumberFormat, s: string)
    requires fmt.ReadsPrefixes() && ParseJson(fmt, s).Good?
    ensures StringsSafe(ParseJson(fmt, s).value)
  {
    hide ParseJson, ParseValue;
    JsonUnfolds(fmt, s);
    var t := ValueSound(fmt, SkipChars(WHITESPACE, s));
    MeaningIsSafe(fmt, t);
  }

  /** Parse, print and parse again: for every text that parses, the second parse succeeds and differs from
      the first only by the empty objects. */
  lemma ParsePrintParse(fmt: NumberFormat, depth: string, s: string)
    requires fmt.Lawful() && Blank(depth) && ParseJson(fmt, s).Good?
    ensures var v := ParseJson(fmt, s).value;
      var o := ParseJson(fmt, Print(fmt, depth, v));
      IsJson(fmt, v) && o.Good? && o.rest == "" && o.value == Forget(v)
  {
    hide ParseJson, ParseValue, Print, Forget;
    JsonUnfolds(fmt, s);
    var t := ValueSound(fmt, SkipChars(WHITESPACE, s));
    MeaningIsJson(fmt, t);
    MeaningIsSafe(fmt, t);
    PrintThenParse(fmt, depth, ParseJson(fmt, s).value);
  }

  /** A JSON value survives printing and parsing exactly when its strings are safe and it holds no
      empty object, at any nesting and for any whitespace indentation. */
  lemma RoundTrip(fmt: NumberFormat, depth: string, v: Value)
    requires fmt.Lawful() && IsJson(fmt, v) && Blank(depth)
    ensures var o := ParseJson(fmt, Print(fmt, depth, v));
      (o.Good? && o.rest == "" && o.value == v) <==> StringsSafe(v) && NoEmptyObject(v)
  {
    hide ParseJson, Print, NoEmptyObject, Forget;
    if StringsSafe(v) {
      PrintThenParse(fmt, depth, v);
      ForgetsNothing(v);
    } else if ParseJson(fmt, Print(fmt, depth, v)).Good? {
      ParsedIsSafe(fmt, Print(fmt, depth, v));
    }
  }

  /** The empty object is the smallest value that does not come back: it is printed as an empty array. */
  lemma EmptyObjectIsLost(fmt: NumberFormat)
    requires fmt.Lawful()
    ensures Print(fmt, "", Map([])) == "[]"
    ensures ParseJson(fmt, "[]").Good? && ParseJson(fmt, "[]").value == List([])
  {
    PrintThenParse(fmt, "", Map([]));
  }
}
