/** The values parsers produce, and the ordered map that `parse_map` fills. */
module Values {

  /** One type for every value a parser of the library can produce. A JSON value is built from
      `Nul`, `Bool`, `Num`, `Str`, `List` and `Map` only. */
  datatype Value =
    | Empty
    | Nul
    | Bool(flag: bool)
    | Int(i: int)
    | Num(num: real)
    | Str(text: string)
    | Nothing
    | Just(some: Value)
    | Pair(first: Value, second: Value)
    | List(items: seq<Value>)
    | Map(entries: seq<Entry>)

  datatype Entry = Entry(key: string, val: Value)

  /** The order of `std::string_view`: lexicographic, a proper prefix first. */
  predicate Less(a: string, b: string) {
    b != "" && (a == "" || a[0] < b[0] || (a[0] == b[0] && Less(a[1..], b[1..])))
  }

  lemma {:induction false} LessIsTotal(a: string, b: string)
    ensures Less(a, b) || a == b || Less(b, a)
  {
    if a != "" && b != "" && a[0] == b[0] {
      LessIsTotal(a[1..], b[1..]);
      assert a == [a[0]] + a[1..] && b == [b[0]] + b[1..];
    }
  }

  lemma {:induction false} LessIsTransitive(a: string, b: string, c: string)
    requires Less(a, b) && Less(b, c)
    ensures Less(a, c)
  {
    if a != "" && a[0] == b[0] && b[0] == c[0] {
      LessIsTransitive(a[1..], b[1..], c[1..]);
    }
  }

  lemma {:induction false} LessIsIrreflexive(a: string)
    ensures !Less(a, a)
  {
    if a != "" {
      LessIsIrreflexive(a[1..]);
    }
  }

  /** `a` comes before `b` in a dictionary: after a common beginning it ends, or goes on with a smaller byte. */
  ghost predicate Precedes(a: string, b: string) {
    exists k :: SplitsAt(a, b, k)
  }

  predicate SplitsAt(a: string, b: string, k: nat) {
    k <= |a| && k < |b| && a[..k] == b[..k] && (k == |a| || a[k] as int < b[k] as int)
  }

  lemma {:induction false} LessIsPrecedes(a: string, b: string)
    ensures Less(a, b) <==> Precedes(a, b)
    decreases |a|
  {
    if b != "" && a != "" && a[0] == b[0] {
      LessIsPrecedes(a[1..], b[1..]);
      if k: nat :| SplitsAt(a[1..], b[1..], k) {
        assert a[..k + 1] == [a[0]] + a[1..][..k] && b[..k + 1] == [b[0]] + b[1..][..k];
        assert SplitsAt(a, b, k + 1);
      }
      if k: nat :| SplitsAt(a, b, k) {
        assert k > 0;
        assert a[1..][..k - 1] == a[..k][1..] && b[1..][..k - 1] == b[..k][1..];
        assert SplitsAt(a[1..], b[1..], k - 1);
      }
    } else {
      assert Less(a, b) ==> SplitsAt(a, b, 0);
    }
  }

  // ---- std::map<std::string_view, V>: entries in strictly increasing key order ----

  predicate Sorted(es: seq<Entry>) {
    |es| < 2 || (Less(es[0].key, es[1].key) && Sorted(es[1..]))
  }

  predicate HasKey(es: seq<Entry>, k: string) {
    exists i :: 0 <= i < |es| && es[i].key == k
  }

  /** `std::map::emplace`: puts the pair in its place, unless the key is already there. */
  function Emplace(es: seq<Entry>, k: string, v: Value): seq<Entry> {
    if es == [] then [Entry(k, v)]
    else if es[0].key == k then es
    else if Less(k, es[0].key) then [Entry(k, v)] + es
    else [es[0]] + Emplace(es[1..], k, v)
  }

  function Find(es: seq<Entry>, k: string): Value
    requires HasKey(es, k)
  {
    if es[0].key == k then es[0].val else
      assert HasKey(es[1..], k) by {
        var i :| 0 <= i < |es| && es[i].key == k;
        assert es[1..][i - 1] == es[i];
      }
      Find(es[1..], k)
  }

  lemma {:induction false} SortedFromHead(es: seq<Entry>, i: nat)
    requires Sorted(es) && 0 < i < |es|
    ensures Less(es[0].key, es[i].key)
  {
    if i > 1 {
      SortedFromHead(es[1..], i - 1);
      LessIsTransitive(es[0].key, es[1].key, es[i].key);
    }
  }

  lemma {:induction false} EmplaceSorted(es: seq<Entry>, k: string, v: Value)
    requires Sorted(es)
    ensures Sorted(Emplace(es, k, v))
    ensures |Emplace(es, k, v)| > 0
    ensures es != [] && Less(es[0].key, k) ==> Emplace(es, k, v)[0] == es[0]
    ensures es == [] || Less(k, es[0].key) ==> Emplace(es, k, v)[0] == Entry(k, v)
    ensures es != [] && es[0].key == k ==> Emplace(es, k, v)[0] == es[0]
  {
    if es == [] || es[0].key == k {
      LessIsIrreflexive(k);
    } else if Less(k, es[0].key) {
      if Less(es[0].key, k) {
        LessIsTransitive(k, es[0].key, k);
        LessIsIrreflexive(k);
      }
      assert Emplace(es, k, v)[1..] == es;
    } else {
      LessIsTotal(k, es[0].key);
      EmplaceSorted(es[1..], k, v);
      var t := Emplace(es[1..], k, v);
      assert Emplace(es, k, v)[1..] == t;
      if |es| > 1 {
        LessIsTotal(k, es[1].key);
      }
      assert Less(es[0].key, t[0].key);
    }
  }

  lemma {:induction false} EmplaceKeys(es: seq<Entry>, k: string, v: Value, q: string)
    ensures HasKey(Emplace(es, k, v), q) <==> HasKey(es, q) || q == k
  {
    var t := Emplace(es, k, v);
    if es == [] || es[0].key == k {
      assert t[0].key == k;
    } else if Less(k, es[0].key) {
      assert t[0].key == k && t[1..] == es;
      assert forall i :: 0 <= i < |es| ==> t[i + 1] == es[i];
    } else {
      EmplaceKeys(es[1..], k, v, q);
      HasKeySplit(es, q);
      HasKeySplit(t, q);
      assert t[1..] == Emplace(es[1..], k, v);
    }
  }

  lemma HasKeySplit(es: seq<Entry>, q: string)
    requires es != []
    ensures HasKey(es, q) <==> es[0].key == q || HasKey(es[1..], q)
  {
    if HasKey(es, q) && es[0].key != q {
      var i :| 0 <= i < |es| && es[i].key == q;
      assert es[1..][i - 1] == es[i];
    }
    if HasKey(es[1..], q) {
      var i :| 0 <= i < |es[1..]| && es[1..][i].key == q;
      assert es[i + 1].key == q;
    }
  }

  /** A key already present keeps its value; a new key gets the value given. */
  lemma {:induction false} EmplaceFind(es: seq<Entry>, k: string, v: Value, q: string)
    requires Sorted(es)
    requires HasKey(Emplace(es, k, v), q)
    ensures HasKey(es, q) ==> Find(Emplace(es, k, v), q) == Find(es, q)
    ensures !HasKey(es, q) ==> q == k && Find(Emplace(es, k, v), q) == v
  {
    EmplaceKeys(es, k, v, q);
    var t := Emplace(es, k, v);
    if es == [] {
    } else if es[0].key == k {
    } else if Less(k, es[0].key) {
      assert t[1..] == es;
      if q == k && HasKey(es, q) {
        var i :| 0 <= i < |es| && es[i].key == k;
        if i > 0 {
          SortedFromHead(es, i);
          LessIsTransitive(k, es[0].key, k);
        }
        LessIsIrreflexive(k);
        assert false;
      }
    } else {
      assert t[1..] == Emplace(es[1..], k, v);
      HasKeySplit(es, q);
      HasKeySplit(t, q);
      if es[0].key != q {
        EmplaceFind(es[1..], k, v, q);
      }
    }
  }

  /** The container `parse_map` builds: each pair emplaced in turn, left to right. */
  function Insert(m: Value, pair: Value): Value {
    if m.Map? && pair.Pair? && pair.first.Str? then
      Map(Emplace(m.entries, pair.first.text, pair.second))
    else m
  }

  function InsertAll(m: Value, pairs: seq<Value>): Value
    decreases |pairs|
  {
    if pairs == [] then m else InsertAll(Insert(m, pairs[0]), pairs[1..])
  }

  predicate KeyedPairs(pairs: seq<Value>) {
    forall i :: 0 <= i < |pairs| ==> pairs[i].Pair? && pairs[i].first.Str?
  }

  /** The index of the first pair with key `q`, or the number of pairs when there is none. */
  function FirstWith(pairs: seq<Value>, q: string): (i: nat)
    requires KeyedPairs(pairs)
    ensures i <= |pairs|
    ensures forall j :: 0 <= j < i ==> pairs[j].first.text != q
    ensures i < |pairs| ==> pairs[i].first.text == q
  {
    if pairs == [] || pairs[0].first.text == q then 0 else 1 + FirstWith(pairs[1..], q)
  }

  /** Filling a map keeps it sorted; its keys are exactly the keys of the pairs and of the map it
      started from; and the first occurrence of each key wins. */
  lemma {:induction false} InsertAllFirstWins(es: seq<Entry>, pairs: seq<Value>, q: string)
    requires Sorted(es) && KeyedPairs(pairs)
    ensures var m := InsertAll(Map(es), pairs);
      && m.Map? && Sorted(m.entries)
      && (HasKey(m.entries, q) <==> HasKey(es, q) || FirstWith(pairs, q) < |pairs|)
      && (HasKey(es, q) ==> Find(m.entries, q) == Find(es, q))
      && (!HasKey(es, q) && FirstWith(pairs, q) < |pairs| ==>
            Find(m.entries, q) == pairs[FirstWith(pairs, q)].second)
    decreases |pairs|
  {
    if pairs != [] {
      var k, v := pairs[0].first.text, pairs[0].second;
      var es' := Emplace(es, k, v);
      EmplaceSorted(es, k, v);
      EmplaceKeys(es, k, v, q);
      InsertAllFirstWins(es', pairs[1..], q);
      if HasKey(es', q) {
        EmplaceFind(es, k, v, q);
      }
    }
  }

  function EntryPairs(es: seq<Entry>): seq<Value> {
    if es == [] then [] else [Pair(Str(es[0].key), es[0].val)] + EntryPairs(es[1..])
  }

  lemma {:induction false} EmplaceLast(es: seq<Entry>, k: string, v: Value)
    requires forall i :: 0 <= i < |es| ==> Less(es[i].key, k)
    ensures Emplace(es, k, v) == es + [Entry(k, v)]
  {
    if es != [] {
      LessIsIrreflexive(k);
      if Less(k, es[0].key) {
        LessIsTransitive(k, es[0].key, k);
      }
      assert forall i :: 0 <= i < |es[1..]| ==> es[1..][i] == es[i + 1];
      EmplaceLast(es[1..], k, v);
      assert es + [Entry(k, v)] == [es[0]] + (es[1..] + [Entry(k, v)]);
    }
  }

  /** Every key of `done` comes before every key of `es`. */
  predicate Before(done: seq<Entry>, es: seq<Entry>) {
    forall i, j :: 0 <= i < |done| && 0 <= j < |es| ==> Less(done[i].key, es[j].key)
  }

  lemma BeforeAdvances(done: seq<Entry>, es: seq<Entry>)
    requires Sorted(es) && es != [] && Before(done, es)
    ensures Before(done + [es[0]], es[1..])
  {
    hide Less;
    var done' := done + [es[0]];
    forall i, j | 0 <= i < |done'| && 0 <= j < |es[1..]| ensures Less(done'[i].key, es[1..][j].key) {
      if i == |done| {
        SortedFromHead(es, j + 1);
      }
    }
  }

  lemma InsertNext(done: seq<Entry>, es: seq<Entry>)
    requires es != [] && Before(done, es)
    ensures Insert(Map(done), Pair(Str(es[0].key), es[0].val)) == Map(done + [es[0]])
  {
    hide Less, Emplace;
    EmplaceLast(done, es[0].key, es[0].val);
  }

  /** Inserting the entries of a sorted map, in order, after an earlier part rebuilds the whole map. */
  lemma {:induction false} InsertAllRebuilds(done: seq<Entry>, es: seq<Entry>)
    requires Sorted(es) && Before(done, es)
    ensures InsertAll(Map(done), EntryPairs(es)) == Map(done + es)
    decreases |es|
  {
    hide Less, Before, Insert;
    if es == [] {
      assert done + es == done;
    } else {
      InsertNext(done, es);
      BeforeAdvances(done, es);
      InsertAllHead(Map(done), es);
      hide InsertAll, EntryPairs;
      InsertAllRebuilds(done + [es[0]], es[1..]);
      assert done + es == done + [es[0]] + es[1..];
    }
  }

  lemma InsertAllHead(m: Value, es: seq<Entry>)
    requires es != []
    ensures InsertAll(m, EntryPairs(es))
         == InsertAll(Insert(m, Pair(Str(es[0].key), es[0].val)), EntryPairs(es[1..]))
  {
    assert EntryPairs(es)[1..] == EntryPairs(es[1..]);
  }

  lemma {:induction false} SortedAnywhere(es: seq<Entry>, i: nat, j: nat)
    requires Sorted(es) && i < j < |es|
    ensures Less(es[i].key, es[j].key)
  {
    if i == 0 {
      SortedFromHead(es, j);
    } else {
      SortedAnywhere(es[1..], i - 1, j - 1);
    }
  }

  /** A map keeps its entries in dictionary order of their keys, each key once, in whatever order the pairs
      came. */
  lemma FilledInOrder(pairs: seq<Value>, i: nat, j: nat)
    requires KeyedPairs(pairs)
    ensures var m := InsertAll(Map([]), pairs);
      m.Map? && (i < j < |m.entries| ==> Precedes(m.entries[i].key, m.entries[j].key))
  {
    hide Less, Precedes;
    InsertAllFirstWins([], pairs, "");
    var m := InsertAll(Map([]), pairs);
    if i < j < |m.entries| {
      SortedAnywhere(m.entries, i, j);
      LessIsPrecedes(m.entries[i].key, m.entries[j].key);
    }
  }
}
