/** The greedy loop shared by `sequence`, `parse_map` and `fold_left`: a separator, then an element, for
    as long as both succeed. */
module Chains {
  import opened Text
  import opened Values
  import opened Outcomes

  /** Where a greedy loop stopped and the elements it collected; `Endless` if it never stops. */
  datatype Links = Links(items: seq<Value>, rest: string, calls: nat) | Endless

  /** The elements after the first: a round that fails leaves the state before its separator. */
  function Chain(elem: Parser, sep: Parser, s: string): (l: Links)
    decreases |s|
  {
    match sep(s)
    case Diverge => Endless
    case Bad(c) => Links([], s, c)
    case Good(m, _, c1) =>
      match elem(m)
      case Diverge => Endless
      case Bad(c2) => Links([], s, c1 + c2)
      case Good(r, v, c2) =>
        if |r| >= |s| then Endless
        else
          match Chain(elem, sep, r)
          case Endless => Endless
          case Links(vs, q, c) => Links([v] + vs, q, c1 + c2 + c)
  }

  /** An optional first element, then the chain: never fails. */
  function Elements(elem: Parser, sep: Parser, s: string): Links {
    match elem(s)
    case Diverge => Endless
    case Bad(c) => Links([], s, c)
    case Good(r, v, c) =>
      match Chain(elem, sep, r)
      case Endless => Endless
      case Links(vs, q, c') => Links([v] + vs, q, c + c')
  }

  /** `fold_left`'s loop: `next` until it fails, combining as it goes. */
  function FoldLoop(next: Parser, op: (Value, Value) -> Value, s: string, acc: Value): Outcome
    decreases |s|
  {
    match next(s)
    case Diverge => Diverge
    case Bad(c) => Good(s, acc, c)
    case Good(r, v, c) => if |r| >= |s| then Diverge else FoldLoop(next, op, r, op(acc, v)).After(c)
  }

  /** `parse_map`'s loop: as `Chain`, emplacing each pair into the map at once. */
  function MapLoop(elem: Parser, sep: Parser, s: string, m: Value): Outcome
    decreases |s|
  {
    match sep(s)
    case Diverge => Diverge
    case Bad(c) => Good(s, m, c)
    case Good(t, _, c1) =>
      match elem(t)
      case Diverge => Diverge
      case Bad(c2) => Good(s, m, c1 + c2)
      case Good(r, v, c2) =>
        if |r| >= |s| then Diverge else MapLoop(elem, sep, r, Insert(m, v)).After(c1 + c2)
  }

  /** One round of a loop that ends: what it does, and how the rest of the loop follows from it. */
  lemma ChainRound(elem: Parser, sep: Parser, s: string)
    requires Chain(elem, sep, s).Links?
    ensures sep(s) != Diverge
    ensures sep(s).Bad? ==> Chain(elem, sep, s) == Links([], s, sep(s).calls)
    ensures sep(s).Good? ==>
      var o := elem(sep(s).rest);
      && o != Diverge
      && (o.Bad? ==> Chain(elem, sep, s) == Links([], s, sep(s).calls + o.calls))
      && (o.Good? ==>
        var c := Chain(elem, sep, o.rest);
        && |o.rest| < |s| && c.Links?
        && Chain(elem, sep, s) == Links([o.value] + c.items, c.rest, sep(s).calls + o.calls + c.calls))
  {
  }

  /** The optional first element, and how the loop follows from it. */
  lemma ElementsFirst(elem: Parser, sep: Parser, s: string)
    requires Elements(elem, sep, s).Links?
    ensures elem(s) != Diverge
    ensures elem(s).Bad? ==> Elements(elem, sep, s) == Links([], s, elem(s).calls)
    ensures elem(s).Good? ==>
      var c := Chain(elem, sep, elem(s).rest);
      c.Links? && Elements(elem, sep, s) == Links([elem(s).value] + c.items, c.rest, elem(s).calls + c.calls)
  {
  }

  /** One round of `fold_left`'s loop, when that ends. */
  lemma FoldRound(next: Parser, op: (Value, Value) -> Value, s: string, acc: Value)
    requires FoldLoop(next, op, s, acc) != Diverge
    ensures next(s) != Diverge
    ensures next(s).Bad? ==> FoldLoop(next, op, s, acc) == Good(s, acc, next(s).calls)
    ensures next(s).Good? ==>
      && |next(s).rest| < |s|
      && FoldLoop(next, op, s, acc) == FoldLoop(next, op, next(s).rest, op(acc, next(s).value)).After(next(s).calls)
  {
  }

  // ---- what one loop computes in terms of the other ----

  function FoldItems(op: (Value, Value) -> Value, acc: Value, items: seq<Value>): Value
    decreases |items|
  {
    if items == [] then acc else FoldItems(op, op(acc, items[0]), items[1..])
  }

  lemma {:induction false} MapLoopIsChain(elem: Parser, sep: Parser, s: string, m: Value)
    ensures MapLoop(elem, sep, s, m) == match Chain(elem, sep, s)
      case Endless => Diverge
      case Links(vs, q, c) => Good(q, InsertAll(m, vs), c)
    decreases |s|
  {
    var o := sep(s);
    if o.Good? {
      var p := elem(o.rest);
      if p.Good? && |p.rest| < |s| {
        MapLoopIsChain(elem, sep, p.rest, Insert(m, p.value));
      }
    }
  }

  /** One round of the loop as a parser: the separator, then the element. */
  function Round(elem: Parser, sep: Parser, s: string): Outcome {
    match sep(s)
    case Diverge => Diverge
    case Bad(c) => Bad(c)
    case Good(m, _, c) => elem(m).After(c)
  }

  lemma {:induction false} FoldLoopIsChain(elem: Parser, sep: Parser, next: Parser,
      op: (Value, Value) -> Value, s: string, acc: Value)
    requires forall x :: next(x) == Round(elem, sep, x)
    ensures FoldLoop(next, op, s, acc) == match Chain(elem, sep, s)
      case Endless => Diverge
      case Links(vs, q, c) => Good(q, FoldItems(op, acc, vs), c)
    decreases |s|
  {
    var o := next(s);
    if o.Good? && |o.rest| < |s| {
      FoldLoopIsChain(elem, sep, next, op, o.rest, op(acc, o.value));
    }
  }

  // ---- the greedy chain ----

  /** `items` are the values of successive rounds from `s` to `r`, each round strictly consuming, and no
      further round succeeds at `r`. */
  predicate Greedy(elem: Parser, sep: Parser, s: string, items: seq<Value>, r: string)
    decreases |items|
  {
    var o := Round(elem, sep, s);
    if items == [] then o.Bad? && r == s
    else o.Good? && |o.rest| < |s| && o.value == items[0] && Greedy(elem, sep, o.rest, items[1..], r)
  }

  /** The loop returns exactly the greedy chain: these items and this rest, and no others. */
  lemma {:induction false} ChainIsGreedy(elem: Parser, sep: Parser, s: string, items: seq<Value>, r: string)
    ensures Greedy(elem, sep, s, items, r) <==>
      var l := Chain(elem, sep, s); l.Links? && l.items == items && l.rest == r
    decreases |s|
  {
    var o := Round(elem, sep, s);
    if o.Good? && |o.rest| < |s| {
      if items != [] {
        ChainIsGreedy(elem, sep, o.rest, items[1..], r);
        assert items == [items[0]] + items[1..];
      }
      var l := Chain(elem, sep, s);
      if l.Links? && l.items == items {
        assert items[1..] == Chain(elem, sep, o.rest).items;
      }
    }
  }

  /** No further separator is consumed: where the chain stops, a separator followed by an element fails. */
  lemma {:induction false} ChainStops(elem: Parser, sep: Parser, s: string)
    requires Chain(elem, sep, s).Links?
    ensures Round(elem, sep, Chain(elem, sep, s).rest).Bad?
    decreases |s|
  {
    var o := Round(elem, sep, s);
    if o.Good? {
      ChainStops(elem, sep, o.rest);
    }
  }

  /** If every successful round consumes input and no part diverges, the loop ends. */
  lemma {:induction false} ChainEnds(elem: Parser, sep: Parser, s: string)
    requires forall x :: Round(elem, sep, x) != Diverge
    requires forall x :: Round(elem, sep, x).Good? ==> |Round(elem, sep, x).rest| < |x|
    ensures Chain(elem, sep, s).Links?
    decreases |s|
  {
    var o := Round(elem, sep, s);
    if o.Good? {
      ChainEnds(elem, sep, o.rest);
    }
  }

  /** The loop diverges only through a part that diverges or a round that consumes nothing. */
  lemma {:induction false} EndlessHasCause(elem: Parser, sep: Parser, s: string) returns (x: string)
    requires Chain(elem, sep, s).Endless?
    ensures Round(elem, sep, x) == Diverge || (Round(elem, sep, x).Good? && |x| <= |Round(elem, sep, x).rest|)
    decreases |s|
  {
    var o := Round(elem, sep, s);
    if o.Good? && |o.rest| < |s| {
      x := EndlessHasCause(elem, sep, o.rest);
    } else {
      x := s;
    }
  }

  // ---- replacing a parser by one more defined ----

  /** The texts a comparison of two parsers is about. */
  type Domain = string -> bool

  function Everywhere(): Domain { s => true }

  function SuffixesOf(t: string): Domain { s => IsSuffix(s, t) }

  ghost predicate Closed(d: Domain) {
    forall s, r :: d(s) && IsSuffix(r, s) ==> d(r)
  }

  /** `o` diverges or is `p`; and a success leaves a text of the domain. */
  ghost predicate Below(o: Outcome, p: Outcome, d: Domain) {
    (o == Diverge || o == p) && (o.Good? ==> d(o.rest))
  }

  /** On every text of the domain `p` agrees with `q` unless it diverges, and it stays in the domain. */
  ghost predicate Refines(p: Parser, q: Parser, d: Domain) {
    forall s :: d(s) ==> Below(p(s), q(s), d)
  }

  lemma {:induction false} ChainMonotone(e1: Parser, e2: Parser, s1: Parser, s2: Parser, s: string, d: Domain)
    requires Refines(e1, e2, d) && Refines(s1, s2, d) && d(s)
    ensures var l := Chain(e1, s1, s); l.Links? ==> l == Chain(e2, s2, s) && d(l.rest)
    decreases |s|
  {
    assert Below(s1(s), s2(s), d);
    if s1(s).Good? {
      assert Below(e1(s1(s).rest), e2(s2(s).rest), d);
      var o := e1(s1(s).rest);
      if o.Good? && |o.rest| < |s| {
        ChainMonotone(e1, e2, s1, s2, o.rest, d);
      }
    }
  }

  lemma {:induction false} FoldLoopMonotone(n1: Parser, n2: Parser, op: (Value, Value) -> Value, s: string,
      acc: Value, d: Domain)
    requires Refines(n1, n2, d) && d(s)
    ensures Below(FoldLoop(n1, op, s, acc), FoldLoop(n2, op, s, acc), d)
    decreases |s|
  {
    assert Below(n1(s), n2(s), d);
    var o := n1(s);
    if o.Good? && |o.rest| < |s| {
      FoldLoopMonotone(n1, n2, op, o.rest, op(acc, o.value), d);
    }
  }
}
