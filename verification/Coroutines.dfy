/** Parsers written as coroutines. A body is cut at its awaits: from the values of its local variables it
    says what it does next. The promise and the awaiter run such a body step by step; running it is proved
    to be monadic sequencing of the awaited parsers. */
module Coroutines {
  import opened Text
  import opened Values
  import opened Outcomes
  import opened Combinators
  import opened Laws

  /** The next thing a coroutine with locals `L` does. `AwaitTest` is co_await test_then(p, func), where
      func assigns to the locals when p succeeds. */
  datatype Command<!L> =
    | CoReturn(value: Value)
    | Await(p: Expr, resume: Value -> L)
    | AwaitTest(p: Expr, func: Value -> L, next: (L, bool) -> L)

  type Body<!L> = L -> Command<L>

  /** test_then(p, func): succeeds in any case, and tells whether `p` did. */
  function Tested(o: Outcome, s: string): Outcome {
    match o
    case Good(r, _, c) => Good(r, Bool(true), c)
    case Bad(c) => Good(s, Bool(false), c)
    case Diverge => Diverge
  }

  // ---- monadic sequencing ----

  /** The awaited parsers one after another, each on the text the one before left; the first failure is the
      failure of the whole. Diverges when more than `fuel` commands are needed. */
  function Sequenced<L>(body: Body<L>, l: L, s: string, self: Parser, fuel: nat): Outcome
    decreases fuel
  {
    if fuel == 0 then Diverge
    else
      match body(l)
      case CoReturn(v) => Good(s, v, 0)
      case Await(p, resume) => (
        match Run(p, s, self)
        case Good(r, v, c) => Sequenced(body, resume(v), r, self, fuel - 1).After(c)
        case other => other)
      case AwaitTest(p, func, next) => (
        match Run(p, s, self)
        case Good(r, v, c) => Sequenced(body, next(func(v), true), r, self, fuel - 1).After(c)
        case Bad(c) => Sequenced(body, next(l, false), s, self, fuel - 1).After(c)
        case Diverge => Diverge)
  }

  /** A run that ends does not change with more fuel. */
  lemma {:induction false} MoreFuel<L>(body: Body<L>, l: L, s: string, self: Parser, fuel: nat, more: nat)
    requires fuel <= more && Sequenced(body, l, s, self, fuel) != Diverge
    ensures Sequenced(body, l, s, self, more) == Sequenced(body, l, s, self, fuel)
    decreases fuel
  {
    hide Run;
    match body(l)
    case CoReturn(_) =>
    case Await(p, resume) =>
      var o := Run(p, s, self);
      if o.Good? {
        MoreFuel(body, resume(o.value), o.rest, self, fuel - 1, more - 1);
      }
    case AwaitTest(p, func, next) =>
      var o := Run(p, s, self);
      if o.Good? {
        MoreFuel(body, next(func(o.value), true), o.rest, self, fuel - 1, more - 1);
      } else {
        MoreFuel(body, next(l, false), s, self, fuel - 1, more - 1);
      }
  }

  /** What the coroutine as a whole yields, however many commands it takes. */
  ghost function Executed<L>(body: Body<L>, l: L, s: string, self: Parser): Outcome {
    if fuel: nat :| Sequenced(body, l, s, self, fuel) != Diverge
    then Sequenced(body, l, s, self, fuel)
    else Diverge
  }

  lemma ExecutedIs<L>(body: Body<L>, l: L, s: string, self: Parser, fuel: nat)
    requires Sequenced(body, l, s, self, fuel) != Diverge
    ensures Executed(body, l, s, self) == Sequenced(body, l, s, self, fuel)
  {
    hide Sequenced;
    var other: nat :| Sequenced(body, l, s, self, other) != Diverge
      && Executed(body, l, s, self) == Sequenced(body, l, s, self, other);
    MoreFuel(body, l, s, self, fuel, fuel + other);
    MoreFuel(body, l, s, self, other, fuel + other);
  }

  // ---- the promise, step by step ----

  /** Where the coroutine stands: about to continue with its locals; suspended for good at a failed await;
      run to co_return; or inside a parser that never returns. */
  datatype Status<L> = Running(locals: L) | Suspended | Finished | Hung

  /** An await that was carried out, of a parser or of its test_then, on this text. */
  datatype Awaited = Awaited(p: Expr, test: bool, on: string) {
    function Answer(self: Parser): Outcome {
      if test then Tested(Run(p, on, self), on) else Run(p, on, self)
    }
  }

  /** The promise (`state`, `value`, `isGood`), with the coroutine's status and the awaits so far. */
  datatype Promise<L> = Promise(status: Status<L>, state: string, value: Value, isGood: bool,
                                awaited: seq<Awaited>, calls: nat)

  function Start<L>(l: L, s: string): Promise<L> { Promise(Running(l), s, Empty, false, [], 0) }

  /** The promise after an await answered: the state moves on success only. */
  function Answered<L>(m: Promise<L>, a: Awaited, answer: Outcome, resumed: L): Promise<L> {
    match answer
    case Good(r, _, c) => m.(status := Running(resumed), state := r, awaited := m.awaited + [a], calls := m.calls + c)
    case Bad(c) => m.(status := Suspended, awaited := m.awaited + [a], calls := m.calls + c)
    case Diverge => m.(status := Hung, awaited := m.awaited + [a])
  }

  /** The locals a coroutine goes on with after an await answered. */
  function Resumed<L>(command: Command<L>, l: L, o: Outcome): L {
    match command
    case CoReturn(_) => l
    case Await(_, resume) => if o.Good? then resume(o.value) else l
    case AwaitTest(_, func, next) => if o.Good? then next(func(o.value), true) else next(l, false)
  }

  /** One command. */
  function Advance<L>(body: Body<L>, m: Promise<L>, self: Parser): Promise<L> {
    match m.status
    case Running(l) => (
      match body(l)
      case CoReturn(v) => m.(status := Finished, value := v, isGood := true)
      case Await(p, _) =>
        var a := Awaited(p, false, m.state);
        Answered(m, a, a.Answer(self), Resumed(body(l), l, Run(p, m.state, self)))
      case AwaitTest(p, _, _) =>
        var a := Awaited(p, true, m.state);
        Answered(m, a, a.Answer(self), Resumed(body(l), l, Run(p, m.state, self))))
    case _ => m
  }

  /** `n` commands. */
  function Steps<L>(body: Body<L>, m: Promise<L>, self: Parser, n: nat): Promise<L> {
    if n == 0 then m else Advance(body, Steps(body, m, self, n - 1), self)
  }

  lemma {:induction false} StepsSplit<L>(body: Body<L>, m: Promise<L>, self: Parser, i: nat, n: nat)
    ensures Steps(body, m, self, i + n) == Steps(body, Steps(body, m, self, i), self, n)
    decreases n
  {
    hide Advance;
    if n > 0 {
      StepsSplit(body, m, self, i, n - 1);
    }
  }

  lemma {:induction false} Halted<L>(body: Body<L>, m: Promise<L>, self: Parser, n: nat)
    requires !m.status.Running?
    ensures Steps(body, m, self, n) == m
    decreases n
  {
    if n > 0 {
      Halted(body, m, self, n - 1);
    }
  }

  /** The state is the one after the last successful await; every await but the last succeeded and handed
      its state to the next; a failed await was the last, and suspended the coroutine; and is_good holds
      exactly when co_return was reached. */
  ghost predicate Orderly<L>(m: Promise<L>, s: string, self: Parser) {
    var n := |m.awaited|;
    && m.isGood == m.status.Finished?
    && (forall i :: 0 <= i < n - 1 ==>
          m.awaited[i].Answer(self).Good? && m.awaited[i + 1].on == m.awaited[i].Answer(self).rest)
    && (n == 0 ==> m.state == s && (m.status.Running? || m.status.Finished?))
    && (n > 0 ==>
          var last := m.awaited[n - 1].Answer(self);
          && m.awaited[0].on == s
          && (if last.Good? then m.state == last.rest && (m.status.Running? || m.status.Finished?)
              else if last.Bad? then m.state == m.awaited[n - 1].on && m.status.Suspended?
              else m.state == m.awaited[n - 1].on && m.status.Hung?))
  }

  lemma AnsweredIsOrderly<L>(m: Promise<L>, a: Awaited, resumed: L, s: string, self: Parser)
    requires Orderly(m, s, self) && m.status.Running? && a.on == m.state
    ensures Orderly(Answered(m, a, a.Answer(self), resumed), s, self)
  {
    hide Run, Awaited.Answer;
    var m' := Answered(m, a, a.Answer(self), resumed);
    assert m'.awaited == m.awaited + [a];
  }

  /** Every step of every run keeps the promise in order. */
  lemma {:induction false} StepsAreOrderly<L>(body: Body<L>, l: L, s: string, self: Parser, n: nat)
    ensures Orderly(Steps(body, Start(l, s), self, n), s, self)
    decreases n
  {
    hide Run, Awaited.Answer, Answered, Resumed;
    if n > 0 {
      StepsAreOrderly(body, l, s, self, n - 1);
      var m := Steps(body, Start(l, s), self, n - 1);
      if m.status.Running? {
        var now := m.status.locals;
        match body(now)
        case CoReturn(_) =>
        case Await(p, _) =>
          AnsweredIsOrderly(m, Awaited(p, false, m.state), Resumed(body(now), now, Run(p, m.state, self)), s, self);
        case AwaitTest(p, _, _) =>
          AnsweredIsOrderly(m, Awaited(p, true, m.state), Resumed(body(now), now, Run(p, m.state, self)), s, self);
      }
    }
  }

  /** The conversion of the promise to a result. */
  function ToResult<L>(m: Promise<L>): Outcome {
    match m.status
    case Finished | Suspended => if m.isGood then Good(m.state, m.value, m.calls) else Bad(m.calls)
    case _ => Diverge
  }

  lemma {:induction false} StepsAreSequencing<L>(body: Body<L>, m: Promise<L>, self: Parser, n: nat)
    requires m.status.Running? && !m.isGood
    ensures ToResult(Steps(body, m, self, n)) == Sequenced(body, m.status.locals, m.state, self, n).After(m.calls)
    decreases n
  {
    hide Run;
    if n > 0 {
      var m' := Advance(body, m, self);
      StepsSplit(body, m, self, 1, n - 1);
      assert Steps(body, m, self, 1) == m' by {
        assert Steps(body, m, self, 0) == m;
      }
      if m'.status.Running? {
        StepsAreSequencing(body, m', self, n - 1);
      } else {
        Halted(body, m', self, n - 1);
      }
    }
  }

  /** Running a coroutine under the promise and the awaiter is monadic sequencing, for every body. */
  lemma CoroutineIsSequencing<L>(body: Body<L>, l: L, s: string, self: Parser, n: nat)
    ensures ToResult(Steps(body, Start(l, s), self, n)) == Sequenced(body, l, s, self, n)
  {
    StepsAreSequencing(body, Start(l, s), self, n);
  }

  // ---- make_w_coro ----

  /** Awaits the parsers in order and builds the result; the locals are the values awaited so far. */
  function MakeBody(build: seq<Value> -> Value, ps: seq<Expr>): Body<seq<Value>> {
    vs => if |vs| < |ps| then Await(ps[|vs|], v => vs + [v]) else CoReturn(build(vs))
  }

  /** The outcome of the remaining parsers, their values built into one with the earlier ones in front. */
  function BuiltAfter(build: seq<Value> -> Value, vs: seq<Value>, o: Outcome): Outcome {
    if o.Good? && o.value.List? then Good(o.rest, build(vs + o.value.items), o.calls) else o
  }

  lemma {:induction false} MakeBodyRuns(build: seq<Value> -> Value, ps: seq<Expr>, vs: seq<Value>, s: string,
      self: Parser, fuel: nat)
    requires |vs| <= |ps| < |vs| + fuel
    ensures Sequenced(MakeBody(build, ps), vs, s, self, fuel) == BuiltAfter(build, vs, RunAll(ps[|vs|..], s, self))
    decreases fuel
  {
    hide Run, RunAll;
    var k := |vs|;
    if k == |ps| {
      AllOfNone(s, self);
      assert ps[k..] == [] && vs + [] == vs;
    } else {
      AllSplit(ps[k..], s, self);
      assert ps[k..][0] == ps[k] && ps[k..][1..] == ps[k + 1..];
      var o := Run(ps[k], s, self);
      if o.Good? {
        MakeBodyRuns(build, ps, vs + [o.value], o.rest, self, fuel - 1);
        var rest := RunAll(ps[k + 1..], o.rest, self);
        if rest.Good? {
          assert vs + ([o.value] + rest.value.items) == vs + [o.value] + rest.value.items;
        }
      }
    }
  }

  /** make_w_coro of any list of parsers is make of the same list. */
  lemma MakeWithCoroutine(build: seq<Value> -> Value, ps: seq<Expr>, s: string, self: Parser)
    ensures Executed(MakeBody(build, ps), [], s, self) == Run(Make(build, ps), s, self)
  {
    hide Run, RunAll, Sequenced, MakeBody;
    forall fuel: nat | fuel > |ps|
      ensures Sequenced(MakeBody(build, ps), [], s, self, fuel) == Run(Make(build, ps), s, self)
    {
      MakeBodyRuns(build, ps, [], s, self, fuel);
      MakeIs(build, ps, s, self);
      assert ps[0..] == ps;
      var o := RunAll(ps, s, self);
      assert o.Good? ==> [] + o.value.items == o.value.items;
    }
    if fuel: nat :| Sequenced(MakeBody(build, ps), [], s, self, fuel) != Diverge {
      ExecutedIs(MakeBody(build, ps), [], s, self, fuel);
      MoreFuel(MakeBody(build, ps), [], s, self, fuel, fuel + |ps| + 1);
    } else {
      assert Sequenced(MakeBody(build, ps), [], s, self, |ps| + 1) == Diverge;
    }
  }
}
