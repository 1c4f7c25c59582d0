/** The promise object: its fields are updated by co_return and by the awaits of one resume. */
module Promises {
  import opened Text
  import opened Values
  import opened Outcomes
  import opened Combinators
  import opened Recursion
  import opened Windows
  import opened Machine
  import opened Coroutines

  // ---- the steps of a run that ends ----

  lemma NoSteps<L>(body: Body<L>, m: Promise<L>, self: Parser)
    ensures Steps(body, m, self, 0) == m
  {
  }

  /** Before the end there is a next command, and it does not hang. */
  lemma NextStep<L>(body: Body<L>, m: Promise<L>, self: Parser, i: nat, fuel: nat)
    requires i <= fuel && Steps(body, m, self, i).status.Running?
    requires ToResult(Steps(body, m, self, fuel)) != Diverge
    ensures i < fuel
    ensures Steps(body, m, self, i + 1) == Advance(body, Steps(body, m, self, i), self)
    ensures !Steps(body, m, self, i + 1).status.Hung?
  {
    hide Advance;
    if Steps(body, m, self, i + 1).status.Hung? && i < fuel {
      StepsSplit(body, m, self, i + 1, fuel - i - 1);
      Halted(body, Steps(body, m, self, i + 1), self, fuel - i - 1);
    }
  }

  lemma Stopped<L>(body: Body<L>, m: Promise<L>, self: Parser, i: nat, fuel: nat)
    requires i <= fuel && !Steps(body, m, self, i).status.Running?
    ensures Steps(body, m, self, fuel) == Steps(body, m, self, i)
  {
    StepsSplit(body, m, self, i, fuel - i);
    Halted(body, Steps(body, m, self, i), self, fuel - i);
  }

  /** parse of test_then(p, func): `l` are the locals func assigns to. */
  method TestThen<L>(p: Expr, func: Value -> L, l: L, e: Expr, n: nat, st: State, dc: Expr -> bool)
      returns (r: Raw, l': L, ghost calls: nat)
    requires st.Valid() && Out(p, e, n, st) != Diverge
    ensures Encodes(r, calls, AlwaysPure, st, Tested(Out(p, e, n, st), st.Text())) && r.GetValue().Bool?
    ensures l' == if Out(p, e, n, st).Good? then func(Out(p, e, n, st).value) else l
  {
    hide Run, KindOf, State.Text;
    var x;
    x, calls := Parse(p, e, n, st, dc);
    if x.Good() {
      return PureResult(x.st, Bool(true)), func(x.GetValue()), calls;
    }
    return PureResult(st, Bool(false)), l, calls;
  }

  class ParsePromise {
    var state: State
    var value: Value
    var isGood: bool

    constructor (st: State)
      ensures state == st && !isGood
    {
      state, value, isGood := st, Empty, false;
    }

    method ReturnValue(v: Value)
      modifies this
      ensures value == v && isGood && state == old(state)
    {
      value, isGood := v, true;
    }

    /** await_ready: runs the parser on a copy of the state, and moves the state only if that succeeded. */
    method AwaitReady(p: Expr, e: Expr, n: nat, dc: Expr -> bool) returns (ready: bool, r: Raw, ghost calls: nat)
      requires state.Valid() && Out(p, e, n, state) != Diverge
      modifies this`state
      ensures Encodes(r, calls, KindOf(p, dc), old(state), Out(p, e, n, old(state)))
      ensures ready == r.Good()
      ensures state == if ready then r.st else old(state)
    {
      r, calls := Parse(p, e, n, state, dc);
      ready, state := UpdateState(r, state);
    }

    /** await_ready of test_then(p, func): always ready. */
    method AwaitTestReady<L>(p: Expr, func: Value -> L, l: L, e: Expr, n: nat, dc: Expr -> bool)
        returns (r: Raw, l': L, ghost calls: nat)
      requires state.Valid() && Out(p, e, n, state) != Diverge
      modifies this`state
      ensures Encodes(r, calls, AlwaysPure, old(state), Tested(Out(p, e, n, old(state)), old(state.Text())))
      ensures r.GetValue().Bool?
      ensures l' == if Out(p, e, n, old(state)).Good? then func(Out(p, e, n, old(state)).value) else l
      ensures state == r.st
    {
      r, l', calls := TestThen(p, func, l, e, n, state, dc);
      var _, st := UpdateState(r, state);
      state := st;
    }

    /** The object is the promise `m`. */
    ghost predicate Shows<L>(m: Promise<L>, status: Status<L>, calls: nat)
      reads this
    {
      && state.Valid() && state.Text() == m.state
      && isGood == m.isGood && (isGood ==> value == m.value)
      && status == m.status && calls == m.calls
    }

    /** resume: runs the body to its first failed await or to its co_return. Only runs that return are
        asked for; `fuel` commands are enough for this one. */
    method Resume<L>(body: Body<L>, l: L, e: Expr, n: nat, dc: Expr -> bool, ghost fuel: nat)
        returns (status: Status<L>, ghost calls: nat)
      requires state.Valid() && !isGood
      requires Sequenced(body, l, state.Text(), Inner(e, n), fuel) != Diverge
      modifies this
      ensures Within(state, old(state))
      ensures Shows(Steps(body, Start(l, old(state.Text())), Inner(e, n), fuel), status, calls)
    {
      hide Run, Steps, Sequenced, KindOf, State.Text;
      ghost var self, start := Inner(e, n), Start(l, state.Text());
      CoroutineIsSequencing(body, l, state.Text(), self, fuel);
      status, calls := Running(l), 0;
      ghost var i := 0;
      NoSteps(body, start, self);
      while status.Running?
        invariant i <= fuel && Within(state, old(state))
        invariant Shows(Steps(body, start, self, i), status, calls)
        decreases fuel - i
      {
        NextStep(body, start, self, i, fuel);
        var locals := status.locals;
        match body(locals) {
          case CoReturn(v) =>
            ReturnValue(v);
            status := Finished;
          case Await(p, resume) =>
            var ready, r, more := AwaitReady(p, e, n, dc);
            calls := calls + more;
            status := if ready then Running(resume(r.GetValue())) else Suspended;
          case AwaitTest(p, func, next) =>
            var r, then_, more := AwaitTestReady(p, func, locals, e, n, dc);
            calls := calls + more;
            status := Running(next(then_, r.GetValue().flag));
        }
        i := i + 1;
      }
      Stopped(body, start, self, i, fuel);
    }
  }

  /** A coroutine called as a parser: make the promise, resume it once, convert it to a result. */
  method ParseCoroutine<L>(k: Kind, body: Body<L>, l: L, e: Expr, n: nat, st: State, dc: Expr -> bool, ghost fuel: nat)
      returns (r: Raw, ghost calls: nat)
    requires k != AlwaysPure && st.Valid()
    requires Sequenced(body, l, st.Text(), Inner(e, n), fuel) != Diverge
    ensures Encodes(r, calls, k, st, Sequenced(body, l, st.Text(), Inner(e, n), fuel))
  {
    hide Run, Steps, Sequenced, State.Text;
    var promise := new ParsePromise(st);
    CoroutineIsSequencing(body, l, st.Text(), Inner(e, n), fuel);
    var _, used := promise.Resume(body, l, e, n, dc, fuel);
    calls := used;
    r := if promise.isGood then Success(k, promise.state, promise.value) else Failure(k);
  }
}
