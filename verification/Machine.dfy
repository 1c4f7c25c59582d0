/** The library as it runs: parsers over nullable windows, results that encode failure in a null state or
    an empty optional, and loops that update the state in place. Every method is proved to compute what
    `Run` says, on every expression. */
module Machine {
  import opened Text
  import opened Values
  import opened Outcomes
  import opened Scanners
  import opened Chains
  import opened Combinators
  import opened Laws
  import opened Recursion
  import opened Windows

  // ---- result types ----

  /** result<T> for a default-constructible T, result<T> for any other T, and pure_result<T>. */
  datatype Raw =
    | StateResult(st: State, value: Value)
    | OptionResult(st: State, option: Value)
    | PureResult(st: State, value: Value)
  {
    /** good(), operator bool */
    predicate Good() {
      match this
      case StateResult(st, _) => st.Window?
      case OptionResult(_, o) => o.Just?
      case PureResult(_, _) => true
    }

    function GetValue(): Value {
      match this
      case StateResult(_, v) => v
      case OptionResult(_, o) => if o.Just? then o.some else Empty
      case PureResult(_, v) => v
    }
  }

  datatype Kind = ByState | ByOption | AlwaysPure

  /** The result type of an expression: fixed by its flag, else by whether its value type is default
      constructible (`dc`, any assignment of that to expressions). */
  function KindOf(e: Expr, dc: Expr -> bool): Kind {
    if AlwaysGood(e) then AlwaysPure else if dc(e) then ByState else ByOption
  }

  /** The result built from a state and a value. */
  function Success(k: Kind, st: State, v: Value): Raw {
    match k
    case ByState => StateResult(st, v)
    case ByOption => OptionResult(st, Just(v))
    case AlwaysPure => PureResult(st, v)
  }

  /** The default-constructed result; an always-good result has none that means failure. */
  function Failure(k: Kind): Raw {
    match k
    case ByState => StateResult(Null, Empty)
    case ByOption => OptionResult(Null, Nothing)
    case AlwaysPure => PureResult(Null, Empty)
  }

  predicate HasKind(r: Raw, k: Kind) {
    match k
    case ByState => r.StateResult?
    case ByOption => r.OptionResult?
    case AlwaysPure => r.PureResult?
  }

  /** `r` encodes the outcome `o` of a run on the window `st`: it is good exactly on success, and then
      carries the value and a window of the same buffer with the same end, onto exactly the rest. And the
      recursive parser was entered `calls` times. */
  predicate Means(r: Raw, calls: nat, st: State, o: Outcome) {
    match o
    case Good(rest, v, c) =>
      r.Good() && Within(r.st, st) && r.st.Text() == rest && r.GetValue() == v && calls == c
    case Bad(c) => !r.Good() && calls == c
    case Diverge => false
  }

  predicate Encodes(r: Raw, calls: nat, k: Kind, st: State, o: Outcome) {
    HasKind(r, k) && Means(r, calls, st, o)
  }

  /** The conversion of one result type to another (operator=, operator result). */
  function Convert(k: Kind, r: Raw): Raw {
    if r.Good() then Success(k, r.st, r.GetValue()) else Failure(k)
  }

  lemma ConvertEncodes(r: Raw, calls: nat, k: Kind, st: State, o: Outcome)
    requires Means(r, calls, st, o) && (k == AlwaysPure ==> !o.Bad?)
    ensures Encodes(Convert(k, r), calls, k, st, o)
  {
  }

  /** Parsers whose result type can encode a failure. */
  lemma CanFail(e: Expr)
    requires e.Leaf? || e.Literal? || e.BoolLiteral? || e.View? || e.Integer? || e.Enclose? || e.Then?
      || e.FoldLeft? || e.Bracketed? || e.ParseMap? || e.Self?
    ensures !AlwaysGood(e)
  {
  }

  lemma NeverFails(e: Expr)
    requires e.Chars? || e.CountChars? || e.Pure? || e.TryParse? || e.Sequence?
    ensures AlwaysGood(e)
  {
  }

  /** A failed result of a parser that can fail carries a null state if its value type is default
      constructible, and else an empty optional. */
  lemma FailureIsEncoded(r: Raw, calls: nat, e: Expr, dc: Expr -> bool, st: State, o: Outcome)
    requires Encodes(r, calls, KindOf(e, dc), st, o) && o.Bad?
    ensures !AlwaysGood(e)
    ensures if dc(e) then r.StateResult? && r.st == Null else r.OptionResult? && !r.option.Just?
  {
  }

  // ---- update_state ----

  /** On success the caller's state becomes the result's; on failure it stays where it was. */
  method UpdateState(r: Raw, st: State) returns (ok: bool, st': State)
    ensures ok == r.Good()
    ensures st' == if r.Good() then r.st else st
  {
    if r.PureResult? {
      return true, r.st;
    }
    if r.Good() {
      return true, r.st;
    }
    return false, st;
  }

  /** A result of a run that began after `n` calls, on a window within the caller's. */
  lemma MeansLater(r: Raw, calls: nat, st': State, o: Outcome, n: nat, st: State)
    requires Means(r, calls, st', o) && Within(st', st)
    ensures Means(r, n + calls, st, o.After(n))
  {
  }

  lemma AfterAgain(o: Outcome, m: nat, n: nat)
    ensures o.After(m).After(n) == o.After(n + m)
  {
  }

  // ---- running an expression on a window ----

  /** What the run of `e` on the window `st` yields, inside a recursive parser `body` on a text of length n. */
  function Out(e: Expr, body: Expr, n: nat, st: State): Outcome
    requires st.Valid()
  {
    Run(e, st.Text(), Inner(body, n))
  }

  /** parse, for every expression: the result encodes exactly what Run yields, and `calls` counts how often
      the recursive parser is entered. Only runs that return are asked for. */
  method Parse(e: Expr, body: Expr, n: nat, st: State, dc: Expr -> bool) returns (r: Raw, ghost calls: nat)
    requires st.Valid() && Out(e, body, n, st) != Diverge
    ensures Encodes(r, calls, KindOf(e, dc), st, Out(e, body, n, st))
    decreases n, e, 3
  {
    match e
    case MapTo(_, _) => r, calls := ParseMapTo(e, body, n, st, dc);
    case Either(_) => r, calls := ParseEither(e, body, n, st, dc);
    case Enclose(_, _, _) => r, calls := ParseEnclose(e, body, n, st, dc);
    case Match(_) => r, calls := ParseMatch(e, body, n, st, dc);
    case Join(_, _) => r, calls := ParseJoin(e, body, n, st, dc);
    case Then(_, _) => r, calls := ParseThen(e, body, n, st, dc);
    case TryParse(_) => r, calls := ParseTry(e, body, n, st, dc);
    case FoldLeft(_, _, _) => r, calls := ParseFoldLeft(e, body, n, st, dc);
    case Make(_, _) => r, calls := ParseMake(e, body, n, st, dc);
    case Sequence(_, _) => r, calls := ParseSequence(e, body, n, st, dc);
    case Bracketed(_, _, _, _) => r, calls := ParseBracketed(e, body, n, st, dc);
    case ParseMap(_, _, _, _, _, _) => r, calls := ParseMapping(e, body, n, st, dc);
    case Self => r, calls := ParseSelf(e, body, n, st, dc);
    case Literal(_, _) => r, calls := ParseLiteral(e, body, n, st, dc);
    case Chars(_) => r, calls := ParseChars(e, body, n, st, dc);
    case CountChars(_) => r, calls := ParseChars(e, body, n, st, dc);
    case BoolLiteral => r, calls := ParseScan(e, body, n, st, dc);
    case View => r, calls := ParseScan(e, body, n, st, dc);
    case _ => r, calls := ParseOther(e, body, n, st, dc);
  }

  /** literal, literal_makes, literal_constant */
  method ParseLiteral(e: Expr, body: Expr, n: nat, st: State, dc: Expr -> bool) returns (r: Raw, ghost calls: nat)
    requires st.Valid() && e.Literal?
    ensures Encodes(r, calls, KindOf(e, dc), st, Out(e, body, n, st))
  {
    hide Run, AlwaysGood, LiteralParse, State.Text, State.At;
    CanFail(e);
    LiteralsAre(e.lits, e.constant, st.Text(), Inner(body, n));
    ConstantAside(e.lits, e.constant, st.Text());
    calls := 0;
    var ok, st' := CheckAny(e.lits, st);
    r := if ok then Success(KindOf(e, dc), st', e.constant) else Failure(KindOf(e, dc));
  }

  /** zero_or_more_chars and count_chars */
  method ParseChars(e: Expr, body: Expr, n: nat, st: State, dc: Expr -> bool) returns (r: Raw, ghost calls: nat)
    requires st.Valid() && (e.Chars? || e.CountChars?)
    ensures Encodes(r, calls, KindOf(e, dc), st, Out(e, body, n, st))
  {
    hide Run, AlwaysGood, SkipChars, State.Text, State.At;
    NeverFails(e);
    calls := 0;
    if e.Chars? {
      CharsIs(e.cs, st.Text(), Inner(body, n));
      var st' := ZeroOrMoreChars(e.cs, st);
      r := PureResult(st', Empty);
    } else {
      CountCharsIs(e.cs, st.Text(), Inner(body, n));
      var st', count := Windows.CountChars(e.cs, st);
      r := PureResult(st', Int(count));
    }
  }

  /** bool_parser and view_parser */
  method ParseScan(e: Expr, body: Expr, n: nat, st: State, dc: Expr -> bool) returns (r: Raw, ghost calls: nat)
    requires st.Valid() && (e.BoolLiteral? || e.View?)
    ensures Encodes(r, calls, KindOf(e, dc), st, Out(e, body, n, st))
  {
    hide Run, AlwaysGood, BoolParse, ViewParse, State.Text, State.At;
    CanFail(e);
    ScansCallNothing(st.Text());
    calls := 0;
    var x;
    if e.View? {
      ViewIs(st.Text(), Inner(body, n));
      x := ScanView(st);
    } else {
      BoolIs(st.Text(), Inner(body, n));
      x := ScanBool(st);
    }
    r := if x.Scanned? then Success(KindOf(e, dc), x.st, x.value) else Failure(KindOf(e, dc));
  }

  lemma ScansCallNothing(s: string)
    ensures BoolParse(s) != Diverge && BoolParse(s).calls == 0
    ensures ViewParse(s) != Diverge && ViewParse(s).calls == 0
  {
    hide ViewBody;
  }

  /** pure, charconv and parsers written outside the library. */
  method ParseOther(e: Expr, body: Expr, n: nat, st: State, dc: Expr -> bool) returns (r: Raw, ghost calls: nat)
    requires st.Valid() && (e.Leaf? || e.Integer? || e.Pure?)
    ensures Encodes(r, calls, KindOf(e, dc), st, Out(e, body, n, st))
  {
    hide Run, AlwaysGood, IntParse, State.Text, State.At;
    calls := 0;
    match e
    case Leaf(f) =>
      CanFail(e);
      LeafIs(f, st.Text(), Inner(body, n));
      r := FromOutcome(KindOf(e, dc), st, f(st.Text()));
    case Integer(lo, hi) =>
      CanFail(e);
      IntegerIs(lo, hi, st.Text(), Inner(body, n));
      r := FromOutcome(KindOf(e, dc), st, IntParse(lo, hi, st.Text()));
    case Pure(v) =>
      NeverFails(e);
      PureIs(v, st.Text(), Inner(body, n));
      r := PureResult(st, v);
  }

  lemma ConstantAside(lits: seq<string>, v: Value, s: string)
    ensures var o, p := LiteralParse(lits, v, s), LiteralParse(lits, Empty, s);
      (o.Good? <==> p.Good?) && (o.Good? ==> o.rest == p.rest && o.value == v)
  {
  }

  /** The result of a parser whose text and value come from outside the library. */
  function FromOutcome(k: Kind, st: State, o: Outcome): Raw
    requires st.Valid() && (o.Good? ==> IsSuffix(o.rest, st.Text()))
  {
    if o.Good? then Success(k, st.At(o.rest), o.value) else Failure(k)
  }

  // ---- expressions, branches and calls ----

  method ParseMapTo(e: Expr, body: Expr, n: nat, st: State, dc: Expr -> bool) returns (r: Raw, ghost calls: nat)
    requires e.MapTo? && st.Valid() && Out(e, body, n, st) != Diverge
    ensures Encodes(r, calls, KindOf(e, dc), st, Out(e, body, n, st))
    decreases n, e, 1
  {
    hide Run;
    MapToIs(e.func, e.p, st.Text(), Inner(body, n));
    var x;
    x, calls := Parse(e.p, body, n, st, dc);
    if AlwaysGood(e.p) {
      AlwaysGoodIsSound(e.p, st.Text(), Inner(body, n));
      return PureResult(x.st, e.func(x.GetValue())), calls;
    }
    if x.Good() {
      return Success(KindOf(e, dc), x.st, e.func(x.GetValue())), calls;
    }
    return Failure(KindOf(e, dc)), calls;
  }

  method ParseEnclose(e: Expr, body: Expr, n: nat, st: State, dc: Expr -> bool) returns (r: Raw, ghost calls: nat)
    requires e.Enclose? && st.Valid() && Out(e, body, n, st) != Diverge
    ensures Encodes(r, calls, KindOf(e, dc), st, Out(e, body, n, st))
    decreases n, e, 1
  {
    hide Run, AlwaysGood, State.Text;
    CanFail(e);
    EncloseIs(e.pre, e.p, e.post, st.Text(), Inner(body, n));
    var pre;
    pre, calls := Parse(e.pre, body, n, st, dc);
    if pre.Good() {
      var value, more := Parse(e.p, body, n, pre.st, dc);
      calls := calls + more;
      if value.Good() {
        var post, last := Parse(e.post, body, n, value.st, dc);
        calls := calls + last;
        if post.Good() {
          return Success(KindOf(e, dc), post.st, value.GetValue()), calls;
        }
      }
    }
    return Failure(KindOf(e, dc)), calls;
  }

  method ParseThen(e: Expr, body: Expr, n: nat, st: State, dc: Expr -> bool) returns (r: Raw, ghost calls: nat)
    requires e.Then? && st.Valid() && Out(e, body, n, st) != Diverge
    ensures Encodes(r, calls, KindOf(e, dc), st, Out(e, body, n, st))
    decreases n, e, 1
  {
    hide Run, AlwaysGood, State.Text;
    CanFail(e);
    ThenIs(e.p, e.q, st.Text(), Inner(body, n));
    var r1;
    r1, calls := Parse(e.p, body, n, st, dc);
    if r1.Good() {
      var r2, more := Parse(e.q, body, n, r1.st, dc);
      calls := calls + more;
      if r2.Good() {
        return Success(KindOf(e, dc), r2.st, r2.GetValue()), calls;
      } else {
        return Failure(KindOf(e, dc)), calls;
      }
    } else {
      return Failure(KindOf(e, dc)), calls;
    }
  }

  method ParseTry(e: Expr, body: Expr, n: nat, st: State, dc: Expr -> bool) returns (r: Raw, ghost calls: nat)
    requires e.TryParse? && st.Valid() && Out(e, body, n, st) != Diverge
    ensures Encodes(r, calls, KindOf(e, dc), st, Out(e, body, n, st))
    decreases n, e, 1
  {
    hide Run, AlwaysGood;
    NeverFails(e);
    TryIs(e.p, st.Text(), Inner(body, n));
    var x;
    x, calls := Parse(e.p, body, n, st, dc);
    var good := x.Good();
    r := PureResult(if good then x.st else st, if good then Just(x.GetValue()) else Nothing);
  }

  /** A run of Self that returns is on a shorter text, and is a run of the body there. */
  lemma SelfRun(body: Expr, n: nat, s: string)
    requires Run(Self, s, Inner(body, n)) != Diverge
    ensures |s| < n && Run(Self, s, Inner(body, n)) == Run(body, s, Inner(body, |s|)).After(1)
  {
    SelfIs(s, Inner(body, n));
    hide Run;
    assert Inner(body, n)(s) == Recurse(body, s);
  }

  /** The recursive parser is entered: one more call. */
  method ParseSelf(e: Expr, body: Expr, n: nat, st: State, dc: Expr -> bool) returns (r: Raw, ghost calls: nat)
    requires e.Self? && st.Valid() && Out(e, body, n, st) != Diverge
    ensures Encodes(r, calls, KindOf(e, dc), st, Out(e, body, n, st))
    decreases n, e, 1
  {
    hide Run, AlwaysGood;
    CanFail(e);
    SelfRun(body, n, st.Text());
    var x, inner := Parse(body, body, st.Size(), st, dc);
    calls := 1 + inner;
    MeansLater(x, inner, st, Out(body, body, st.Size(), st), 1, st);
    ConvertEncodes(x, calls, KindOf(e, dc), st, Out(e, body, n, st));
    r := Convert(KindOf(e, dc), x);
  }

  /** parse of recurse(body). */
  method ParseRecursive(body: Expr, st: State, dc: Expr -> bool) returns (r: Raw, ghost calls: nat)
    requires st.Valid() && Recurse(body, st.Text()) != Diverge
    ensures Encodes(r, calls, KindOf(Self, dc), st, Recurse(body, st.Text()))
  {
    hide Run, AlwaysGood;
    CanFail(Self);
    var x, inner := Parse(body, body, st.Size(), st, dc);
    calls := 1 + inner;
    MeansLater(x, inner, st, Out(body, body, st.Size(), st), 1, st);
    ConvertEncodes(x, calls, KindOf(Self, dc), st, Recurse(body, st.Text()));
    r := Convert(KindOf(Self, dc), x);
  }

  // ---- either ----

  lemma EitherSplit(ps: seq<Expr>, s: string, self: Parser)
    requires ps != []
    ensures var o := Run(ps[0], s, self);
      RunEither(ps, s, self) == if o.Bad? then RunEither(ps[1..], s, self).After(o.calls) else o
  {
    hide Run;
  }

  method ParseEither(e: Expr, body: Expr, n: nat, st: State, dc: Expr -> bool) returns (r: Raw, ghost calls: nat)
    requires e.Either? && st.Valid() && Out(e, body, n, st) != Diverge
    ensures Encodes(r, calls, KindOf(e, dc), st, Out(e, body, n, st))
    decreases n, e, 1
  {
    hide Run, RunEither;
    EitherIs(e.ps, st.Text(), Inner(body, n));
    EitherNeverFalls(e, st.Text(), Inner(body, n));
    var ok, st', v;
    if |e.ps| <= 4 {
      ok, st', v, calls := EitherWritten(e, body, n, st, dc);
    } else {
      ok, st', v, calls := EitherMany(e, body, n, st, dc);
    }
    r := if AlwaysGood(e) then PureResult(st', v)
      else if ok then Success(KindOf(e, dc), st', v)
      else Failure(KindOf(e, dc));
  }

  lemma EitherNeverFalls(e: Expr, s: string, self: Parser)
    requires e.Either?
    ensures AlwaysGood(e) ==> !Run(e, s, self).Bad?
  {
    hide Run;
    if AlwaysGood(e) {
      AlwaysGoodIsSound(e, s, self);
    }
  }

  /** What the alternatives leave behind: the first success, or the caller's state where it was. */
  predicate Chosen(ok: bool, st': State, v: Value, calls: nat, st: State, o: Outcome)
    requires st.Valid()
  {
    match o
    case Good(rest, w, c) => ok && Within(st', st) && st'.Text() == rest && v == w && calls == c
    case Bad(c) => !ok && st' == st && calls == c
    case Diverge => false
  }

  /** The first `i` alternatives have failed, after `calls` calls. */
  predicate Remaining(e: Expr, s: string, self: Parser, i: nat, calls: nat)
    requires e.Either? && i <= |e.ps|
  {
    RunEither(e.ps, s, self) == RunEither(e.ps[i..], s, self).After(calls)
  }

  lemma NextAlternative(e: Expr, s: string, self: Parser, i: nat, calls: nat)
    requires e.Either? && i < |e.ps| && Remaining(e, s, self, i, calls)
    ensures var o := Run(e.ps[i], s, self);
      if o.Bad? then Remaining(e, s, self, i + 1, calls + o.calls)
      else RunEither(e.ps, s, self) == o.After(calls)
  {
    hide Run, RunEither;
    EitherSplit(e.ps[i..], s, self);
    assert e.ps[i..][0] == e.ps[i] && e.ps[i..][1..] == e.ps[i + 1..];
    var o := Run(e.ps[i], s, self);
    if o.Bad? {
      AfterAgain(RunEither(e.ps[i + 1..], s, self), o.calls, calls);
    }
  }

  lemma NoAlternative(e: Expr, s: string, self: Parser, calls: nat)
    requires e.Either? && Remaining(e, s, self, |e.ps|, calls)
    ensures RunEither(e.ps, s, self) == Bad(calls)
  {
    assert e.ps[|e.ps|..] == [];
  }

  lemma AllAlternatives(e: Expr, s: string, self: Parser)
    requires e.Either?
    ensures Remaining(e, s, self, 0, 0)
  {
    hide RunEither;
    assert e.ps[0..] == e.ps;
  }

  /** The overloads for up to four alternatives: each is tried on the original state. */
  method EitherWritten(e: Expr, body: Expr, n: nat, st: State, dc: Expr -> bool)
      returns (ok: bool, st': State, v: Value, ghost calls: nat)
    requires e.Either? && |e.ps| <= 4 && st.Valid() && RunEither(e.ps, st.Text(), Inner(body, n)) != Diverge
    ensures Chosen(ok, st', v, calls, st, RunEither(e.ps, st.Text(), Inner(body, n)))
    decreases n, e, 0
  {
    hide Run, RunEither, Remaining, AlwaysGood, State.Text;
    ghost var s, self := st.Text(), Inner(body, n);
    AllAlternatives(e, s, self);
    calls := 0;
    if |e.ps| > 0 {
      NextAlternative(e, s, self, 0, calls);
      var r, more := Parse(e.ps[0], body, n, st, dc);
      calls := calls + more;
      if r.Good() {
        return true, r.st, r.GetValue(), calls;
      }
    }
    if |e.ps| > 1 {
      NextAlternative(e, s, self, 1, calls);
      var r, more := Parse(e.ps[1], body, n, st, dc);
      calls := calls + more;
      if r.Good() {
        return true, r.st, r.GetValue(), calls;
      }
    }
    if |e.ps| > 2 {
      NextAlternative(e, s, self, 2, calls);
      var r, more := Parse(e.ps[2], body, n, st, dc);
      calls := calls + more;
      if r.Good() {
        return true, r.st, r.GetValue(), calls;
      }
    }
    if |e.ps| > 3 {
      NextAlternative(e, s, self, 3, calls);
      var r, more := Parse(e.ps[3], body, n, st, dc);
      calls := calls + more;
      if r.Good() {
        return true, r.st, r.GetValue(), calls;
      }
    }
    NoAlternative(e, s, self, calls);
    return false, st, Empty, calls;
  }

  /** The overload for any number of alternatives: they share one state, updated through a reference. */
  method EitherMany(e: Expr, body: Expr, n: nat, st: State, dc: Expr -> bool)
      returns (ok: bool, st': State, v: Value, ghost calls: nat)
    requires e.Either? && st.Valid() && RunEither(e.ps, st.Text(), Inner(body, n)) != Diverge
    ensures Chosen(ok, st', v, calls, st, RunEither(e.ps, st.Text(), Inner(body, n)))
    decreases n, e, 0
  {
    hide Run, RunEither, Remaining, AlwaysGood, State.Text;
    ghost var s, self := st.Text(), Inner(body, n);
    AllAlternatives(e, s, self);
    ok, st', v, calls := false, st, Empty, 0;
    var i := 0;
    while i < |e.ps| && !ok
      invariant 0 <= i <= |e.ps|
      invariant !ok ==> st' == st && Remaining(e, s, self, i, calls)
      invariant ok ==> Chosen(true, st', v, calls, st, RunEither(e.ps, s, self))
    {
      NextAlternative(e, s, self, i, calls);
      ghost var more;
      ok, st', v, more := ParseAssignValue(e.ps[i], body, n, st', v, dc);
      calls := calls + more;
      i := i + 1;
    }
    if !ok {
      NoAlternative(e, s, self, calls);
    }
  }

  /** parse_assign_value: the state and the value change on success only. */
  method ParseAssignValue(p: Expr, body: Expr, n: nat, st: State, v: Value, dc: Expr -> bool)
      returns (ok: bool, st': State, v': Value, ghost calls: nat)
    requires st.Valid() && Out(p, body, n, st) != Diverge
    ensures Chosen(ok, st', if ok then v' else v, calls, st, Out(p, body, n, st))
    ensures !ok ==> v' == v
    decreases n, p, 4
  {
    hide Run;
    var r;
    r, calls := Parse(p, body, n, st, dc);
    if AlwaysGood(p) {
      AlwaysGoodIsSound(p, st.Text(), Inner(body, n));
      return true, r.st, r.GetValue(), calls;
    }
    if r.Good() {
      return true, r.st, r.GetValue(), calls;
    }
    return false, st, v, calls;
  }

  // ---- match and join ----

  lemma MatchSplit(ps: seq<Expr>, s: string, self: Parser)
    requires ps != []
    ensures RunMatch(ps, s, self) == Run(ps[0], s, self).Then(MatchParser(ps[1..], self))
  {
    hide Run;
  }

  /** The first `i` parsers have led from `s` to `mid`, with `calls` calls. */
  predicate Threaded(ps: seq<Expr>, s: string, self: Parser, i: nat, mid: string, calls: nat)
    requires i <= |ps|
  {
    RunMatch(ps, s, self) == RunMatch(ps[i..], mid, self).After(calls)
  }

  lemma NoneMatched(ps: seq<Expr>, s: string, self: Parser)
    ensures Threaded(ps, s, self, 0, s, 0)
  {
    hide RunMatch;
    assert ps[0..] == ps;
  }

  lemma NextMatched(ps: seq<Expr>, s: string, self: Parser, i: nat, mid: string, calls: nat)
    requires i < |ps| && Threaded(ps, s, self, i, mid, calls)
    ensures match Run(ps[i], mid, self)
      case Good(r, _, c) => Threaded(ps, s, self, i + 1, r, calls + c)
      case Bad(c) => RunMatch(ps, s, self) == Bad(calls + c)
      case Diverge => RunMatch(ps, s, self) == Diverge
  {
    hide Run, RunMatch;
    MatchSplit(ps[i..], mid, self);
    assert ps[i..][0] == ps[i] && ps[i..][1..] == ps[i + 1..];
    var o := Run(ps[i], mid, self);
    if o.Good? {
      AfterAgain(RunMatch(ps[i + 1..], o.rest, self), o.calls, calls);
    }
  }

  lemma AllMatched(ps: seq<Expr>, s: string, self: Parser, mid: string, calls: nat)
    requires Threaded(ps, s, self, |ps|, mid, calls)
    ensures RunMatch(ps, s, self) == Good(mid, Empty, calls)
  {
    assert ps[|ps|..] == [];
  }

  /** What a match leaves behind. */
  predicate Matched(ok: bool, st': State, calls: nat, st: State, o: Outcome)
    requires st.Valid()
  {
    match o
    case Good(rest, v, c) => ok && Within(st', st) && st'.Text() == rest && v == Empty && calls == c
    case Bad(c) => !ok && calls == c
    case Diverge => false
  }

  /** match::parse_impl: update_state through all parsers, stopping at the first failure. */
  method MatchImpl(ps: seq<Expr>, body: Expr, n: nat, st: State, dc: Expr -> bool)
      returns (ok: bool, st': State, ghost calls: nat)
    requires st.Valid() && RunMatch(ps, st.Text(), Inner(body, n)) != Diverge
    ensures Matched(ok, st', calls, st, RunMatch(ps, st.Text(), Inner(body, n)))
    decreases n, ps, 0
  {
    hide Run, RunMatch, Threaded, AlwaysGood, State.Text;
    ghost var s, self := st.Text(), Inner(body, n);
    ok, st', calls := true, st, 0;
    var i := 0;
    NoneMatched(ps, s, self);
    while i < |ps| && ok
      invariant 0 <= i <= |ps|
      invariant ok ==> Within(st', st) && Threaded(ps, s, self, i, st'.Text(), calls)
      invariant !ok ==> RunMatch(ps, s, self) == Bad(calls)
    {
      NextMatched(ps, s, self, i, st'.Text(), calls);
      var r, more := Parse(ps[i], body, n, st', dc);
      calls := calls + more;
      ok, st' := UpdateState(r, st');
      i := i + 1;
    }
    if ok {
      AllMatched(ps, s, self, st'.Text(), calls);
    }
  }

  /** The branch for parsers that are all always good: no result is looked at. */
  method MatchAlways(ps: seq<Expr>, body: Expr, n: nat, st: State, dc: Expr -> bool)
      returns (st': State, ghost calls: nat)
    requires forall i :: 0 <= i < |ps| ==> AlwaysGood(ps[i])
    requires st.Valid() && RunMatch(ps, st.Text(), Inner(body, n)) != Diverge
    ensures Matched(true, st', calls, st, RunMatch(ps, st.Text(), Inner(body, n)))
    decreases n, ps, 0
  {
    hide Run, RunMatch, Threaded, State.Text;
    ghost var s, self := st.Text(), Inner(body, n);
    st', calls := st, 0;
    var i := 0;
    NoneMatched(ps, s, self);
    while i < |ps|
      invariant 0 <= i <= |ps|
      invariant Within(st', st) && Threaded(ps, s, self, i, st'.Text(), calls)
    {
      NextMatched(ps, s, self, i, st'.Text(), calls);
      AlwaysGoodIsSound(ps[i], st'.Text(), self);
      var r, more := Parse(ps[i], body, n, st', dc);
      calls := calls + more;
      st' := r.st;
      i := i + 1;
    }
    AllMatched(ps, s, self, st'.Text(), calls);
  }

  method ParseMatch(e: Expr, body: Expr, n: nat, st: State, dc: Expr -> bool) returns (r: Raw, ghost calls: nat)
    requires e.Match? && st.Valid() && Out(e, body, n, st) != Diverge
    ensures Encodes(r, calls, KindOf(e, dc), st, Out(e, body, n, st))
    decreases n, e, 1
  {
    hide Run, RunMatch;
    MatchIs(e.ps, st.Text(), Inner(body, n));
    var ok, st';
    if AlwaysGood(e) {
      st', calls := MatchAlways(e.ps, body, n, st, dc);
      return PureResult(st', Empty), calls;
    }
    ok, st', calls := MatchImpl(e.ps, body, n, st, dc);
    return if ok then Success(KindOf(e, dc), st', Empty) else Failure(KindOf(e, dc)), calls;
  }

  method ParseJoin(e: Expr, body: Expr, n: nat, st: State, dc: Expr -> bool) returns (r: Raw, ghost calls: nat)
    requires e.Join? && st.Valid() && Out(e, body, n, st) != Diverge
    ensures Encodes(r, calls, KindOf(e, dc), st, Out(e, body, n, st))
    decreases n, e, 1
  {
    hide Run, RunMatch, State.Text, Convert;
    JoinIs(e.ps, e.last, st.Text(), Inner(body, n));
    var ok, st' := true, st;
    if forall i :: 0 <= i < |e.ps| ==> AlwaysGood(e.ps[i]) {
      st', calls := MatchAlways(e.ps, body, n, st, dc);
    } else {
      ok, st', calls := MatchImpl(e.ps, body, n, st, dc);
    }
    if !ok {
      return Failure(KindOf(e, dc)), calls;
    }
    var x, more := Parse(e.last, body, n, st', dc);
    MeansLater(x, more, st', Out(e.last, body, n, st'), calls, st);
    calls := calls + more;
    if AlwaysGood(e) {
      AlwaysGoodIsSound(e, st.Text(), Inner(body, n));
    }
    ConvertEncodes(x, calls, KindOf(e, dc), st, Out(e, body, n, st));
    return Convert(KindOf(e, dc), x), calls;
  }

  // ---- make ----

  /** parse_assign: stores the result whether or not it is good; the state moves on success only. */
  method ParseAssign(p: Expr, body: Expr, n: nat, st: State, dc: Expr -> bool)
      returns (ok: bool, st': State, r: Raw, ghost calls: nat)
    requires st.Valid() && Out(p, body, n, st) != Diverge
    ensures Encodes(r, calls, KindOf(p, dc), st, Out(p, body, n, st))
    ensures ok == r.Good() && st' == if ok then r.st else st
    decreases n, p, 4
  {
    hide Run;
    r, calls := Parse(p, body, n, st, dc);
    if AlwaysGood(p) {
      AlwaysGoodIsSound(p, st.Text(), Inner(body, n));
      return true, r.st, r, calls;
    }
    if r.Good() {
      return true, r.st, r, calls;
    }
    return false, st, r, calls;
  }

  /** An outcome with values already read put in front of its own. */
  function Kept(values: seq<Value>, o: Outcome): Outcome {
    if o.Good? && o.value.List? then Good(o.rest, List(values + o.value.items), o.calls) else o
  }

  /** The first |values| parsers have returned `values` and led from `s` to `mid`, with `calls` calls. */
  predicate Making(ps: seq<Expr>, s: string, self: Parser, values: seq<Value>, mid: string, calls: nat)
    requires |values| <= |ps|
  {
    RunAll(ps, s, self) == Kept(values, RunAll(ps[|values|..], mid, self)).After(calls)
  }

  lemma NoneMade(ps: seq<Expr>, s: string, self: Parser)
    ensures Making(ps, s, self, [], s, 0)
  {
    hide RunAll;
    assert ps[0..] == ps;
    var o := RunAll(ps, s, self);
    assert o.Good? && o.value.List? ==> [] + o.value.items == o.value.items;
  }

  /** One more parser of `make`: where it fails, all of them do; where it succeeds, its value is kept. */
  lemma NextMade(ps: seq<Expr>, s: string, self: Parser, values: seq<Value>, mid: string, calls: nat)
    requires |values| < |ps| && Making(ps, s, self, values, mid, calls)
    ensures match Run(ps[|values|], mid, self)
      case Good(r, v, c) => Making(ps, s, self, values + [v], r, calls + c)
      case Bad(c) => RunAll(ps, s, self) == Bad(calls + c)
      case Diverge => RunAll(ps, s, self) == Diverge
  {
    hide Run, RunAll;
    var i := |values|;
    AllSplit(ps[i..], mid, self);
    assert ps[i..][0] == ps[i] && ps[i..][1..] == ps[i + 1..];
    var o := Run(ps[i], mid, self);
    if o.Good? {
      var rest := RunAll(ps[i + 1..], o.rest, self);
      if rest.Good? {
        assert values + ([o.value] + rest.value.items) == values + [o.value] + rest.value.items;
      }
    }
  }

  lemma AllMade(ps: seq<Expr>, s: string, self: Parser, values: seq<Value>, mid: string, calls: nat)
    requires |values| == |ps| && Making(ps, s, self, values, mid, calls)
    ensures RunAll(ps, s, self) == Good(mid, List(values), calls)
  {
    assert ps[|ps|..] == [] && values + [] == values;
  }

  /** Parsers one after another, their results kept for the constructor of T. */
  method MakeAll(ps: seq<Expr>, body: Expr, n: nat, st: State, dc: Expr -> bool)
      returns (ok: bool, st': State, values: seq<Value>, ghost calls: nat)
    requires st.Valid() && RunAll(ps, st.Text(), Inner(body, n)) != Diverge
    ensures match RunAll(ps, st.Text(), Inner(body, n))
      case Good(rest, vs, c) => ok && Within(st', st) && st'.Text() == rest && vs == List(values) && calls == c
      case Bad(c) => !ok && calls == c
      case Diverge => false
    decreases n, ps, 0
  {
    hide Run, RunAll, Making, AlwaysGood, State.Text;
    ghost var s, self := st.Text(), Inner(body, n);
    ok, st', values, calls := true, st, [], 0;
    NoneMade(ps, s, self);
    while |values| < |ps| && ok
      invariant |values| <= |ps|
      invariant ok ==> Within(st', st) && Making(ps, s, self, values, st'.Text(), calls)
      invariant !ok ==> RunAll(ps, s, self) == Bad(calls)
      decreases |ps| - |values|, ok
    {
      NextMade(ps, s, self, values, st'.Text(), calls);
      var r;
      ghost var more;
      ok, st', r, more := ParseAssign(ps[|values|], body, n, st', dc);
      calls := calls + more;
      if ok {
        values := values + [r.GetValue()];
      }
    }
    if ok {
      AllMade(ps, s, self, values, st'.Text(), calls);
    }
  }

  method ParseMake(e: Expr, body: Expr, n: nat, st: State, dc: Expr -> bool) returns (r: Raw, ghost calls: nat)
    requires e.Make? && st.Valid() && Out(e, body, n, st) != Diverge
    ensures Encodes(r, calls, KindOf(e, dc), st, Out(e, body, n, st))
    decreases n, e, 1
  {
    hide Run, RunAll;
    MakeIs(e.build, e.ps, st.Text(), Inner(body, n));
    if |e.ps| == 0 {
      AllOfNone(st.Text(), Inner(body, n));
      return PureResult(st, e.build([])), 0;
    }
    if |e.ps| == 1 {
      assert e.ps == [e.ps[0]];
      All1(e.ps[0], st.Text(), Inner(body, n));
      var res;
      res, calls := Parse(e.ps[0], body, n, st, dc);
      if AlwaysGood(e.ps[0]) {
        AlwaysGoodIsSound(e.ps[0], st.Text(), Inner(body, n));
        return PureResult(res.st, e.build([res.GetValue()])), calls;
      }
      if res.Good() {
        return Success(KindOf(e, dc), res.st, e.build([res.GetValue()])), calls;
      }
      return Failure(KindOf(e, dc)), calls;
    }
    var ok, st', values;
    ok, st', values, calls := MakeAll(e.ps, body, n, st, dc);
    return if ok then Success(KindOf(e, dc), st', e.build(values)) else Failure(KindOf(e, dc)), calls;
  }

  // ---- fold_left ----

  method ParseFoldLeft(e: Expr, body: Expr, n: nat, st: State, dc: Expr -> bool) returns (r: Raw, ghost calls: nat)
    requires e.FoldLeft? && st.Valid() && Out(e, body, n, st) != Diverge
    ensures Encodes(r, calls, KindOf(e, dc), st, Out(e, body, n, st))
    decreases n, e, 1
  {
    hide Run, FoldLoop, AlwaysGood, State.Text;
    CanFail(e);
    FoldLeftIs(e.initial, e.next, e.op, st.Text(), Inner(body, n));
    ghost var next := ParserOf(e.next, Inner(body, n));
    var initial;
    initial, calls := Parse(e.initial, body, n, st, dc);
    if initial.Good() {
      var value := initial.GetValue();
      var state := initial.st;
      ghost var all := FoldLoop(next, e.op, state.Text(), value).After(calls);
      while true
        invariant Within(state, st)
        invariant all != Diverge && all == FoldLoop(next, e.op, state.Text(), value).After(calls)
        decreases state.Size()
      {
        FoldRound(next, e.op, state.Text(), value);
        var x, more := Parse(e.next, body, n, state, dc);
        calls := calls + more;
        if !x.Good() {
          break;
        }
        value := e.op(value, x.GetValue());
        state := x.st;
      }
      return Success(KindOf(e, dc), state, value), calls;
    }
    return Failure(KindOf(e, dc)), calls;
  }

  // ---- sequence ----

  /** `value`, the state reached and `calls` are what the elements from `rest` on still have to add to. */
  predicate Collected(l: Links, value: seq<Value>, calls: nat, rest: Links) {
    l.Links? && rest.Links? && l.items == value + rest.items && l.rest == rest.rest && l.calls == calls + rest.calls
  }

  lemma CollectedMore(l: Links, value: seq<Value>, calls: nat, v: Value, more: nat, now: Links, next: Links)
    requires Collected(l, value, calls, now) && next.Links?
    requires now.items == [v] + next.items && now.rest == next.rest && now.calls == more + next.calls
    ensures Collected(l, value + [v], calls + more, next)
  {
  }

  method ParseSequence(e: Expr, body: Expr, n: nat, st0: State, dc: Expr -> bool) returns (r: Raw, ghost calls: nat)
    requires e.Sequence? && st0.Valid() && Out(e, body, n, st0) != Diverge
    ensures Encodes(r, calls, KindOf(e, dc), st0, Out(e, body, n, st0))
    decreases n, e, 1
  {
    hide Run, Elements, Chain, AlwaysGood, State.Text;
    NeverFails(e);
    SequenceIs(e.elem, e.sep, st0.Text(), Inner(body, n));
    ghost var elem, sep := ParserOf(e.elem, Inner(body, n)), ParserOf(e.sep, Inner(body, n));
    ghost var all := Elements(elem, sep, st0.Text());
    ElementsFirst(elem, sep, st0.Text());
    var st := st0;
    var first;
    first, calls := Parse(e.elem, body, n, st, dc);
    if first.Good() {
      st := first.st;
      var value: seq<Value> := [];
      value := value + [first.GetValue()];
      while true
        invariant Within(st, st0)
        invariant Collected(all, value, calls, Chain(elem, sep, st.Text()))
        decreases st.Size()
      {
        ghost var now := st.Text();
        ChainRound(elem, sep, now);
        var sepResult, c1 := Parse(e.sep, body, n, st, dc);
        if !sepResult.Good() {
          calls := calls + c1;
          break;
        }
        var next, c2 := Parse(e.elem, body, n, sepResult.st, dc);
        if next.Good() {
          CollectedMore(all, value, calls, next.GetValue(), c1 + c2,
                        Chain(elem, sep, now), Chain(elem, sep, next.st.Text()));
          calls := calls + (c1 + c2);
          st := next.st;
          value := value + [next.GetValue()];
        } else {
          calls := calls + (c1 + c2);
          break;
        }
      }
      return PureResult(st, List(value)), calls;
    } else {
      return PureResult(st, List([])), calls;
    }
  }

  // ---- the fused forms ----

  /** open.parse: the literal, then whitespace. */
  method OpenWindow(l: string, st: State) returns (r: Raw)
    requires st.Valid()
    ensures Encodes(r, 0, ByState, st, OpenParse(l, st.Text()))
  {
    var ok, st' := CheckAndUpdate(l, st);
    if !ok {
      return Failure(ByState);
    }
    var end := ZeroOrMoreChars(WHITESPACE, st');
    return Success(ByState, end, Empty);
  }

  /** sep.parse: whitespace, the literal, whitespace. */
  method SepWindow(l: string, st: State) returns (r: Raw)
    requires st.Valid()
    ensures Encodes(r, 0, ByState, st, SepParse(l, st.Text()))
  {
    hide OpenParse;
    var st' := ZeroOrMoreChars(WHITESPACE, st);
    r := OpenWindow(l, st');
  }

  /** close.parse: whitespace, then the literal. */
  method CloseWindow(l: string, st: State) returns (r: Raw)
    requires st.Valid()
    ensures Encodes(r, 0, ByState, st, CloseParse(l, st.Text()))
  {
    var st' := ZeroOrMoreChars(WHITESPACE, st);
    var ok, end := CheckAndUpdate(l, st');
    if !ok {
      return Failure(ByState);
    }
    return Success(ByState, end, Empty);
  }

  lemma BracketedSteps(e: Expr, s: string, self: Parser)
    requires e.Bracketed?
    ensures var o, t := Run(e, s, self), OpenParse(e.opening, s);
      && (t.Bad? ==> o == Bad(0))
      && (t.Good? ==> Closes(o, Elements(ParserOf(e.elem, self), SepParser(e.comma), t.rest), e.closing,
                             vs => List(vs)))
  {
    hide Run, Elements, CloseParse;
    BracketedIs(e.opening, e.comma, e.closing, e.elem, s, self);
  }

  /** `o` is what a fused form yields whose loop read `l`. */
  ghost predicate Closes(o: Outcome, l: Links, closing: string, f: seq<Value> -> Value) {
    match l
    case Endless => o == Diverge
    case Links(vs, q, n) =>
      var c := CloseParse(closing, q);
      (c.Bad? ==> o == Bad(n)) && (c.Good? ==> o == Good(c.rest, f(vs), n))
  }

  /** The loop over a literal separator: an optional first element, then separators and elements. */
  method SeparatedItems(e: Expr, comma: string, body: Expr, n: nat, st0: State, dc: Expr -> bool)
      returns (st: State, value: seq<Value>, ghost calls: nat)
    requires st0.Valid()
    requires Elements(ParserOf(e, Inner(body, n)), SepParser(comma), st0.Text()).Links?
    ensures var all := Elements(ParserOf(e, Inner(body, n)), SepParser(comma), st0.Text());
      Within(st, st0) && st.Text() == all.rest && value == all.items && calls == all.calls
    decreases n, e, 4
  {
    hide Run, Elements, Chain, SepParse, AlwaysGood, State.Text;
    ghost var elem, sep := ParserOf(e, Inner(body, n)), SepParser(comma);
    ghost var all := Elements(elem, sep, st0.Text());
    ElementsFirst(elem, sep, st0.Text());
    st, value := st0, [];
    var first;
    first, calls := Parse(e, body, n, st, dc);
    if first.Good() {
      st := first.st;
      value := value + [first.GetValue()];
      while true
        invariant Within(st, st0)
        invariant Collected(all, value, calls, Chain(elem, sep, st.Text()))
        decreases st.Size()
      {
        ghost var now := st.Text();
        ChainRound(elem, sep, now);
        var sepResult := SepWindow(comma, st);
        if !sepResult.Good() {
          break;
        }
        var next, more := Parse(e, body, n, sepResult.st, dc);
        if next.Good() {
          CollectedMore(all, value, calls, next.GetValue(), more,
                        Chain(elem, sep, now), Chain(elem, sep, next.st.Text()));
          calls := calls + more;
          st := next.st;
          value := value + [next.GetValue()];
        } else {
          calls := calls + more;
          break;
        }
      }
    }
  }

  /** sequence<comma>(elem): its own loop, over a literal separator, computes what sequence(elem,
      separator<comma>) does. */
  method ParseSeparated(elem: Expr, comma: string, body: Expr, n: nat, st: State, dc: Expr -> bool)
      returns (r: Raw, ghost calls: nat)
    requires st.Valid() && Out(Sequence(elem, Separator(comma)), body, n, st) != Diverge
    ensures Encodes(r, calls, AlwaysPure, st, Out(Sequence(elem, Separator(comma)), body, n, st))
    decreases n, elem, 5
  {
    hide Run, Elements, AlwaysGood, State.Text;
    SeparatedElements(elem, comma, st.Text(), Inner(body, n));
    var end, value;
    end, value, calls := SeparatedItems(elem, comma, body, n, st, dc);
    r := PureResult(end, List(value));
  }

  method ParseBracketed(e: Expr, body: Expr, n: nat, st0: State, dc: Expr -> bool) returns (r: Raw, ghost calls: nat)
    requires e.Bracketed? && st0.Valid() && Out(e, body, n, st0) != Diverge
    ensures Encodes(r, calls, KindOf(e, dc), st0, Out(e, body, n, st0))
    decreases n, e, 1
  {
    hide Run, Elements, OpenParse, CloseParse, AlwaysGood, State.Text;
    CanFail(e);
    BracketedSteps(e, st0.Text(), Inner(body, n));
    var open := OpenWindow(e.opening, st0);
    var ok, st := UpdateState(open, st0);
    if !ok {
      return Failure(KindOf(e, dc)), 0;
    }
    var value;
    st, value, calls := SeparatedItems(e.elem, e.comma, body, n, st, dc);
    var close := CloseWindow(e.closing, st);
    ok, st := UpdateState(close, st);
    return if ok then Success(KindOf(e, dc), st, List(value)) else Failure(KindOf(e, dc)), calls;
  }

  /** What is left for `parse_map`'s loop to emplace. */
  predicate Emplaced(l: Links, m: Value, calls: nat, rest: Links) {
    l.Links? && rest.Links? && InsertAll(Map([]), l.items) == InsertAll(m, rest.items) && l.rest == rest.rest
    && l.calls == calls + rest.calls
  }

  lemma EmplacedMore(l: Links, m: Value, calls: nat, v: Value, more: nat, now: Links, next: Links)
    requires Emplaced(l, m, calls, now) && next.Links?
    requires now.items == [v] + next.items && now.rest == next.rest && now.calls == more + next.calls
    ensures Emplaced(l, Insert(m, v), calls + more, next)
  {
    assert ([v] + next.items)[1..] == next.items;
  }

  /** make<pair, colon>(key, val), as the loop's element. */
  function PairIn(e: Expr, self: Parser): Parser
    requires e.ParseMap?
  {
    PairParser(e.colon, ParserOf(e.key, self), ParserOf(e.val, self))
  }

  /** The element parser step by step. */
  lemma PairSteps(e: Expr, s: string, self: Parser)
    requires e.ParseMap?
    ensures var o, k := PairIn(e, self)(s), Run(e.key, s, self);
      && (!k.Good? ==> o == k)
      && (k.Good? ==>
        var c := SepParse(e.colon, k.rest);
        && (c.Bad? ==> o == Bad(k.calls))
        && (c.Good? ==> o == Run(e.val, c.rest, self).PairedWith(k.value).After(k.calls)))
  {
    hide Run;
  }

  /** elem.parse: the key, then the colon and the value. */
  method ParsePair(e: Expr, body: Expr, n: nat, st0: State, dc: Expr -> bool) returns (r: Raw, ghost calls: nat)
    requires e.ParseMap? && st0.Valid() && PairIn(e, Inner(body, n))(st0.Text()) != Diverge
    ensures Encodes(r, calls, ByState, st0, PairIn(e, Inner(body, n))(st0.Text()))
    decreases n, e, 0
  {
    hide Run, SepParse, PairIn, AlwaysGood, State.Text, KindOf;
    PairSteps(e, st0.Text(), Inner(body, n));
    var ok1, st, k;
    ok1, st, k, calls := ParseAssign(e.key, body, n, st0, dc);
    if !ok1 {
      return Failure(ByState), calls;
    }
    var sep := SepWindow(e.colon, st);
    if !sep.Good() {
      return Failure(ByState), calls;
    }
    var ok2, end, v, more := ParseAssign(e.val, body, n, sep.st, dc);
    calls := calls + more;
    if !ok2 {
      return Failure(ByState), calls;
    }
    return Success(ByState, end, Pair(k.GetValue(), v.GetValue())), calls;
  }

  lemma MappingSteps(e: Expr, s: string, self: Parser)
    requires e.ParseMap?
    ensures var o, t := Run(e, s, self), OpenParse(e.opening, s);
      && (t.Bad? ==> o == Bad(0))
      && (t.Good? ==> Closes(o, Elements(PairIn(e, self), SepParser(e.comma), t.rest), e.closing,
                             vs => InsertAll(Map([]), vs)))
  {
    hide Run, Elements, CloseParse, Collect, PairParser;
    ParseMapIs(e.opening, e.comma, e.colon, e.closing, e.key, e.val, s, self);
    var t := OpenParse(e.opening, s);
    if t.Good? {
      MapLoopElements(PairIn(e, self), SepParser(e.comma), t.rest);
    }
  }

  method ParseMapping(e: Expr, body: Expr, n: nat, st0: State, dc: Expr -> bool) returns (r: Raw, ghost calls: nat)
    requires e.ParseMap? && st0.Valid() && Out(e, body, n, st0) != Diverge
    ensures Encodes(r, calls, KindOf(e, dc), st0, Out(e, body, n, st0))
    decreases n, e, 2
  {
    hide Run, Elements, OpenParse, CloseParse, PairIn, InsertAll, AlwaysGood, State.Text;
    CanFail(e);
    MappingSteps(e, st0.Text(), Inner(body, n));
    var open := OpenWindow(e.opening, st0);
    var ok, st := UpdateState(open, st0);
    if !ok {
      return Failure(KindOf(e, dc)), 0;
    }
    var entries;
    st, entries, calls := MappingItems(e, body, n, st, dc);
    var close := CloseWindow(e.closing, st);
    ok, st := UpdateState(close, st);
    return if ok then Success(KindOf(e, dc), st, entries) else Failure(KindOf(e, dc)), calls;
  }

  /** Between the brackets: an optional first pair, then the loop, each pair going straight into the map. */
  method MappingItems(e: Expr, body: Expr, n: nat, st0: State, dc: Expr -> bool)
      returns (st: State, entries: Value, ghost calls: nat)
    requires e.ParseMap? && st0.Valid()
    requires Elements(PairIn(e, Inner(body, n)), SepParser(e.comma), st0.Text()).Links?
    ensures var all := Elements(PairIn(e, Inner(body, n)), SepParser(e.comma), st0.Text());
      Within(st, st0) && st.Text() == all.rest && entries == InsertAll(Map([]), all.items)
      && calls == all.calls
    decreases n, e, 1
  {
    hide Run, Elements, Chain, SepParse, PairIn, Insert, AlwaysGood, State.Text;
    ghost var elem, sep := PairIn(e, Inner(body, n)), SepParser(e.comma);
    ghost var all := Elements(elem, sep, st0.Text());
    ElementsFirst(elem, sep, st0.Text());
    st, entries := st0, Map([]);
    var first;
    first, calls := ParsePair(e, body, n, st, dc);
    if first.Good() {
      st := first.st;
      EmplacedFirst(all, first.GetValue(), calls, Chain(elem, sep, st.Text()));
      entries := Insert(entries, first.GetValue());
      while true
        invariant Within(st, st0)
        invariant Emplaced(all, entries, calls, Chain(elem, sep, st.Text()))
        decreases st.Size()
      {
        ghost var now := st.Text();
        ChainRound(elem, sep, now);
        var sepResult := SepWindow(e.comma, st);
        if !sepResult.Good() {
          break;
        }
        var next, more := ParsePair(e, body, n, sepResult.st, dc);
        if next.Good() {
          EmplacedMore(all, entries, calls, next.GetValue(), more,
                        Chain(elem, sep, now), Chain(elem, sep, next.st.Text()));
          calls := calls + more;
          st := next.st;
          entries := Insert(entries, next.GetValue());
        } else {
          calls := calls + more;
          break;
        }
      }
    }
  }

  lemma EmplacedFirst(l: Links, v: Value, calls: nat, next: Links)
    requires l.Links? && next.Links? && l.items == [v] + next.items && l.rest == next.rest
    requires l.calls == calls + next.calls
    ensures Emplaced(l, Insert(Map([]), v), calls, next)
  {
    assert ([v] + next.items)[1..] == next.items;
  }
}
