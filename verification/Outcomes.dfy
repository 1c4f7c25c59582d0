/** What applying a parser to a text yields. */
module Outcomes {
  import opened Text
  import opened Values

  /** `Good` and `Bad` are the two results a parser can return; `Diverge` stands for a run that never
      returns (a loop whose round consumed nothing, or a recursion on the same text). `calls` counts
      how often the recursive parser under `recurse` was invoked along the way. */
  datatype Outcome =
    | Good(rest: string, value: Value, calls: nat)
    | Bad(calls: nat)
    | Diverge
  {
    /** The same outcome, reached after `n` earlier calls. */
    function After(n: nat): (o: Outcome)
      ensures n == 0 ==> o == this
    {
      match this
      case Good(r, v, c) => Good(r, v, n + c)
      case Bad(c) => Bad(n + c)
      case Diverge => Diverge
    }

    /** The outcome of running `q` where this one left off; a failure stays a failure. */
    function Then(q: string -> Outcome): Outcome {
      match this
      case Good(r, _, c) => q(r).After(c)
      case other => other
    }

    /** The same outcome, its value paired with an earlier one. */
    function PairedWith(k: Value): Outcome {
      match this
      case Good(r, v, c) => Good(r, Pair(k, v), c)
      case other => other
    }

    function Map(f: Value -> Value): Outcome {
      match this
      case Good(r, v, c) => Good(r, f(v), c)
      case other => other
    }
  }

  type Parser = string -> Outcome

  lemma ThenAssociates(o: Outcome, f: Parser, g: Parser, h: Parser)
    requires forall x :: f(x).Then(g) == h(x)
    ensures o.Then(f).Then(g) == o.Then(h)
  {
    if o.Good? {
      assert f(o.rest).Then(g) == h(o.rest);
    }
  }

  /** A parser that, on success, returns a suffix of its input. */
  ghost predicate Shrinks(p: Parser) {
    forall s :: p(s).Good? ==> IsSuffix(p(s).rest, s)
  }

  /** A parser made of no other parser: it always returns, and it never invokes `recurse`. */
  ghost predicate IsLeaf(p: Parser) {
    && Shrinks(p)
    && forall s :: p(s) != Diverge && p(s).calls == 0
  }

  type LeafParser = p: Parser | IsLeaf(p) witness ((s: string) => Bad(0))
}
