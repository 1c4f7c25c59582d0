/** Plain facts about text: suffixes, and runs of characters drawn from a set. A `char` stands for one byte. */
module Text {

  const WHITESPACE: set<char> := {' ', '\t', '\n', '\r'}

  predicate IsSuffix(r: string, s: string) {
    |r| <= |s| && r == s[|s| - |r|..]
  }

  lemma SuffixIsTransitive(a: string, b: string, c: string)
    requires IsSuffix(a, b) && IsSuffix(b, c)
    ensures IsSuffix(a, c)
  {
    assert a == c[|c| - |b|..][|b| - |a|..];
  }

  lemma SuffixAfter(p: string, r: string)
    ensures IsSuffix(r, p + r)
  {
    assert (p + r)[|p|..] == r;
  }

  predicate AllIn(w: string, cs: set<char>) {
    forall i :: 0 <= i < |w| ==> w[i] in cs
  }

  /** Text that does not start with a character of `cs`. */
  predicate StartsOutside(s: string, cs: set<char>) {
    s == "" || s[0] !in cs
  }

  /** What is left of `s` after its longest leading run of characters of `cs`. */
  function SkipChars(cs: set<char>, s: string): (r: string)
    ensures IsSuffix(r, s)
    ensures StartsOutside(r, cs)
    ensures AllIn(s[..|s| - |r|], cs)
  {
    if s != "" && s[0] in cs then
      var r := SkipChars(cs, s[1..]);
      assert s[1..][..|s| - 1 - |r|] == s[1..|s| - |r|];
      r
    else s
  }

  function Taken(cs: set<char>, s: string): string {
    s[..|s| - |SkipChars(cs, s)|]
  }

  /** The run skipped is the only way to cut `s` into characters of `cs` and text starting outside `cs`. */
  lemma {:induction false} SkipCharsExact(cs: set<char>, w: string, x: string)
    requires AllIn(w, cs) && StartsOutside(x, cs)
    ensures SkipChars(cs, w + x) == x && Taken(cs, w + x) == w
  {
    if w == "" {
      assert w + x == x;
    } else {
      assert (w + x)[1..] == w[1..] + x;
      SkipCharsExact(cs, w[1..], x);
    }
  }

  lemma TakenThenRest(cs: set<char>, s: string)
    ensures s == Taken(cs, s) + SkipChars(cs, s)
    ensures AllIn(Taken(cs, s), cs)
  {
  }

  // ---- regrouping concatenations ----

  lemma Glue3(s: string, a: string, t: string, b: string, u: string)
    requires s == a + t && t == b + u
    ensures s == a + b + u
  {
  }

  lemma Glue4(s: string, a: string, t: string, b: string, u: string, c: string, x: string)
    requires s == a + t && t == b + u && u == c + x
    ensures s == a + b + c + x
  {
  }

  lemma Regroup(a: string, b: string, c: string)
    ensures a + (b + c) == a + b + c
  {
  }
}
