/** Two facts about concatenation that proofs use at named places. */
module Sequences {

  lemma Associates<T>(a: seq<T>, b: seq<T>, c: seq<T>)
    ensures (a + b) + c == a + (b + c)
  {
  }

  /** Equal concatenations with fronts of the same length have equal parts. */
  lemma SameParts<T>(a: seq<T>, p: seq<T>, b: seq<T>, q: seq<T>)
    requires |a| == |b| && a + p == b + q
    ensures a == b && p == q
  {
    assert a == (a + p)[..|a|] && b == (b + q)[..|b|];
    assert p == (a + p)[|a|..] && q == (b + q)[|b|..];
  }
}
