/** Left folds, the shape of every `for row in rows: acc = step(acc, row)`
    loop in the scripts, and the fact that makes their merges independent of
    the order in which batch files are read: a fold whose steps commute
    gives the same result on any permutation of its input. */
module Folds {

  /** Apply `step` to every element of `s`, first element first. */
  function FoldL<A, X>(s: seq<X>, a: A, step: (A, X) -> A): A
  {
    if |s| == 0 then a else step(FoldL(s[..|s| - 1], a, step), s[|s| - 1])
  }

  /** Two consecutive steps may be swapped. */
  ghost predicate StepsCommute<A(!new), X(!new)>(step: (A, X) -> A)
  {
    forall a, x, y :: step(step(a, x), y) == step(step(a, y), x)
  }

  /** Folding a concatenation folds the second part from where the first
      stopped. */
  lemma {:induction false} FoldAppend<A, X>(s: seq<X>, t: seq<X>, a: A, step: (A, X) -> A)
    ensures FoldL(s + t, a, step) == FoldL(t, FoldL(s, a, step), step)
    decreases |t|
  {
    if |t| == 0 {
      assert s + t == s;
    } else {
      var t' := t[..|t| - 1];
      assert (s + t)[..|s + t| - 1] == s + t';
      FoldAppend(s, t', a, step);
    }
  }

  /** With commuting steps an element can be moved to the end. */
  lemma {:induction false} FoldMoveLast<A(!new), X(!new)>(s: seq<X>, x: X, t: seq<X>, a: A, step: (A, X) -> A)
    requires StepsCommute(step)
    ensures FoldL(s + [x] + t, a, step) == step(FoldL(s + t, a, step), x)
    decreases |t|
  {
    if |t| == 0 {
      assert s + [x] + t == s + [x];
      assert (s + [x])[..|s|] == s;
      assert s + t == s;
    } else {
      var t' := t[..|t| - 1];
      var y := t[|t| - 1];
      assert (s + [x] + t)[..|s + [x] + t| - 1] == s + [x] + t';
      assert (s + t)[..|s + t| - 1] == s + t';
      FoldMoveLast(s, x, t', a, step);
    }
  }

  /** A fold whose steps commute does not depend on the order of its input. */
  lemma {:induction false} FoldPermutation<A(!new), X(!new)>(s: seq<X>, t: seq<X>, a: A, step: (A, X) -> A)
    requires StepsCommute(step)
    requires multiset(s) == multiset(t)
    ensures FoldL(s, a, step) == FoldL(t, a, step)
    decreases |s|
  {
    if |s| == 0 {
      assert |t| == |multiset(t)| == 0;
    } else {
      var x := s[|s| - 1];
      var s' := s[..|s| - 1];
      assert s == s' + [x];
      assert x in multiset(t);
      var i :| 0 <= i < |t| && t[i] == x;
      assert t == t[..i] + [x] + t[i + 1..];
      var rest := t[..i] + t[i + 1..];
      assert multiset(s) == multiset(s') + multiset{x};
      assert multiset(t) == multiset(t[..i]) + multiset{x} + multiset(t[i + 1..]);
      assert multiset(rest) == multiset(t[..i]) + multiset(t[i + 1..]);
      forall y
        ensures multiset(s')[y] == multiset(rest)[y]
      {
        assert multiset(s)[y] == multiset(s')[y] + multiset{x}[y];
        assert multiset(t)[y] == multiset(t[..i])[y] + multiset{x}[y] + multiset(t[i + 1..])[y];
      }
      assert multiset(s') == multiset(rest);
      FoldPermutation(s', rest, a, step);
      FoldMoveLast(t[..i], x, t[i + 1..], a, step);
    }
  }
}
