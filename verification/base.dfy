/** Shared vocabulary of the gas-cap analysis: optional values, the constants
    every script repeats, integer and rational rounding, and sums over
    sequences. */
module Base {

  /** The conventional Some/None datatype; `None` stands for Python's `None`
      and for a query that produced nothing. */
  datatype Option<T> = None | Some(value: T)

  /** The answer of one remote query: the rows it returned (none when the
      result was `None` or empty), or the exception it raised. */
  datatype Reply<T> = Rows(rows: seq<T>) | Raised

  /** The rows of a reply, with a failed query read as no rows. */
  function RowsOr<T>(reply: Reply<T>): (rows: seq<T>)
    ensures reply.Raised? ==> rows == []
    ensures reply.Rows? ==> rows == reply.rows
  {
    if reply.Rows? then reply.rows else []
  }

  /** The proposed per-transaction gas cap, 2^24. */
  const GasCap: nat := 16_777_216
  /** Intrinsic gas of one extra transaction, charged for every split. */
  const BaseGasCost: nat := 21_000
  const BlocksPerDay: nat := 7200
  /** The transaction table is physically partitioned in runs of 1000 blocks. */
  const PartitionSize: nat := 1000
  /** The "high gas" threshold of the summary query and of the pre-filter. */
  const HighGasThreshold: nat := 1_000_000

  function Min(a: int, b: int): int { if a <= b then a else b }
  function Max(a: int, b: int): int { if a >= b then a else b }
  function MaxNat(a: nat, b: nat): nat { if a >= b then a else b }

  /** The ceiling of a rational: the one integer `r` with `r - 1 < x <= r`. */
  function Ceil(x: real): (r: int)
    ensures (r - 1) as real < x <= r as real
  {
    if x == x.Floor as real then x.Floor else x.Floor + 1
  }

  /** Ceiling division on integers, `ceil(a / b)` for a positive `b`. */
  function CeilDiv(a: int, b: nat): (r: int)
    requires b > 0
    ensures (r - 1) * b < a <= r * b
  {
    -((-a) / b)
  }

  // ----- integer arithmetic facts the solver does not find on its own -----

  lemma MulLe(a: int, b: int, c: nat)
    requires a <= b
    ensures a * c <= b * c
  {
  }

  lemma MulStep(a: int, p: int)
    ensures (a + 1) * p == a * p + p
  {
  }

  /** Division is determined by the bracketing multiples. */
  lemma DivUnique(d: int, p: nat, q: int)
    requires p > 0 && q * p <= d < q * p + p
    ensures d / p == q && d % p == d - q * p
  {
    var q' := d / p;
    assert d == q' * p + d % p;
    if q' < q {
      MulStep(q', p);
      MulLe(q' + 1, q, p);
    } else if q' > q {
      MulStep(q, p);
      MulLe(q + 1, q', p);
    }
  }

  lemma MultipleOf(q: int, p: nat)
    requires p > 0
    ensures (q * p) / p == q && (q * p) % p == 0
  {
    DivUnique(q * p, p, q);
  }

  /** Adding a multiple of `p` does not change the remainder. */
  lemma ModAddMultiple(s: int, m: int, p: nat)
    requires p > 0
    ensures (s + m * p) % p == s % p
  {
    var q := s / p;
    assert s == q * p + s % p;
    assert (q + m) * p == q * p + m * p;
    DivUnique(s + m * p, p, q + m);
  }

  /** Two distinct multiples of `p` are at least `p` apart. */
  lemma MultiplesGap(x: int, y: int, p: nat)
    requires p > 0 && x % p == 0 && y % p == 0 && x < y
    ensures x + p <= y
  {
    var qx := x / p;
    var qy := y / p;
    assert x == qx * p && y == qy * p;
    if qy <= qx {
      MulLe(qy, qx, p);
    } else {
      MulLe(qx + 1, qy, p);
      MulStep(qx, p);
    }
  }

  // ----- percentages -----

  /** `p` is `count` as a percentage of `total`. */
  predicate IsPct(p: real, count: nat, total: nat)
  {
    p * (total as real) == 100.0 * (count as real)
  }

  /** `count / total * 100`. */
  function Pct(count: nat, total: nat): (p: real)
    requires total > 0
    ensures IsPct(p, count, total)
  {
    (count as real) / (total as real) * 100.0
  }

  /** Percentages of the same positive total are ordered like the counts. */
  lemma PctMonotone(c1: nat, c2: nat, p1: real, p2: real, total: nat)
    requires total > 0 && c1 <= c2
    requires IsPct(p1, c1, total) && IsPct(p2, c2, total)
    ensures p1 <= p2
  {
    var t := total as real;
    assert p1 == 100.0 * (c1 as real) / t;
    assert p2 == 100.0 * (c2 as real) / t;
    assert 100.0 * (c1 as real) <= 100.0 * (c2 as real);
  }

  /** Sum of a projection of every element, first element first. */
  function SumBy<T>(s: seq<T>, f: T -> nat): nat
  {
    if |s| == 0 then 0 else f(s[0]) + SumBy(s[1..], f)
  }

  function NatId(x: nat): nat { x }

  /** Plain sum of a sequence of counts. */
  function Sum(xs: seq<nat>): nat
  {
    SumBy(xs, NatId)
  }

  lemma {:induction false} SumByAppend<T>(a: seq<T>, b: seq<T>, f: T -> nat)
    ensures SumBy(a + b, f) == SumBy(a, f) + SumBy(b, f)
  {
    if |a| == 0 {
      assert a + b == b;
    } else {
      assert (a + b)[1..] == a[1..] + b;
      SumByAppend(a[1..], b, f);
    }
  }

  /** Extending a prefix by one element adds that element. */
  lemma SumByPrefix<T>(s: seq<T>, i: nat, f: T -> nat)
    requires i < |s|
    ensures SumBy(s[..i + 1], f) == SumBy(s[..i], f) + f(s[i])
  {
    assert s[..i + 1] == s[..i] + [s[i]];
    SumByAppend(s[..i], [s[i]], f);
  }

  /** Prefix sums never decrease as the prefix grows. */
  lemma {:induction false} SumByPrefixMonotone<T>(s: seq<T>, i: nat, j: nat, f: T -> nat)
    requires i <= j <= |s|
    ensures SumBy(s[..i], f) <= SumBy(s[..j], f)
    decreases j - i
  {
    if i < j {
      SumByPrefix(s, j - 1, f);
      SumByPrefixMonotone(s, i, j - 1, f);
    }
  }

  /** A sum does not depend on the order of the elements. */
  lemma {:induction false} SumByPermutation<T>(s: seq<T>, t: seq<T>, f: T -> nat)
    requires multiset(s) == multiset(t)
    ensures SumBy(s, f) == SumBy(t, f)
    decreases |s|
  {
    if |s| == 0 {
      assert |t| == |multiset(t)| == 0;
    } else {
      var x := s[0];
      assert x in multiset(t);
      var i :| 0 <= i < |t| && t[i] == x;
      var rest := t[..i] + t[i + 1..];
      assert t == t[..i] + [x] + t[i + 1..];
      assert s == [x] + s[1..];
      assert multiset(t) == multiset(t[..i]) + multiset{x} + multiset(t[i + 1..]);
      assert multiset(s) == multiset{x} + multiset(s[1..]);
      assert multiset(rest) == multiset(t[..i]) + multiset(t[i + 1..]);
      forall y
        ensures multiset(s[1..])[y] == multiset(rest)[y]
      {
        assert multiset(s)[y] == multiset{x}[y] + multiset(s[1..])[y];
        assert multiset(t)[y] == multiset(t[..i])[y] + multiset{x}[y] + multiset(t[i + 1..])[y];
      }
      assert multiset(s[1..]) == multiset(rest);
      SumByPermutation(s[1..], rest, f);
      SumByAppend(t[..i] + [x], t[i + 1..], f);
      SumByAppend(t[..i], [x], f);
      SumByAppend(t[..i], t[i + 1..], f);
    }
  }

  /** Elements are at most a bound, so the sum is at most count times it. */
  lemma {:induction false} SumBoundedBy(xs: seq<nat>, m: nat)
    requires forall i :: 0 <= i < |xs| ==> xs[i] <= m
    ensures Sum(xs) <= |xs| * m
  {
    if |xs| > 0 {
      SumBoundedBy(xs[1..], m);
    }
  }

  /** No value occurs twice. */
  predicate Distinct<T(==)>(s: seq<T>)
  {
    forall i, j :: 0 <= i < j < |s| ==> s[i] != s[j]
  }

  /** The keys of `s` in order of first appearance: the iteration order of
      a Python dict filled from `s`. */
  function Dedup<T(==)>(s: seq<T>): (r: seq<T>)
    ensures Distinct(r)
    ensures forall i :: 0 <= i < |s| ==> s[i] in r
    ensures forall i :: 0 <= i < |r| ==> r[i] in s
  {
    if |s| == 0 then []
    else
      var d := Dedup(s[..|s| - 1]);
      if s[|s| - 1] in d then d else d + [s[|s| - 1]]
  }

  /** A duplicate-free sequence holds every value at most once. */
  lemma {:induction false} DistinctMultiset<T>(s: seq<T>, x: T)
    requires Distinct(s)
    ensures multiset(s)[x] <= 1
  {
    if |s| > 0 {
      assert s == [s[0]] + s[1..];
      assert Distinct(s[1..]);
      DistinctMultiset(s[1..], x);
      if x == s[0] {
        assert x !in s[1..];
      }
    }
  }

  /** A reordering of a duplicate-free sequence is duplicate-free. */
  lemma PermutationKeepsDistinct<T>(s: seq<T>, t: seq<T>)
    requires Distinct(t) && multiset(s) == multiset(t)
    ensures Distinct(s)
  {
    forall i, j | 0 <= i < j < |s|
      ensures s[i] != s[j]
    {
      if s[i] == s[j] {
        assert s == s[..j] + [s[j]] + s[j + 1..];
        assert s[i] in multiset(s[..j]);
        assert multiset(s)[s[i]] >= 2;
        DistinctMultiset(t, s[i]);
        assert false;
      }
    }
  }

  /** A reordering has the same members. */
  lemma PermutationMembers<T>(s: seq<T>, t: seq<T>)
    requires multiset(s) == multiset(t)
    ensures forall x :: x in s <==> x in t
  {
    forall x
      ensures x in s <==> x in t
    {
      assert x in s <==> x in multiset(s);
      assert x in t <==> x in multiset(t);
    }
  }

  /** The first `n` elements, or all of them when there are fewer. */
  function Take<T>(s: seq<T>, n: nat): (r: seq<T>)
    ensures |r| == Min(n, |s|)
    ensures r == s[..|r|]
  {
    if n <= |s| then s[..n] else s
  }

  /** The elements in the opposite order. */
  function Reverse<T>(s: seq<T>): (r: seq<T>)
    ensures |r| == |s|
    ensures forall i :: 0 <= i < |s| ==> r[i] == s[|s| - 1 - i]
  {
    if |s| == 0 then [] else Reverse(s[1..]) + [s[0]]
  }
}
