/** How concentrated the affected transactions are among addresses: the
    Gini-style coefficient in its two written forms, the Lorenz-curve
    percentages, the top-N shares and the light/medium/heavy categories. */
module Concentration {
  import opened Base
  import opened Sorting

  /** Sort keys: ascending and descending by count. */
  function Up(x: nat): int { x }
  function Down(x: nat): int { 0 - x }

  // ----- rank-weighted sums -----

  /** Σ i·x_i with positions i = 1..n. */
  function Weighted(xs: seq<nat>): nat
  {
    if |xs| == 0 then 0 else Weighted(xs[..|xs| - 1]) + |xs| * xs[|xs| - 1]
  }

  /** Σ (n + 1 − i)·x_i: positions counted from the other end. */
  function CoWeighted(xs: seq<nat>): nat
  {
    if |xs| == 0 then 0 else |xs| * xs[0] + CoWeighted(xs[1..])
  }

  /** Appending `x` raises every earlier weight by one and gives `x` weight 1. */
  lemma {:induction false} CoWeightedAppend(ys: seq<nat>, x: nat)
    ensures CoWeighted(ys + [x]) == CoWeighted(ys) + Sum(ys) + x
  {
    if |ys| == 0 {
      assert ys + [x] == [x];
      assert [x][1..] == [];
    } else {
      assert (ys + [x])[1..] == ys[1..] + [x];
      CoWeightedAppend(ys[1..], x);
      assert (|ys| + 1) * ys[0] == |ys| * ys[0] + ys[0];
    }
  }

  /** Splitting off the last count. */
  lemma WeightedLast(xs: seq<nat>)
    requires |xs| > 0
    ensures Sum(xs) == Sum(xs[..|xs| - 1]) + xs[|xs| - 1]
  {
    assert xs == xs[..|xs| - 1] + [xs[|xs| - 1]];
    SumByAppend(xs[..|xs| - 1], [xs[|xs| - 1]], NatId);
  }

  /** The two weightings add up to n + 1 times the plain sum. */
  lemma {:induction false} WeightsComplement(xs: seq<nat>)
    ensures Weighted(xs) + CoWeighted(xs) == (|xs| + 1) * Sum(xs)
  {
    if |xs| > 0 {
      var ys := xs[..|xs| - 1];
      var x := xs[|xs| - 1];
      assert xs == ys + [x];
      WeightsComplement(ys);
      CoWeightedAppend(ys, x);
      WeightedLast(xs);
      ComplementStep(Weighted(ys), CoWeighted(ys), Sum(ys), x, |ys|);
    }
  }

  lemma ComplementStep(w: nat, c: nat, s: nat, x: nat, m: nat)
    requires w + c == (m + 1) * s
    ensures (w + (m + 1) * x) + (c + s + x) == (m + 2) * (s + x)
  {
  }

  lemma {:induction false} ReverseMultiset<T>(s: seq<T>)
    ensures multiset(Reverse(s)) == multiset(s)
  {
    if |s| > 0 {
      ReverseMultiset(s[1..]);
      assert s == [s[0]] + s[1..];
      assert Reverse(s) == Reverse(s[1..]) + [s[0]];
    }
  }

  /** Reading the counts backwards swaps the two weightings. */
  lemma {:induction false} WeightedOfReverse(xs: seq<nat>)
    ensures Weighted(Reverse(xs)) == CoWeighted(xs)
  {
    if |xs| > 0 {
      var r := Reverse(xs);
      assert r == Reverse(xs[1..]) + [xs[0]];
      assert r[..|r| - 1] == Reverse(xs[1..]);
      WeightedOfReverse(xs[1..]);
    }
  }

  // ----- the coefficient -----

  /** 2·Σ i·x_i − (n + 1)·Σx: the coefficient's numerator over the common
      denominator n·Σx. */
  function Balance(xs: seq<nat>): int
  {
    2 * Weighted(xs) - (|xs| + 1) * Sum(xs)
  }

  // ----- rational arithmetic, one step at a time -----

  lemma CastMul(a: int, b: int)
    ensures (a * b) as real == (a as real) * (b as real)
  {
  }

  lemma DivSplit(a: real, b: real, s: real)
    requires s != 0.0
    ensures (a - b) / s == a / s - b / s
  {
  }

  lemma DivScale(k: real, a: real, s: real)
    requires s != 0.0
    ensures (k * a) / s == k * (a / s)
  {
  }

  lemma DivCancel(a: real, s: real)
    requires s != 0.0
    ensures (a * s) / s == a
  {
  }

  lemma DivTwice(a: real, s: real, n: real)
    requires s != 0.0 && n != 0.0
    ensures a / (n * s) == (a / s) / n
  {
  }

  lemma QuotientOfDifference(c: real, k: real, w: real, s: real)
    requires s != 0.0 && c == k * s - w
    ensures c / s == k - w / s
  {
    DivSplit(k * s, w, s);
    DivCancel(k, s);
  }

  /** The recipient form over the common denominator n·s. */
  lemma CoForm(w: real, c: real, s: real, n: real)
    requires n > 0.0 && s > 0.0 && w + c == (n + 1.0) * s
    ensures (n + 1.0 - 2.0 * c / s) / n == (2.0 * w - (n + 1.0) * s) / (n * s)
  {
    var k := n + 1.0;
    QuotientOfDifference(c, k, w, s);
    DivScale(2.0, c, s);
    DivScale(2.0, w, s);
    var ws := w / s;
    assert 2.0 * c / s == 2.0 * k - 2.0 * ws;
    assert k - 2.0 * c / s == 2.0 * ws - k;
    DivSplit(2.0 * w, k * s, s);
    DivCancel(k, s);
    assert (2.0 * w - k * s) / s == 2.0 * ws - k;
    DivTwice(2.0 * w - k * s, s, n);
    assert (2.0 * w - k * s) / (n * s) == (2.0 * ws - k) / n;
  }

  /** The affected-party form over the common denominator n·s. */
  lemma CommonDenominator(w: real, s: real, n: real)
    requires n > 0.0 && s > 0.0
    ensures 2.0 * w / (n * s) - (n + 1.0) / n == (2.0 * w - (n + 1.0) * s) / (n * s)
  {
    DivSplit(2.0 * w, (n + 1.0) * s, n * s);
    assert ((n + 1.0) * s) / (n * s) == (n + 1.0) / n by {
      DivTwice((n + 1.0) * s, s, n);
      DivCancel(n + 1.0, s);
    }
  }

  lemma NegDiv(b: real, d: real)
    requires d != 0.0
    ensures (-b) / d == -(b / d)
  {
  }

  lemma DivMonotone(a: real, b: real, s: real)
    requires s > 0.0 && a <= b
    ensures a / s <= b / s
  {
  }

  lemma DivStrict(a: real, b: real, s: real)
    requires s > 0.0 && a < b
    ensures a / s < b / s
  {
  }

  /** A numerator between 0 and (n − 1)·s gives a ratio between 0 and (n − 1)/n. */
  lemma RatioBounds(b: real, n: real, s: real)
    requires n > 0.0 && s > 0.0 && 0.0 <= b <= (n - 1.0) * s
    ensures 0.0 <= b / (n * s) <= (n - 1.0) / n
  {
    DivTwice(b, s, n);
    DivCancel(n - 1.0, s);
    DivMonotone(0.0, b, s);
    DivMonotone(b, (n - 1.0) * s, s);
    DivMonotone(0.0, b / s, n);
    DivMonotone(b / s, n - 1.0, n);
  }

  /** The coefficient of generate_affected_party_analysis.py over `xs` in the
      order given, `2·Σ i·x_i / (n·Σx) − (n + 1)/n`. With no counts, or counts
      summing to zero, the division has no value (numpy yields NaN): `None`. */
  function GiniInOrder(xs: seq<nat>): (g: Option<real>)
    ensures g.Some? <==> |xs| > 0 && Sum(xs) > 0
    ensures g.Some? ==> g.value == (Balance(xs) as real) / ((|xs| * Sum(xs)) as real)
  {
    if |xs| == 0 || Sum(xs) == 0 then None
    else
      var n := |xs| as real;
      var s := Sum(xs) as real;
      CommonDenominator(Weighted(xs) as real, s, n);
      CastMul(|xs| + 1, Sum(xs));
      CastMul(|xs|, Sum(xs));
      Some(2.0 * (Weighted(xs) as real) / (n * s) - (n + 1.0) / n)
  }

  /** The form of analyze_recipient_concentration.py,
      `(n + 1 − 2·Σ (n + 1 − i)·x_i / Σx) / n`; the script fails on no
      counts (`cumsum.iloc[-1]`) and has no value on a zero sum: `None`. */
  function RecipientGini(xs: seq<nat>): (g: Option<real>)
    ensures g.Some? <==> |xs| > 0 && Sum(xs) > 0
  {
    if |xs| == 0 || Sum(xs) == 0 then None
    else
      var n := |xs| as real;
      Some((n + 1.0 - 2.0 * (CoWeighted(xs) as real) / (Sum(xs) as real)) / n)
  }

  /** The two written forms are one coefficient, whatever the order. */
  lemma GiniFormsAgree(xs: seq<nat>)
    ensures RecipientGini(xs) == GiniInOrder(xs)
  {
    if |xs| > 0 && Sum(xs) > 0 {
      WeightsComplement(xs);
      FormsAgreeOn(Weighted(xs), CoWeighted(xs), Sum(xs), |xs|);
    }
  }

  /** The same identity on plain numbers: n counts with sum s and the two
      weighted sums w and c. */
  lemma FormsAgreeOn(w: nat, c: nat, s: nat, n: nat)
    requires n > 0 && s > 0 && w + c == (n + 1) * s
    ensures (n as real + 1.0 - 2.0 * (c as real) / (s as real)) / (n as real)
      == ((2 * w - (n + 1) * s) as real) / ((n * s) as real)
  {
    CastMul(n + 1, s);
    CastMul(n, s);
    CoForm(w as real, c as real, s as real, n as real);
  }

  /** Reversing the counts negates the coefficient. */
  lemma ReversalNegates(xs: seq<nat>)
    ensures GiniInOrder(Reverse(xs)).Some? <==> GiniInOrder(xs).Some?
    ensures GiniInOrder(xs).Some? ==> GiniInOrder(Reverse(xs)).value == -GiniInOrder(xs).value
  {
    BalanceOfReverse(xs);
    if |xs| > 0 && Sum(xs) > 0 {
      NegDiv(Balance(xs) as real, (|xs| * Sum(xs)) as real);
    }
  }

  /** Reversal keeps the sum and negates the balance. */
  lemma BalanceOfReverse(xs: seq<nat>)
    ensures Sum(Reverse(xs)) == Sum(xs)
    ensures Balance(Reverse(xs)) == -Balance(xs)
  {
    var r := Reverse(xs);
    ReverseMultiset(xs);
    SumByPermutation(r, xs, NatId);
    WeightedOfReverse(xs);
    WeightsComplement(xs);
    OppositeBalances(Weighted(xs), CoWeighted(xs), Sum(xs), |xs|);
  }

  lemma OppositeBalances(w: nat, c: nat, s: nat, n: nat)
    requires w + c == (n + 1) * s
    ensures 2 * c - (n + 1) * s == -(2 * w - (n + 1) * s)
  {
  }

  /** One more count at the end moves the balance by `m·x − Σ ys`. */
  lemma BalanceStep(ys: seq<nat>, x: nat)
    ensures Balance(ys + [x]) == Balance(ys) + |ys| * x - Sum(ys)
  {
    var xs := ys + [x];
    var m := |ys|;
    assert xs[..|xs| - 1] == ys;
    WeightedLast(xs);
    assert (m + 2) * (Sum(ys) + x) == (m + 1) * Sum(ys) + Sum(ys) + 2 * (m + 1) * x - m * x;
  }

  /** On ascending counts the balance is never negative. */
  lemma {:induction false} AscendingBalance(xs: seq<nat>)
    requires SortedBy(xs, Up)
    ensures Balance(xs) >= 0
  {
    if |xs| > 0 {
      var ys := xs[..|xs| - 1];
      var x := xs[|xs| - 1];
      assert xs == ys + [x];
      assert SortedBy(ys, Up);
      AscendingBalance(ys);
      forall i | 0 <= i < |ys|
        ensures ys[i] <= x
      {
        assert Up(xs[i]) <= Up(xs[|xs| - 1]);
      }
      SumBoundedBy(ys, x);
      BalanceStep(ys, x);
    }
  }

  /** No position weighs more than n. */
  lemma {:induction false} WeightedAtMost(xs: seq<nat>)
    ensures Weighted(xs) <= |xs| * Sum(xs)
  {
    if |xs| > 0 {
      var ys := xs[..|xs| - 1];
      WeightedAtMost(ys);
      WeightedLast(xs);
      MulLe(|ys|, |xs|, Sum(ys));
    }
  }

  /** On ascending counts the coefficient lies in [0, (n − 1)/n]. */
  lemma AscendingGiniBounds(xs: seq<nat>)
    requires SortedBy(xs, Up)
    ensures GiniInOrder(xs).Some? ==>
      0.0 <= GiniInOrder(xs).value <= (|xs| as real - 1.0) / (|xs| as real)
  {
    if |xs| > 0 && Sum(xs) > 0 {
      AscendingBalance(xs);
      WeightedAtMost(xs);
      UpperBalance(Weighted(xs), |xs|, Sum(xs));
      BoundsOn(Balance(xs), |xs|, Sum(xs));
    }
  }

  lemma UpperBalance(w: nat, n: nat, s: nat)
    requires w <= n * s
    ensures 2 * w - (n + 1) * s <= (n - 1) * s
  {
  }

  lemma BoundsOn(b: int, n: nat, s: nat)
    requires n > 0 && s > 0 && 0 <= b <= (n - 1) * s
    ensures 0.0 <= (b as real) / ((n * s) as real) <= (n as real - 1.0) / (n as real)
  {
    CastMul(n - 1, s);
    CastMul(n, s);
    RatioBounds(b as real, n as real, s as real);
  }

  /** Equal counts: the balance is zero and the sum is n·c. */
  lemma {:induction false} EqualCounts(n: nat, c: nat)
    ensures Sum(seq(n, _ => c)) == n * c
    ensures Balance(seq(n, _ => c)) == 0
  {
    if n > 0 {
      var xs := seq(n, _ => c);
      var ys := seq(n - 1, _ => c);
      assert xs == ys + [c];
      EqualCounts(n - 1, c);
      WeightedLast(xs);
      BalanceStep(ys, c);
    }
  }

  /** Perfect equality gives a coefficient of zero. */
  lemma GiniOfEqualCounts(n: nat, c: nat)
    requires n > 0 && c > 0
    ensures GiniInOrder(seq(n, _ => c)) == Some(0.0)
  {
    EqualCounts(n, c);
    assert n * c > 0;
  }

  /** All transactions on the last of n addresses gives (n − 1)/n. */
  lemma GiniOfOneHolder(n: nat, c: nat)
    requires n > 0 && c > 0
    ensures GiniInOrder(seq(n - 1, _ => 0) + [c]) == Some((n as real - 1.0) / (n as real))
  {
    var zs := seq(n - 1, _ => 0);
    var xs := zs + [c];
    EqualCounts(n - 1, 0);
    BalanceStep(zs, c);
    assert xs[..|xs| - 1] == zs;
    WeightedLast(xs);
    assert Sum(xs) == c;
    assert Balance(xs) == (n - 1) * c;
    CommonFactor(n, c);
  }

  lemma CommonFactor(n: nat, c: nat)
    requires n > 0 && c > 0
    ensures ((n - 1) * c) as real / ((n * c) as real) == (n as real - 1.0) / (n as real)
  {
    CastMul(n - 1, c);
    CastMul(n, c);
    DivTwice((n as real - 1.0) * (c as real), c as real, n as real);
    DivCancel(n as real - 1.0, c as real);
  }

  // ----- sorted inputs -----

  /** Reading a descending sequence backwards gives an ascending one. */
  lemma ReverseOfDescending(s: seq<nat>)
    requires SortedBy(s, Down)
    ensures SortedBy(Reverse(s), Up)
  {
    var r := Reverse(s);
    forall i, j | 0 <= i < j < |r|
      ensures Up(r[i]) <= Up(r[j])
    {
      assert Down(s[|s| - 1 - j]) <= Down(s[|s| - 1 - i]);
    }
  }

  /** Ascending order stated without the key function. */
  predicate Ascending(s: seq<nat>)
  {
    forall i, j :: 0 <= i < j < |s| ==> s[i] <= s[j]
  }

  lemma SortedUpIsAscending(s: seq<nat>)
    requires SortedBy(s, Up)
    ensures Ascending(s)
  {
    forall i, j | 0 <= i < j < |s|
      ensures s[i] <= s[j]
    {
      assert Up(s[i]) <= Up(s[j]);
    }
  }

  /** The first of an ascending sequence is its least element. */
  lemma LeastFirst(a: seq<nat>, x: nat)
    requires Ascending(a) && x in multiset(a)
    ensures |a| > 0 && a[0] <= x
  {
    var i :| 0 <= i < |a| && a[i] == x;
    if i > 0 {
      assert a[0] <= a[i];
    }
  }

  /** Dropping the first element drops one copy of it. */
  lemma TailMultiset<T>(a: seq<T>)
    requires |a| > 0
    ensures multiset(a[1..]) == multiset(a) - multiset{a[0]}
  {
    assert a == [a[0]] + a[1..];
  }

  lemma SortedTail(a: seq<nat>)
    requires |a| > 0 && Ascending(a)
    ensures Ascending(a[1..])
  {
    forall i, j | 0 <= i < j < |a| - 1
      ensures a[1..][i] <= a[1..][j]
    {
      assert a[i + 1] <= a[j + 1];
    }
  }

  /** Two ascending arrangements of one multiset start alike and leave the
      same multiset behind. */
  lemma SameHead(a: seq<nat>, b: seq<nat>)
    requires Ascending(a) && Ascending(b) && multiset(a) == multiset(b) && |a| > 0
    ensures |b| > 0 && a[0] == b[0]
    ensures multiset(a[1..]) == multiset(b[1..])
  {
    assert a[0] in multiset(a);
    LeastFirst(b, a[0]);
    assert b[0] in multiset(b);
    LeastFirst(a, b[0]);
    TailMultiset(a);
    TailMultiset(b);
  }

  /** An ascending arrangement of a multiset of counts is unique. */
  lemma {:induction false} AscendingUnique(a: seq<nat>, b: seq<nat>)
    requires Ascending(a) && Ascending(b) && multiset(a) == multiset(b)
    ensures a == b
    decreases |a|
  {
    if |a| == 0 {
      assert |b| == |multiset(b)| == |multiset(a)| == 0;
    } else {
      SameHead(a, b);
      SortedTail(a);
      SortedTail(b);
      AscendingUnique(a[1..], b[1..]);
      assert a == [a[0]] + a[1..];
      assert b == [b[0]] + b[1..];
    }
  }

  /** Reversing the descending sort yields the ascending sort. */
  lemma ReverseOfDescendingSort(counts: seq<nat>)
    ensures Reverse(SortBy(counts, Down)) == SortBy(counts, Up)
  {
    var d := SortBy(counts, Down);
    ReverseOfDescending(d);
    ReverseMultiset(d);
    SortedUpIsAscending(Reverse(d));
    SortedUpIsAscending(SortBy(counts, Up));
    AscendingUnique(Reverse(d), SortBy(counts, Up));
  }

  /** The coefficient on ascending counts: the usual Gini index. */
  function AscendingGini(counts: seq<nat>): (g: Option<real>)
    ensures g.Some? <==> |counts| > 0 && Sum(counts) > 0
    ensures g.Some? ==> 0.0 <= g.value <= (|counts| as real - 1.0) / (|counts| as real)
  {
    var s := SortBy(counts, Up);
    SumByPermutation(s, counts, NatId);
    AscendingGiniBounds(s);
    GiniInOrder(s)
  }

  /** The coefficient generate_affected_party_analysis.py reports: the
      in-order formula applied after its descending sort. */
  function AffectedPartyGini(counts: seq<nat>): (g: Option<real>)
  {
    GiniInOrder(SortBy(counts, Down))
  }

  /** The reported figure is the negation of the Gini index, so it is never
      positive. */
  lemma AffectedPartyGiniIsNegated(counts: seq<nat>)
    ensures AffectedPartyGini(counts).Some? <==> AscendingGini(counts).Some?
    ensures AffectedPartyGini(counts).Some? ==>
      AffectedPartyGini(counts).value == -AscendingGini(counts).value
    ensures AffectedPartyGini(counts).Some? ==> AffectedPartyGini(counts).value <= 0.0
  {
    var d := SortBy(counts, Down);
    ReversalNegates(d);
    ReverseOfDescendingSort(counts);
  }

  /** Two addresses with 1 and 3 transactions: the script reports −0.25, the
      Gini index is 0.25. */
  lemma AffectedPartyGiniExample()
    ensures AffectedPartyGini([1, 3]) == Some(-0.25)
    ensures AscendingGini([1, 3]) == Some(0.25)
  {
    var up: seq<nat> := [1, 3];
    var down: seq<nat> := [3, 1];
    ExampleSorts(up, down);
    ExampleGini(down, 3, 1);
    ExampleGini(up, 1, 3);
  }

  lemma ExampleGini(xs: seq<nat>, a: nat, b: nat)
    requires xs == [a, b] && a + b == 4
    ensures GiniInOrder(xs) == Some(((b - a) as real) / 8.0)
  {
    ExampleSums(xs, a, b);
    assert Balance(xs) == 2 * (a + 2 * b) - 3 * (a + b);
  }

  lemma ExampleSorts(up: seq<nat>, down: seq<nat>)
    requires up == [1, 3] && down == [3, 1]
    ensures SortBy(up, Down) == down
    ensures SortBy(up, Up) == up
  {
    var tail: seq<nat> := [3];
    assert up[1..] == tail;
    assert tail[1..] == [];
  }

  lemma ExampleSums(xs: seq<nat>, a: nat, b: nat)
    requires xs == [a, b]
    ensures Sum(xs) == a + b && Weighted(xs) == a + 2 * b
  {
    var first: seq<nat> := [a];
    var last: seq<nat> := [b];
    assert xs[1..] == last && xs[..1] == first;
    assert last[1..] == [] && first[..0] == [];
    assert SumBy(last, NatId) == NatId(b) + SumBy(last[1..], NatId);
    assert Sum(last) == b;
    assert Weighted(first) == a;
  }

  /** The coefficient of analyze_recipient_concentration.py: its form on
      counts sorted ascending. */
  function RecipientReportGini(counts: seq<nat>): (g: Option<real>)
    ensures g.Some? <==> |counts| > 0 && Sum(counts) > 0
  {
    SumByPermutation(SortBy(counts, Up), counts, NatId);
    RecipientGini(SortBy(counts, Up))
  }

  /** It is the Gini index, bounded by 0 and (n − 1)/n. */
  lemma RecipientReportGiniIsGini(counts: seq<nat>)
    ensures RecipientReportGini(counts) == AscendingGini(counts)
    ensures RecipientReportGini(counts).Some? ==>
      0.0 <= RecipientReportGini(counts).value <= (|counts| as real - 1.0) / (|counts| as real)
  {
    GiniFormsAgree(SortBy(counts, Up));
  }

  /** analyze_recipient_sample.py guards both degenerate cases with 0. */
  function SampleGini(counts: seq<nat>): (g: real)
  {
    if |counts| > 0 then
      var s := SortBy(counts, Up);
      if Sum(s) > 0 then RecipientGini(s).value else 0.0
    else 0.0
  }

  lemma SampleGiniIsGuarded(counts: seq<nat>)
    ensures |counts| == 0 || Sum(counts) == 0 ==> SampleGini(counts) == 0.0
    ensures |counts| > 0 && Sum(counts) > 0 ==>
      AscendingGini(counts) == Some(SampleGini(counts))
    ensures 0.0 <= SampleGini(counts) <= 1.0
  {
    var s := SortBy(counts, Up);
    SumByPermutation(s, counts, NatId);
    if |counts| > 0 && Sum(counts) > 0 {
      RecipientReportGiniIsGini(counts);
      var g := RecipientReportGini(counts).value;
      assert SampleGini(counts) == g;
      BelowOne(|counts|, g);
    }
  }

  lemma BelowOne(n: nat, g: real)
    requires n > 0 && g <= (n as real - 1.0) / (n as real)
    ensures g <= 1.0
  {
    DivMonotone(n as real - 1.0, n as real, n as real);
  }

  // ----- Lorenz curve and top-N shares -----

  /** Running totals as percentages of the sum; `None` when counts exist but
      sum to zero (0/0 in pandas). */
  function CumulativePct(xs: seq<nat>): (p: Option<seq<real>>)
    ensures p.Some? <==> |xs| == 0 || Sum(xs) > 0
    ensures p.Some? ==> |p.value| == |xs|
    ensures p.Some? ==> forall i :: 0 <= i < |xs| ==> IsPct(p.value[i], Sum(xs[..i + 1]), Sum(xs))
  {
    if |xs| > 0 && Sum(xs) == 0 then None
    else Some(seq(|xs|, i requires 0 <= i < |xs| => Pct(Sum(xs[..i + 1]), Sum(xs))))
  }

  /** Percentages that climb, stay within 0..100 and end at 100. */
  predicate LorenzShaped(ps: seq<real>)
  {
    && (forall i, j :: 0 <= i <= j < |ps| ==> ps[i] <= ps[j])
    && (forall i :: 0 <= i < |ps| ==> 0.0 <= ps[i] <= 100.0)
    && (|ps| > 0 ==> ps[|ps| - 1] == 100.0)
  }

  /** The curve of generate_affected_party_analysis.py, running percentages
      over the descending sort, has that shape. */
  lemma LorenzCurve(counts: seq<nat>)
    ensures CumulativePct(SortBy(counts, Down)).Some? ==>
      LorenzShaped(CumulativePct(SortBy(counts, Down)).value)
  {
    var s := SortBy(counts, Down);
    if CumulativePct(s).Some? {
      CumulativeShape(s, CumulativePct(s).value);
    }
  }

  lemma CumulativeShape(xs: seq<nat>, ps: seq<real>)
    requires CumulativePct(xs) == Some(ps)
    ensures LorenzShaped(ps)
  {
    forall i, j | 0 <= i <= j < |ps|
      ensures ps[i] <= ps[j]
    {
      CumulativeClimbs(xs, ps, i, j);
    }
    forall i | 0 <= i < |ps|
      ensures 0.0 <= ps[i] <= 100.0
    {
      CumulativeWithin(xs, ps, i);
    }
    if |xs| > 0 {
      assert xs[..|xs|] == xs;
      PctOfWhole(ps[|xs| - 1], Sum(xs));
    }
  }

  lemma PctOfWhole(p: real, t: nat)
    requires t > 0 && IsPct(p, t, t)
    ensures p == 100.0
  {
    DivCancel(p, t as real);
    DivCancel(100.0, t as real);
  }

  lemma CumulativeClimbs(xs: seq<nat>, ps: seq<real>, i: nat, j: nat)
    requires CumulativePct(xs) == Some(ps) && i <= j < |xs|
    ensures ps[i] <= ps[j]
  {
    SumByPrefixMonotone(xs, i + 1, j + 1, NatId);
    PctMonotone(Sum(xs[..i + 1]), Sum(xs[..j + 1]), ps[i], ps[j], Sum(xs));
  }

  lemma CumulativeWithin(xs: seq<nat>, ps: seq<real>, i: nat)
    requires CumulativePct(xs) == Some(ps) && i < |xs|
    ensures 0.0 <= ps[i] <= 100.0
  {
    var t := Sum(xs);
    SumByPrefixMonotone(xs, i + 1, |xs|, NatId);
    assert xs[..|xs|] == xs;
    PctMonotone(0, Sum(xs[..i + 1]), 0.0, ps[i], t);
    PctMonotone(Sum(xs[..i + 1]), t, ps[i], 100.0, t);
  }

  /** Share of the `k` largest counts in the total (`nlargest(k)` or
      `head(k)` of the descending sort, over the sum); `None` on a zero
      total. */
  function TopShare(counts: seq<nat>, k: nat): (p: Option<real>)
    ensures p.Some? <==> Sum(counts) > 0
    ensures p.Some? ==> IsPct(p.value, Sum(Take(SortBy(counts, Down), k)), Sum(counts))
  {
    if Sum(counts) == 0 then None
    else Some(Pct(Sum(Take(SortBy(counts, Down), k)), Sum(counts)))
  }

  /** More addresses never hold a smaller share, and no share exceeds 100. */
  lemma TopSharesOrdered(counts: seq<nat>, k1: nat, k2: nat)
    requires k1 <= k2
    ensures TopShare(counts, k1).Some? ==>
      0.0 <= TopShare(counts, k1).value <= TopShare(counts, k2).value <= 100.0
  {
    if Sum(counts) > 0 {
      var s := SortBy(counts, Down);
      var t := Sum(counts);
      SumByPermutation(s, counts, NatId);
      assert s[..|s|] == s;
      SumByPrefixMonotone(s, Min(k1, |s|), Min(k2, |s|), NatId);
      SumByPrefixMonotone(s, Min(k2, |s|), |s|, NatId);
      var p1 := TopShare(counts, k1).value;
      var p2 := TopShare(counts, k2).value;
      PctMonotone(0, Sum(Take(s, k1)), 0.0, p1, t);
      PctMonotone(Sum(Take(s, k1)), Sum(Take(s, k2)), p1, p2, t);
      PctMonotone(Sum(Take(s, k2)), t, p2, 100.0, t);
    }
  }

  // ----- address categories -----

  datatype Category = Light | Medium | Heavy

  /** The masks of the summary statistics: more than 100 is heavy, more than
      10 and at most 100 is medium, at most 10 is light. */
  predicate InCategory(c: nat, cat: Category)
  {
    match cat
    case Heavy => c > 100
    case Medium => c > 10 && c <= 100
    case Light => c <= 10
  }

  /** The chart's `pd.cut` with bins (0,10], (10,100], (100,∞): intervals
      closed on the right, a zero count outside every bin. */
  function CutBin(c: nat): (b: Option<Category>)
  {
    if c == 0 then None
    else if c <= 10 then Some(Light)
    else if c <= 100 then Some(Medium)
    else Some(Heavy)
  }

  /** Every count is in exactly one category, and for a positive count it is
      the `pd.cut` bin. */
  lemma CategoriesAgree(c: nat)
    ensures exists cat :: InCategory(c, cat)
    ensures forall a, b :: InCategory(c, a) && InCategory(c, b) ==> a == b
    ensures c >= 1 ==> CutBin(c).Some? && InCategory(c, CutBin(c).value)
    ensures c == 0 ==> CutBin(c) == None
  {
    if c > 100 {
      assert InCategory(c, Heavy);
    } else if c > 10 {
      assert InCategory(c, Medium);
    } else {
      assert InCategory(c, Light);
    }
  }

  /** `len(df[mask])` for one category's mask. */
  function CountIn(counts: seq<nat>, cat: Category): (k: nat)
    ensures k <= |counts|
  {
    if |counts| == 0 then 0
    else (if InCategory(counts[0], cat) then 1 else 0) + CountIn(counts[1..], cat)
  }

  /** Heavy, medium and light users together are all the addresses. */
  lemma {:induction false} CategoriesPartition(counts: seq<nat>)
    ensures CountIn(counts, Heavy) + CountIn(counts, Medium) + CountIn(counts, Light) == |counts|
  {
    if |counts| > 0 {
      CategoriesPartition(counts[1..]);
    }
  }
}
