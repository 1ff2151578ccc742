/** Python dicts used as accumulators: `t.setdefault(k, zero)` followed by
    an in-place merge of the new value. Only the merge's algebra matters, so
    the value type and its merge are parameters. */
module Tables {
  import opened Folds

  /** The merge is commutative and associative. */
  ghost predicate IsCommutativeSemigroup<V(!new)>(plus: (V, V) -> V)
  {
    && (forall a, b :: plus(a, b) == plus(b, a))
    && (forall a, b, c :: plus(plus(a, b), c) == plus(a, plus(b, c)))
  }

  /** One dict update: the entry for `k`, or `zero` when `k` is new, merged
      with `v`. Every other entry is left alone. */
  function Absorb<K, V>(t: map<K, V>, k: K, v: V, zero: V, plus: (V, V) -> V): (r: map<K, V>)
    ensures r.Keys == t.Keys + {k}
    ensures k in t ==> r[k] == plus(t[k], v)
    ensures k !in t ==> r[k] == plus(zero, v)
    ensures forall j :: j in t && j != k ==> r[j] == t[j]
  {
    t[k := plus(if k in t then t[k] else zero, v)]
  }

  /** Updates of two different keys touch different entries. */
  lemma AbsorbCommuteDistinct<K, V>(t: map<K, V>, k1: K, v1: V, k2: K, v2: V, zero: V, plus: (V, V) -> V)
    requires k1 != k2
    ensures Absorb(Absorb(t, k1, v1, zero, plus), k2, v2, zero, plus)
         == Absorb(Absorb(t, k2, v2, zero, plus), k1, v1, zero, plus)
  {
    var g1 := if k1 in t then t[k1] else zero;
    var g2 := if k2 in t then t[k2] else zero;
    assert Absorb(Absorb(t, k1, v1, zero, plus), k2, v2, zero, plus) == t[k1 := plus(g1, v1)][k2 := plus(g2, v2)];
    assert Absorb(Absorb(t, k2, v2, zero, plus), k1, v1, zero, plus) == t[k2 := plus(g2, v2)][k1 := plus(g1, v1)];
  }

  /** Two updates of the same key merge both values into its entry, in
      either order when the merge is commutative and associative. */
  lemma AbsorbCommuteSame<K, V(!new)>(t: map<K, V>, k: K, v1: V, v2: V, zero: V, plus: (V, V) -> V)
    requires IsCommutativeSemigroup(plus)
    ensures Absorb(Absorb(t, k, v1, zero, plus), k, v2, zero, plus)
         == Absorb(Absorb(t, k, v2, zero, plus), k, v1, zero, plus)
  {
    var g := if k in t then t[k] else zero;
    var x := plus(plus(g, v1), v2);
    var y := plus(plus(g, v2), v1);
    assert x == plus(g, plus(v1, v2));
    assert y == plus(g, plus(v2, v1));
    assert plus(v1, v2) == plus(v2, v1);
    assert Absorb(Absorb(t, k, v1, zero, plus), k, v2, zero, plus) == t[k := x];
    assert Absorb(Absorb(t, k, v2, zero, plus), k, v1, zero, plus) == t[k := y];
  }

  /** Two updates may be applied in either order. */
  lemma AbsorbCommute<K, V(!new)>(t: map<K, V>, k1: K, v1: V, k2: K, v2: V, zero: V, plus: (V, V) -> V)
    requires IsCommutativeSemigroup(plus)
    ensures Absorb(Absorb(t, k1, v1, zero, plus), k2, v2, zero, plus)
         == Absorb(Absorb(t, k2, v2, zero, plus), k1, v1, zero, plus)
  {
    if k1 == k2 {
      AbsorbCommuteSame(t, k1, v1, v2, zero, plus);
    } else {
      AbsorbCommuteDistinct(t, k1, v1, k2, v2, zero, plus);
    }
  }

  /** The loop body `for row in rows: absorb(row)` as a fold step. */
  function AbsorbStep<K, V, R>(key: R -> K, val: R -> V, zero: V, plus: (V, V) -> V): (map<K, V>, R) -> map<K, V>
  {
    (m: map<K, V>, r: R) => Absorb(m, key(r), val(r), zero, plus)
  }

  /** Absorb every row, in order. */
  function AbsorbAll<K, V, R>(t: map<K, V>, rows: seq<R>, key: R -> K, val: R -> V, zero: V, plus: (V, V) -> V): map<K, V>
  {
    FoldL(rows, t, AbsorbStep(key, val, zero, plus))
  }

  /** The keys after the loop are the keys before it plus every row's key. */
  lemma {:induction false} AbsorbAllKeys<K, V, R>(t: map<K, V>, rows: seq<R>, key: R -> K, val: R -> V, zero: V, plus: (V, V) -> V)
    ensures AbsorbAll(t, rows, key, val, zero, plus).Keys
         == t.Keys + set i | 0 <= i < |rows| :: key(rows[i])
  {
    if |rows| > 0 {
      var rows' := rows[..|rows| - 1];
      AbsorbAllKeys(t, rows', key, val, zero, plus);
      var before := set i | 0 <= i < |rows'| :: key(rows'[i]);
      var after := set i | 0 <= i < |rows| :: key(rows[i]);
      assert after == before + {key(rows[|rows| - 1])} by {
        forall j | j in after
          ensures j in before + {key(rows[|rows| - 1])}
        {
          var i :| 0 <= i < |rows| && j == key(rows[i]);
          if i < |rows| - 1 {
            assert rows'[i] == rows[i];
          }
        }
        forall j | j in before
          ensures j in after
        {
          var i :| 0 <= i < |rows'| && j == key(rows'[i]);
          assert rows[i] == rows'[i];
        }
      }
    }
  }

  /** With a commutative, associative merge the loop's steps commute. */
  lemma AbsorbStepsCommute<K(!new), V(!new), R(!new)>(key: R -> K, val: R -> V, zero: V, plus: (V, V) -> V)
    requires IsCommutativeSemigroup(plus)
    ensures StepsCommute(AbsorbStep(key, val, zero, plus))
  {
    var step := AbsorbStep(key, val, zero, plus);
    forall m: map<K, V>, x: R, y: R
      ensures step(step(m, x), y) == step(step(m, y), x)
    {
      AbsorbCommute(m, key(x), val(x), key(y), val(y), zero, plus);
    }
  }

  /** The table does not depend on the order of the rows. */
  lemma AbsorbAllPermutation<K(!new), V(!new), R(!new)>(t: map<K, V>, rows: seq<R>, rows': seq<R>, key: R -> K, val: R -> V, zero: V, plus: (V, V) -> V)
    requires IsCommutativeSemigroup(plus)
    requires multiset(rows) == multiset(rows')
    ensures AbsorbAll(t, rows, key, val, zero, plus) == AbsorbAll(t, rows', key, val, zero, plus)
  {
    AbsorbStepsCommute(key, val, zero, plus);
    FoldPermutation(rows, rows', t, AbsorbStep(key, val, zero, plus));
  }

  /** Two row lists absorbed one after the other give the same table in
      either order. */
  lemma AbsorbAllSwap<K(!new), V(!new), R(!new)>(t: map<K, V>, a: seq<R>, b: seq<R>, key: R -> K, val: R -> V, zero: V, plus: (V, V) -> V)
    requires IsCommutativeSemigroup(plus)
    ensures AbsorbAll(AbsorbAll(t, a, key, val, zero, plus), b, key, val, zero, plus)
         == AbsorbAll(AbsorbAll(t, b, key, val, zero, plus), a, key, val, zero, plus)
  {
    var step := AbsorbStep(key, val, zero, plus);
    FoldAppend(a, b, t, step);
    FoldAppend(b, a, t, step);
    assert multiset(a + b) == multiset(b + a);
    AbsorbAllPermutation(t, a + b, b + a, key, val, zero, plus);
  }

  /** A property of entries that every row has, that merging keeps and that
      merging into `zero` keeps, holds of every entry after the loop. */
  lemma {:induction false} AbsorbAllKeeps<K, V, R>(t: map<K, V>, rows: seq<R>, key: R -> K, val: R -> V, zero: V, plus: (V, V) -> V, p: V -> bool)
    requires forall k :: k in t ==> p(t[k])
    requires forall i :: 0 <= i < |rows| ==> p(val(rows[i])) && p(plus(zero, val(rows[i])))
    requires forall i, v :: 0 <= i < |rows| && p(v) ==> p(plus(v, val(rows[i])))
    ensures var r := AbsorbAll(t, rows, key, val, zero, plus);
      forall k :: k in r ==> p(r[k])
  {
    if |rows| > 0 {
      var rows' := rows[..|rows| - 1];
      var last := rows[|rows| - 1];
      AbsorbAllKeeps(t, rows', key, val, zero, plus, p);
      var m := AbsorbAll(t, rows', key, val, zero, plus);
      assert AbsorbAll(t, rows, key, val, zero, plus) == Absorb(m, key(last), val(last), zero, plus);
      if key(last) in m {
        assert p(plus(m[key(last)], val(rows[|rows| - 1])));
      }
    }
  }
}
