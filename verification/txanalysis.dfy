/** The single-run scripts: the loop that fetches a block range window by
    window (analyze_gas_cap_impact_extended.py), the affected filter with its
    percentage and the per-sender groups of both 30-day scripts, and the
    per-transaction and per-address split arithmetic of the first version
    (old.py). The cap is the 2^24 every script passes. */
module TxAnalysis {
  import opened Base
  import opened Tables
  import opened Sorting
  import opened Planner
  import opened Accumulators
  import Recipients

  /** A fetched transaction: its block, sender, gas limit and gas price in
      wei. */
  datatype ChainTx = ChainTx(block: int, sender: Addr, gasLimit: nat, gasPrice: nat)

  /** The transactions satisfying `p`, in order: a boolean-mask selection. */
  function Filter(s: seq<ChainTx>, p: ChainTx -> bool): (r: seq<ChainTx>)
    ensures forall x :: x in r <==> x in s && p(x)
    ensures |r| <= |s|
  {
    if |s| == 0 then []
    else
      var init := s[..|s| - 1];
      var last := s[|s| - 1];
      assert s == init + [last];
      if p(last) then Filter(init, p) + [last] else Filter(init, p)
  }

  /** Filtering by a weaker condition first changes nothing. */
  lemma {:induction false} FilterTwice(s: seq<ChainTx>, p: ChainTx -> bool, q: ChainTx -> bool)
    requires forall x :: q(x) ==> p(x)
    ensures Filter(Filter(s, p), q) == Filter(s, q)
  {
    if |s| > 0 {
      var init := s[..|s| - 1];
      var last := s[|s| - 1];
      FilterTwice(init, p, q);
      if p(last) {
        var f := Filter(init, p) + [last];
        assert f[..|f| - 1] == Filter(init, p);
      }
    }
  }

  // ----- fetch_transactions_efficiently -----

  /** The query's pre-filter `gas_limit > 1000000`. */
  predicate HighGas(tx: ChainTx)
  {
    tx.gasLimit > HighGasThreshold
  }

  /** What one window's query returns: the window's transactions that pass
      the pre-filter. */
  function WindowQuery(chain: seq<ChainTx>, w: Window): (r: seq<ChainTx>)
    ensures forall tx :: tx in r <==> tx in chain && Contains(w, tx.block) && HighGas(tx)
  {
    Filter(chain, (tx: ChainTx) => Contains(w, tx.block) && HighGas(tx))
  }

  /** The reply for a window: its rows, or the exception when `fails` says
      the query raised. */
  function Answer(chain: seq<ChainTx>, fails: Window -> bool, w: Window): (reply: Reply<ChainTx>)
    ensures reply.Raised? <==> fails(w)
  {
    if fails(w) then Raised else Rows(WindowQuery(chain, w))
  }

  /** The windows `[current, min(current + size, end))` the loop visits,
      stepping to each window's end until `end` is reached. */
  function Windows(current: int, end: int, size: nat): seq<Window>
    requires size > 0
    decreases end - current
  {
    if current >= end then []
    else
      var next := Min(current + size, end);
      [Window(current, next)] + Windows(next, end, size)
  }

  /** The windows start at `current`, follow each other without gap or
      overlap, are non-empty and at most `size` long, and the last one ends
      at `end`; there are `ceil((end - current) / size)` of them. */
  lemma {:induction false} WindowsTile(current: int, end: int, size: nat)
    requires size > 0
    ensures var ws := Windows(current, end, size);
      && (|ws| == 0 <==> current >= end)
      && (|ws| > 0 ==> ws[0].start == current && ws[|ws| - 1].end == end)
      && (forall i :: 0 <= i < |ws| ==> 0 < ws[i].end - ws[i].start <= size)
      && (forall i :: 0 <= i < |ws| - 1 ==> ws[i].end == ws[i + 1].start)
      && (current < end ==> |ws| == CeilDiv(end - current, size))
    decreases end - current
  {
    if current < end {
      var next := Min(current + size, end);
      var ws := Windows(current, end, size);
      var rest := Windows(next, end, size);
      WindowsTile(next, end, size);
      assert ws == [Window(current, next)] + rest;
      forall i | 0 <= i < |ws| - 1
        ensures ws[i].end == ws[i + 1].start
      {
        if i > 0 {
          assert ws[i] == rest[i - 1] && ws[i + 1] == rest[i];
        }
      }
      if next < end {
        CeilDivStep(end - current, size);
      } else {
        CeilDivOne(end - current, size);
      }
    }
  }

  lemma CeilDivStep(d: int, size: nat)
    requires size > 0 && d > size
    ensures CeilDiv(d, size) == 1 + CeilDiv(d - size, size)
  {
    var r := CeilDiv(d - size, size);
    var q := CeilDiv(d, size);
    assert (r - 1) * size < d - size <= r * size;
    assert (q - 1) * size < d <= q * size;
    MulStep(r, size);
    MulStep(r - 1, size);
    if q < r + 1 {
      MulLe(q, r, size);
    } else if q > r + 1 {
      MulLe(r + 1, q - 1, size);
    }
  }

  lemma CeilDivOne(d: int, size: nat)
    requires 0 < d <= size
    ensures CeilDiv(d, size) == 1
  {
    var q := CeilDiv(d, size);
    if q < 1 {
      MulLe(q, 0, size);
    } else if q > 1 {
      MulLe(1, q - 1, size);
    }
  }

  /** Some window of `ws` holds block `b`. */
  predicate Covered(ws: seq<Window>, b: int)
  {
    exists i :: 0 <= i < |ws| && Contains(ws[i], b)
  }

  /** A block lies in some window exactly when it lies in `[current, end)`. */
  lemma {:induction false} WindowsCover(current: int, end: int, size: nat, b: int)
    requires size > 0
    ensures current <= b < end <==> Covered(Windows(current, end, size), b)
    decreases end - current
  {
    var ws := Windows(current, end, size);
    if current < end {
      var next := Min(current + size, end);
      var rest := Windows(next, end, size);
      WindowsCover(next, end, size, b);
      assert ws == [Window(current, next)] + rest;
      if current <= b < end {
        if b < next {
          assert Contains(ws[0], b);
        } else {
          var i :| 0 <= i < |rest| && Contains(rest[i], b);
          assert ws[i + 1] == rest[i];
        }
        assert Covered(ws, b);
      }
      if Covered(ws, b) {
        var i :| 0 <= i < |ws| && Contains(ws[i], b);
        if i > 0 {
          assert ws[i] == rest[i - 1];
          assert Covered(rest, b);
        }
        assert current <= b < end;
      }
    }
  }

  /** The rows of every window that answered, window after window. */
  function Gather(chain: seq<ChainTx>, fails: Window -> bool, ws: seq<Window>): seq<ChainTx>
  {
    if |ws| == 0 then [] else RowsOr(Answer(chain, fails, ws[0])) + Gather(chain, fails, ws[1..])
  }

  lemma {:induction false} GatherAppend(chain: seq<ChainTx>, fails: Window -> bool, a: seq<Window>, b: seq<Window>)
    ensures Gather(chain, fails, a + b) == Gather(chain, fails, a) + Gather(chain, fails, b)
  {
    if |a| == 0 {
      assert a + b == b;
    } else {
      assert (a + b)[0] == a[0];
      assert (a + b)[1..] == a[1..] + b;
      GatherAppend(chain, fails, a[1..], b);
    }
  }

  /** One more window adds its reply's rows. */
  lemma GatherSnoc(chain: seq<ChainTx>, fails: Window -> bool, ws: seq<Window>, w: Window)
    ensures Gather(chain, fails, ws + [w]) == Gather(chain, fails, ws) + RowsOr(Answer(chain, fails, w))
  {
    GatherAppend(chain, fails, ws, [w]);
    assert Gather(chain, fails, [w]) == RowsOr(Answer(chain, fails, w)) + Gather(chain, fails, []);
  }

  /** Taking the next window moves it from the plan still to visit to the
      windows visited. */
  lemma WindowsStep(visited: seq<Window>, current: int, end: int, size: nat)
    requires size > 0 && current < end
    ensures visited + Windows(current, end, size)
         == (visited + [Window(current, Min(current + size, end))]) + Windows(Min(current + size, end), end, size)
  {
    var w := Window(current, Min(current + size, end));
    assert Windows(current, end, size) == [w] + Windows(Min(current + size, end), end, size);
  }

  /** A gathered row is a pre-filtered transaction of a window that
      answered, and every such transaction is gathered. */
  lemma {:induction false} GatherMembers(chain: seq<ChainTx>, fails: Window -> bool, ws: seq<Window>)
    ensures forall tx :: tx in Gather(chain, fails, ws) <==>
      tx in chain && HighGas(tx) &&
      exists i :: 0 <= i < |ws| && Contains(ws[i], tx.block) && !fails(ws[i])
  {
    if |ws| > 0 {
      GatherMembers(chain, fails, ws[1..]);
      forall tx
        ensures tx in Gather(chain, fails, ws) <==>
          tx in chain && HighGas(tx) &&
          exists i :: 0 <= i < |ws| && Contains(ws[i], tx.block) && !fails(ws[i])
      {
        if exists i :: 0 <= i < |ws| && Contains(ws[i], tx.block) && !fails(ws[i]) {
          var i :| 0 <= i < |ws| && Contains(ws[i], tx.block) && !fails(ws[i]);
          if i > 0 {
            assert ws[1..][i - 1] == ws[i];
          }
        }
        if tx in Gather(chain, fails, ws[1..]) {
          var i :| 0 <= i < |ws[1..]| && Contains(ws[1..][i], tx.block) && !fails(ws[1..][i]);
          assert ws[1..][i] == ws[i + 1];
        }
      }
    }
  }

  /** `fetch_transactions_efficiently`: visit the windows in order, append
      the rows of every window whose query returned any, and skip a window
      whose query raised. */
  method FetchTransactions(chain: seq<ChainTx>, fails: Window -> bool, start: int, end: int, size: nat)
    returns (windows: seq<Window>, rows: seq<ChainTx>)
    requires size > 0
    ensures windows == Windows(start, end, size)
    ensures rows == Gather(chain, fails, windows)
    ensures |windows| == 0 <==> start >= end
    ensures |windows| > 0 ==> windows[0].start == start && windows[|windows| - 1].end == end
  {
    windows := [];
    rows := [];
    var current := start;
    while current < end
      invariant windows + Windows(current, end, size) == Windows(start, end, size)
      invariant rows == Gather(chain, fails, windows)
      decreases end - current
    {
      var batchEnd := Min(current + size, end);
      var w := Window(current, batchEnd);
      var reply := Answer(chain, fails, w);
      WindowsStep(windows, current, end, size);
      GatherSnoc(chain, fails, windows, w);
      if reply.Rows? && |reply.rows| > 0 {
        rows := rows + reply.rows;
      }
      windows := windows + [w];
      current := batchEnd;
    }
    assert windows + [] == windows;
    WindowsTile(start, end, size);
  }

  /** What the loop collects: pre-filtered transactions of `[start, end)`
      whose window answered. */
  lemma FetchedRows(chain: seq<ChainTx>, fails: Window -> bool, start: int, end: int, size: nat)
    requires size > 0
    ensures forall tx :: tx in Gather(chain, fails, Windows(start, end, size)) ==>
      tx in chain && HighGas(tx) && start <= tx.block < end
  {
    var ws := Windows(start, end, size);
    GatherMembers(chain, fails, ws);
    forall tx | tx in Gather(chain, fails, ws)
      ensures start <= tx.block < end
    {
      var i :| 0 <= i < |ws| && Contains(ws[i], tx.block) && !fails(ws[i]);
      assert Covered(ws, tx.block);
      WindowsCover(start, end, size, tx.block);
    }
  }

  /** When no query raises, the loop collects every pre-filtered
      transaction of `[start, end)`. */
  lemma FetchedEverything(chain: seq<ChainTx>, fails: Window -> bool, start: int, end: int, size: nat)
    requires size > 0
    requires forall w :: !fails(w)
    ensures forall tx :: tx in Gather(chain, fails, Windows(start, end, size)) <==>
      tx in chain && HighGas(tx) && start <= tx.block < end
  {
    var ws := Windows(start, end, size);
    FetchedRows(chain, fails, start, end, size);
    GatherMembers(chain, fails, ws);
    forall tx | tx in chain && HighGas(tx) && start <= tx.block < end
      ensures tx in Gather(chain, fails, ws)
    {
      WindowsCover(start, end, size, tx.block);
      assert Covered(ws, tx.block);
      var i :| 0 <= i < |ws| && Contains(ws[i], tx.block);
      assert !fails(ws[i]);
    }
  }

  // ----- the affected filter and its percentage -----

  /** The summary's `total_transactions`, or the estimate 216,000 · 100 when
      the summary query returned nothing. */
  function TotalOrEstimate(summary: Option<nat>): (total: nat)
  {
    if summary.Some? then summary.value else 216_000 * 100
  }

  /** `df['gas_limit'] > cap`. */
  predicate OverCap(tx: ChainTx)
  {
    tx.gasLimit > GasCap
  }

  function AffectedTxs(rows: seq<ChainTx>): seq<ChainTx>
  {
    Filter(rows, OverCap)
  }

  /** `affected / total * 100`; no value on a zero total, where Python
      raises (old.py) or numpy yields a non-finite number (30-day scripts). */
  function Percentage(affected: nat, total: nat): (p: Option<real>)
    ensures p.Some? <==> total > 0
    ensures p.Some? ==> IsPct(p.value, affected, total)
    ensures p.Some? && affected <= total ==> 0.0 <= p.value <= 100.0
  {
    if total > 0 then
      PctWithin(affected, total);
      Some(Pct(affected, total))
    else None
  }

  lemma PctWithin(affected: nat, total: nat)
    requires total > 0
    ensures 0.0 <= Pct(affected, total)
    ensures affected <= total ==> Pct(affected, total) <= 100.0
  {
    PctMonotone(0, affected, 0.0, Pct(affected, total), total);
    if affected <= total {
      PctMonotone(affected, total, Pct(affected, total), 100.0, total);
    }
  }

  /** The headline figures of both 30-day scripts. */
  datatype Impact = Impact(total: nat, affected: nat, percentage: Option<real>, highGas: nat)

  function ImpactOf(rows: seq<ChainTx>, summary: Option<nat>): Impact
  {
    var affected := |AffectedTxs(rows)|;
    var total := TotalOrEstimate(summary);
    Impact(total, affected, Percentage(affected, total), |rows|)
  }

  /** The affected count is at most the number of fetched rows and is 0
      exactly when no row is above the cap; the total is the summary's or the
      estimate; the percentage exists exactly when the total is positive. */
  lemma ImpactFacts(rows: seq<ChainTx>, summary: Option<nat>)
    ensures var r := ImpactOf(rows, summary);
      && r.highGas == |rows|
      && r.affected <= r.highGas
      && (r.affected == 0 <==> forall tx :: tx in rows ==> tx.gasLimit <= GasCap)
      && (summary.None? ==> r.total == 21_600_000)
      && (summary.Some? ==> r.total == summary.value)
      && (r.percentage.Some? <==> r.total > 0)
      && (r.percentage.Some? ==> IsPct(r.percentage.value, r.affected, r.total))
  {
    var over := AffectedTxs(rows);
    if |over| > 0 {
      assert over[0] in over;
    }
  }

  /** The pre-filter `gas_limit > 1000000` drops no transaction above the
      cap. */
  lemma PrefilterKeepsAffected(chain: seq<ChainTx>)
    ensures AffectedTxs(Filter(chain, HighGas)) == AffectedTxs(chain)
  {
    FilterTwice(chain, HighGas, OverCap);
  }

  /** When no query raises, the affected rows the loop fetched are exactly
      the transactions of `[start, end)` above the cap. */
  lemma AffectedOfRange(chain: seq<ChainTx>, fails: Window -> bool, start: int, end: int, size: nat)
    requires size > 0
    requires forall w :: !fails(w)
    ensures forall tx :: tx in AffectedTxs(Gather(chain, fails, Windows(start, end, size))) <==>
      tx in chain && OverCap(tx) && start <= tx.block < end
  {
    FetchedEverything(chain, fails, start, end, size);
  }

  // ----- per-sender groups -----

  /** What `groupby('from_address')` aggregates of one sender: transactions,
      summed and largest gas limit, summed gas price. */
  datatype Group = Group(count: nat, gasSum: nat, maxGas: nat, priceSum: nat)

  const NoGroup: Group := Group(0, 0, 0, 0)

  function PlusGroup(a: Group, b: Group): Group
  {
    Group(a.count + b.count, a.gasSum + b.gasSum, MaxNat(a.maxGas, b.maxGas), a.priceSum + b.priceSum)
  }

  function TxGroup(tx: ChainTx): Group
  {
    Group(1, tx.gasLimit, tx.gasLimit, tx.gasPrice)
  }

  function SenderOf(tx: ChainTx): Addr { tx.sender }
  function GasLimitOf(tx: ChainTx): nat { tx.gasLimit }
  function PriceOf(tx: ChainTx): nat { tx.gasPrice }

  /** The groups, one entry per sender. */
  function Groups(txs: seq<ChainTx>): map<Addr, Group>
  {
    AbsorbAll(map[], txs, SenderOf, TxGroup, NoGroup, PlusGroup)
  }

  /** One sender's transactions. */
  function FromSender(txs: seq<ChainTx>, a: Addr): seq<ChainTx>
  {
    Filter(txs, (tx: ChainTx) => tx.sender == a)
  }

  /** `g` holds the count, the sums and the largest gas limit of `a`'s
      transactions in `txs`. */
  predicate Describes(g: Group, txs: seq<ChainTx>, a: Addr)
  {
    var own := FromSender(txs, a);
    && g.count == |own|
    && g.gasSum == SumBy(own, GasLimitOf)
    && g.priceSum == SumBy(own, PriceOf)
    && (forall tx :: tx in own ==> tx.gasLimit <= g.maxGas)
    && (|own| > 0 ==> exists tx :: tx in own && tx.gasLimit == g.maxGas)
    && (|own| == 0 ==> g.maxGas == 0)
  }

  /** Adding one transaction of `a` to a description of the earlier ones. */
  lemma DescribesStep(g: Group, init: seq<ChainTx>, last: ChainTx, a: Addr)
    requires Describes(g, init, a) && last.sender == a
    ensures Describes(PlusGroup(g, TxGroup(last)), init + [last], a)
  {
    var txs := init + [last];
    assert txs[..|txs| - 1] == init;
    var own := FromSender(init, a);
    assert FromSender(txs, a) == own + [last];
    SumByAppend(own, [last], GasLimitOf);
    SumByAppend(own, [last], PriceOf);
    var m := PlusGroup(g, TxGroup(last)).maxGas;
    if |own| > 0 {
      var tx :| tx in own && tx.gasLimit == g.maxGas;
      if g.maxGas >= last.gasLimit {
        assert tx in own + [last];
      } else {
        assert last in own + [last];
      }
    } else {
      assert last in own + [last];
    }
  }

  /** A sender has an entry exactly when it sent one of the transactions,
      and the entry (or the empty group) describes its transactions. */
  lemma {:induction false} GroupMatches(txs: seq<ChainTx>, a: Addr)
    ensures a in Groups(txs) <==> |FromSender(txs, a)| > 0
    ensures Describes(if a in Groups(txs) then Groups(txs)[a] else NoGroup, txs, a)
  {
    if |txs| > 0 {
      var init := txs[..|txs| - 1];
      var last := txs[|txs| - 1];
      assert txs == init + [last];
      GroupMatches(init, a);
      var t := Groups(init);
      assert Groups(txs) == AbsorbStep(SenderOf, TxGroup, NoGroup, PlusGroup)(t, last);
      assert Groups(txs) == Absorb(t, SenderOf(last), TxGroup(last), NoGroup, PlusGroup);
      var g := if a in t then t[a] else NoGroup;
      if last.sender == a {
        DescribesStep(g, init, last, a);
        assert FromSender(txs, a) == FromSender(init, a) + [last];
      } else {
        assert FromSender(txs, a) == FromSender(init, a);
      }
    }
  }

  /** Every transaction of `s` is above `m`: the sum is above `|s| · m`. */
  lemma {:induction false} SumByAbove(s: seq<ChainTx>, f: ChainTx -> nat, m: nat)
    requires forall i :: 0 <= i < |s| ==> f(s[i]) > m
    ensures |s| > 0 ==> SumBy(s, f) > |s| * m
    ensures SumBy(s, f) >= |s| * m
  {
    if |s| > 0 {
      SumByAbove(s[1..], f, m);
    }
  }

  /** Every transaction of `s` is at most `m`: the sum is at most `|s| · m`. */
  lemma {:induction false} SumByAtMost(s: seq<ChainTx>, f: ChainTx -> nat, m: nat)
    requires forall i :: 0 <= i < |s| ==> f(s[i]) <= m
    ensures SumBy(s, f) <= |s| * m
  {
    if |s| > 0 {
      SumByAtMost(s[1..], f, m);
    }
  }

  /** The entry of a sender whose transactions are all above the cap: at
      least one transaction, a largest gas limit above the cap, and a sum
      above `count` times the cap and at most `count` times the maximum. */
  predicate Sound(g: Group)
  {
    && g.count >= 1
    && g.maxGas > GasCap
    && GasCap * g.count < g.gasSum <= g.count * g.maxGas
  }

  lemma AffectedGroupSound(txs: seq<ChainTx>, a: Addr)
    requires forall tx :: tx in txs ==> OverCap(tx)
    requires a in Groups(txs)
    ensures Sound(Groups(txs)[a])
  {
    GroupMatches(txs, a);
    var g := Groups(txs)[a];
    var own := FromSender(txs, a);
    assert forall i :: 0 <= i < |own| ==> own[i] in own;
    SumByAbove(own, GasLimitOf, GasCap);
    SumByAtMost(own, GasLimitOf, g.maxGas);
    var tx :| tx in own && tx.gasLimit == g.maxGas;
  }

  /** numpy's `round(0)`: the nearest integer, a half going to the even
      neighbour. */
  function RoundHalfEven(x: real): (n: int)
    ensures (n as real) - 0.5 <= x <= (n as real) + 0.5
    ensures x - (x.Floor as real) == 0.5 ==> n % 2 == 0
  {
    var f := x.Floor;
    var d := x - f as real;
    if d < 0.5 then f else if d > 0.5 then f + 1 else if f % 2 == 0 then f else f + 1
  }

  /** Whole numbers round to themselves, and a value nearer than a half to
      an integer rounds to it. */
  lemma RoundToNearest(x: real, m: int)
    requires (m as real) - 0.5 < x < (m as real) + 0.5
    ensures RoundHalfEven(x) == m
  {
  }

  /** Every listed key has an entry with at least one transaction. */
  lemma {:induction false} SendersListed(over: seq<ChainTx>, keys: seq<Addr>)
    requires keys == Dedup(MapSeq(over, SenderOf))
    ensures forall i :: 0 <= i < |keys| ==> keys[i] in Groups(over) && Groups(over)[keys[i]].count > 0
  {
    forall i | 0 <= i < |keys|
      ensures keys[i] in Groups(over) && Groups(over)[keys[i]].count > 0
    {
      SenderListed(over, keys[i]);
    }
  }

  /** A value among the senders has a transaction of its own. */
  lemma SenderListed(over: seq<ChainTx>, a: Addr)
    requires a in Dedup(MapSeq(over, SenderOf))
    ensures a in Groups(over) && Groups(over)[a].count > 0
  {
    var senders := MapSeq(over, SenderOf);
    assert a in senders;
    var j :| 0 <= j < |senders| && senders[j] == a;
    assert over[j] in FromSender(over, a);
    GroupMatches(over, a);
  }

  /** Every sender of a transaction is listed, and everything listed is a
      sender. */
  lemma SendersComplete(over: seq<ChainTx>, a: Addr)
    ensures a in Dedup(MapSeq(over, SenderOf)) <==> exists tx :: tx in over && tx.sender == a
  {
    var senders := MapSeq(over, SenderOf);
    if a in Dedup(senders) {
      assert a in senders;
      var j :| 0 <= j < |senders| && senders[j] == a;
      assert over[j] in over;
    }
    if exists tx :: tx in over && tx.sender == a {
      var tx :| tx in over && tx.sender == a;
      var j :| 0 <= j < |over| && over[j] == tx;
      assert senders[j] == a;
    }
  }

  lemma {:induction false} DedupLength<T>(s: seq<T>)
    ensures |Dedup(s)| <= |s|
    ensures |s| > 0 ==> |Dedup(s)| >= 1
  {
    if |s| > 0 {
      DedupLength(s[..|s| - 1]);
      assert s[0] in Dedup(s);
    }
  }

  // ----- address_stats of the 30-day scripts -----

  /** One row of `address_stats`: transactions, mean gas limit as displayed
      (rounded), largest and summed gas limit, mean and summed excess over the
      cap, `ceil(mean / cap)` and the split cost in ether at the row's gas
      price. */
  datatype SenderImpact = SenderImpact(
    sender: Addr, count: nat, meanGas: int, maxGas: nat, gasSum: nat,
    avgExcess: real, totalExcess: int, splits: int, additionalCostEth: real)

  /** The extended script prices every row at the mean gas price of all
      affected transactions; the 30-day script at the row's own mean price,
      rounded like every aggregate column. */
  datatype Pricing = GlobalMean | SenderMean

  function SenderPrice(pricing: Pricing, over: seq<ChainTx>, g: Group): real
    requires g.count > 0 && |over| > 0
  {
    match pricing
    case GlobalMean => (SumBy(over, PriceOf) as real) / (|over| as real)
    case SenderMean => RoundHalfEven((g.priceSum as real) / (g.count as real)) as real
  }

  function SenderImpactOf(a: Addr, g: Group, price: real): SenderImpact
    requires g.count > 0
  {
    var mean := (g.gasSum as real) / (g.count as real);
    var splits := Splits(mean);
    SenderImpact(a, g.count, RoundHalfEven(mean), g.maxGas, g.gasSum, mean - GasCap as real,
                 g.gasSum - GasCap * g.count, splits,
                 ((splits - 1) * BaseGasCost) as real * price / 1_000_000_000_000_000_000.0)
  }

  /** The row of a sender whose transactions are all above the cap: the
      summed excess is positive and is the gas above `count` times the cap,
      the mean lies above the cap and at most the maximum, at least two
      transactions are needed, and the cost is at least one extra
      transaction's. */
  lemma SenderImpactFacts(a: Addr, g: Group, price: real)
    requires Sound(g) && price >= 0.0
    ensures var r := SenderImpactOf(a, g, price);
      var mean := (g.gasSum as real) / (g.count as real);
      && r.totalExcess == g.gasSum - GasCap * g.count > 0
      && r.avgExcess == mean - GasCap as real > 0.0
      && GasCap as real < mean <= g.maxGas as real
      && ((r.splits - 1) * GasCap) as real < mean <= (r.splits * GasCap) as real
      && r.splits >= 2
      && r.additionalCostEth >= (BaseGasCost as real) * price / 1_000_000_000_000_000_000.0
  {
    Recipients.MeanBounds(g.gasSum, g.count, g.maxGas);
    var mean := (g.gasSum as real) / (g.count as real);
    SplitsAboveCap(mean);
    CostAtLeastOne(Splits(mean), price);
  }

  lemma CostAtLeastOne(splits: int, price: real)
    requires splits >= 2 && price >= 0.0
    ensures ((splits - 1) * BaseGasCost) as real * price / 1_000_000_000_000_000_000.0
         >= (BaseGasCost as real) * price / 1_000_000_000_000_000_000.0
  {
    var e := 1_000_000_000_000_000_000.0;
    assert ((splits - 1) * BaseGasCost) as real == (splits - 1) as real * (BaseGasCost as real);
    assert (splits - 1) as real * (BaseGasCost as real) >= BaseGasCost as real;
    assert ((splits - 1) * BaseGasCost) as real * price >= (BaseGasCost as real) * price;
  }

  /** The rows in key order. */
  function SenderLines(keys: seq<Addr>, t: map<Addr, Group>, pricing: Pricing, over: seq<ChainTx>): (r: seq<SenderImpact>)
    requires |over| > 0
    requires forall i :: 0 <= i < |keys| ==> keys[i] in t && t[keys[i]].count > 0
    ensures |r| == |keys|
    ensures forall i :: 0 <= i < |keys| ==>
      r[i] == SenderImpactOf(keys[i], t[keys[i]], SenderPrice(pricing, over, t[keys[i]]))
  {
    if |keys| == 0 then []
    else
      var g := t[keys[0]];
      [SenderImpactOf(keys[0], g, SenderPrice(pricing, over, g))] + SenderLines(keys[1..], t, pricing, over)
  }

  function ImpactCountDown(r: SenderImpact): int { 0 - r.count }

  /** `address_stats` sorted by count, busiest first; empty when nothing is
      above the cap. */
  function SenderTable(rows: seq<ChainTx>, pricing: Pricing): seq<SenderImpact>
  {
    var over := AffectedTxs(rows);
    if |over| == 0 then []
    else
      var keys := Dedup(MapSeq(over, SenderOf));
      var t := Groups(over);
      SendersListed(over, keys);
      SortBy(SenderLines(keys, t, pricing, over), ImpactCountDown)
  }

  function RowSender(r: SenderImpact): Addr { r.sender }

  /** The table lists the senders of the affected transactions, each once,
      busiest first. */
  lemma SenderTableSenders(rows: seq<ChainTx>, pricing: Pricing)
    ensures var r := SenderTable(rows, pricing);
      && SortedBy(r, ImpactCountDown)
      && multiset(MapSeq(r, RowSender)) == multiset(Dedup(MapSeq(AffectedTxs(rows), SenderOf)))
      && Distinct(MapSeq(r, RowSender))
  {
    var over := AffectedTxs(rows);
    var r := SenderTable(rows, pricing);
    var keys := Dedup(MapSeq(over, SenderOf));
    if |over| > 0 {
      var t := Groups(over);
      SendersListed(over, keys);
      var lines := SenderLines(keys, t, pricing, over);
      assert r == SortBy(lines, ImpactCountDown);
      assert MapSeq(lines, RowSender) == keys;
      MultisetOfMap(r, lines, RowSender);
      PermutationKeepsDistinct(MapSeq(r, RowSender), keys);
    } else {
      assert keys == [];
    }
  }

  /** Mapping both sides of a permutation keeps them a permutation. */
  lemma {:induction false} MultisetOfMap<T, U>(s: seq<T>, t: seq<T>, f: T -> U)
    requires multiset(s) == multiset(t)
    ensures multiset(MapSeq(s, f)) == multiset(MapSeq(t, f))
    decreases |s|
  {
    if |s| > 0 {
      var x := s[0];
      assert x in multiset(t);
      var i :| 0 <= i < |t| && t[i] == x;
      PermutationTail(s, t, i);
      MultisetOfMap(s[1..], t[..i] + t[i + 1..], f);
      MapSeqSplit(t, i, f);
      MapSeqSplit(s, 0, f);
      assert s[..0] + s[1..] == s[1..];
    } else {
      assert |t| == |multiset(t)| == 0;
    }
  }

  /** The image of a sequence is the image of the element at `i` and the
      image of the rest. */
  lemma MapSeqSplit<T, U>(t: seq<T>, i: nat, f: T -> U)
    requires i < |t|
    ensures multiset(MapSeq(t, f)) == multiset(MapSeq(t[..i] + t[i + 1..], f)) + multiset{f(t[i])}
  {
    var mp, mq := MapSeq(t[..i], f), MapSeq(t[i + 1..], f);
    MapSeqAround(t, i, f);
    MapSeqAppend(t[..i], t[i + 1..], f);
    MultisetAround(mp, f(t[i]), mq);
  }

  /** Mapping a sequence maps the parts before, at and after a position. */
  lemma MapSeqAround<T, U>(t: seq<T>, i: nat, f: T -> U)
    requires i < |t|
    ensures MapSeq(t, f) == MapSeq(t[..i], f) + [f(t[i])] + MapSeq(t[i + 1..], f)
  {
    var r := MapSeq(t, f);
    var front, back := MapSeq(t[..i], f), MapSeq(t[i + 1..], f);
    var l := front + [f(t[i])] + back;
    assert |l| == |r|;
    forall k | 0 <= k < |r|
      ensures l[k] == r[k]
    {
      if k < i {
        assert l[k] == front[k];
      } else if i < k {
        assert l[k] == back[k - i - 1];
      }
    }
    assert l == r;
  }

  lemma MultisetAround<U>(p: seq<U>, x: U, q: seq<U>)
    ensures multiset(p + [x] + q) == multiset(p + q) + multiset{x}
  {
    assert multiset(p + [x] + q) == multiset(p) + multiset{x} + multiset(q);
  }

  /** Removing the first element of `s` and its match in `t` leaves a
      permutation. */
  lemma PermutationTail<T>(s: seq<T>, t: seq<T>, i: nat)
    requires multiset(s) == multiset(t) && |s| > 0 && i < |t| && t[i] == s[0]
    ensures multiset(s[1..]) == multiset(t[..i] + t[i + 1..])
  {
    var x := s[0];
    var rest := t[..i] + t[i + 1..];
    assert t == t[..i] + [x] + t[i + 1..];
    assert s == [x] + s[1..];
    assert multiset(t) == multiset(t[..i]) + multiset{x} + multiset(t[i + 1..]);
    assert multiset(s) == multiset{x} + multiset(s[1..]);
    assert multiset(rest) == multiset(t[..i]) + multiset(t[i + 1..]);
    forall y
      ensures multiset(s[1..])[y] == multiset(rest)[y]
    {
      assert multiset(s)[y] == multiset{x}[y] + multiset(s[1..])[y];
      assert multiset(t)[y] == multiset(t[..i])[y] + multiset{x}[y] + multiset(t[i + 1..])[y];
    }
  }

  lemma MapSeqAppend<T, U>(a: seq<T>, b: seq<T>, f: T -> U)
    ensures MapSeq(a + b, f) == MapSeq(a, f) + MapSeq(b, f)
  {
    assert |MapSeq(a + b, f)| == |MapSeq(a, f) + MapSeq(b, f)|;
  }

  /** A row states its sender's affected transactions: their number, their
      summed and largest gas limit, the excess above the cap, at least two
      transactions needed and a cost that is never negative. */
  predicate RowFacts(r: SenderImpact, over: seq<ChainTx>)
  {
    var own := FromSender(over, r.sender);
    && r.count == |own| > 0
    && r.gasSum == SumBy(own, GasLimitOf)
    && (forall tx :: tx in own ==> tx.gasLimit <= r.maxGas)
    && (exists tx :: tx in own && tx.gasLimit == r.maxGas)
    && r.totalExcess == r.gasSum - GasCap * r.count > 0
    && r.avgExcess > 0.0
    && r.splits >= 2
    && r.additionalCostEth >= 0.0
  }

  lemma SenderPriceNonNegative(pricing: Pricing, over: seq<ChainTx>, g: Group)
    requires g.count > 0 && |over| > 0
    ensures SenderPrice(pricing, over, g) >= 0.0
  {
    if pricing.SenderMean? {
      var x := (g.priceSum as real) / (g.count as real);
      assert x >= 0.0;
      assert RoundHalfEven(x) as real >= x - 0.5;
    }
  }

  /** Every row of the table states its sender's affected transactions. */
  lemma SenderTableRows(rows: seq<ChainTx>, pricing: Pricing)
    ensures var r := SenderTable(rows, pricing);
      forall i :: 0 <= i < |r| ==> RowFacts(r[i], AffectedTxs(rows))
  {
    var over := AffectedTxs(rows);
    var r := SenderTable(rows, pricing);
    if |over| > 0 {
      var keys := Dedup(MapSeq(over, SenderOf));
      var t := Groups(over);
      SendersListed(over, keys);
      var lines := SenderLines(keys, t, pricing, over);
      assert r == SortBy(lines, ImpactCountDown);
      forall i | 0 <= i < |r|
        ensures RowFacts(r[i], over)
      {
        assert r[i] in multiset(lines);
        var j :| 0 <= j < |lines| && lines[j] == r[i];
        LineFacts(keys[j], t, pricing, over);
      }
    }
  }

  lemma LineFacts(a: Addr, t: map<Addr, Group>, pricing: Pricing, over: seq<ChainTx>)
    requires |over| > 0 && t == Groups(over) && a in t && t[a].count > 0
    requires forall tx :: tx in over ==> OverCap(tx)
    ensures RowFacts(SenderImpactOf(a, t[a], SenderPrice(pricing, over, t[a])), over)
  {
    GroupMatches(over, a);
    AffectedGroupSound(over, a);
    var price := SenderPrice(pricing, over, t[a]);
    SenderPriceNonNegative(pricing, over, t[a]);
    SenderImpactFacts(a, t[a], price);
    assert (BaseGasCost as real) * price >= 0.0;
  }

  /** `head(50)`: the 50 busiest senders, none of the others busier than any
      of them. */
  lemma TopFiftyBusiest(rows: seq<ChainTx>, pricing: Pricing)
    ensures var r := SenderTable(rows, pricing);
      var top := Take(r, 50);
      && |top| == Min(50, |r|)
      && (forall i :: 0 <= i < |top| ==> top[i] == r[i])
      && (forall i, j :: 0 <= i < |top| <= j < |r| ==> r[j].count <= top[i].count)
  {
    var r := SenderTable(rows, pricing);
    SenderTableSenders(rows, pricing);
    var top := Take(r, 50);
    forall i, j | 0 <= i < |top| <= j < |r|
      ensures r[j].count <= top[i].count
    {
      assert ImpactCountDown(r[i]) <= ImpactCountDown(r[j]);
    }
  }

  // ----- old.py: calculate_transaction_splitting_costs -----

  /** One row of the splitting-cost table: `ceil(gas_limit / cap)` pieces,
      the gas above the cap, 21,000 per extra piece and its fee in wei. The
      division is by a power of two, so the float quotient is exact. */
  datatype SplitCost = SplitCost(tx: ChainTx, splitsNeeded: int, excessGas: int,
                                 additionalBaseCosts: int, additionalFeeWei: int)

  function SplitCostOf(tx: ChainTx): SplitCost
  {
    var splits := CeilDiv(tx.gasLimit, GasCap);
    SplitCost(tx, splits, tx.gasLimit - GasCap, (splits - 1) * BaseGasCost,
              (splits - 1) * BaseGasCost * tx.gasPrice)
  }

  /** The split count is the fewest pieces of at most the cap, and it is two
      or more exactly for the transactions above the cap; these have a
      positive excess and pay at least one extra 21,000. */
  lemma SplitCostFacts(tx: ChainTx)
    ensures var c := SplitCostOf(tx);
      && (c.splitsNeeded - 1) * GasCap < tx.gasLimit <= c.splitsNeeded * GasCap
      && (c.splitsNeeded >= 2 <==> OverCap(tx))
      && (OverCap(tx) ==> c.excessGas > 0 && c.additionalBaseCosts >= BaseGasCost
                          && c.additionalFeeWei == c.additionalBaseCosts * tx.gasPrice)
  {
    var n := CeilDiv(tx.gasLimit, GasCap);
    if OverCap(tx) {
      if n < 2 {
        MulLe(n, 1, GasCap);
      }
      MulLe(1, n - 1, BaseGasCost);
    } else if n >= 2 {
      MulLe(1, n - 1, GasCap);
    }
  }

  function FeeDown(c: SplitCost): int { 0 - c.additionalFeeWei }

  /** The table for the affected transactions, largest fee first. */
  function SplittingCosts(rows: seq<ChainTx>): seq<SplitCost>
  {
    SortBy(MapSeq(AffectedTxs(rows), SplitCostOf), FeeDown)
  }

  /** The table has one row per affected transaction, computed from it, and
      is ordered by fee, largest first. */
  lemma SplittingCostsFacts(rows: seq<ChainTx>)
    ensures var r := SplittingCosts(rows);
      && |r| == |AffectedTxs(rows)|
      && SortedBy(r, FeeDown)
      && (forall c :: c in r <==> exists tx :: tx in rows && OverCap(tx) && c == SplitCostOf(tx))
  {
    var costs := MapSeq(AffectedTxs(rows), SplitCostOf);
    SortByMembers(costs, FeeDown);
    forall c
      ensures c in costs <==> exists tx :: tx in rows && OverCap(tx) && c == SplitCostOf(tx)
    {
      SplitCostMember(rows, c);
    }
  }

  lemma SplitCostMember(rows: seq<ChainTx>, c: SplitCost)
    ensures c in MapSeq(AffectedTxs(rows), SplitCostOf) <==> exists tx :: tx in rows && OverCap(tx) && c == SplitCostOf(tx)
  {
    var over := AffectedTxs(rows);
    var costs := MapSeq(over, SplitCostOf);
    if c in costs {
      var i :| 0 <= i < |costs| && costs[i] == c;
      assert over[i] in over;
    }
    if exists tx :: tx in rows && OverCap(tx) && c == SplitCostOf(tx) {
      var tx :| tx in rows && OverCap(tx) && c == SplitCostOf(tx);
      assert tx in over;
      var i :| 0 <= i < |over| && over[i] == tx;
      assert costs[i] == c;
    }
  }

  // ----- old.py: analyze_address_impact -----

  /** One row of the address table: transactions, mean gas limit as
      displayed, largest and summed gas limit, mean excess, summed excess,
      `ceil(total_excess / cap)` extra transactions and their cost at the
      sender's rounded mean price. Unlike the other tables no 1 is
      subtracted. */
  datatype AddressImpact = AddressImpact(
    sender: Addr, count: nat, meanGas: int, maxGas: nat, gasSum: nat,
    excessPerTx: real, totalExcess: int, estimatedAdditionalTxs: int,
    estimatedAdditionalGasCost: int)

  function AddressImpactOf(a: Addr, g: Group): AddressImpact
    requires g.count > 0
  {
    var mean := (g.gasSum as real) / (g.count as real);
    var excess := g.gasSum - GasCap * g.count;
    var extra := CeilDiv(excess, GasCap);
    AddressImpact(a, g.count, RoundHalfEven(mean), g.maxGas, g.gasSum, mean - GasCap as real,
                  excess, extra, extra * BaseGasCost * RoundHalfEven((g.priceSum as real) / (g.count as real)))
  }

  function AddressLines(keys: seq<Addr>, t: map<Addr, Group>): (r: seq<AddressImpact>)
    requires forall i :: 0 <= i < |keys| ==> keys[i] in t && t[keys[i]].count > 0
    ensures |r| == |keys|
    ensures forall i :: 0 <= i < |keys| ==> r[i] == AddressImpactOf(keys[i], t[keys[i]])
  {
    if |keys| == 0 then [] else [AddressImpactOf(keys[0], t[keys[0]])] + AddressLines(keys[1..], t)
  }

  function ExcessDown(r: AddressImpact): int { 0 - r.totalExcess }

  /** The address table, largest summed excess first. */
  function AddressTable(rows: seq<ChainTx>): (r: seq<AddressImpact>)
    ensures |r| == |Dedup(MapSeq(AffectedTxs(rows), SenderOf))|
  {
    var over := AffectedTxs(rows);
    var keys := Dedup(MapSeq(over, SenderOf));
    SendersListed(over, keys);
    SortBy(AddressLines(keys, Groups(over)), ExcessDown)
  }

  /** The extra transactions of one affected transaction: its split count
      less one. */
  function ExtraTxs(tx: ChainTx): nat
  {
    if OverCap(tx) then
      CeilDivPositive(tx.gasLimit - GasCap, GasCap);
      CeilDiv(tx.gasLimit - GasCap, GasCap)
    else 0
  }

  lemma CeilDivPositive(d: int, c: nat)
    requires c > 0 && d > 0
    ensures CeilDiv(d, c) >= 1
  {
    var q := CeilDiv(d, c);
    if q < 1 {
      MulLe(q, 0, c);
    }
  }

  lemma ExtraTxsAreSplits(tx: ChainTx)
    requires OverCap(tx)
    ensures ExtraTxs(tx) == SplitCostOf(tx).splitsNeeded - 1
  {
    CeilDivStep(tx.gasLimit, GasCap);
  }

  lemma CeilDivSubadditive(x: int, y: int, c: nat)
    requires c > 0
    ensures CeilDiv(x + y, c) <= CeilDiv(x, c) + CeilDiv(y, c)
  {
    var rx := CeilDiv(x, c);
    var ry := CeilDiv(y, c);
    var r := CeilDiv(x + y, c);
    assert x + y <= (rx + ry) * c;
    if r > rx + ry {
      MulLe(rx + ry, r - 1, c);
    }
  }

  /** Rounding the summed excess up never needs more transactions than
      splitting each transaction on its own. */
  lemma {:induction false} EstimateAtMostSplits(own: seq<ChainTx>)
    requires forall i :: 0 <= i < |own| ==> OverCap(own[i])
    ensures CeilDiv(SumBy(own, GasLimitOf) - GasCap * |own|, GasCap) <= SumBy(own, ExtraTxs)
  {
    if |own| > 0 {
      var x := own[0];
      EstimateAtMostSplits(own[1..]);
      var rest := SumBy(own[1..], GasLimitOf) - GasCap * |own[1..]|;
      assert SumBy(own, GasLimitOf) - GasCap * |own| == (x.gasLimit - GasCap) + rest;
      CeilDivSubadditive(x.gasLimit - GasCap, rest, GasCap);
    }
  }

  /** Every row of the address table states its sender's affected
      transactions, has a positive summed excess, and estimates between one
      and the number of extra transactions they need one by one. */
  lemma AddressTableRows(rows: seq<ChainTx>)
    ensures var r := AddressTable(rows);
      forall i :: 0 <= i < |r| ==> AddressRowFacts(r[i], AffectedTxs(rows))
  {
    var over := AffectedTxs(rows);
    var keys := Dedup(MapSeq(over, SenderOf));
    SendersListed(over, keys);
    var lines := AddressLines(keys, Groups(over));
    AddressLinesFacts(over, keys);
    var r := AddressTable(rows);
    assert r == SortBy(lines, ExcessDown);
    forall i | 0 <= i < |r|
      ensures AddressRowFacts(r[i], over)
    {
      assert r[i] in multiset(lines);
    }
  }

  /** Every line built from the listed senders states its sender's
      affected transactions. */
  lemma AddressLinesFacts(over: seq<ChainTx>, keys: seq<Addr>)
    requires forall tx :: tx in over ==> OverCap(tx)
    requires forall i :: 0 <= i < |keys| ==> keys[i] in Groups(over) && Groups(over)[keys[i]].count > 0
    ensures forall x :: x in AddressLines(keys, Groups(over)) ==> AddressRowFacts(x, over)
  {
    var lines := AddressLines(keys, Groups(over));
    forall x | x in lines
      ensures AddressRowFacts(x, over)
    {
      var j :| 0 <= j < |lines| && lines[j] == x;
      AddressLineFacts(keys[j], over);
    }
  }

  /** An address row states its sender's affected transactions, has a
      positive summed excess, and estimates between one and the number of
      extra transactions they need one by one. */
  predicate AddressRowFacts(r: AddressImpact, over: seq<ChainTx>)
  {
    var own := FromSender(over, r.sender);
    && r.count == |own| > 0
    && r.gasSum == SumBy(own, GasLimitOf)
    && r.totalExcess == r.gasSum - GasCap * r.count > 0
    && 1 <= r.estimatedAdditionalTxs <= SumBy(own, ExtraTxs)
  }

  lemma AddressLineFacts(a: Addr, over: seq<ChainTx>)
    requires a in Groups(over) && Groups(over)[a].count > 0
    requires forall tx :: tx in over ==> OverCap(tx)
    ensures AddressRowFacts(AddressImpactOf(a, Groups(over)[a]), over)
  {
    GroupMatches(over, a);
    AffectedGroupSound(over, a);
    var own := FromSender(over, a);
    assert forall i :: 0 <= i < |own| ==> own[i] in over;
    EstimateAtMostSplits(own);
    var g := Groups(over)[a];
    CeilDivPositive(g.gasSum - GasCap * g.count, GasCap);
  }

  /** Two transactions one gas above the cap from one sender: each needs one
      extra transaction, the per-address estimate only one in all. */
  lemma EstimateUndercountsExample(a: Addr)
    ensures var rows := [ChainTx(0, a, GasCap + 1, 1), ChainTx(1, a, GasCap + 1, 1)];
      && |AddressTable(rows)| == 1
      && AddressTable(rows)[0].estimatedAdditionalTxs == 1
      && SplitCostOf(rows[0]).splitsNeeded - 1 == 1
      && SplitCostOf(rows[1]).splitsNeeded - 1 == 1
  {
    var rows := [ChainTx(0, a, GasCap + 1, 1), ChainTx(1, a, GasCap + 1, 1)];
    assert Filter(rows[..0], OverCap) == [];
    assert rows[..1][..0] == rows[..0];
    assert Filter(rows[..1], OverCap) == [rows[0]];
    assert Filter(rows, OverCap) == rows;
    var over := AffectedTxs(rows);
    var senders := MapSeq(over, SenderOf);
    assert senders == [a, a];
    assert senders[..1] == [a];
    assert senders[..1][..0] == [];
    assert Dedup(senders[..1]) == [a];
    var keys := Dedup(senders);
    assert keys == [a];
    SendersListed(over, keys);
    assert keys[0] == a;
    AddressLineFacts(a, over);
    var g := Groups(over)[a];
    assert FromSender(over, a) == rows by {
      assert Filter(over[..0], (tx: ChainTx) => tx.sender == a) == [];
      assert over[..1][..0] == over[..0];
      assert Filter(over[..1], (tx: ChainTx) => tx.sender == a) == [rows[0]];
    }
    assert SumBy(rows, GasLimitOf) == 2 * GasCap + 2 by {
      assert SumBy(rows, GasLimitOf) == GasLimitOf(rows[0]) + SumBy(rows[1..], GasLimitOf);
      assert SumBy(rows[1..], GasLimitOf) == GasLimitOf(rows[1]) + SumBy(rows[2..], GasLimitOf);
    }
    CeilDivOne(2, GasCap);
    CeilDivStep(GasCap + 1, GasCap);
    CeilDivOne(1, GasCap);
    var lines := AddressLines(keys, Groups(over));
    assert |lines| == 1;
    SortBySorted(lines, ExcessDown);
  }

  // ----- old.py: analyze_gas_cap_impact -----

  /** The largest gas limit, 0 for no transactions. */
  function MaxGasOf(s: seq<ChainTx>): (m: nat)
    ensures forall tx :: tx in s ==> tx.gasLimit <= m
    ensures |s| > 0 ==> exists tx :: tx in s && tx.gasLimit == m
    ensures |s| == 0 ==> m == 0
  {
    if |s| == 0 then 0
    else
      var m := MaxGasOf(s[1..]);
      assert s == [s[0]] + s[1..];
      assert |s| > 1 ==> exists tx :: tx in s[1..] && tx.gasLimit == m;
      MaxNat(s[0].gasLimit, m)
  }

  /** `gas_limit - cap` of an affected transaction. */
  function ExcessOf(tx: ChainTx): nat
  {
    if OverCap(tx) then tx.gasLimit - GasCap else 0
  }

  /** `additional_fee_wei` of an affected transaction. */
  function FeeOf(tx: ChainTx): nat
  {
    ExtraTxs(tx) * BaseGasCost * tx.gasPrice
  }

  /** The fee of a single extra transaction at the transaction's price. */
  function OneExtraFeeOf(tx: ChainTx): nat { BaseGasCost * tx.gasPrice }

  /** Transactions above the cap each pay at least one extra transaction's
      base cost, so together at least the sum of those fees. */
  lemma {:induction false} FeesAtLeastOneExtra(txs: seq<ChainTx>)
    requires forall tx :: tx in txs ==> OverCap(tx)
    ensures SumBy(txs, FeeOf) >= SumBy(txs, OneExtraFeeOf)
  {
    if |txs| > 0 {
      var tx := txs[0];
      assert forall x :: x in txs[1..] ==> x in txs;
      FeesAtLeastOneExtra(txs[1..]);
      FeeAtLeastOneExtra(tx);
    }
  }

  lemma FeeAtLeastOneExtra(tx: ChainTx)
    requires OverCap(tx)
    ensures FeeOf(tx) >= OneExtraFeeOf(tx)
  {
    ExtraTxsAreSplits(tx);
    SplitCostFacts(tx);
    MulLe(1, ExtraTxs(tx), BaseGasCost * tx.gasPrice);
    assert FeeOf(tx) == ExtraTxs(tx) * (BaseGasCost * tx.gasPrice);
  }

  /** The figures kept per cap: affected count and percentage, distinct
      senders, mean and largest gas limit, summed and mean excess, summed and
      mean extra fee in wei. */
  datatype CapImpact = CapImpact(
    affected: nat, percentage: Option<real>, uniqueAddresses: nat,
    avgGas: real, maxGas: nat, totalExcess: nat, avgExcess: real,
    totalFeeWei: nat, avgFeeWei: real)

  /** The loop body of `analyze_gas_cap_impact` for the cap: every figure is
      0 when nothing is above it. The total is the number of rows. */
  function CapImpactOf(rows: seq<ChainTx>): CapImpact
  {
    var over := AffectedTxs(rows);
    var pct := Percentage(|over|, |rows|);
    if |over| == 0 then CapImpact(0, pct, 0, 0.0, 0, 0, 0.0, 0, 0.0)
    else
      var n := |over| as real;
      var excess := SumBy(over, ExcessOf);
      var fees := SumBy(over, FeeOf);
      CapImpact(|over|, pct, |AddressTable(rows)|, (SumBy(over, GasLimitOf) as real) / n,
                MaxGasOf(over), excess, (excess as real) / n, fees, (fees as real) / n)
  }

  /** Nothing is affected exactly when no row is above the cap, and then
      every figure but the percentage is 0; the percentage exists exactly when
      there are rows. */
  lemma CapImpactZero(rows: seq<ChainTx>)
    ensures var r := CapImpactOf(rows);
      && (r.affected == 0 <==> forall tx :: tx in rows ==> !OverCap(tx))
      && (r.affected == 0 ==> r == CapImpact(0, r.percentage, 0, 0.0, 0, 0, 0.0, 0, 0.0))
      && (r.percentage.Some? <==> |rows| > 0)
      && (r.percentage.Some? ==> IsPct(r.percentage.value, r.affected, |rows|))
      && r.affected <= |rows|
  {
    var over := AffectedTxs(rows);
    if |over| > 0 {
      assert over[0] in over;
    }
  }

  /** With affected transactions: the summed excess is the gas above
      `affected` times the cap and is positive, and the mean excess is the
      mean gas limit less the cap. */
  lemma CapImpactExcess(rows: seq<ChainTx>)
    requires exists tx :: tx in rows && OverCap(tx)
    ensures var r := CapImpactOf(rows);
      && r.affected == |AffectedTxs(rows)| > 0
      && r.totalExcess == SumBy(AffectedTxs(rows), GasLimitOf) - GasCap * r.affected > 0
      && r.avgExcess == r.avgGas - GasCap as real
  {
    var over := AffectedTxs(rows);
    var tx :| tx in rows && OverCap(tx);
    assert tx in over;
    var n := |over|;
    assert forall i :: 0 <= i < n ==> over[i] in over;
    ExcessSum(over);
    SumByAbove(over, GasLimitOf, GasCap);
    MeanLessCap(SumBy(over, GasLimitOf), n);
  }

  /** With affected transactions: the mean gas limit lies above the cap and
      at most the maximum, and there are between one and `affected`
      senders. */
  lemma CapImpactSpread(rows: seq<ChainTx>)
    requires exists tx :: tx in rows && OverCap(tx)
    ensures var r := CapImpactOf(rows);
      && GasCap as real < r.avgGas <= r.maxGas as real
      && r.maxGas > GasCap
      && 1 <= r.uniqueAddresses <= r.affected
  {
    var over := AffectedTxs(rows);
    var tx :| tx in rows && OverCap(tx);
    assert tx in over;
    var n := |over|;
    assert forall i :: 0 <= i < n ==> over[i] in over;
    SumByAbove(over, GasLimitOf, GasCap);
    var m := MaxGasOf(over);
    SumByAtMost(over, GasLimitOf, m);
    Recipients.MeanBounds(SumBy(over, GasLimitOf), n, m);
    DedupLength(MapSeq(over, SenderOf));
  }

  /** The summed fee adds up the splitting-cost table's fee of every
      affected transaction. */
  lemma CapImpactFees(rows: seq<ChainTx>)
    requires exists tx :: tx in rows && OverCap(tx)
    ensures var r := CapImpactOf(rows);
      && r.totalFeeWei == SumBy(AffectedTxs(rows), FeeOf)
      && (forall tx :: tx in AffectedTxs(rows) ==> FeeOf(tx) == SplitCostOf(tx).additionalFeeWei)
      && r.totalFeeWei >= SumBy(AffectedTxs(rows), OneExtraFeeOf)
  {
    var over := AffectedTxs(rows);
    var tx :| tx in rows && OverCap(tx);
    assert tx in over;
    FeesAtLeastOneExtra(over);
    forall tx | tx in over
      ensures FeeOf(tx) == SplitCostOf(tx).additionalFeeWei
    {
      ExtraTxsAreSplits(tx);
    }
  }

  /** Summed excess of affected transactions is their summed gas less the
      cap for each. */
  lemma {:induction false} ExcessSum(s: seq<ChainTx>)
    requires forall i :: 0 <= i < |s| ==> OverCap(s[i])
    ensures SumBy(s, ExcessOf) + GasCap * |s| == SumBy(s, GasLimitOf)
  {
    if |s| > 0 {
      ExcessSum(s[1..]);
    }
  }

  lemma MeanLessCap(total: nat, n: nat)
    requires n > 0 && total >= GasCap * n
    ensures ((total - GasCap * n) as real) / (n as real) == (total as real) / (n as real) - GasCap as real
  {
    var c := n as real;
    assert ((total - GasCap * n) as real) == (total as real) - (GasCap as real) * c;
    assert ((total as real) - (GasCap as real) * c) / c == (total as real) / c - (GasCap as real) * c / c;
  }
}
