/** The recipient side of the analysis: the per-transaction fold of
    analyze_recipient_concentration.py over the cached batches, the ranked
    table and report figures built from it, and the report of
    analyze_recipient_sample.py over a query's rows. */
module Recipients {
  import opened Base
  import opened Folds
  import opened Tables
  import opened Sorting
  import opened Accumulators
  import opened Concentration

  /** A recipient address; `None` is a contract creation's empty `to`. */
  type Recipient = Option<Addr>

  /** One cached transaction. */
  datatype Tx = Tx(sender: Addr, recipient: Recipient, gasLimit: nat)

  function TxRecipient(tx: Tx): Recipient { tx.recipient }

  /** The rows above the cap, in their original order (the boolean mask). */
  function OverCap(txs: seq<Tx>): (r: seq<Tx>)
    ensures forall tx :: tx in r <==> tx in txs && tx.gasLimit > GasCap
    ensures |r| <= |txs|
  {
    if |txs| == 0 then []
    else
      var init := txs[..|txs| - 1];
      var last := txs[|txs| - 1];
      assert txs == init + [last];
      if last.gasLimit > GasCap then OverCap(init) + [last] else OverCap(init)
  }

  // ----- per-recipient statistics -----

  /** A recipient's entry: transactions, summed and largest gas limit, the
      set of senders and the summed excess over the cap. */
  datatype Stats = Stats(count: nat, totalGas: nat, maxGas: nat, senders: set<Addr>, excess: int)

  /** The entry a recipient starts with. */
  const NoStats: Stats := Stats(0, 0, 0, {}, 0)

  /** The update of one entry by another: counts, sums and excess add, the
      maximum is kept, the sender sets are united. */
  function PlusStats(a: Stats, b: Stats): Stats
  {
    Stats(a.count + b.count, a.totalGas + b.totalGas, MaxNat(a.maxGas, b.maxGas),
          a.senders + b.senders, a.excess + b.excess)
  }

  /** What one transaction adds to its recipient's entry. */
  function TxStats(tx: Tx): Stats
  {
    Stats(1, tx.gasLimit, tx.gasLimit, {tx.sender}, tx.gasLimit - GasCap)
  }

  lemma StatsMergeLaws()
    ensures IsCommutativeSemigroup(PlusStats)
    ensures forall a :: PlusStats(NoStats, a) == a
  {
  }

  /** What every entry satisfies once a transaction above the cap reached it. */
  predicate Consistent(s: Stats)
  {
    && s.count >= 1
    && s.excess == s.totalGas - GasCap * s.count
    && 1 <= |s.senders| <= s.count
    && s.maxGas > GasCap
    && GasCap * s.count < s.totalGas <= s.count * s.maxGas
  }

  lemma TxConsistent(tx: Tx)
    requires tx.gasLimit > GasCap
    ensures Consistent(TxStats(tx))
    ensures Consistent(PlusStats(NoStats, TxStats(tx)))
  {
  }

  lemma UnionCard<T>(a: set<T>, b: set<T>)
    ensures |a| <= |a + b| <= |a| + |b|
  {
    assert |a + b| + |a * b| == |a| + |b|;
    assert a <= a + b;
    SubsetCard(a, a + b);
  }

  lemma SubsetCard<T>(a: set<T>, b: set<T>)
    requires a <= b
    ensures |a| <= |b|
  {
    assert b == a + (b - a);
  }

  /** Gas bounded by count times maximum survives a merge. */
  lemma MaxBound(ca: nat, ta: nat, ma: nat, cb: nat, tb: nat, mb: nat)
    requires ta <= ca * ma && tb <= cb * mb
    ensures ta + tb <= (ca + cb) * MaxNat(ma, mb)
  {
    MulLe(ma, MaxNat(ma, mb), ca);
    MulLe(mb, MaxNat(ma, mb), cb);
  }

  lemma ConsistentMerge(a: Stats, b: Stats)
    requires Consistent(a) && Consistent(b)
    ensures Consistent(PlusStats(a, b))
  {
    UnionCard(a.senders, b.senders);
    MaxBound(a.count, a.totalGas, a.maxGas, b.count, b.totalGas, b.maxGas);
  }

  // ----- loading the cached batches -----

  /** The recipient table and the number of transactions above the cap. */
  datatype Loaded = Loaded(stats: map<Recipient, Stats>, total: nat)

  /** Fold transactions into the table, one after the other. */
  function AddTxs(t: map<Recipient, Stats>, txs: seq<Tx>): map<Recipient, Stats>
  {
    AbsorbAll(t, txs, TxRecipient, TxStats, NoStats, PlusStats)
  }

  /** One batch file: an empty batch and a batch with nothing above the cap
      are skipped; otherwise each transaction above the cap updates its
      recipient's entry and all of them are counted. */
  function LoadBatch(st: Loaded, batch: seq<Tx>): Loaded
  {
    if |batch| == 0 then st
    else
      var affected := OverCap(batch);
      if |affected| == 0 then st
      else Loaded(AddTxs(st.stats, affected), st.total + |affected|)
  }

  /** `load_cached_batches` over the batch files in file-name order, each
      file being a list of transaction rows. */
  function LoadCachedBatches(batches: seq<seq<Tx>>): Loaded
  {
    FoldL(batches, Loaded(map[], 0), LoadBatch)
  }

  /** Every transaction above the cap, batch after batch. */
  function AllOverCap(batches: seq<seq<Tx>>): seq<Tx>
  {
    if |batches| == 0 then []
    else AllOverCap(batches[..|batches| - 1]) + OverCap(batches[|batches| - 1])
  }

  /** Loading batch by batch is one fold over all transactions above the cap,
      and the total counts them. */
  lemma {:induction false} LoadIsOneFold(batches: seq<seq<Tx>>)
    ensures LoadCachedBatches(batches) == Loaded(AddTxs(map[], AllOverCap(batches)), |AllOverCap(batches)|)
  {
    if |batches| > 0 {
      var init := batches[..|batches| - 1];
      var last := batches[|batches| - 1];
      LoadIsOneFold(init);
      var step := AbsorbStep(TxRecipient, TxStats, NoStats, PlusStats);
      FoldAppend(AllOverCap(init), OverCap(last), map[], step);
      if |last| == 0 {
        assert OverCap(last) == [];
        assert AllOverCap(init) + [] == AllOverCap(init);
      } else if |OverCap(last)| == 0 {
        assert AllOverCap(init) + OverCap(last) == AllOverCap(init);
      }
    }
  }

  /** Every entry of the loaded table is consistent. */
  lemma LoadedConsistent(batches: seq<seq<Tx>>)
    ensures var t := LoadCachedBatches(batches).stats;
      forall k :: k in t ==> Consistent(t[k])
  {
    LoadIsOneFold(batches);
    var rows := AllOverCap(batches);
    forall i | 0 <= i < |rows|
      ensures Consistent(TxStats(rows[i])) && Consistent(PlusStats(NoStats, TxStats(rows[i])))
    {
      AllOverCapAbove(batches, i);
      TxConsistent(rows[i]);
    }
    forall i, v | 0 <= i < |rows| && Consistent(v)
      ensures Consistent(PlusStats(v, TxStats(rows[i])))
    {
      AllOverCapAbove(batches, i);
      TxConsistent(rows[i]);
      ConsistentMerge(v, TxStats(rows[i]));
    }
    AbsorbAllKeeps(map[], rows, TxRecipient, TxStats, NoStats, PlusStats, Consistent);
  }

  lemma {:induction false} AllOverCapAbove(batches: seq<seq<Tx>>, i: nat)
    requires i < |AllOverCap(batches)|
    ensures AllOverCap(batches)[i].gasLimit > GasCap
  {
    var init := batches[..|batches| - 1];
    var last := OverCap(batches[|batches| - 1]);
    if i < |AllOverCap(init)| {
      AllOverCapAbove(init, i);
    } else {
      assert AllOverCap(batches)[i] == last[i - |AllOverCap(init)|];
      assert last[i - |AllOverCap(init)|] in last;
    }
  }

  // ----- the total equals the summed counts -----

  /** Counts of the listed recipients (zero for a recipient not in `t`). */
  function CountOver(keys: seq<Recipient>, t: map<Recipient, Stats>): nat
  {
    if |keys| == 0 then 0
    else (if keys[0] in t then t[keys[0]].count else 0) + CountOver(keys[1..], t)
  }

  /** One more transaction of a listed recipient adds one to the counts. */
  lemma {:induction false} CountOverAdd(keys: seq<Recipient>, t: map<Recipient, Stats>, tx: Tx)
    requires Distinct(keys) && tx.recipient in keys
    ensures CountOver(keys, Absorb(t, tx.recipient, TxStats(tx), NoStats, PlusStats)) == CountOver(keys, t) + 1
  {
    var t' := Absorb(t, tx.recipient, TxStats(tx), NoStats, PlusStats);
    if keys[0] == tx.recipient {
      assert tx.recipient !in keys[1..];
      CountOverUnchanged(keys[1..], t, t', tx.recipient);
    } else {
      assert Distinct(keys[1..]);
      CountOverAdd(keys[1..], t, tx);
    }
  }

  lemma {:induction false} CountOverUnchanged(keys: seq<Recipient>, t: map<Recipient, Stats>, t': map<Recipient, Stats>, k: Recipient)
    requires k !in keys
    requires forall j :: j != k ==> (j in t <==> j in t') && (j in t ==> t[j] == t'[j])
    ensures CountOver(keys, t') == CountOver(keys, t)
  {
    if |keys| > 0 {
      CountOverUnchanged(keys[1..], t, t', k);
    }
  }

  /** Folding in transactions of listed recipients adds their number. */
  lemma {:induction false} CountOverAddTxs(keys: seq<Recipient>, t: map<Recipient, Stats>, txs: seq<Tx>)
    requires Distinct(keys)
    requires forall i :: 0 <= i < |txs| ==> txs[i].recipient in keys
    ensures CountOver(keys, AddTxs(t, txs)) == CountOver(keys, t) + |txs|
  {
    if |txs| > 0 {
      var init := txs[..|txs| - 1];
      var last := txs[|txs| - 1];
      CountOverAddTxs(keys, t, init);
      assert txs[..|txs| - 1] == init;
      assert AddTxs(t, txs) == Absorb(AddTxs(t, init), TxRecipient(last), TxStats(last), NoStats, PlusStats);
      CountOverAdd(keys, AddTxs(t, init), last);
    }
  }

  lemma {:induction false} CountOverEmpty(keys: seq<Recipient>)
    ensures CountOver(keys, map[]) == 0
  {
    if |keys| > 0 {
      CountOverEmpty(keys[1..]);
    }
  }

  /** The recipients in order of first appearance: the dict's order. */
  function RecipientKeys(batches: seq<seq<Tx>>): (keys: seq<Recipient>)
    ensures Distinct(keys)
  {
    Dedup(MapSeq(AllOverCap(batches), TxRecipient))
  }

  /** The table's keys are exactly the recipients of transactions above the
      cap, and `total_transactions` is the sum of the table's counts. */
  lemma LoadedTotals(batches: seq<seq<Tx>>)
    ensures var l := LoadCachedBatches(batches);
      && (forall k :: k in l.stats <==> k in RecipientKeys(batches))
      && l.total == CountOver(RecipientKeys(batches), l.stats)
  {
    LoadIsOneFold(batches);
    LoadedKeys(AllOverCap(batches));
    var rows := AllOverCap(batches);
    var keys := RecipientKeys(batches);
    CountOverEmpty(keys);
    CountOverAddTxs(keys, map[], rows);
  }

  /** Folding transactions from nothing gives an entry exactly for each of
      their recipients. */
  lemma LoadedKeys(rows: seq<Tx>)
    ensures forall k :: k in AddTxs(map[], rows) <==> k in Dedup(MapSeq(rows, TxRecipient))
    ensures forall i :: 0 <= i < |rows| ==> rows[i].recipient in Dedup(MapSeq(rows, TxRecipient))
  {
    var empty: map<Recipient, Stats> := map[];
    AbsorbAllKeys(empty, rows, TxRecipient, TxStats, NoStats, PlusStats);
    assert AddTxs(map[], rows).Keys == set i | 0 <= i < |rows| :: TxRecipient(rows[i]);
    forall k
      ensures k in AddTxs(map[], rows) <==> k in Dedup(MapSeq(rows, TxRecipient))
    {
      RecipientListed(rows, k);
    }
    forall i | 0 <= i < |rows|
      ensures rows[i].recipient in Dedup(MapSeq(rows, TxRecipient))
    {
      assert MapSeq(rows, TxRecipient)[i] == rows[i].recipient;
    }
  }

  /** A value is the recipient of some row exactly when it is listed among
      the deduplicated recipients. */
  lemma RecipientListed(rows: seq<Tx>, k: Recipient)
    ensures k in (set i | 0 <= i < |rows| :: TxRecipient(rows[i]))
        <==> k in Dedup(MapSeq(rows, TxRecipient))
  {
    var recipients := MapSeq(rows, TxRecipient);
    if k in (set i | 0 <= i < |rows| :: TxRecipient(rows[i])) {
      var i :| 0 <= i < |rows| && k == TxRecipient(rows[i]);
      assert recipients[i] == k;
    }
    if k in Dedup(recipients) {
      assert k in recipients;
      var j :| 0 <= j < |recipients| && recipients[j] == k;
      assert k == TxRecipient(rows[j]);
    }
  }

  // ----- the table of process_recipient_stats -----

  /** `(excess · 21000) / 1e18`: the extra intrinsic gas priced at one wei, in
      ether. */
  function CostEthOf(excess: int): (eth: real)
    ensures eth * 1_000_000_000_000_000_000.0 == (excess * BaseGasCost) as real
  {
    (excess * BaseGasCost) as real / 1_000_000_000_000_000_000.0
  }

  /** One row: address, count, mean and largest gas limit, number of distinct
      senders, summed excess and its cost. */
  datatype RecipientLine = RecipientLine(
    address: Recipient, count: nat, avgGas: real, maxGas: nat,
    uniqueSenders: nat, excess: int, additionalCostEth: real)

  function LineOf(k: Recipient, s: Stats): RecipientLine
    requires s.count > 0
  {
    RecipientLine(k, s.count, (s.totalGas as real) / (s.count as real), s.maxGas,
                  |s.senders|, s.excess, CostEthOf(s.excess))
  }

  /** The row of a consistent entry: its mean is above the cap and at most
      its maximum, it has between one and `count` senders, and its excess is
      positive and is the gas above `count` times the cap. */
  lemma LineFacts(k: Recipient, s: Stats)
    requires Consistent(s)
    ensures var l := LineOf(k, s);
      && l.avgGas > GasCap as real
      && l.avgGas <= l.maxGas as real
      && 1 <= l.uniqueSenders <= l.count
      && l.excess == s.totalGas - GasCap * l.count
      && l.excess > 0
      && l.additionalCostEth > 0.0
  {
    MeanBounds(s.totalGas, s.count, s.maxGas);
  }

  /** A total strictly above `count` times the cap and at most `count` times
      the maximum has its mean strictly above the cap and at most the
      maximum. */
  lemma MeanBounds(total: nat, count: nat, maxGas: nat)
    requires count > 0
    requires GasCap * count < total <= count * maxGas
    ensures (total as real) / (count as real) > GasCap as real
    ensures (total as real) / (count as real) <= maxGas as real
  {
    var c := count as real;
    CastMul(GasCap, count);
    CastMul(count, maxGas);
    DivCancel(GasCap as real, c);
    DivStrict((GasCap as real) * c, total as real, c);
    DivCancel(maxGas as real, c);
    DivMonotone(total as real, c * (maxGas as real), c);
  }

  /** The rows in the table's key order. */
  function Lines(keys: seq<Recipient>, t: map<Recipient, Stats>): (r: seq<RecipientLine>)
    requires forall i :: 0 <= i < |keys| ==> keys[i] in t && t[keys[i]].count > 0
    ensures |r| == |keys|
    ensures forall i :: 0 <= i < |keys| ==> r[i] == LineOf(keys[i], t[keys[i]])
  {
    if |keys| == 0 then [] else [LineOf(keys[0], t[keys[0]])] + Lines(keys[1..], t)
  }

  function LineCount(l: RecipientLine): nat { l.count }
  function ByCountDown(l: RecipientLine): int { 0 - l.count }

  /** The counts of the rows add up to the counts of their keys. */
  lemma {:induction false} LinesCount(keys: seq<Recipient>, t: map<Recipient, Stats>)
    requires forall i :: 0 <= i < |keys| ==> keys[i] in t && t[keys[i]].count > 0
    ensures SumBy(Lines(keys, t), LineCount) == CountOver(keys, t)
  {
    if |keys| > 0 {
      LinesCount(keys[1..], t);
      assert Lines(keys, t)[1..] == Lines(keys[1..], t);
    }
  }

  /** A row with its 1-based rank. */
  datatype RankedLine = RankedLine(line: RecipientLine, rank: nat)

  /** Sort by count descending and number the rows from 1. */
  function Rank(lines: seq<RecipientLine>): (r: seq<RankedLine>)
    ensures |r| == |lines|
  {
    var sorted := SortBy(lines, ByCountDown);
    seq(|sorted|, i requires 0 <= i < |sorted| => RankedLine(sorted[i], i + 1))
  }

  function RankedCount(l: RankedLine): nat { l.line.count }
  function RankOf(l: RankedLine): nat { l.rank }

  /** Ranking reorders the rows without losing any, uses the ranks 1..n once
      each, and a better rank never has fewer transactions. */
  lemma RankFacts(lines: seq<RecipientLine>)
    ensures var r := Rank(lines);
      && multiset(MapSeq(r, (x: RankedLine) => x.line)) == multiset(lines)
      && (forall i :: 0 <= i < |r| ==> 1 <= r[i].rank <= |r|)
      && (forall i, j :: 0 <= i < |r| && 0 <= j < |r| && r[i].rank == r[j].rank ==> i == j)
      && (forall i, j :: 0 <= i < |r| && 0 <= j < |r| && r[i].rank < r[j].rank ==>
            r[i].line.count >= r[j].line.count)
  {
    var sorted := SortBy(lines, ByCountDown);
    var r := Rank(lines);
    assert MapSeq(r, (x: RankedLine) => x.line) == sorted;
    forall i, j | 0 <= i < |r| && 0 <= j < |r| && r[i].rank < r[j].rank
      ensures r[i].line.count >= r[j].line.count
    {
      assert ByCountDown(sorted[i]) <= ByCountDown(sorted[j]);
    }
  }

  // ----- the report of analyze_recipient_concentration.py -----

  /** The report's figures: ranked rows, `total_transactions`, the
      coefficient and the shares of the 10, 50 and 100 busiest recipients. */
  datatype Report = Report(rows: seq<RankedLine>, totalTransactions: nat, gini: real,
                           top10: real, top50: real, top100: real)

  /** The loaded table's rows, ranked. */
  function Table(batches: seq<seq<Tx>>): seq<RankedLine>
  {
    LoadedRows(batches);
    Rank(Lines(RecipientKeys(batches), LoadCachedBatches(batches).stats))
  }

  /** Every listed recipient has an entry with at least one transaction. */
  lemma LoadedRows(batches: seq<seq<Tx>>)
    ensures var keys := RecipientKeys(batches);
      var t := LoadCachedBatches(batches).stats;
      forall i :: 0 <= i < |keys| ==> keys[i] in t && t[keys[i]].count > 0
  {
    LoadedConsistent(batches);
    LoadedTotals(batches);
  }

  /** The table's counts add up to `total_transactions`. */
  lemma TableCounts(batches: seq<seq<Tx>>)
    ensures Sum(MapSeq(Table(batches), RankedCount)) == LoadCachedBatches(batches).total
    ensures forall i :: 0 <= i < |Table(batches)| ==> Table(batches)[i].line.count > 0
  {
    LoadedRows(batches);
    LoadedTotals(batches);
    var t := LoadCachedBatches(batches).stats;
    var rows := Table(batches);
    ReportCounts(RecipientKeys(batches), t, rows, MapSeq(rows, RankedCount));
  }

  /** Load, tabulate, rank and summarise. With no transaction above the cap
      the script reports that nothing was found and returns: `None`. */
  function RecipientReport(batches: seq<seq<Tx>>): (r: Option<Report>)
    ensures r.Some? <==> |AllOverCap(batches)| > 0
  {
    var total := LoadCachedBatches(batches).total;
    LoadIsOneFold(batches);
    if total == 0 then None
    else
      TableCounts(batches);
      Some(ReportOf(Table(batches)))
  }

  /** The figures of a non-empty ranked table. */
  function ReportOf(rows: seq<RankedLine>): Report
    requires Sum(MapSeq(rows, RankedCount)) > 0
  {
    var counts := MapSeq(rows, RankedCount);
    var total := Sum(counts);
    Report(rows, total, RecipientReportGini(counts).value,
           Pct(Sum(Take(counts, 10)), total),
           Pct(Sum(Take(counts, 50)), total),
           Pct(Sum(Take(counts, 100)), total))
  }

  /** The ranked counts are the table's counts sorted descending. */
  lemma RankedCountsSorted(lines: seq<RecipientLine>)
    ensures MapSeq(Rank(lines), RankedCount) == SortBy(MapSeq(lines, LineCount), Down)
    ensures SortedBy(MapSeq(Rank(lines), RankedCount), Down)
  {
    var sorted := SortBy(lines, ByCountDown);
    assert MapSeq(Rank(lines), RankedCount) == MapSeq(sorted, LineCount);
    SortByMap(lines, LineCount, Down, ByCountDown);
  }

  /** A report whose shares are the top-N shares of its rows' counts,
      ordered and within 0..100, whose total is their sum, and whose
      coefficient is their Gini index. */
  predicate FiguresSound(rep: Report)
  {
    var counts := MapSeq(rep.rows, RankedCount);
    && rep.totalTransactions == Sum(counts)
    && TopShare(counts, 10) == Some(rep.top10)
    && TopShare(counts, 50) == Some(rep.top50)
    && TopShare(counts, 100) == Some(rep.top100)
    && 0.0 <= rep.top10 <= rep.top50 <= rep.top100 <= 100.0
    && AscendingGini(counts) == Some(rep.gini)
    && 0.0 <= rep.gini <= (|counts| as real - 1.0) / (|counts| as real)
  }

  /** The report's total is `total_transactions`, and its figures are sound. */
  lemma ReportFigures(batches: seq<seq<Tx>>)
    ensures var r := RecipientReport(batches);
      r.Some? ==>
        && r.value.totalTransactions == LoadCachedBatches(batches).total
        && FiguresSound(r.value)
  {
    if RecipientReport(batches).Some? {
      TableCounts(batches);
      LoadedRows(batches);
      RankedCountsSorted(Lines(RecipientKeys(batches), LoadCachedBatches(batches).stats));
      FiguresOfCounts(Table(batches));
    }
  }

  /** The figures of ranked rows whose counts are sorted descending. */
  lemma FiguresOfCounts(rows: seq<RankedLine>)
    requires SortedBy(MapSeq(rows, RankedCount), Down) && Sum(MapSeq(rows, RankedCount)) > 0
    ensures FiguresSound(ReportOf(rows))
  {
    var counts := MapSeq(rows, RankedCount);
    SortBySorted(counts, Down);
    TopSharesOrdered(counts, 10, 50);
    TopSharesOrdered(counts, 50, 100);
    RecipientReportGiniIsGini(counts);
  }

  /** The ranked counts are positive and add up to the total. */
  lemma ReportCounts(keys: seq<Recipient>, t: map<Recipient, Stats>,
                    rows: seq<RankedLine>, counts: seq<nat>)
    requires forall i :: 0 <= i < |keys| ==> keys[i] in t && t[keys[i]].count > 0
    requires rows == Rank(Lines(keys, t)) && counts == MapSeq(rows, RankedCount)
    ensures |counts| == |keys|
    ensures Sum(counts) == CountOver(keys, t)
    ensures forall i :: 0 <= i < |counts| ==> counts[i] > 0
  {
    var lines := Lines(keys, t);
    var sorted := SortBy(lines, ByCountDown);
    assert MapSeq(rows, RankedCount) == MapSeq(sorted, LineCount);
    SumByMapSeq(sorted, LineCount);
    SumByPermutation(sorted, lines, LineCount);
    LinesCount(keys, t);
    SortedCountsPositive(keys, t, sorted);
  }

  /** Every row of the table counts at least one transaction, in any order. */
  lemma SortedCountsPositive(keys: seq<Recipient>, t: map<Recipient, Stats>, sorted: seq<RecipientLine>)
    requires forall i :: 0 <= i < |keys| ==> keys[i] in t && t[keys[i]].count > 0
    requires multiset(sorted) == multiset(Lines(keys, t))
    ensures forall i :: 0 <= i < |sorted| ==> sorted[i].count > 0
  {
    var lines := Lines(keys, t);
    forall i | 0 <= i < |sorted|
      ensures sorted[i].count > 0
    {
      assert sorted[i] in multiset(lines);
      var j :| 0 <= j < |lines| && lines[j] == sorted[i];
    }
  }

  /** Summing a projection is summing the projected sequence. */
  lemma {:induction false} SumByMapSeq<T>(s: seq<T>, f: T -> nat)
    ensures Sum(MapSeq(s, f)) == SumBy(s, f)
  {
    if |s| > 0 {
      SumByMapSeq(s[1..], f);
      assert MapSeq(s, f)[1..] == MapSeq(s[1..], f);
    }
  }

  // ----- the report of analyze_recipient_sample.py -----

  /** A row of the sample query: recipient, transactions, gas statistics,
      distinct senders and summed excess. */
  datatype SampleRow = SampleRow(address: Recipient, count: nat, avgGas: real, maxGas: nat,
                                 minGas: nat, uniqueSenders: nat, excess: int)

  /** A sample row with its cost and its 1-based rank. */
  datatype SampleLine = SampleLine(row: SampleRow, additionalCostEth: real, rank: nat)

  /** The figures printed: ranked rows, the separately counted total, the
      shares of the first 10 and 50 rows, and the coefficient. */
  datatype SampleReport = SampleReport(lines: seq<SampleLine>, totalAffected: nat,
                                       top10: real, top50: real, gini: real)

  function SampleCount(r: SampleRow): nat { r.count }

  /** The rows are numbered in the order the query returned them; the shares
      are 0 when the separate total is 0; the coefficient is guarded. */
  function SampleAnalysis(rows: seq<SampleRow>, totalAffected: nat): SampleReport
  {
    var counts := MapSeq(rows, SampleCount);
    SampleReport(
      seq(|rows|, i requires 0 <= i < |rows| => SampleLine(rows[i], CostEthOf(rows[i].excess), i + 1)),
      totalAffected,
      AffectedPercentage(Sum(Take(counts, 10)), totalAffected),
      AffectedPercentage(Sum(Take(counts, 50)), totalAffected),
      SampleGini(counts))
  }

  /** Ranks are 1..n in result order and each row is kept with its cost. */
  lemma SampleRanks(rows: seq<SampleRow>, totalAffected: nat)
    ensures var r := SampleAnalysis(rows, totalAffected);
      && |r.lines| == |rows|
      && (forall i :: 0 <= i < |rows| ==>
            r.lines[i].row == rows[i] && 1 <= r.lines[i].rank <= |rows|
            && r.lines[i].additionalCostEth * 1_000_000_000_000_000_000.0
               == (rows[i].excess * BaseGasCost) as real)
      && (forall i, j :: 0 <= i < |rows| && 0 <= j < |rows| ==>
            (i < j <==> r.lines[i].rank < r.lines[j].rank))
  {
  }

  /** The shares of the first 10 and 50 rows are 0 on a zero total, ordered
      otherwise, and within 0..100 when the rows do not outnumber the total. */
  lemma SampleShares(rows: seq<SampleRow>, totalAffected: nat)
    ensures var r := SampleAnalysis(rows, totalAffected);
      var counts := MapSeq(rows, SampleCount);
      && (totalAffected == 0 ==> r.top10 == 0.0 && r.top50 == 0.0)
      && (totalAffected > 0 ==> r.top10 <= r.top50)
      && (Sum(counts) <= totalAffected ==> 0.0 <= r.top10 && r.top50 <= 100.0)
  {
    var counts := MapSeq(rows, SampleCount);
    var a := Sum(Take(counts, 10));
    var b := Sum(Take(counts, 50));
    SumByPrefixMonotone(counts, |Take(counts, 10)|, |Take(counts, 50)|, NatId);
    SumByPrefixMonotone(counts, |Take(counts, 50)|, |counts|, NatId);
    assert counts[..|counts|] == counts;
    SharesOrdered(a, b, Sum(counts), totalAffected);
  }

  /** Shares of a smaller and a larger part of one sum, taken of a total. */
  lemma SharesOrdered(a: nat, b: nat, sum: nat, total: nat)
    requires a <= b <= sum
    ensures total == 0 ==> AffectedPercentage(a, total) == 0.0 && AffectedPercentage(b, total) == 0.0
    ensures total > 0 ==> AffectedPercentage(a, total) <= AffectedPercentage(b, total)
    ensures sum <= total ==> 0.0 <= AffectedPercentage(a, total) && AffectedPercentage(b, total) <= 100.0
  {
    if total > 0 {
      PctMonotone(a, b, AffectedPercentage(a, total), AffectedPercentage(b, total), total);
    }
  }

  /** The printed coefficient is 0 when no transaction is counted and the
      Gini index of the counts otherwise. */
  lemma SampleCoefficient(rows: seq<SampleRow>, totalAffected: nat)
    ensures var r := SampleAnalysis(rows, totalAffected);
      var counts := MapSeq(rows, SampleCount);
      && (Sum(counts) == 0 ==> r.gini == 0.0)
      && (Sum(counts) > 0 ==> AscendingGini(counts) == Some(r.gini))
  {
    SampleGiniIsGuarded(MapSeq(rows, SampleCount));
  }
}
