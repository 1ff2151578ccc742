/** The gas-limit distribution: the bucket ladder of the distribution
    query, processing one batch into a checkpoint, the resumable batch loop,
    `aggregate_distributions`, and `calculate_cdf` with its interpolation
    at the cap. */
module Cdf {
  import opened Base
  import opened Folds
  import opened Tables
  import opened Sorting
  import opened Accumulators
  import opened Planner
  import opened Checkpoints

  // ----- the bucket ladder -----

  /** The boundaries of the CASE expression, in order. */
  const Ladder: seq<nat> := [21_000, 50_000, 100_000, 200_000, 500_000, 1_000_000, 2_000_000,
                             5_000_000, 10_000_000, 16_777_216, 20_000_000, 30_000_000]

  /** The bucket of everything above the top of the ladder. */
  const OverLadder: nat := 30_000_001

  /** The CASE expression: the first boundary the gas limit does not exceed. */
  function BucketOf(g: nat): nat
  {
    if g <= 21_000 then 21_000
    else if g <= 50_000 then 50_000
    else if g <= 100_000 then 100_000
    else if g <= 200_000 then 200_000
    else if g <= 500_000 then 500_000
    else if g <= 1_000_000 then 1_000_000
    else if g <= 2_000_000 then 2_000_000
    else if g <= 5_000_000 then 5_000_000
    else if g <= 10_000_000 then 10_000_000
    else if g <= 16_777_216 then 16_777_216
    else if g <= 20_000_000 then 20_000_000
    else if g <= 30_000_000 then 30_000_000
    else OverLadder
  }

  /** A gas limit on the ladder lands in the least boundary at or above it;
      one above the ladder lands in the overflow bucket. */
  lemma BucketIsLeastBoundary(g: nat)
    ensures g <= 30_000_000 ==>
      && BucketOf(g) in Ladder && g <= BucketOf(g)
      && forall c :: c in Ladder && g <= c ==> BucketOf(g) <= c
    ensures g > 30_000_000 ==> BucketOf(g) == OverLadder && forall c :: c in Ladder ==> c < g
  {
  }

  /** Larger gas limits never land in smaller buckets. */
  lemma BucketMonotone(g: nat, h: nat)
    requires g <= h
    ensures BucketOf(g) <= BucketOf(h)
  {
  }

  /** The cap is a boundary, so a transaction lands at or below the cap's
      bucket exactly when its gas limit is within the cap. */
  lemma BucketSeparatesCap(g: nat)
    ensures BucketOf(g) <= GasCap <==> g <= GasCap
    ensures BucketOf(GasCap) == GasCap
  {
  }

  // ----- one batch -----

  /** One row of the distribution query: a bucket, its transaction count,
      the least and largest gas limit in it and their average. */
  datatype DistRow = DistRow(bucket: nat, count: nat, minGas: nat, maxGas: nat, avgGas: real)

  /** The checkpoint file of one batch. */
  datatype DistRecord = DistRecord(id: nat, window: Window, rows: seq<DistRow>)

  /** `process_gas_distribution_batch`: widen the window to whole
      partitions and write a checkpoint only for a non-empty result; an
      exception is caught and, like an empty result, leaves the batch to
      the next run. */
  function ProcessDistributionBatch(w: Window, id: nat, reply: Reply<DistRow>): (r: Attempt<DistRecord>)
    ensures !r.Aborted?
    ensures r.Written? <==> reply.Rows? && |reply.rows| > 0
    ensures r.Written? ==>
      r.record == DistRecord(id, Align(w, PartitionSize), reply.rows)
  {
    match reply
    case Raised => NotWritten
    case Rows(rows) =>
      if |rows| == 0 then NotWritten
      else Written(DistRecord(id, Align(w, PartitionSize), rows))
  }

  function CdfOutcome(latest: int, replies: nat -> Reply<DistRow>): nat -> Attempt<DistRecord>
  {
    (k: nat) => ProcessDistributionBatch(BatchWindow(latest, CdfBlocks, CdfBatch, k), k, replies(k))
  }

  /** One run of `main`'s batch loop over the 183-day plan. */
  function CdfRun(store: map<nat, DistRecord>, latest: int, replies: nat -> Reply<DistRow>): RunResult<DistRecord>
  {
    Run(store, CdfOutcome(latest, replies), NumBatches(CdfBlocks, CdfBatch))
  }

  /** A run is never cut short; it leaves every batch that failed or came
      back empty without a checkpoint, and every checkpoint it writes is
      its batch's non-empty distribution over the batch's aligned window. */
  lemma CdfRunRecords(store: map<nat, DistRecord>, latest: int, replies: nat -> Reply<DistRow>, k: nat)
    ensures var r := CdfRun(store, latest, replies);
      && !r.aborted
      && (k !in store && RowsOr(replies(k)) == [] ==> k !in r.store)
      && (k in r.store && k !in store ==>
            && k < 66 && r.store[k].id == k && |r.store[k].rows| > 0
            && r.store[k].rows == replies(k).rows
            && r.store[k].window == AlignedPlan(latest, CdfBlocks, CdfBatch, PartitionSize)[k])
  {
    var outcome := CdfOutcome(latest, replies);
    var r := CdfRun(store, latest, replies);
    BatchCounts();
    RunStore(store, outcome, 0, 66);
    RunStopsOnRaise(store, outcome, 0, 66);
    if |r.calls| > 0 {
      assert !outcome(r.calls[|r.calls| - 1]).Aborted?;
    }
    if k !in store && RowsOr(replies(k)) == [] {
      assert !outcome(k).Written?;
    }
    if k in r.store && k !in store {
      assert k in r.calls;
      var i :| 0 <= i < |r.calls| && r.calls[i] == k;
      assert k < 66;
      var w := BatchWindow(latest, CdfBlocks, CdfBatch, k);
      assert outcome(k) == ProcessDistributionBatch(w, k, replies(k));
      assert Plan(latest, CdfBlocks, CdfBatch)[k] == w;
    }
  }

  // ----- aggregate_distributions -----

  /** A bucket's running totals; `None` is the initial `float('inf')`. */
  datatype BucketAcc = BucketAcc(count: nat, minGas: Option<nat>, maxGas: nat, sumGas: real)

  const NoBucket: BucketAcc := BucketAcc(0, None, 0, 0.0)

  function PlusBucket(a: BucketAcc, b: BucketAcc): BucketAcc
  {
    BucketAcc(a.count + b.count, MinOpt(a.minGas, b.minGas), MaxNat(a.maxGas, b.maxGas), a.sumGas + b.sumGas)
  }

  function BucketKey(r: DistRow): nat { r.bucket }

  /** A row's contribution, its average weighted by its count. */
  function BucketVal(r: DistRow): (a: BucketAcc)
    ensures a.count == r.count && a.minGas == Some(r.minGas) && a.maxGas == r.maxGas
    ensures r.count > 0 ==> a.sumGas / (r.count as real) == r.avgGas
  {
    BucketAcc(r.count, Some(r.minGas), r.maxGas, r.avgGas * (r.count as real))
  }

  lemma BucketMergeLaws()
    ensures IsCommutativeSemigroup(PlusBucket)
    ensures forall a :: PlusBucket(NoBucket, a) == a
  {
    forall a, b, c
      ensures PlusBucket(PlusBucket(a, b), c) == PlusBucket(a, PlusBucket(b, c))
    {
      assert MinOpt(MinOpt(a.minGas, b.minGas), c.minGas) == MinOpt(a.minGas, MinOpt(b.minGas, c.minGas));
    }
    forall a, b
      ensures PlusBucket(a, b) == PlusBucket(b, a)
    {
      assert MinOpt(a.minGas, b.minGas) == MinOpt(b.minGas, a.minGas);
    }
  }

  function AddDistribution(t: map<nat, BucketAcc>, r: DistRecord): map<nat, BucketAcc>
  {
    AbsorbAll(t, r.rows, BucketKey, BucketVal, NoBucket, PlusBucket)
  }

  /** The bucket table after reading every checkpoint file in order. */
  function AccumulateBuckets(rs: seq<DistRecord>): map<nat, BucketAcc>
  {
    FoldL(rs, map[], AddDistribution)
  }

  /** The table does not depend on the order of the files. */
  lemma BucketsOrderIndependent(rs: seq<DistRecord>, rs': seq<DistRecord>)
    requires multiset(rs) == multiset(rs')
    ensures AccumulateBuckets(rs) == AccumulateBuckets(rs')
  {
    BucketMergeLaws();
    forall t: map<nat, BucketAcc>, x: DistRecord, y: DistRecord
      ensures AddDistribution(AddDistribution(t, x), y) == AddDistribution(AddDistribution(t, y), x)
    {
      AbsorbAllSwap(t, x.rows, y.rows, BucketKey, BucketVal, NoBucket, PlusBucket);
    }
    assert StepsCommute(AddDistribution);
    FoldPermutation(rs, rs', map[], AddDistribution);
  }

  /** Every bucket of every file, in file and row order. */
  function BucketsOf(rs: seq<DistRecord>): seq<nat>
  {
    if |rs| == 0 then []
    else
      var last := rs[|rs| - 1];
      BucketsOf(rs[..|rs| - 1]) + seq(|last.rows|, i requires 0 <= i < |last.rows| => last.rows[i].bucket)
  }

  /** The table has exactly the buckets that occur in some row, and every
      entry has seen a minimum. */
  lemma {:induction false} BucketTableKeys(rs: seq<DistRecord>)
    ensures forall b :: b in AccumulateBuckets(rs) <==> b in BucketsOf(rs)
    ensures forall b :: b in AccumulateBuckets(rs) ==> AccumulateBuckets(rs)[b].minGas.Some?
  {
    if |rs| > 0 {
      var rs' := rs[..|rs| - 1];
      var last := rs[|rs| - 1];
      var m := AccumulateBuckets(rs');
      BucketTableKeys(rs');
      AbsorbAllKeys(m, last.rows, BucketKey, BucketVal, NoBucket, PlusBucket);
      AbsorbAllKeeps(m, last.rows, BucketKey, BucketVal, NoBucket, PlusBucket, (a: BucketAcc) => a.minGas.Some?);
      var tail := seq(|last.rows|, i requires 0 <= i < |last.rows| => last.rows[i].bucket);
      assert BucketsOf(rs) == BucketsOf(rs') + tail;
      forall b
        ensures b in AccumulateBuckets(rs) <==> b in BucketsOf(rs)
      {
        if b in tail {
          var i :| 0 <= i < |tail| && tail[i] == b;
          assert BucketKey(last.rows[i]) == b;
        }
        if b in (set i | 0 <= i < |last.rows| :: BucketKey(last.rows[i])) {
          var i :| 0 <= i < |last.rows| && BucketKey(last.rows[i]) == b;
          assert tail[i] == b;
        }
      }
    }
  }

  /** One line of the merged distribution. */
  datatype DistLine = DistLine(gasLimit: nat, count: nat, minGas: Option<nat>, maxGas: nat, avgGas: real)

  /** A bucket's line: the average is the weighted mean, or 0 for an empty
      bucket. */
  function LineOf(b: nat, a: BucketAcc): (l: DistLine)
    ensures l.gasLimit == b && l.count == a.count && l.minGas == a.minGas && l.maxGas == a.maxGas
    ensures a.count > 0 ==> l.avgGas * (a.count as real) == a.sumGas
    ensures a.count == 0 ==> l.avgGas == 0.0
  {
    DistLine(b, a.count, a.minGas, a.maxGas, if a.count > 0 then a.sumGas / (a.count as real) else 0.0)
  }

  function LineBucket(l: DistLine): int { l.gasLimit }

  function BucketLines(keys: seq<nat>, t: map<nat, BucketAcc>): (ls: seq<DistLine>)
    requires forall i :: 0 <= i < |keys| ==> keys[i] in t
    ensures |ls| == |keys| && forall i :: 0 <= i < |keys| ==> ls[i] == LineOf(keys[i], t[keys[i]])
  {
    seq(|keys|, i requires 0 <= i < |keys| => LineOf(keys[i], t[keys[i]]))
  }

  /** `sorted(bucket_totals.items())` turned into lines. */
  function Distribution(rs: seq<DistRecord>): seq<DistLine>
  {
    SortBy(TableLines(rs), LineBucket)
  }

  predicate BucketListed(ls: seq<DistLine>, b: nat)
  {
    exists i :: 0 <= i < |ls| && ls[i].gasLimit == b
  }

  /** The table's lines, one per key of the table in dict order. */
  function TableLines(rs: seq<DistRecord>): seq<DistLine>
  {
    BucketTableKeys(rs);
    BucketLines(Dedup(BucketsOf(rs)), AccumulateBuckets(rs))
  }

  /** Every line of the merged distribution is its bucket's merged totals. */
  lemma DistributionSound(rs: seq<DistRecord>)
    ensures var d := Distribution(rs);
      var t := AccumulateBuckets(rs);
      forall i :: 0 <= i < |d| ==> d[i].gasLimit in t && d[i] == LineOf(d[i].gasLimit, t[d[i].gasLimit])
  {
    var t := AccumulateBuckets(rs);
    var lines := TableLines(rs);
    var d := Distribution(rs);
    BucketTableKeys(rs);
    assert d == SortBy(lines, LineBucket);
    forall i | 0 <= i < |d|
      ensures d[i].gasLimit in t && d[i] == LineOf(d[i].gasLimit, t[d[i].gasLimit])
    {
      SortByMembers(lines, LineBucket);
      assert d[i] in lines;
      var j :| 0 <= j < |lines| && lines[j] == d[i];
    }
  }

  /** Every bucket of the table has a line. */
  lemma DistributionComplete(rs: seq<DistRecord>, b: nat)
    requires b in AccumulateBuckets(rs)
    ensures BucketListed(Distribution(rs), b)
  {
    var all := BucketsOf(rs);
    var keys := Dedup(all);
    var lines := TableLines(rs);
    BucketTableKeys(rs);
    var j :| 0 <= j < |all| && all[j] == b;
    assert b in keys;
    var i :| 0 <= i < |keys| && keys[i] == b;
    var k := SortByPosition(lines, LineBucket, i);
  }

  /** The lines come in strictly increasing bucket order. */
  lemma DistributionStrictlySorted(rs: seq<DistRecord>)
    ensures var d := Distribution(rs);
      forall i, j :: 0 <= i < j < |d| ==> d[i].gasLimit < d[j].gasLimit
  {
    var keys := Dedup(BucketsOf(rs));
    var lines := TableLines(rs);
    var d := Distribution(rs);
    BucketTableKeys(rs);
    assert d == SortBy(lines, LineBucket);
    assert Distinct(lines) by {
      forall i, j | 0 <= i < j < |lines|
        ensures lines[i] != lines[j]
      {
        assert lines[i].gasLimit == keys[i] && lines[j].gasLimit == keys[j];
      }
    }
    PermutationKeepsDistinct(d, lines);
    forall i, j | 0 <= i < j < |d|
      ensures d[i].gasLimit < d[j].gasLimit
    {
      SortByMembers(lines, LineBucket);
      assert d[i] in lines && d[j] in lines;
    }
  }

  /** The merged distribution has one line per bucket of the table, in
      strictly increasing bucket order, each line being its bucket's
      merged totals. */
  lemma DistributionIsTable(rs: seq<DistRecord>)
    ensures var d := Distribution(rs);
      var t := AccumulateBuckets(rs);
      && (forall i :: 0 <= i < |d| ==> d[i].gasLimit in t && d[i] == LineOf(d[i].gasLimit, t[d[i].gasLimit]))
      && (forall b :: b in t ==> BucketListed(d, b))
      && (forall i, j :: 0 <= i < j < |d| ==> d[i].gasLimit < d[j].gasLimit)
  {
    DistributionSound(rs);
    DistributionStrictlySorted(rs);
    forall b | b in AccumulateBuckets(rs)
      ensures BucketListed(Distribution(rs), b)
    {
      DistributionComplete(rs, b);
    }
  }

  // ----- calculate_cdf -----

  /** One line of the CDF. */
  datatype CdfRow = CdfRow(line: DistLine, cumCount: nat, cumPct: real)

  /** The lines, the cap's percentage and the total. */
  datatype CdfResult = CdfResult(rows: seq<CdfRow>, capPct: Option<real>, total: nat)

  function LineCount(l: DistLine): nat { l.count }

  function CdfLines(rows: seq<CdfRow>): (ls: seq<DistLine>)
    ensures |ls| == |rows| && forall i :: 0 <= i < |rows| ==> ls[i] == rows[i].line
  {
    seq(|rows|, i requires 0 <= i < |rows| => rows[i].line)
  }

  /** The first row whose boundary reaches the cap, or `|rows|`. */
  function FirstReaching(rows: seq<CdfRow>): (i: nat)
    ensures i <= |rows|
    ensures forall j :: 0 <= j < i ==> rows[j].line.gasLimit < GasCap
    ensures i < |rows| ==> rows[i].line.gasLimit >= GasCap
  {
    if |rows| == 0 then 0
    else if rows[0].line.gasLimit >= GasCap then 0
    else 1 + FirstReaching(rows[1..])
  }

  /** `x` lies on the segment between `a` and `b`, in either orientation. */
  predicate Between(x: real, a: real, b: real)
  {
    (a <= b ==> a <= x <= b) && (b < a ==> b <= x <= a)
  }

  /** The cap lookup: nothing when no boundary reaches the cap; the first
      row's percentage when it already does; otherwise the point at the cap
      on the straight line between the row before and the first row that
      reaches the cap. */
  function CapPercentage(rows: seq<CdfRow>): (p: Option<real>)
    ensures p.None? <==> forall j :: 0 <= j < |rows| ==> rows[j].line.gasLimit < GasCap
    ensures p.Some? && rows[0].line.gasLimit >= GasCap ==> p.value == rows[0].cumPct
    ensures p.Some? && rows[0].line.gasLimit < GasCap ==>
      var i := FirstReaching(rows);
      && 0 < i < |rows|
      && Between(p.value, rows[i - 1].cumPct, rows[i].cumPct)
      && (rows[i].line.gasLimit == GasCap ==> p.value == rows[i].cumPct)
      && (p.value - rows[i - 1].cumPct) * (rows[i].line.gasLimit - rows[i - 1].line.gasLimit) as real
           == (GasCap - rows[i - 1].line.gasLimit) as real * (rows[i].cumPct - rows[i - 1].cumPct)
  {
    var i := FirstReaching(rows);
    if i == |rows| then None
    else if i == 0 then Some(rows[0].cumPct)
    else
      var prev := rows[i - 1];
      var curr := rows[i];
      var gasRange := (curr.line.gasLimit - prev.line.gasLimit) as real;
      var pctRange := curr.cumPct - prev.cumPct;
      var gasOffset := (GasCap - prev.line.gasLimit) as real;
      InterpolationBetween(prev.cumPct, pctRange, gasOffset, gasRange);
      Some(prev.cumPct + (gasOffset / gasRange) * pctRange)
  }

  /** A point a fraction in (0, 1] of the way along a segment lies on it,
      and at the fraction 1 it is the segment's end. */
  lemma InterpolationBetween(a: real, d: real, off: real, range: real)
    requires 0.0 < off <= range
    ensures Between(a + (off / range) * d, a, a + d)
    ensures off == range ==> a + (off / range) * d == a + d
    ensures (a + (off / range) * d - a) * range == off * d
  {
    var f := off / range;
    assert 0.0 < f <= 1.0;
    assert f * range == off;
    assert (f * d) * range == (f * range) * d;
    if off == range {
      assert f == 1.0;
    }
    if d >= 0.0 {
      assert f * d <= d;
    } else {
      assert f * d >= d;
    }
  }

  /** `calculate_cdf`: sort the lines by bucket, accumulate the counts and
      their percentages of the total, then look up the cap. With lines but a
      zero total the percentage divides by zero and the result is `None`. */
  method CalculateCdf(data: seq<DistLine>) returns (r: Option<CdfResult>)
    ensures r.None? <==> |data| > 0 && SumBy(data, LineCount) == 0
    ensures r.Some? ==>
      var rows := r.value.rows;
      && r.value.total == SumBy(data, LineCount)
      && multiset(CdfLines(rows)) == multiset(data)
      && SortedBy(CdfLines(rows), LineBucket)
      && Cumulative(rows, r.value.total)
      && r.value.capPct == CapPercentage(rows)
  {
    var sorted := SortBy(data, LineBucket);
    var total := SumBy(sorted, LineCount);
    SumByPermutation(sorted, data, LineCount);
    if |sorted| > 0 && total == 0 {
      return None;
    }
    var rows: seq<CdfRow> := [];
    var cum: nat := 0;
    var i := 0;
    while i < |sorted|
      invariant 0 <= i <= |sorted|
      invariant |rows| == i
      invariant cum == SumBy(sorted[..i], LineCount)
      invariant RunningRows(rows, sorted, total)
    {
      RunningRowsStep(rows, sorted, total, cum);
      cum := cum + sorted[i].count;
      rows := rows + [CdfRow(sorted[i], cum, Pct(cum, total))];
      i := i + 1;
    }
    RunningRowsDone(rows, sorted, total);
    r := Some(CdfResult(rows, CapPercentage(rows), total));
  }

  /** The rows built so far follow the sorted lines one for one, each
      carrying the running count up to it and that count's percentage. */
  predicate RunningRows(rows: seq<CdfRow>, sorted: seq<DistLine>, total: nat)
  {
    && |rows| <= |sorted|
    && forall j :: 0 <= j < |rows| ==>
      && rows[j].line == sorted[j]
      && rows[j].cumCount == SumBy(sorted[..j + 1], LineCount)
      && IsPct(rows[j].cumPct, rows[j].cumCount, total)
  }

  /** Appending the next line with the running count extended by it keeps
      the rows running. */
  lemma RunningRowsStep(rows: seq<CdfRow>, sorted: seq<DistLine>, total: nat, cum: nat)
    requires RunningRows(rows, sorted, total) && |rows| < |sorted| && total > 0
    requires cum == SumBy(sorted[..|rows|], LineCount)
    ensures var c := cum + sorted[|rows|].count;
      && c == SumBy(sorted[..|rows| + 1], LineCount)
      && RunningRows(rows + [CdfRow(sorted[|rows|], c, Pct(c, total))], sorted, total)
  {
    SumByPrefix(sorted, |rows|, LineCount);
  }

  /** Rows running over every line list exactly those lines, cumulatively. */
  lemma RunningRowsDone(rows: seq<CdfRow>, sorted: seq<DistLine>, total: nat)
    requires RunningRows(rows, sorted, total) && |rows| == |sorted|
    ensures CdfLines(rows) == sorted && Cumulative(rows, total)
  {
    assert CdfLines(rows) == sorted;
  }

  /** Each row's count is the running total of the counts up to it, and
      its percentage is that running total over `total`. */
  predicate Cumulative(rows: seq<CdfRow>, total: nat)
  {
    forall i :: 0 <= i < |rows| ==>
      && rows[i].cumCount == SumBy(CdfLines(rows)[..i + 1], LineCount)
      && IsPct(rows[i].cumPct, rows[i].cumCount, total)
  }

  /** Running totals and their percentages never decrease. */
  lemma CumulativeOrdered(rows: seq<CdfRow>, total: nat, i: nat, j: nat)
    requires Cumulative(rows, total) && total > 0
    requires i <= j < |rows|
    ensures rows[i].cumCount <= rows[j].cumCount && rows[i].cumPct <= rows[j].cumPct
  {
    SumByPrefixMonotone(CdfLines(rows), i + 1, j + 1, LineCount);
    PctMonotone(rows[i].cumCount, rows[j].cumCount, rows[i].cumPct, rows[j].cumPct, total);
  }

  /** Against the full total a running percentage lies within 0 to 100,
      and the last one is exactly 100. */
  lemma CumulativeBounded(rows: seq<CdfRow>, total: nat, i: nat)
    requires Cumulative(rows, total) && total > 0
    requires total == SumBy(CdfLines(rows), LineCount)
    requires i < |rows|
    ensures 0.0 <= rows[i].cumPct <= 100.0
    ensures i == |rows| - 1 ==> rows[i].cumCount == total && rows[i].cumPct == 100.0
  {
    var ls := CdfLines(rows);
    assert ls[..|ls|] == ls;
    SumByPrefixMonotone(ls, i + 1, |ls|, LineCount);
    PctMonotone(0, rows[i].cumCount, 0.0, rows[i].cumPct, total);
    PctMonotone(rows[i].cumCount, total, rows[i].cumPct, 100.0, total);
    if i == |rows| - 1 {
      PctMonotone(total, total, 100.0, rows[i].cumPct, total);
    }
  }

  /** The cumulative counts never decrease and end at the total, and the
      cumulative percentages never decrease, stay within 0 to 100 and end at
      100. */
  lemma CdfIsCumulative(data: seq<DistLine>, res: CdfResult)
    requires res.total == SumBy(data, LineCount)
    requires multiset(CdfLines(res.rows)) == multiset(data)
    requires Cumulative(res.rows, res.total)
    requires |data| > 0 ==> res.total > 0
    ensures var rows := res.rows;
      && (forall i, j :: 0 <= i <= j < |rows| ==> rows[i].cumCount <= rows[j].cumCount && rows[i].cumPct <= rows[j].cumPct)
      && (forall i :: 0 <= i < |rows| ==> 0.0 <= rows[i].cumPct <= 100.0)
      && (|rows| > 0 ==> rows[|rows| - 1].cumCount == res.total && rows[|rows| - 1].cumPct == 100.0)
  {
    var rows := res.rows;
    var ls := CdfLines(rows);
    assert |ls| == |data| by {
      assert |multiset(ls)| == |multiset(data)|;
    }
    SumByPermutation(ls, data, LineCount);
    if |rows| > 0 {
      forall i, j | 0 <= i <= j < |rows|
        ensures rows[i].cumCount <= rows[j].cumCount && rows[i].cumPct <= rows[j].cumPct
      {
        CumulativeOrdered(rows, res.total, i, j);
      }
      forall i | 0 <= i < |rows|
        ensures 0.0 <= rows[i].cumPct <= 100.0
      {
        CumulativeBounded(rows, res.total, i);
      }
      CumulativeBounded(rows, res.total, |rows| - 1);
    }
  }

  /** The worked case of a cap between the 10M bucket at 70% and the 20M
      bucket at 90%: 70 + 0.6777216 * 20 percent. */
  lemma CapPercentageExample()
    ensures var rows := [CdfRow(DistLine(10_000_000, 7, None, 0, 0.0), 7, 70.0),
                         CdfRow(DistLine(20_000_000, 2, None, 0, 0.0), 9, 90.0)];
      CapPercentage(rows) == Some(83.554432)
  {
    var rows := [CdfRow(DistLine(10_000_000, 7, None, 0, 0.0), 7, 70.0),
                 CdfRow(DistLine(20_000_000, 2, None, 0, 0.0), 9, 90.0)];
    assert FirstReaching(rows[1..]) == 0;
    assert FirstReaching(rows) == 1;
  }
}
