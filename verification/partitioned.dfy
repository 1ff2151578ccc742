/** The six-month partition-aligned analysis: processing one batch into a
    checkpoint record, the resumable batch loop over the six-month plan,
    and `aggregate_results`, which merges every checkpoint into totals,
    per-sender and per-recipient tables and efficiency statistics and
    turns them into the final sorted lists. */
module Partitioned {
  import opened Base
  import opened Folds
  import opened Tables
  import opened Sorting
  import opened Accumulators
  import opened Planner
  import opened Checkpoints

  /** The checkpoint file of one batch. `efficiency == None` is the empty
      dict written when the efficiency query failed or returned nothing. */
  datatype BatchRecord = BatchRecord(
    id: nat, window: Window, summary: Option<Summary>,
    senders: seq<SenderRow>, recipients: seq<RecipientRow>, efficiency: Option<Efficiency>)

  /** The answers of the four queries of one batch. */
  datatype BatchReplies = BatchReplies(
    summary: Reply<Summary>, senders: Reply<SenderRow>,
    recipients: Reply<RecipientRow>, efficiency: Reply<Efficiency>)

  /** `process_partition_batch`: widen the window to whole partitions; a
      failed or empty summary query ends the batch without a checkpoint;
      every other failed query is recorded as an empty list or dict and the
      checkpoint is written. Nothing escapes the function. */
  function ProcessBatch(w: Window, id: nat, replies: BatchReplies): (r: Attempt<BatchRecord>)
    ensures !r.Aborted?
    ensures r.Written? <==> replies.summary.Rows? && |replies.summary.rows| > 0
    ensures r.Written? ==>
      && r.record.id == id
      && r.record.window == Align(w, PartitionSize)
      && r.record.summary == Some(replies.summary.rows[0])
      && r.record.senders == RowsOr(replies.senders)
      && r.record.recipients == RowsOr(replies.recipients)
      && (r.record.efficiency.Some? <==> replies.efficiency.Rows? && |replies.efficiency.rows| > 0)
      && (r.record.efficiency.Some? ==> r.record.efficiency.value == replies.efficiency.rows[0])
  {
    match replies.summary
    case Raised => NotWritten
    case Rows(summaries) =>
      if |summaries| == 0 then NotWritten
      else
        var eff := RowsOr(replies.efficiency);
        Written(BatchRecord(
          id, Align(w, PartitionSize), Some(summaries[0]),
          RowsOr(replies.senders), RowsOr(replies.recipients),
          if |eff| > 0 then Some(eff[0]) else None))
  }

  /** Processing batch `k` of the plan ending at `latest`. */
  function PlanOutcome(latest: int, total: nat, size: nat, replies: nat -> BatchReplies): nat -> Attempt<BatchRecord>
  {
    (k: nat) => ProcessBatch(BatchWindow(latest, total, size, k), k, replies(k))
  }

  /** One run of `main`'s batch loop over the six-month plan. */
  function SixMonthRun(store: map<nat, BatchRecord>, latest: int, replies: nat -> BatchReplies): RunResult<BatchRecord>
  {
    Run(store, PlanOutcome(latest, SixMonthBlocks, SixMonthBatch, replies), NumBatches(SixMonthBlocks, SixMonthBatch))
  }

  /** Every checkpoint a run writes is batch `k`'s own record: it carries
      its id and the aligned window of batch `k`, which contains the batch's
      unaligned window. */
  lemma SixMonthRunRecords(store: map<nat, BatchRecord>, latest: int, replies: nat -> BatchReplies, k: nat)
    ensures var r := SixMonthRun(store, latest, replies);
      k in r.store && k !in store ==>
        && k < 130
        && r.store[k].id == k
        && r.store[k].window == AlignedPlan(latest, SixMonthBlocks, SixMonthBatch, PartitionSize)[k]
        && r.store[k].window.start <= latest - SixMonthBlocks + k * SixMonthBatch
        && r.store[k].summary.Some?
  {
    var outcome := PlanOutcome(latest, SixMonthBlocks, SixMonthBatch, replies);
    BatchCounts();
    RunStore(store, outcome, 0, 130);
    var r := SixMonthRun(store, latest, replies);
    if k in r.store && k !in store {
      assert k in r.calls;
      var i :| 0 <= i < |r.calls| && r.calls[i] == k;
      assert k < 130;
      var w := BatchWindow(latest, SixMonthBlocks, SixMonthBatch, k);
      assert outcome(k) == ProcessBatch(w, k, replies(k));
      assert Plan(latest, SixMonthBlocks, SixMonthBatch)[k] == w;
      assert AlignedPlan(latest, SixMonthBlocks, SixMonthBatch, PartitionSize)[k] == Align(w, PartitionSize);
    }
  }

  // ----- aggregate_results -----

  /** Everything `aggregate_results` accumulates while reading the
      checkpoint files. */
  datatype Totals = Totals(
    summary: Summary, senders: map<Addr, SenderAcc>, recipients: map<Addr, GasAcc>, efficiency: EffAcc)

  const NoTotals: Totals := Totals(NoSummary, map[], map[], NoEff)

  function AbsorbSenders(t: map<Addr, SenderAcc>, rows: seq<SenderRow>): map<Addr, SenderAcc>
  {
    AbsorbAll(t, rows, SenderKey, SenderVal, NoSender, PlusSender)
  }

  function AbsorbRecipients(t: map<Addr, GasAcc>, rows: seq<RecipientRow>): map<Addr, GasAcc>
  {
    AbsorbAll(t, rows, RecipientKey, RecipientVal, NoGas, PlusGas)
  }

  /** Only a batch whose efficiency row counted something contributes. */
  function AbsorbEfficiency(a: EffAcc, e: Option<Efficiency>): EffAcc
  {
    if e.Some? && e.value.total > 0 then PlusEff(a, EffOf(e.value)) else a
  }

  /** The body of the loop over checkpoint files. */
  function AddBatch(t: Totals, b: BatchRecord): Totals
  {
    Totals(
      if b.summary.Some? then AddSummary(t.summary, b.summary.value) else t.summary,
      AbsorbSenders(t.senders, b.senders),
      AbsorbRecipients(t.recipients, b.recipients),
      AbsorbEfficiency(t.efficiency, b.efficiency))
  }

  /** The accumulated totals of the checkpoint files, read in order. */
  function Accumulate(bs: seq<BatchRecord>): Totals
  {
    FoldL(bs, NoTotals, AddBatch)
  }

  lemma AddBatchCommutes()
    ensures StepsCommute(AddBatch)
  {
    SenderMergeLaws();
    GasMergeLaws();
    EffMergeLaws();
    forall t: Totals, x: BatchRecord, y: BatchRecord
      ensures AddBatch(AddBatch(t, x), y) == AddBatch(AddBatch(t, y), x)
    {
      AbsorbAllSwap(t.senders, x.senders, y.senders, SenderKey, SenderVal, NoSender, PlusSender);
      AbsorbAllSwap(t.recipients, x.recipients, y.recipients, RecipientKey, RecipientVal, NoGas, PlusGas);
    }
  }

  /** The totals do not depend on the order in which the checkpoint files
      are read. */
  lemma AccumulateOrderIndependent(bs: seq<BatchRecord>, bs': seq<BatchRecord>)
    requires multiset(bs) == multiset(bs')
    ensures Accumulate(bs) == Accumulate(bs')
  {
    AddBatchCommutes();
    FoldPermutation(bs, bs', NoTotals, AddBatch);
  }

  function BatchTotal(b: BatchRecord): nat { if b.summary.Some? then b.summary.value.total else 0 }
  function BatchAffected(b: BatchRecord): nat { if b.summary.Some? then b.summary.value.affected else 0 }
  function BatchHighGas(b: BatchRecord): nat { if b.summary.Some? then b.summary.value.highGas else 0 }

  /** The summary totals are the sums of the batches' summaries, a batch
      with an empty summary counting 0. */
  lemma {:induction false} AccumulateSummary(bs: seq<BatchRecord>)
    ensures Accumulate(bs).summary.total == SumBy(bs, BatchTotal)
    ensures Accumulate(bs).summary.affected == SumBy(bs, BatchAffected)
    ensures Accumulate(bs).summary.highGas == SumBy(bs, BatchHighGas)
  {
    if |bs| > 0 {
      var bs' := bs[..|bs| - 1];
      AccumulateSummary(bs');
      assert bs == bs' + [bs[|bs| - 1]];
      SumByAppend(bs', [bs[|bs| - 1]], BatchTotal);
      SumByAppend(bs', [bs[|bs| - 1]], BatchAffected);
      SumByAppend(bs', [bs[|bs| - 1]], BatchHighGas);
    }
  }

  /** Every address of every batch's sender rows, in file and row order. */
  function SenderAddrs(bs: seq<BatchRecord>): seq<Addr>
  {
    if |bs| == 0 then []
    else
      var last := bs[|bs| - 1];
      SenderAddrs(bs[..|bs| - 1]) + seq(|last.senders|, i requires 0 <= i < |last.senders| => last.senders[i].addr)
  }

  function RecipientAddrs(bs: seq<BatchRecord>): seq<Addr>
  {
    if |bs| == 0 then []
    else
      var last := bs[|bs| - 1];
      RecipientAddrs(bs[..|bs| - 1]) + seq(|last.recipients|, i requires 0 <= i < |last.recipients| => last.recipients[i].addr)
  }

  /** The sender table has exactly the addresses that occur in some row. */
  lemma {:induction false} SenderTableKeys(bs: seq<BatchRecord>)
    ensures forall a :: a in Accumulate(bs).senders <==> a in SenderAddrs(bs)
  {
    if |bs| > 0 {
      var bs' := bs[..|bs| - 1];
      var last := bs[|bs| - 1];
      SenderTableKeys(bs');
      AbsorbAllKeys(Accumulate(bs').senders, last.senders, SenderKey, SenderVal, NoSender, PlusSender);
      var tail := seq(|last.senders|, i requires 0 <= i < |last.senders| => last.senders[i].addr);
      assert SenderAddrs(bs) == SenderAddrs(bs') + tail;
      forall a
        ensures a in Accumulate(bs).senders <==> a in SenderAddrs(bs)
      {
        if a in tail {
          var i :| 0 <= i < |tail| && tail[i] == a;
          assert SenderKey(last.senders[i]) == a;
        }
        if a in (set i | 0 <= i < |last.senders| :: SenderKey(last.senders[i])) {
          var i :| 0 <= i < |last.senders| && SenderKey(last.senders[i]) == a;
          assert tail[i] == a;
        }
      }
    }
  }

  lemma {:induction false} RecipientTableKeys(bs: seq<BatchRecord>)
    ensures forall a :: a in Accumulate(bs).recipients <==> a in RecipientAddrs(bs)
  {
    if |bs| > 0 {
      var bs' := bs[..|bs| - 1];
      var last := bs[|bs| - 1];
      RecipientTableKeys(bs');
      AbsorbAllKeys(Accumulate(bs').recipients, last.recipients, RecipientKey, RecipientVal, NoGas, PlusGas);
      var tail := seq(|last.recipients|, i requires 0 <= i < |last.recipients| => last.recipients[i].addr);
      assert RecipientAddrs(bs) == RecipientAddrs(bs') + tail;
      forall a
        ensures a in Accumulate(bs).recipients <==> a in RecipientAddrs(bs)
      {
        if a in tail {
          var i :| 0 <= i < |tail| && tail[i] == a;
          assert RecipientKey(last.recipients[i]) == a;
        }
        if a in (set i | 0 <= i < |last.recipients| :: RecipientKey(last.recipients[i])) {
          var i :| 0 <= i < |last.recipients| && RecipientKey(last.recipients[i]) == a;
          assert tail[i] == a;
        }
      }
    }
  }

  /** When every sender row describes transactions over the cap (as the
      query's filter guarantees), every merged sender is affected: its count
      is positive, its mean is above the cap and its max is at least its
      mean. */
  lemma {:induction false} AccumulatedSendersAffected(bs: seq<BatchRecord>)
    requires forall i, j :: 0 <= i < |bs| && 0 <= j < |bs[i].senders| ==> SenderRowAffected(bs[i].senders[j])
    ensures forall a :: a in Accumulate(bs).senders ==> Affected(Accumulate(bs).senders[a].gas)
  {
    if |bs| > 0 {
      var bs' := bs[..|bs| - 1];
      var last := bs[|bs| - 1];
      AccumulatedSendersAffected(bs');
      SenderMergeLaws();
      forall j | 0 <= j < |last.senders|
        ensures Affected(SenderVal(last.senders[j]).gas)
      {
        var r := last.senders[j];
        RowIsAffected(r.count, r.avgGas, r.maxGas);
      }
      forall v: SenderAcc, j | 0 <= j < |last.senders| && Affected(v.gas)
        ensures Affected(PlusSender(v, SenderVal(last.senders[j])).gas)
      {
        PlusKeepsAffected(v.gas, SenderVal(last.senders[j]).gas);
      }
      AbsorbAllKeeps(Accumulate(bs').senders, last.senders, SenderKey, SenderVal, NoSender, PlusSender,
                     (v: SenderAcc) => Affected(v.gas));
    }
  }

  /** What the efficiency query guarantees of its row. */
  predicate EfficiencyRowSound(e: Option<Efficiency>)
  {
    e.Some? ==> e.value.unnecessary <= e.value.total && e.value.minUsed <= e.value.maxUsed
  }

  /** The efficiency statistics stay consistent: in particular a minimum
      usage exists exactly when some batch contributed. */
  lemma {:induction false} AccumulatedEfficiencyConsistent(bs: seq<BatchRecord>)
    requires forall i :: 0 <= i < |bs| ==> EfficiencyRowSound(bs[i].efficiency)
    ensures EffConsistent(Accumulate(bs).efficiency)
  {
    if |bs| > 0 {
      AccumulatedEfficiencyConsistent(bs[..|bs| - 1]);
      var e := bs[|bs| - 1].efficiency;
      if e.Some? && e.value.total > 0 {
        EffConsistentMerge(Accumulate(bs[..|bs| - 1]).efficiency, e.value);
      }
    }
  }

  // ----- the final lists -----

  /** Some line of `rows` belongs to address `a`. */
  predicate SenderListed(rows: seq<SenderReport>, a: Addr)
  {
    exists i :: 0 <= i < |rows| && rows[i].addr == a
  }

  predicate RecipientListed(rows: seq<RecipientReport>, a: Addr)
  {
    exists i :: 0 <= i < |rows| && rows[i].addr == a
  }

  /** `for addr, agg in address_aggregates.items(): if count > 0: ...`,
      walking the keys in dict order. Each line is the report of its
      address's merged accumulator. */
  function SenderLines(keys: seq<Addr>, t: map<Addr, SenderAcc>): (rows: seq<SenderReport>)
    ensures forall i :: 0 <= i < |rows| ==>
      && rows[i].addr in keys && rows[i].addr in t && t[rows[i].addr].gas.count > 0
      && rows[i] == SenderReportOf(rows[i].addr, t[rows[i].addr])
  {
    if |keys| == 0 then []
    else
      var k := keys[|keys| - 1];
      var front := SenderLines(keys[..|keys| - 1], t);
      if k in t && t[k].gas.count > 0 then front + [SenderReportOf(k, t[k])] else front
  }

  /** Every address with a positive count gets a line, and none gets two. */
  lemma {:induction false} SenderLinesComplete(keys: seq<Addr>, t: map<Addr, SenderAcc>)
    ensures var rows := SenderLines(keys, t);
      forall k :: k in keys && k in t && t[k].gas.count > 0 ==>
        SenderListed(rows, k)
  {
    if |keys| > 0 {
      var keys' := keys[..|keys| - 1];
      var k := keys[|keys| - 1];
      SenderLinesComplete(keys', t);
      var front := SenderLines(keys', t);
      var rows := SenderLines(keys, t);
      forall j | j in keys && j in t && t[j].gas.count > 0
        ensures SenderListed(rows, j)
      {
        if j != k {
          assert j in keys';
          var i :| 0 <= i < |front| && front[i].addr == j;
          assert rows[i] == front[i];
        } else {
          assert rows[|rows| - 1].addr == k;
        }
      }
    }
  }

  /** With duplicate-free keys no line is repeated. */
  lemma {:induction false} SenderLinesDistinct(keys: seq<Addr>, t: map<Addr, SenderAcc>)
    requires Distinct(keys)
    ensures Distinct(SenderLines(keys, t))
  {
    if |keys| > 0 {
      var keys' := keys[..|keys| - 1];
      var k := keys[|keys| - 1];
      assert Distinct(keys');
      assert k !in keys';
      SenderLinesDistinct(keys', t);
    }
  }

  function RecipientLines(keys: seq<Addr>, t: map<Addr, GasAcc>): (rows: seq<RecipientReport>)
    ensures forall i :: 0 <= i < |rows| ==>
      && rows[i].addr in keys && rows[i].addr in t && t[rows[i].addr].count > 0
      && rows[i] == RecipientReportOf(rows[i].addr, t[rows[i].addr])
  {
    if |keys| == 0 then []
    else
      var k := keys[|keys| - 1];
      var front := RecipientLines(keys[..|keys| - 1], t);
      if k in t && t[k].count > 0 then front + [RecipientReportOf(k, t[k])] else front
  }

  lemma {:induction false} RecipientLinesComplete(keys: seq<Addr>, t: map<Addr, GasAcc>)
    ensures var rows := RecipientLines(keys, t);
      forall k :: k in keys && k in t && t[k].count > 0 ==>
        RecipientListed(rows, k)
  {
    if |keys| > 0 {
      var keys' := keys[..|keys| - 1];
      var k := keys[|keys| - 1];
      RecipientLinesComplete(keys', t);
      var front := RecipientLines(keys', t);
      var rows := RecipientLines(keys, t);
      forall j | j in keys && j in t && t[j].count > 0
        ensures RecipientListed(rows, j)
      {
        if j != k {
          assert j in keys';
          var i :| 0 <= i < |front| && front[i].addr == j;
          assert rows[i] == front[i];
        } else {
          assert rows[|rows| - 1].addr == k;
        }
      }
    }
  }

  /** With duplicate-free keys no line is repeated. */
  lemma {:induction false} RecipientLinesDistinct(keys: seq<Addr>, t: map<Addr, GasAcc>)
    requires Distinct(keys)
    ensures Distinct(RecipientLines(keys, t))
  {
    if |keys| > 0 {
      var keys' := keys[..|keys| - 1];
      var k := keys[|keys| - 1];
      assert Distinct(keys');
      assert k !in keys';
      RecipientLinesDistinct(keys', t);
    }
  }

  /** The efficiency section of the results. */
  datatype EfficiencyReport = EfficiencyReport(
    total: nat, unnecessary: nat, unnecessaryPct: real, avgLimit: real, avgUsed: real,
    avgEfficiency: real, minUsed: Option<nat>, maxUsed: nat)

  /** `gas_efficiency_final`: empty unless something was counted. */
  function FinalEfficiency(a: EffAcc): (r: Option<EfficiencyReport>)
    ensures r.Some? <==> a.count > 0
    ensures r.Some? ==>
      && r.value.total == a.total && r.value.unnecessary == a.unnecessary
      && r.value.avgLimit * (a.count as real) == a.sumLimit
      && r.value.avgUsed * (a.count as real) == a.sumUsed
      && r.value.minUsed == a.minUsed && r.value.maxUsed == a.maxUsed
    ensures r.Some? && EffConsistent(a) ==>
      r.value.minUsed.Some? && 0.0 <= r.value.unnecessaryPct <= 100.0
    ensures r.Some? && a.total > 0 ==> IsPct(r.value.unnecessaryPct, a.unnecessary, a.total)
    ensures r.Some? && a.total == 0 ==> r.value.unnecessaryPct == 0.0
    ensures r.Some? && a.sumLimit > 0.0 ==> r.value.avgEfficiency * a.sumLimit == a.sumUsed
    ensures r.Some? && a.sumLimit <= 0.0 ==> r.value.avgEfficiency == 0.0
  {
    if a.count > 0 then
      Some(EfficiencyReport(
        a.total, a.unnecessary,
        AffectedPercentage(a.unnecessary, a.total),
        a.sumLimit / (a.count as real), a.sumUsed / (a.count as real),
        if a.sumLimit > 0.0 then a.sumUsed / a.sumLimit else 0.0,
        a.minUsed, a.maxUsed))
    else None
  }

  /** The dictionary `aggregate_results` returns. */
  datatype Results = Results(
    total: nat, affected: nat, highGas: nat, affectedPct: real,
    topSenders: seq<SenderReport>, allSenders: seq<SenderReport>,
    totalAdditionalGas: int, totalAdditionalCostEth: real,
    topRecipients: seq<RecipientReport>, allRecipients: seq<RecipientReport>,
    efficiency: Option<EfficiencyReport>)

  function AdditionalGasOf(r: SenderReport): int { r.additionalGas * r.count }

  /** Sum of `additional_gas_cost * transaction_count` over the list. */
  function TotalAdditionalGas(rows: seq<SenderReport>): int
  {
    if |rows| == 0 then 0 else TotalAdditionalGas(rows[..|rows| - 1]) + AdditionalGasOf(rows[|rows| - 1])
  }

  /** `additional_cost_eth`: the extra intrinsic gas priced at the mean gas
      price, in ether, the gas price being in wei. */
  function CostEth(r: SenderReport): real
  {
    (r.additionalGas as real) * r.avgPrice / 1_000_000_000_000_000_000.0
  }

  /** Sum of `additional_cost_eth * transaction_count` over the list. */
  function TotalCostEth(rows: seq<SenderReport>): real
  {
    if |rows| == 0 then 0.0
    else TotalCostEth(rows[..|rows| - 1]) + CostEth(rows[|rows| - 1]) * (rows[|rows| - 1].count as real)
  }

  /** `aggregate_results` over the checkpoint files read in order. */
  function AggregateResults(bs: seq<BatchRecord>): (r: Results)
    ensures SortedBy(r.allSenders, SenderRank) && SortedBy(r.allRecipients, RecipientRank)
    ensures |r.topSenders| == Min(50, |r.allSenders|) && r.topSenders == r.allSenders[..|r.topSenders|]
    ensures |r.topRecipients| == Min(50, |r.allRecipients|) && r.topRecipients == r.allRecipients[..|r.topRecipients|]
    ensures r.total == SumBy(bs, BatchTotal) && r.affected == SumBy(bs, BatchAffected)
    ensures r.highGas == SumBy(bs, BatchHighGas)
    ensures r.total == 0 ==> r.affectedPct == 0.0
    ensures r.total > 0 ==> IsPct(r.affectedPct, r.affected, r.total)
    ensures r.efficiency == FinalEfficiency(Accumulate(bs).efficiency)
    ensures r.totalAdditionalGas == TotalAdditionalGas(r.allSenders)
    ensures r.totalAdditionalCostEth == TotalCostEth(r.allSenders)
  {
    var t := Accumulate(bs);
    AccumulateSummary(bs);
    var pct := AffectedPercentage(t.summary.affected, t.summary.total);
    assert t.summary.total > 0 ==> IsPct(pct, t.summary.affected, t.summary.total);
    var senders := SortBy(SenderLines(Dedup(SenderAddrs(bs)), t.senders), SenderRank);
    var recipients := SortBy(RecipientLines(Dedup(RecipientAddrs(bs)), t.recipients), RecipientRank);
    Results(
      t.summary.total, t.summary.affected, t.summary.highGas, pct,
      Take(senders, 50), senders, TotalAdditionalGas(senders), TotalCostEth(senders),
      Take(recipients, 50), recipients,
      FinalEfficiency(t.efficiency))
  }

  /** Each sorted sender line is the report of its address's merged
      accumulator, and that count is positive. */
  lemma SortedSenderLinesSound(keys: seq<Addr>, t: map<Addr, SenderAcc>)
    ensures var s := SortBy(SenderLines(keys, t), SenderRank);
      forall i :: 0 <= i < |s| ==>
        && s[i].addr in t && t[s[i].addr].gas.count > 0
        && s[i] == SenderReportOf(s[i].addr, t[s[i].addr])
  {
    var lines := SenderLines(keys, t);
    var s := SortBy(lines, SenderRank);
    PermutationMembers(s, lines);
    forall i | 0 <= i < |s|
      ensures s[i].addr in t && t[s[i].addr].gas.count > 0
      ensures s[i] == SenderReportOf(s[i].addr, t[s[i].addr])
    {
      assert s[i] in lines;
      var j :| 0 <= j < |lines| && lines[j] == s[i];
    }
  }

  /** One address of `keys` with a positive count has a sorted line. */
  lemma SortedSenderLineFor(keys: seq<Addr>, t: map<Addr, SenderAcc>, a: Addr)
    requires a in keys && a in t && t[a].gas.count > 0
    ensures var s := SortBy(SenderLines(keys, t), SenderRank);
      SenderListed(s, a)
  {
    var lines := SenderLines(keys, t);
    SenderLinesComplete(keys, t);
    var i :| 0 <= i < |lines| && lines[i].addr == a;
    var j := SortByPosition(lines, SenderRank, i);
  }

  /** Every address of `keys` with a positive count has a sorted line. */
  lemma SortedSenderLinesComplete(keys: seq<Addr>, t: map<Addr, SenderAcc>)
    ensures var s := SortBy(SenderLines(keys, t), SenderRank);
      forall a :: a in keys && a in t && t[a].gas.count > 0 ==>
        SenderListed(s, a)
  {
    var s := SortBy(SenderLines(keys, t), SenderRank);
    forall a | a in keys && a in t && t[a].gas.count > 0
      ensures SenderListed(s, a)
    {
      SortedSenderLineFor(keys, t, a);
    }
  }

  /** With duplicate-free keys no address has two sorted lines. */
  lemma SortedSenderLinesUnique(keys: seq<Addr>, t: map<Addr, SenderAcc>)
    requires Distinct(keys)
    ensures var s := SortBy(SenderLines(keys, t), SenderRank);
      forall i, j :: 0 <= i < j < |s| ==> s[i].addr != s[j].addr
  {
    var lines := SenderLines(keys, t);
    var s := SortBy(lines, SenderRank);
    SenderLinesDistinct(keys, t);
    PermutationKeepsDistinct(s, lines);
    PermutationMembers(s, lines);
    forall i, j | 0 <= i < j < |s|
      ensures s[i].addr != s[j].addr
    {
      assert s[i] in lines && s[j] in lines;
    }
  }

  /** Each sorted recipient line is the report of its address's merged
      accumulator, and that count is positive. */
  lemma SortedRecipientLinesSound(keys: seq<Addr>, t: map<Addr, GasAcc>)
    ensures var s := SortBy(RecipientLines(keys, t), RecipientRank);
      forall i :: 0 <= i < |s| ==>
        && s[i].addr in t && t[s[i].addr].count > 0
        && s[i] == RecipientReportOf(s[i].addr, t[s[i].addr])
  {
    var lines := RecipientLines(keys, t);
    var s := SortBy(lines, RecipientRank);
    PermutationMembers(s, lines);
    forall i | 0 <= i < |s|
      ensures s[i].addr in t && t[s[i].addr].count > 0
      ensures s[i] == RecipientReportOf(s[i].addr, t[s[i].addr])
    {
      assert s[i] in lines;
      var j :| 0 <= j < |lines| && lines[j] == s[i];
    }
  }

  /** One address of `keys` with a positive count has a sorted line. */
  lemma SortedRecipientLineFor(keys: seq<Addr>, t: map<Addr, GasAcc>, a: Addr)
    requires a in keys && a in t && t[a].count > 0
    ensures var s := SortBy(RecipientLines(keys, t), RecipientRank);
      RecipientListed(s, a)
  {
    var lines := RecipientLines(keys, t);
    RecipientLinesComplete(keys, t);
    var i :| 0 <= i < |lines| && lines[i].addr == a;
    var j := SortByPosition(lines, RecipientRank, i);
  }

  /** Every address of `keys` with a positive count has a sorted line. */
  lemma SortedRecipientLinesComplete(keys: seq<Addr>, t: map<Addr, GasAcc>)
    ensures var s := SortBy(RecipientLines(keys, t), RecipientRank);
      forall a :: a in keys && a in t && t[a].count > 0 ==>
        RecipientListed(s, a)
  {
    var s := SortBy(RecipientLines(keys, t), RecipientRank);
    forall a | a in keys && a in t && t[a].count > 0
      ensures RecipientListed(s, a)
    {
      SortedRecipientLineFor(keys, t, a);
    }
  }

  /** With duplicate-free keys no address has two sorted lines. */
  lemma SortedRecipientLinesUnique(keys: seq<Addr>, t: map<Addr, GasAcc>)
    requires Distinct(keys)
    ensures var s := SortBy(RecipientLines(keys, t), RecipientRank);
      forall i, j :: 0 <= i < j < |s| ==> s[i].addr != s[j].addr
  {
    var lines := RecipientLines(keys, t);
    var s := SortBy(lines, RecipientRank);
    RecipientLinesDistinct(keys, t);
    PermutationKeepsDistinct(s, lines);
    PermutationMembers(s, lines);
    forall i, j | 0 <= i < j < |s|
      ensures s[i].addr != s[j].addr
    {
      assert s[i] in lines && s[j] in lines;
    }
  }

  /** The final sender list has one line per address whose merged count is
      positive, and nothing else: each line is its address's report, every
      such address has a line, and no address has two. */
  lemma AggregateSenderLines(bs: seq<BatchRecord>)
    ensures var r := AggregateResults(bs);
      var t := Accumulate(bs).senders;
      && (forall i :: 0 <= i < |r.allSenders| ==>
            && r.allSenders[i].addr in t && t[r.allSenders[i].addr].gas.count > 0
            && r.allSenders[i] == SenderReportOf(r.allSenders[i].addr, t[r.allSenders[i].addr]))
      && (forall a :: a in t && t[a].gas.count > 0 ==>
            SenderListed(r.allSenders, a))
      && (forall i, j :: 0 <= i < j < |r.allSenders| ==> r.allSenders[i].addr != r.allSenders[j].addr)
  {
    var t := Accumulate(bs).senders;
    var all := SenderAddrs(bs);
    var keys := Dedup(all);
    SenderTableKeys(bs);
    SortedSenderLinesSound(keys, t);
    SortedSenderLinesComplete(keys, t);
    SortedSenderLinesUnique(keys, t);
    forall a | a in t
      ensures a in keys
    {
      var j :| 0 <= j < |all| && all[j] == a;
    }
  }

  /** The final recipient list has one line per recipient whose merged
      count is positive, and no recipient twice. */
  lemma AggregateRecipientLines(bs: seq<BatchRecord>)
    ensures var r := AggregateResults(bs);
      var t := Accumulate(bs).recipients;
      && (forall i :: 0 <= i < |r.allRecipients| ==>
            && r.allRecipients[i].addr in t && t[r.allRecipients[i].addr].count > 0
            && r.allRecipients[i] == RecipientReportOf(r.allRecipients[i].addr, t[r.allRecipients[i].addr]))
      && (forall a :: a in t && t[a].count > 0 ==>
            RecipientListed(r.allRecipients, a))
      && (forall i, j :: 0 <= i < j < |r.allRecipients| ==> r.allRecipients[i].addr != r.allRecipients[j].addr)
  {
    var t := Accumulate(bs).recipients;
    var all := RecipientAddrs(bs);
    var keys := Dedup(all);
    RecipientTableKeys(bs);
    SortedRecipientLinesSound(keys, t);
    SortedRecipientLinesComplete(keys, t);
    SortedRecipientLinesUnique(keys, t);
    forall a | a in t
      ensures a in keys
    {
      var j :| 0 <= j < |all| && all[j] == a;
    }
  }

  /** No address of the table that `top` leaves out sent more transactions
      than any address in it. */
  predicate NoneBusierLeftOut(top: seq<SenderReport>, t: map<Addr, SenderAcc>)
  {
    forall i, a :: 0 <= i < |top| && a in t && !SenderListed(top, a) ==> t[a].gas.count <= top[i].count
  }

  /** Every merged address is among the records' addresses. */
  lemma SenderKeysCover(bs: seq<BatchRecord>)
    ensures forall a :: a in Accumulate(bs).senders ==> a in Dedup(SenderAddrs(bs))
  {
    var all := SenderAddrs(bs);
    SenderTableKeys(bs);
    forall a | a in Accumulate(bs).senders
      ensures a in Dedup(all)
    {
      var j :| 0 <= j < |all| && all[j] == a;
    }
  }

  /** The top list of the final lines leaves out no merged sender busier
      than one it keeps: neither a sender further down the list nor any
      address of the merged table. */
  lemma TopSendersAreLargest(bs: seq<BatchRecord>)
    ensures var r := AggregateResults(bs);
      && (forall i, j :: 0 <= i < |r.topSenders| <= j < |r.allSenders| ==>
            r.topSenders[i].count >= r.allSenders[j].count)
      && NoneBusierLeftOut(r.topSenders, Accumulate(bs).senders)
  {
    var keys := Dedup(SenderAddrs(bs));
    var t := Accumulate(bs).senders;
    SenderKeysCover(bs);
    SortedTopBusiest(keys, t);
  }

  /** `list.sort` is stable: among the final lines with the same count the
      senders keep the order in which the records first list them, and so
      do the recipients. */
  lemma AggregateTiesKeepFirstAppearance(bs: seq<BatchRecord>, k: int)
    ensures var r := AggregateResults(bs);
      var t := Accumulate(bs);
      && WithKey(r.allSenders, SenderRank, k)
           == WithKey(SenderLines(Dedup(SenderAddrs(bs)), t.senders), SenderRank, k)
      && WithKey(r.allRecipients, RecipientRank, k)
           == WithKey(RecipientLines(Dedup(RecipientAddrs(bs)), t.recipients), RecipientRank, k)
  {
    var t := Accumulate(bs);
    SortByStable(SenderLines(Dedup(SenderAddrs(bs)), t.senders), SenderRank, k);
    SortByStable(RecipientLines(Dedup(RecipientAddrs(bs)), t.recipients), RecipientRank, k);
  }

  /** When `keys` lists every address of the table, no address that the
      first 50 sorted lines leave out sent more transactions than any of
      them; an address with a zero count has no line and is never busier. */
  lemma SortedTopBusiest(keys: seq<Addr>, t: map<Addr, SenderAcc>)
    requires forall a :: a in t ==> a in keys
    ensures NoneBusierLeftOut(Take(SortBy(SenderLines(keys, t), SenderRank), 50), t)
  {
    var top := Take(SortBy(SenderLines(keys, t), SenderRank), 50);
    forall i, a | 0 <= i < |top| && a in t && !SenderListed(top, a)
      ensures t[a].gas.count <= top[i].count
    {
      if t[a].gas.count > 0 {
        SortedTopBusiestAt(keys, t, i, a);
      }
    }
  }

  lemma SortedTopBusiestAt(keys: seq<Addr>, t: map<Addr, SenderAcc>, i: nat, a: Addr)
    requires a in keys && a in t && t[a].gas.count > 0
    requires var top := Take(SortBy(SenderLines(keys, t), SenderRank), 50);
      i < |top| && !SenderListed(top, a)
    ensures t[a].gas.count <= Take(SortBy(SenderLines(keys, t), SenderRank), 50)[i].count
  {
    var s := SortBy(SenderLines(keys, t), SenderRank);
    var top := Take(s, 50);
    var j := SortedLineOf(keys, t, a);
    assert forall n :: 0 <= n < |top| ==> s[n].addr != a by {
      forall n | 0 <= n < |top|
        ensures s[n].addr != a
      {
        assert top[n] == s[n];
      }
    }
    assert SenderRank(s[i]) <= SenderRank(s[j]);
  }

  /** Where the line of an address with a positive count ended up after
      sorting. */
  lemma SortedLineOf(keys: seq<Addr>, t: map<Addr, SenderAcc>, a: Addr) returns (j: nat)
    requires a in keys && a in t && t[a].gas.count > 0
    ensures var s := SortBy(SenderLines(keys, t), SenderRank);
      j < |s| && s[j].addr == a && s[j].count == t[a].gas.count
  {
    var lines := SenderLines(keys, t);
    SenderLinesComplete(keys, t);
    var m :| 0 <= m < |lines| && lines[m].addr == a;
    j := SortByPosition(lines, SenderRank, m);
  }

  /** Lines that are the reports of affected accumulators are over the cap
      and each needs at least one extra transaction. */
  lemma AffectedLines(rows: seq<SenderReport>, t: map<Addr, SenderAcc>)
    requires forall a :: a in t ==> Affected(t[a].gas)
    requires forall i :: 0 <= i < |rows| ==>
      rows[i].addr in t && t[rows[i].addr].gas.count > 0 && rows[i] == SenderReportOf(rows[i].addr, t[rows[i].addr])
    ensures forall i :: 0 <= i < |rows| ==>
      && rows[i].avgGas > GasCap as real && rows[i].splits >= 2
      && rows[i].additionalGas >= BaseGasCost
  {
    forall i | 0 <= i < |rows|
      ensures rows[i].avgGas > GasCap as real && rows[i].splits >= 2
      ensures rows[i].additionalGas >= BaseGasCost
    {
      AffectedReport(rows[i].addr, t[rows[i].addr]);
    }
  }

  /** When every sender row is over the cap, every line of the final list
      is too, needs at least two transactions, and so the total extra
      intrinsic gas is at least 21,000 per listed transaction. */
  lemma AggregateAffectedSenders(bs: seq<BatchRecord>)
    requires forall i, j :: 0 <= i < |bs| && 0 <= j < |bs[i].senders| ==> SenderRowAffected(bs[i].senders[j])
    ensures var r := AggregateResults(bs);
      && (forall i :: 0 <= i < |r.allSenders| ==>
            r.allSenders[i].avgGas > GasCap as real && r.allSenders[i].splits >= 2)
      && r.totalAdditionalGas >= BaseGasCost * SumBy(r.allSenders, SenderCount)
  {
    AccumulatedSendersAffected(bs);
    AffectedSortedLines(Dedup(SenderAddrs(bs)), Accumulate(bs).senders);
  }

  /** The sorted lines of a table of affected senders are all over the cap,
      and their extra intrinsic gas is at least 21,000 per transaction. */
  lemma AffectedSortedLines(keys: seq<Addr>, t: map<Addr, SenderAcc>)
    requires forall a :: a in t ==> Affected(t[a].gas)
    ensures var rows := SortBy(SenderLines(keys, t), SenderRank);
      && (forall i :: 0 <= i < |rows| ==> rows[i].avgGas > GasCap as real && rows[i].splits >= 2)
      && TotalAdditionalGas(rows) >= BaseGasCost * SumBy(rows, SenderCount)
  {
    var rows := SortBy(SenderLines(keys, t), SenderRank);
    SortedSenderLinesSound(keys, t);
    AffectedLines(rows, t);
    TotalAdditionalGasBound(rows);
  }

  function SenderCount(r: SenderReport): nat { r.count }

  /** Lines that each need an extra transaction cost at least 21,000 gas per
      transaction in total. */
  lemma {:induction false} TotalAdditionalGasBound(rows: seq<SenderReport>)
    requires forall i :: 0 <= i < |rows| ==> rows[i].additionalGas >= BaseGasCost
    ensures TotalAdditionalGas(rows) >= BaseGasCost * SumBy(rows, SenderCount)
  {
    if |rows| > 0 {
      var rows' := rows[..|rows| - 1];
      var last := rows[|rows| - 1];
      TotalAdditionalGasBound(rows');
      assert rows == rows' + [last];
      SumByAppend(rows', [last], SenderCount);
      MulLe(BaseGasCost, last.additionalGas, last.count);
    }
  }
}
