/** The older six-month analysis that walks the period in 25 weekly chunks:
    processing one chunk into a cache file, the resumable chunk loop, and
    its `aggregate_results`, which has no guard against a zero count and so
    can fail where the partition-aligned analysis skips. */
module Weekly {
  import opened Base
  import opened Folds
  import opened Tables
  import opened Sorting
  import opened Accumulators
  import opened Planner
  import opened Checkpoints
  import opened Partitioned

  /** The cache file of one chunk. The writer always stores the first
      summary row, so the summary is never empty. */
  datatype ChunkRecord = ChunkRecord(id: nat, window: Window, summary: Summary, affected: seq<SenderRow>)

  /** The answers of the chunk's two queries. */
  datatype ChunkReplies = ChunkReplies(summary: Reply<Summary>, affected: Reply<SenderRow>)

  /** `process_chunk`. Nothing is caught inside: a raising query ends the
      whole run. An empty summary returns before the write; an empty or
      missing affected list is written as `[]`. The window is used as given,
      without alignment. */
  function ProcessChunk(w: Window, id: nat, replies: ChunkReplies): (r: Attempt<ChunkRecord>)
    ensures r.Aborted? <==>
      replies.summary.Raised? || (|replies.summary.rows| > 0 && replies.affected.Raised?)
    ensures r.NotWritten? <==> replies.summary.Rows? && |replies.summary.rows| == 0
    ensures r.Written? ==>
      && r.record.id == id && r.record.window == w
      && r.record.summary == replies.summary.rows[0]
      && r.record.affected == RowsOr(replies.affected)
  {
    match replies.summary
    case Raised => Aborted
    case Rows(summaries) =>
      if |summaries| == 0 then NotWritten
      else if replies.affected.Raised? then Aborted
      else Written(ChunkRecord(id, w, summaries[0], replies.affected.rows))
  }

  /** Processing chunk `k` of the weekly plan ending at `latest`. */
  function ChunkOutcome(latest: int, replies: nat -> ChunkReplies): nat -> Attempt<ChunkRecord>
  {
    (k: nat) => ProcessChunk(ChunkWindow(latest, k), k, replies(k))
  }

  /** One run of `main`'s chunk loop. */
  function WeeklyRun(store: map<nat, ChunkRecord>, latest: int, replies: nat -> ChunkReplies): RunResult<ChunkRecord>
  {
    Run(store, ChunkOutcome(latest, replies), NumChunks)
  }

  /** Every cache file a run writes is chunk `k`'s own record, over week `k`
      of the plan; a chunk whose summary came back empty gets no file; and
      a run that ended early did so on a query that raised. */
  lemma WeeklyRunRecords(store: map<nat, ChunkRecord>, latest: int, replies: nat -> ChunkReplies, k: nat)
    ensures var r := WeeklyRun(store, latest, replies);
      && (k in r.store && k !in store ==>
            && k < 25 && r.store[k].id == k && r.store[k].window == ChunkPlan(latest)[k]
            && r.store[k].affected == RowsOr(replies(k).affected))
      && (k !in store && replies(k).summary == Rows([]) ==> k !in r.store)
      && (r.aborted ==> exists i :: 0 <= i < |r.calls| && ChunkOutcome(latest, replies)(r.calls[i]).Aborted?)
  {
    var outcome := ChunkOutcome(latest, replies);
    var r := WeeklyRun(store, latest, replies);
    ChunksAreAPlan(latest);
    RunStore(store, outcome, 0, NumChunks);
    RunStopsOnRaise(store, outcome, 0, NumChunks);
    if k in r.store && k !in store {
      assert k in r.calls;
      var i :| 0 <= i < |r.calls| && r.calls[i] == k;
      assert k < 25;
      assert outcome(k) == ProcessChunk(ChunkWindow(latest, k), k, replies(k));
    }
    if k !in store && replies(k).summary == Rows([]) {
      assert outcome(k) == NotWritten;
    }
    if r.aborted {
      assert outcome(r.calls[|r.calls| - 1]).Aborted?;
    }
  }

  // ----- aggregate_results -----

  /** The summary counters and the per-address table. */
  datatype WeeklyTotals = WeeklyTotals(summary: Summary, senders: map<Addr, SenderAcc>)

  const NoWeeklyTotals: WeeklyTotals := WeeklyTotals(NoSummary, map[])

  /** The body of the loop over the chunk files. */
  function AddChunk(t: WeeklyTotals, c: ChunkRecord): WeeklyTotals
  {
    WeeklyTotals(AddSummary(t.summary, c.summary), AbsorbSenders(t.senders, c.affected))
  }

  function AccumulateChunks(cs: seq<ChunkRecord>): WeeklyTotals
  {
    FoldL(cs, NoWeeklyTotals, AddChunk)
  }

  /** The files are read in the lexicographic order of their names, so
      `chunk_10` comes before `chunk_2`; the totals do not depend on it. */
  lemma ChunksOrderIndependent(cs: seq<ChunkRecord>, cs': seq<ChunkRecord>)
    requires multiset(cs) == multiset(cs')
    ensures AccumulateChunks(cs) == AccumulateChunks(cs')
  {
    SenderMergeLaws();
    forall t: WeeklyTotals, x: ChunkRecord, y: ChunkRecord
      ensures AddChunk(AddChunk(t, x), y) == AddChunk(AddChunk(t, y), x)
    {
      AbsorbAllSwap(t.senders, x.affected, y.affected, SenderKey, SenderVal, NoSender, PlusSender);
    }
    assert StepsCommute(AddChunk);
    FoldPermutation(cs, cs', NoWeeklyTotals, AddChunk);
  }

  /** A chunk file read as a partition checkpoint with no recipients and no
      efficiency statistics. */
  function AsBatch(c: ChunkRecord): BatchRecord
  {
    BatchRecord(c.id, c.window, Some(c.summary), c.affected, [], None)
  }

  function AsBatches(cs: seq<ChunkRecord>): (bs: seq<BatchRecord>)
    ensures |bs| == |cs| && forall i :: 0 <= i < |cs| ==> bs[i] == AsBatch(cs[i])
  {
    seq(|cs|, i requires 0 <= i < |cs| => AsBatch(cs[i]))
  }

  /** The weekly merge is the partition merge restricted to summaries and
      senders: counts and weighted sums add, maxima are maxima, excess and
      appearances add in the same way. */
  lemma {:induction false} ChunksAccumulateLikeBatches(cs: seq<ChunkRecord>)
    ensures AccumulateChunks(cs).summary == Accumulate(AsBatches(cs)).summary
    ensures AccumulateChunks(cs).senders == Accumulate(AsBatches(cs)).senders
  {
    if |cs| > 0 {
      var cs' := cs[..|cs| - 1];
      ChunksAccumulateLikeBatches(cs');
      assert AsBatches(cs)[..|cs| - 1] == AsBatches(cs');
    }
  }

  /** The final list in dict order. `avg = total / count` has no guard: a
      zero count raises `ZeroDivisionError`, which ends `main`, and the
      result is `None`. */
  function WeeklyLines(keys: seq<Addr>, t: map<Addr, SenderAcc>): Option<seq<SenderReport>>
  {
    if |keys| == 0 then Some([])
    else
      var k := keys[|keys| - 1];
      var front := WeeklyLines(keys[..|keys| - 1], t);
      if front.None? then None
      else if k !in t then front
      else if t[k].gas.count == 0 then None
      else Some(front.value + [SenderReportOf(k, t[k])])
  }

  /** The weekly list fails exactly when some address has a zero count, and
      otherwise it is the partition analysis's list. */
  lemma {:induction false} WeeklyLinesAgree(keys: seq<Addr>, t: map<Addr, SenderAcc>)
    ensures WeeklyLines(keys, t).Some? <==> forall k :: k in keys && k in t ==> t[k].gas.count > 0
    ensures WeeklyLines(keys, t).Some? ==> WeeklyLines(keys, t).value == SenderLines(keys, t)
  {
    if |keys| > 0 {
      var keys' := keys[..|keys| - 1];
      var k := keys[|keys| - 1];
      WeeklyLinesAgree(keys', t);
      assert forall j :: j in keys <==> j in keys' || j == k;
    }
  }

  /** The dictionary `aggregate_results` returns. The cost is in ether, the
      gas price being in wei. */
  datatype WeeklyResults = WeeklyResults(
    total: nat, affected: nat, highGas: nat, affectedPct: real,
    uniqueAddresses: nat, topAddresses: seq<SenderReport>, totalAdditionalCostEth: real)

  /** Every affected address of every chunk file, in file and row order. */
  function ChunkAddrs(cs: seq<ChunkRecord>): seq<Addr>
  {
    SenderAddrs(AsBatches(cs))
  }

  /** `aggregate_results` over the chunk files read in order; `None` when it
      raises. */
  function WeeklyAggregate(cs: seq<ChunkRecord>): (r: Option<WeeklyResults>)
    ensures r.Some? ==> r.value.total == SumBy(AsBatches(cs), BatchTotal)
    ensures r.Some? && r.value.total == 0 ==> r.value.affectedPct == 0.0
    ensures r.Some? ==> |r.value.topAddresses| == Min(50, r.value.uniqueAddresses)
    ensures r.Some? ==> SortedBy(r.value.topAddresses, SenderRank)
    ensures r.Some? ==> NoneBusierLeftOut(r.value.topAddresses, AccumulateChunks(cs).senders)
  {
    var t := AccumulateChunks(cs);
    ChunksAccumulateLikeBatches(cs);
    AccumulateSummary(AsBatches(cs));
    match WeeklyLines(Dedup(ChunkAddrs(cs)), t.senders)
    case None => None
    case Some(lines) =>
      var sorted := SortBy(lines, SenderRank);
      assert SortedBy(Take(sorted, 50), SenderRank);
      WeeklyTopBusiest(cs, lines);
      Some(WeeklyResults(
        t.summary.total, t.summary.affected, t.summary.highGas,
        AffectedPercentage(t.summary.affected, t.summary.total),
        |sorted|, Take(sorted, 50), TotalCostEth(sorted)))
  }

  /** Where the weekly list exists, no merged address left out of its first
      50 sorted lines is busier than any of them. */
  lemma WeeklyTopBusiest(cs: seq<ChunkRecord>, lines: seq<SenderReport>)
    requires WeeklyLines(Dedup(ChunkAddrs(cs)), AccumulateChunks(cs).senders) == Some(lines)
    ensures NoneBusierLeftOut(Take(SortBy(lines, SenderRank), 50), AccumulateChunks(cs).senders)
  {
    var keys := Dedup(ChunkAddrs(cs));
    var t := AccumulateChunks(cs).senders;
    ChunkKeysCover(cs);
    WeeklyLinesAgree(keys, t);
    SortedTopBusiest(keys, t);
  }

  /** Every merged address is among the chunk files' addresses. */
  lemma ChunkKeysCover(cs: seq<ChunkRecord>)
    ensures forall a :: a in AccumulateChunks(cs).senders ==> a in Dedup(ChunkAddrs(cs))
  {
    ChunksAccumulateLikeBatches(cs);
    SenderKeysCover(AsBatches(cs));
  }

  /** `aggregate_results` succeeds exactly when no address's merged count
      is zero. */
  lemma WeeklyAggregateDefined(cs: seq<ChunkRecord>)
    ensures WeeklyAggregate(cs).Some? <==>
      forall a :: a in AccumulateChunks(cs).senders ==> AccumulateChunks(cs).senders[a].gas.count > 0
  {
    var t := AccumulateChunks(cs).senders;
    var all := ChunkAddrs(cs);
    var keys := Dedup(all);
    ChunksAccumulateLikeBatches(cs);
    SenderTableKeys(AsBatches(cs));
    WeeklyLinesAgree(keys, t);
    forall a | a in t
      ensures a in keys
    {
      var j :| 0 <= j < |all| && all[j] == a;
    }
  }

  /** The per-address rows of the query always have a positive count, so
      on files the script wrote the aggregation succeeds. */
  lemma WeeklyAggregateOnQueryRows(cs: seq<ChunkRecord>)
    requires forall i, j :: 0 <= i < |cs| && 0 <= j < |cs[i].affected| ==> cs[i].affected[j].count > 0
    ensures WeeklyAggregate(cs).Some?
  {
    PositiveCounts(cs);
    WeeklyAggregateDefined(cs);
  }

  lemma {:induction false} PositiveCounts(cs: seq<ChunkRecord>)
    requires forall i, j :: 0 <= i < |cs| && 0 <= j < |cs[i].affected| ==> cs[i].affected[j].count > 0
    ensures forall a :: a in AccumulateChunks(cs).senders ==> AccumulateChunks(cs).senders[a].gas.count > 0
  {
    if |cs| > 0 {
      var cs' := cs[..|cs| - 1];
      var last := cs[|cs| - 1];
      var t := AccumulateChunks(cs').senders;
      PositiveCounts(cs');
      forall j | 0 <= j < |last.affected|
        ensures SenderVal(last.affected[j]).gas.count > 0
        ensures PlusSender(NoSender, SenderVal(last.affected[j])).gas.count > 0
      {
      }
      forall v: SenderAcc, j | 0 <= j < |last.affected| && v.gas.count > 0
        ensures PlusSender(v, SenderVal(last.affected[j])).gas.count > 0
      {
      }
      AbsorbAllKeeps(t, last.affected, SenderKey, SenderVal, NoSender, PlusSender,
                     (v: SenderAcc) => v.gas.count > 0);
      assert AccumulateChunks(cs).senders == AbsorbSenders(t, last.affected);
    }
  }

  /** Where it succeeds, the weekly aggregation reports what the partition
      analysis reports for the same files: the same totals and percentage,
      one address per positive-count line, and the same top-50 list. */
  lemma WeeklyAgreesWithPartitioned(cs: seq<ChunkRecord>)
    ensures var r := WeeklyAggregate(cs);
      var p := AggregateResults(AsBatches(cs));
      r.Some? ==>
        && r.value.total == p.total && r.value.affected == p.affected && r.value.highGas == p.highGas
        && r.value.affectedPct == p.affectedPct
        && r.value.uniqueAddresses == |p.allSenders|
        && r.value.topAddresses == p.topSenders
        && r.value.totalAdditionalCostEth == p.totalAdditionalCostEth
  {
    var t := AccumulateChunks(cs);
    ChunksAccumulateLikeBatches(cs);
    var keys := Dedup(ChunkAddrs(cs));
    WeeklyLinesAgree(keys, t.senders);
  }
}
