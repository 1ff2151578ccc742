/** Block-window arithmetic: widening a window to whole partitions, slicing
    the analysed range into fixed-size batches, and the older weekly-chunk
    and fixed-day planners. Block numbers are `int`: for a positive divisor
    Dafny's Euclidean `/` and `%` agree with Python's `//` and `%`, so the
    formulas below are the scripts' formulas even for negative blocks. */
module Planner {
  import opened Base

  /** The half-open block range `[start, end)` of a query. */
  datatype Window = Window(start: int, end: int)

  predicate Contains(w: Window, b: int)
  {
    w.start <= b < w.end
  }

  /** First block of the partition holding `b`: `(b // P) * P`. */
  function AlignDown(b: int, p: nat): (r: int)
    requires p > 0
    ensures r % p == 0
    ensures r <= b < r + p
  {
    MultipleOf(b / p, p);
    (b / p) * p
  }

  /** End of the partition holding block `e - 1`: `((e - 1) // P + 1) * P`. */
  function AlignUp(e: int, p: nat): (r: int)
    requires p > 0
    ensures r % p == 0
    ensures e <= r < e + p
  {
    MultipleOf((e - 1) / p + 1, p);
    MulStep((e - 1) / p, p);
    ((e - 1) / p + 1) * p
  }

  /** The widening `process_partition_batch` applies before querying. */
  function Align(w: Window, p: nat): (r: Window)
    requires p > 0
    ensures r.start % p == 0 && r.end % p == 0
    ensures r.start <= w.start && w.end <= r.end
    ensures w.start - p < r.start && r.end < w.end + p
  {
    Window(AlignDown(w.start, p), AlignUp(w.end, p))
  }

  /** No partition-aligned window that contains `w` is shorter than
      `Align(w, p)`: the widening is minimal. */
  lemma AlignIsMinimal(w: Window, p: nat, a: int, c: int)
    requires p > 0
    requires a % p == 0 && c % p == 0
    requires a <= w.start && w.end <= c
    ensures a <= Align(w, p).start && Align(w, p).end <= c
  {
    var r := Align(w, p);
    if r.start < a {
      MultiplesGap(r.start, a, p);
    }
    if c < r.end {
      MultiplesGap(c, r.end, p);
    }
  }

  /** The widenings the alignment tests expect, 1000-block partitions. */
  lemma AlignExamples()
    ensures Align(Window(5000, 6000), PartitionSize) == Window(5000, 6000)
    ensures Align(Window(5001, 5999), PartitionSize) == Window(5000, 6000)
    ensures Align(Window(1500, 3500), PartitionSize) == Window(1000, 4000)
    ensures Align(Window(999, 1001), PartitionSize) == Window(0, 2000)
    ensures Align(Window(0, 1), PartitionSize) == Window(0, 1000)
  {
  }

  /** `num_batches = (total_blocks + batch_size - 1) // batch_size`, which is
      the ceiling of `total / size`. */
  function NumBatches(total: nat, size: nat): (n: nat)
    requires size > 0
    ensures (n - 1) * size < total <= n * size
  {
    MulStep((total + size - 1) / size - 1, size);
    (total + size - 1) / size
  }

  /** Batch `k` of the run ending at `latest`: it starts `k` batches after
      `latest - total` and is cut at `latest`. */
  function BatchWindow(latest: int, total: nat, size: nat, k: nat): Window
  {
    var batchStart := latest - total + k * size;
    Window(batchStart, Min(batchStart + size, latest))
  }

  /** The batch windows `main` walks through, in batch-id order. */
  function Plan(latest: int, total: nat, size: nat): (ws: seq<Window>)
    requires size > 0
    ensures |ws| == NumBatches(total, size)
    ensures forall k :: 0 <= k < |ws| ==> ws[k] == BatchWindow(latest, total, size, k)
  {
    seq(NumBatches(total, size), k requires 0 <= k => BatchWindow(latest, total, size, k))
  }

  /** Every batch window is non-empty and at most one batch long, the first
      starts at `latest - total`, the last ends at `latest`, and each one
      ends where the next begins. */
  lemma PlanIsContiguous(latest: int, total: nat, size: nat)
    requires size > 0
    ensures var ws := Plan(latest, total, size);
      && (forall k :: 0 <= k < |ws| ==> ws[k].start < ws[k].end <= ws[k].start + size)
      && (|ws| > 0 ==> ws[0].start == latest - total && ws[|ws| - 1].end == latest)
      && (forall k :: 0 <= k < |ws| - 1 ==> ws[k].end == ws[k + 1].start)
  {
    var ws := Plan(latest, total, size);
    var n := |ws|;
    forall k | 0 <= k < n
      ensures ws[k].start < ws[k].end <= ws[k].start + size
    {
      MulLe(k, n - 1, size);
    }
    if n > 0 {
      MulStep(n - 1, size);
    }
    forall k | 0 <= k < n - 1
      ensures ws[k].end == ws[k + 1].start
    {
      MulLe(k + 1, n - 1, size);
      MulStep(k, size);
    }
  }

  /** The batch windows tile `[latest - total, latest)` exactly: block `b`
      lies in window `k` if and only if `b` is in the range and `k` is the
      batch index `(b - start) // size`. So every block is covered, and by
      exactly one window. */
  lemma PlanTiles(latest: int, total: nat, size: nat, b: int, k: nat)
    requires size > 0
    requires k < NumBatches(total, size)
    ensures Contains(Plan(latest, total, size)[k], b)
        <==> latest - total <= b < latest && k == (b - (latest - total)) / size
  {
    var start := latest - total;
    var n := NumBatches(total, size);
    var w := Plan(latest, total, size)[k];
    assert w == BatchWindow(latest, total, size, k);
    if Contains(w, b) {
      DivUnique(b - start, size, k);
      MulLe(k, n - 1, size);
    }
    if latest - total <= b < latest && k == (b - start) / size {
      var d := b - start;
      assert d == k * size + d % size;
    }
  }

  /** The windows `process_partition_batch` actually queries. */
  function AlignedPlan(latest: int, total: nat, size: nat, p: nat): (ws: seq<Window>)
    requires size > 0 && p > 0
    ensures |ws| == NumBatches(total, size)
    ensures forall k :: 0 <= k < |ws| ==> ws[k] == Align(Plan(latest, total, size)[k], p)
  {
    var plan := Plan(latest, total, size);
    seq(|plan|, k requires 0 <= k < |plan| => Align(plan[k], p))
  }

  /** With batches a whole number of partitions long, two consecutive
      aligned windows overlap (share exactly one partition) if and only if
      the analysed range does not start on a partition boundary. */
  lemma AlignedNeighboursOverlap(latest: int, total: nat, size: nat, p: nat, k: nat)
    requires size > 0 && p > 0 && size % p == 0
    requires k + 1 < NumBatches(total, size)
    ensures var ws := AlignedPlan(latest, total, size, p);
      && (ws[k].end > ws[k + 1].start <==> (latest - total) % p != 0)
      && (ws[k].end > ws[k + 1].start ==> ws[k].end == ws[k + 1].start + p)
  {
    var plan := Plan(latest, total, size);
    PlanIsContiguous(latest, total, size);
    var m := plan[k].end;
    assert m == plan[k + 1].start;
    assert m == (latest - total) + (k + 1) * size;
    ShiftByMultiple(latest - total, p, size, k + 1);
    AlignBoundary(m, p);
  }

  /** Adding a whole number of batches, each a whole number of partitions,
      keeps the offset inside the partition. */
  lemma ShiftByMultiple(s: int, p: nat, size: nat, j: nat)
    requires p > 0 && size % p == 0
    ensures (s + j * size) % p == s % p
  {
    var q := size / p;
    assert size == q * p;
    assert j * size == (j * q) * p;
    ModAddMultiple(s, j * q, p);
  }

  /** The partition end after block `m - 1` is `m` itself when `m` is on a
      boundary and otherwise one partition above the start of `m`'s own
      partition. */
  lemma AlignBoundary(m: int, p: nat)
    requires p > 0
    ensures (AlignUp(m, p) == AlignDown(m, p)) <==> m % p == 0
    ensures m % p != 0 ==> AlignUp(m, p) == AlignDown(m, p) + p
  {
    var lo := AlignDown(m, p);
    var hi := AlignUp(m, p);
    if m % p == 0 {
      if lo < m {
        MultiplesGap(lo, m, p);
      }
      if m < hi {
        MultiplesGap(m, hi, p);
      }
    } else {
      assert lo < m <= hi;
      MultiplesGap(lo, hi, p);
      ModAddMultiple(lo, 1, p);
      if lo + p < hi {
        MultiplesGap(lo + p, hi, p);
      }
    }
  }

  /** When the range starts on a partition boundary, the aligned windows are
      pairwise disjoint: every earlier window ends at or before every later
      window starts. */
  lemma {:induction false} AlignedPlanDisjoint(latest: int, total: nat, size: nat, p: nat, j: nat, k: nat)
    requires size > 0 && p > 0 && size % p == 0
    requires (latest - total) % p == 0
    requires j < k < NumBatches(total, size)
    ensures var ws := AlignedPlan(latest, total, size, p);
      ws[j].end <= ws[k].start
    decreases k - j
  {
    var ws := AlignedPlan(latest, total, size, p);
    AlignedNeighboursOverlap(latest, total, size, p, j);
    if j + 1 < k {
      AlignedPlanDisjoint(latest, total, size, p, j + 1, k);
      PlanIsContiguous(latest, total, size);
      assert ws[j + 1].start <= ws[j + 1].end;
    }
  }

  // ----- the six-month partitioned run and the CDF run -----

  /** 180 days of blocks in batches of ten partitions. */
  const SixMonthBlocks: nat := 180 * BlocksPerDay
  const SixMonthBatch: nat := 10 * PartitionSize
  /** 183 days of blocks in batches of twenty partitions. */
  const CdfBlocks: nat := (30 * 6 + 3) * BlocksPerDay
  const CdfBatch: nat := 20 * PartitionSize

  /** 1,296,000 blocks in batches of 10,000 give 130 batches, the last one
      cut short; the CDF run needs 66. */
  lemma BatchCounts()
    ensures NumBatches(SixMonthBlocks, SixMonthBatch) == 130
    ensures NumBatches(CdfBlocks, CdfBatch) == 66
  {
  }

  // ----- the weekly-chunk planner of the first six-month script -----

  const AnalysedDays: nat := 180
  const ChunkDays: nat := 7
  /** `DAYS_TO_ANALYZE // CHUNK_SIZE_DAYS`. */
  const NumChunks: nat := AnalysedDays / ChunkDays

  /** `get_block_range(days_ago_start, days_ago_end)` for chunk `k`, with the
      latest block held fixed. */
  function ChunkWindow(latest: int, k: nat): Window
  {
    var daysAgoStart := AnalysedDays - k * ChunkDays;
    var daysAgoEnd := daysAgoStart - ChunkDays;
    Window(latest - daysAgoStart * BlocksPerDay, latest - daysAgoEnd * BlocksPerDay)
  }

  function ChunkPlan(latest: int): seq<Window>
  {
    seq(NumChunks, k requires 0 <= k => ChunkWindow(latest, k))
  }

  /** The 25 weekly chunks are exactly the batch plan of 175 days in batches
      of one week ending five days before `latest`: they are contiguous, each
      spans 50,400 blocks, and together they cover
      `[latest - 180 days, latest - 5 days)`, leaving the most recent five
      days unanalysed. */
  lemma ChunksAreAPlan(latest: int)
    ensures NumChunks == 25
    ensures ChunkPlan(latest)
         == Plan(latest - 5 * BlocksPerDay, 175 * BlocksPerDay, ChunkDays * BlocksPerDay)
    ensures forall k :: 0 <= k < NumChunks ==>
              ChunkPlan(latest)[k].end - ChunkPlan(latest)[k].start == 50_400
    ensures ChunkPlan(latest)[0].start == latest - 180 * BlocksPerDay
    ensures ChunkPlan(latest)[NumChunks - 1].end == latest - 5 * BlocksPerDay
  {
    var cp := ChunkPlan(latest);
    var pl := Plan(latest - 5 * BlocksPerDay, 175 * BlocksPerDay, ChunkDays * BlocksPerDay);
    assert NumBatches(175 * BlocksPerDay, ChunkDays * BlocksPerDay) == 25;
    forall k | 0 <= k < 25
      ensures cp[k] == pl[k]
    {
      assert (k + 1) * 50400 <= 25 * 50400;
    }
  }

  // ----- the fixed-day ranges of the 30-day scripts -----

  /** `calculate_block_range_for_days`: `(start, end, total)` counted back
      from the latest block, or from the hard-coded block 22,678,052 when the
      lookup fails. */
  function DaysRange(latest: Option<int>, days: nat): (r: (Window, int))
    ensures r.0.end - r.0.start == r.1 == days * BlocksPerDay
    ensures latest.Some? ==> r.0.end == latest.value
    ensures latest.None? ==> r.0.end == 22_678_052
  {
    match latest
    case Some(l) =>
      var estimated := days * BlocksPerDay;
      (Window(l - estimated, l), estimated)
    case None =>
      var end := 22_678_052;
      var start := end - days * BlocksPerDay;
      (Window(start, end), end - start)
  }

  /** The 30-day script's query range `block_number >= latest - 216000 AND
      block_number <= latest`, written half-open. Unlike every other query it
      includes `latest`, so it spans 216,001 blocks. */
  function ThirtyDayRange(latest: int): (w: Window)
    ensures w.end - w.start == 216_001
    ensures Contains(w, latest) && Contains(w, latest - 216_000)
    ensures !Contains(w, latest + 1) && !Contains(w, latest - 216_001)
  {
    Window(latest - 216_000, latest + 1)
  }
}
