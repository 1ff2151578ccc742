/** The per-batch rows the SQL queries return and the accumulators the
    aggregation steps merge them into. A batch reports averages; merging
    multiplies each average back by its count, so the accumulators hold
    exact weighted sums (`real`) and the final average is the true mean. */
module Accumulators {
  import opened Base
  import opened Tables

  // ----- summary counters -----

  /** The three COUNTs of a summary query. */
  datatype Summary = Summary(total: nat, affected: nat, highGas: nat)

  const NoSummary: Summary := Summary(0, 0, 0)

  function AddSummary(a: Summary, b: Summary): (r: Summary)
  {
    Summary(a.total + b.total, a.affected + b.affected, a.highGas + b.highGas)
  }

  /** `affected / total * 100`, or 0 when nothing was counted. */
  function AffectedPercentage(affected: nat, total: nat): (pct: real)
    ensures total == 0 ==> pct == 0.0
    ensures total > 0 ==> pct * (total as real) == 100.0 * (affected as real)
    ensures affected <= total ==> 0.0 <= pct <= 100.0
  {
    if total > 0 then (affected as real) / (total as real) * 100.0 else 0.0
  }

  // ----- gas-limit accumulators -----

  /** Transactions seen, the sum of their gas limits and the largest one. */
  datatype GasAcc = GasAcc(count: nat, gasSum: real, maxGas: nat)

  const NoGas: GasAcc := GasAcc(0, 0.0, 0)

  function PlusGas(a: GasAcc, b: GasAcc): GasAcc
  {
    GasAcc(a.count + b.count, a.gasSum + b.gasSum, MaxNat(a.maxGas, b.maxGas))
  }

  /** A grouped row `(count, avg, max)` as an accumulator: the average is
      weighted by its count. */
  function GasOf(count: nat, avg: real, maxGas: nat): (a: GasAcc)
    ensures count > 0 ==> a.gasSum / (count as real) == avg
  {
    GasAcc(count, avg * (count as real), maxGas)
  }

  /** The weighted mean `total_gas_limit / transaction_count`. */
  function Mean(a: GasAcc): real
    requires a.count > 0
  {
    a.gasSum / (a.count as real)
  }

  /** What holds of every address the cap affects: it sent something, its
      mean gas limit is above the cap and its largest limit is at least the
      mean. */
  predicate Affected(a: GasAcc)
  {
    && a.count > 0
    && a.gasSum > (GasCap * a.count) as real
    && a.gasSum <= (a.count * a.maxGas) as real
  }

  /** A row with `count > 0`, `avg > cap` and `max >= avg` is affected. */
  lemma RowIsAffected(count: nat, avg: real, maxGas: nat)
    requires count > 0 && avg > GasCap as real && maxGas as real >= avg
    ensures Affected(GasOf(count, avg, maxGas))
  {
    var c := count as real;
    assert avg * c > (GasCap as real) * c;
    assert (maxGas as real) * c >= avg * c;
  }

  /** Merging two affected accumulators gives an affected one. */
  lemma PlusKeepsAffected(a: GasAcc, b: GasAcc)
    requires Affected(a) && Affected(b)
    ensures Affected(PlusGas(a, b))
  {
    var m := MaxNat(a.maxGas, b.maxGas);
    MulLe(a.maxGas, m, a.count);
    MulLe(b.maxGas, m, b.count);
    assert (a.count + b.count) * m == a.count * m + b.count * m;
    assert GasCap * (a.count + b.count) == GasCap * a.count + GasCap * b.count;
  }

  /** An affected accumulator's mean is above the cap and at most its max. */
  lemma AffectedMean(a: GasAcc)
    requires Affected(a)
    ensures Mean(a) > GasCap as real
    ensures a.maxGas as real >= Mean(a)
  {
    var c := a.count as real;
    assert (GasCap * a.count) as real == (GasCap as real) * c;
    assert (a.count * a.maxGas) as real == c * (a.maxGas as real);
    assert Mean(a) * c == a.gasSum;
  }

  lemma GasMergeLaws()
    ensures IsCommutativeSemigroup(PlusGas)
    ensures forall a :: PlusGas(NoGas, a) == a
  {
  }

  // ----- per-sender accumulators -----

  /** A sender's accumulator: its gas, the summed excess over the cap, the
      count-weighted gas price and the number of batches it appeared in. */
  datatype SenderAcc = SenderAcc(gas: GasAcc, excess: int, priceSum: real, appearances: nat)

  const NoSender: SenderAcc := SenderAcc(NoGas, 0, 0.0, 0)

  function PlusSender(a: SenderAcc, b: SenderAcc): SenderAcc
  {
    SenderAcc(PlusGas(a.gas, b.gas), a.excess + b.excess, a.priceSum + b.priceSum,
              a.appearances + b.appearances)
  }

  lemma SenderMergeLaws()
    ensures IsCommutativeSemigroup(PlusSender)
    ensures forall a :: PlusSender(NoSender, a) == a
  {
    forall a, b
      ensures PlusSender(a, b) == PlusSender(b, a)
    {
      assert PlusGas(a.gas, b.gas) == PlusGas(b.gas, a.gas);
    }
    forall a, b, c
      ensures PlusSender(PlusSender(a, b), c) == PlusSender(a, PlusSender(b, c))
    {
      assert PlusGas(PlusGas(a.gas, b.gas), c.gas) == PlusGas(a.gas, PlusGas(b.gas, c.gas));
    }
    forall a
      ensures PlusSender(NoSender, a) == a
    {
      assert PlusGas(NoGas, a.gas) == a.gas;
    }
  }

  // ----- the split cost -----

  /** `ceil(avg / cap)`: the number of transactions of at most the cap that
      `avg` gas needs. */
  function Splits(avg: real): (n: int)
    ensures ((n - 1) * GasCap) as real < avg <= (n * GasCap) as real
  {
    var c := GasCap as real;
    var n := Ceil(avg / c);
    assert (n - 1) as real < avg / c <= n as real;
    assert ((n - 1) * GasCap) as real == (n - 1) as real * c;
    assert (n * GasCap) as real == n as real * c;
    n
  }

  /** `(splits - 1) * 21000`: the intrinsic gas of the extra transactions. */
  function AdditionalGas(splits: int): int
  {
    (splits - 1) * BaseGasCost
  }

  /** Above the cap at least two transactions are needed, and at most the
      cap exactly one. */
  lemma SplitsAboveCap(avg: real)
    ensures avg > GasCap as real ==> Splits(avg) >= 2 && AdditionalGas(Splits(avg)) >= BaseGasCost
    ensures 0.0 < avg <= GasCap as real ==> Splits(avg) == 1 && AdditionalGas(Splits(avg)) == 0
  {
  }

  /** The boundary cases of the split count. */
  lemma SplitsExamples()
    ensures Splits(16_777_216.0) == 1
    ensures Splits(16_777_217.0) == 2
    ensures Splits(33_554_432.0) == 2
    ensures Splits(33_554_433.0) == 3
    ensures Splits(50_331_648.0) == 3
    ensures Splits(50_331_649.0) == 4
  {
  }

  // ----- grouped rows and their reports -----

  type Addr = string

  /** One row of the per-sender query: transactions over the cap sent by
      `addr` in one batch, their average and largest gas limit, their summed
      excess over the cap and their average gas price. */
  datatype SenderRow = SenderRow(addr: Addr, count: nat, avgGas: real, maxGas: nat, excess: int, avgPrice: real)

  /** One row of the per-recipient query. */
  datatype RecipientRow = RecipientRow(addr: Addr, count: nat, avgGas: real, maxGas: nat)

  function SenderKey(r: SenderRow): Addr { r.addr }
  function RecipientKey(r: RecipientRow): Addr { r.addr }

  /** A sender row's contribution; it counts as one appearance. */
  function SenderVal(r: SenderRow): (a: SenderAcc)
    ensures a.gas.count == r.count && a.excess == r.excess && a.appearances == 1
    ensures r.count > 0 ==> a.gas.gasSum / (r.count as real) == r.avgGas
  {
    SenderAcc(GasOf(r.count, r.avgGas, r.maxGas), r.excess, r.avgPrice * (r.count as real), 1)
  }

  function RecipientVal(r: RecipientRow): (a: GasAcc)
    ensures a.count == r.count
    ensures r.count > 0 ==> a.gasSum / (r.count as real) == r.avgGas
  {
    GasOf(r.count, r.avgGas, r.maxGas)
  }

  /** What the query guarantees of a row over the cap. */
  predicate SenderRowAffected(r: SenderRow)
  {
    r.count > 0 && r.avgGas > GasCap as real && r.maxGas as real >= r.avgGas
  }

  /** A sender's final line: the merged count, mean gas limit, largest
      limit and excess, the split count of the mean and its extra intrinsic
      gas, and the mean gas price. */
  datatype SenderReport = SenderReport(
    addr: Addr, count: nat, avgGas: real, maxGas: nat, excess: int,
    splits: int, additionalGas: int, avgPrice: real)

  function SenderReportOf(addr: Addr, a: SenderAcc): (r: SenderReport)
    requires a.gas.count > 0
    ensures r.addr == addr && r.count == a.gas.count && r.maxGas == a.gas.maxGas && r.excess == a.excess
    ensures r.avgGas * (r.count as real) == a.gas.gasSum
    ensures r.avgPrice * (r.count as real) == a.priceSum
    ensures ((r.splits - 1) * GasCap) as real < r.avgGas <= (r.splits * GasCap) as real
    ensures r.additionalGas == (r.splits - 1) * BaseGasCost
  {
    var avg := Mean(a.gas);
    var splits := Splits(avg);
    SenderReport(addr, a.gas.count, avg, a.gas.maxGas, a.excess, splits, AdditionalGas(splits),
                 a.priceSum / (a.gas.count as real))
  }

  /** The report of an affected sender needs at least one extra
      transaction. */
  lemma AffectedReport(addr: Addr, a: SenderAcc)
    requires Affected(a.gas)
    ensures var r := SenderReportOf(addr, a);
      && r.avgGas > GasCap as real && r.maxGas as real >= r.avgGas
      && r.splits >= 2 && r.additionalGas >= BaseGasCost
  {
    AffectedMean(a.gas);
    SplitsAboveCap(Mean(a.gas));
  }

  /** A recipient's final line. */
  datatype RecipientReport = RecipientReport(addr: Addr, count: nat, avgGas: real, maxGas: nat)

  function RecipientReportOf(addr: Addr, a: GasAcc): (r: RecipientReport)
    requires a.count > 0
    ensures r.addr == addr && r.count == a.count && r.maxGas == a.maxGas
    ensures r.avgGas * (r.count as real) == a.gasSum
  {
    RecipientReport(addr, a.count, Mean(a), a.maxGas)
  }

  /** Sort keys for `sort(key=transaction_count, reverse=True)`. */
  function SenderRank(r: SenderReport): int { 0 - r.count as int }
  function RecipientRank(r: RecipientReport): int { 0 - r.count as int }

  // ----- gas-efficiency accumulators -----

  /** The efficiency query's row: how many transactions were over the cap,
      how many of them used less gas than the cap, average limit and usage,
      and the smallest and largest usage. */
  datatype Efficiency = Efficiency(
    total: nat, unnecessary: nat, avgLimit: real, avgUsed: real, minUsed: nat, maxUsed: nat)

  /** The running efficiency statistics. `minUsed == None` stands for the
      initial `float('inf')`. */
  datatype EffAcc = EffAcc(
    total: nat, unnecessary: nat, sumLimit: real, sumUsed: real, count: nat,
    minUsed: Option<nat>, maxUsed: nat)

  const NoEff: EffAcc := EffAcc(0, 0, 0.0, 0.0, 0, None, 0)

  function MinOpt(a: Option<nat>, b: Option<nat>): (r: Option<nat>)
    ensures r.None? <==> a.None? && b.None?
    ensures a.Some? ==> r.value <= a.value
    ensures b.Some? ==> r.value <= b.value
    ensures r.Some? ==> r == a || r == b
  {
    match (a, b)
    case (None, _) => b
    case (_, None) => a
    case (Some(x), Some(y)) => Some(if x <= y then x else y)
  }

  /** A row's contribution: averages weighted by the row's count. */
  function EffOf(e: Efficiency): EffAcc
  {
    EffAcc(e.total, e.unnecessary, e.avgLimit * (e.total as real), e.avgUsed * (e.total as real),
           e.total, Some(e.minUsed), e.maxUsed)
  }

  function PlusEff(a: EffAcc, b: EffAcc): EffAcc
  {
    EffAcc(a.total + b.total, a.unnecessary + b.unnecessary, a.sumLimit + b.sumLimit,
           a.sumUsed + b.sumUsed, a.count + b.count, MinOpt(a.minUsed, b.minUsed),
           MaxNat(a.maxUsed, b.maxUsed))
  }

  /** The shape every accumulated efficiency keeps: `count` and
      `total_overprovision` move together, a minimum exists exactly when
      something was counted, and the counts and usage bounds stay ordered. */
  predicate EffConsistent(a: EffAcc)
  {
    && a.count == a.total
    && (a.count > 0 <==> a.minUsed.Some?)
    && a.unnecessary <= a.total
    && (a.minUsed.Some? ==> a.minUsed.value <= a.maxUsed)
  }

  /** A row with something counted, `unnecessary <= total` and
      `min <= max` contributes a consistent accumulator, and merging keeps
      consistency. */
  lemma EffConsistentMerge(a: EffAcc, e: Efficiency)
    requires EffConsistent(a)
    requires e.total > 0 && e.unnecessary <= e.total && e.minUsed <= e.maxUsed
    ensures EffConsistent(PlusEff(a, EffOf(e)))
    ensures PlusEff(a, EffOf(e)).count > 0
  {
  }

  lemma EffMergeLaws()
    ensures IsCommutativeSemigroup(PlusEff)
    ensures forall a :: PlusEff(NoEff, a) == a
  {
  }

  /** The two-batch merge the aggregation tests expect: a sender seen with
      5 transactions averaging 20,000,000 and then with 3 averaging
      22,000,000, a recipient seen 8 and then 5 times, and two efficiency
      rows. */
  lemma MergeExample()
    ensures var a := PlusSender(
              PlusSender(NoSender, SenderVal(SenderRow("0xaddr1", 5, 20_000_000.0, 25_000_000, 15_000_000, 30_000_000_000.0))),
              SenderVal(SenderRow("0xaddr1", 3, 22_000_000.0, 26_000_000, 16_800_000, 32_000_000_000.0)));
      && a.gas.count == 8 && Mean(a.gas) == 20_750_000.0
      && a.gas.maxGas == 26_000_000 && a.excess == 31_800_000
    ensures PlusGas(PlusGas(NoGas, RecipientVal(RecipientRow("0xtoaddr1", 8, 19_000_000.0, 24_000_000))),
                    RecipientVal(RecipientRow("0xtoaddr1", 5, 21_000_000.0, 26_000_000))).count == 13
    ensures var e := PlusEff(
              PlusEff(NoEff, EffOf(Efficiency(10, 2, 19_500_000.0, 15_000_000.0, 12_000_000, 18_000_000))),
              EffOf(Efficiency(15, 5, 22_000_000.0, 17_000_000.0, 13_000_000, 20_000_000)));
      && e.total == 25 && e.unnecessary == 7 && AffectedPercentage(e.unnecessary, e.total) == 28.0
      && e.minUsed == Some(12_000_000) && e.maxUsed == 20_000_000
  {
  }
}
