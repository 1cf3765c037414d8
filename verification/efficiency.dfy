/** The effective efficiency of a chain of upgrades
    (`_calculate_effective_efficiency`): the chain's summed cost, in
    resources or in time, divided by the culture points it adds. Lower is
    better. Also the per-level culture-point column (`add_cp_delta_column`). */
module Efficiencies {
  import opened CostTable

  /** What the scheduler optimises: resources (the `total` column) or
      build time (the `time` column). */
  datatype Metric = Res | Time

  /** An efficiency value: `Undefined` stands for the NaN / NaT the source
      returns when a chain adds no culture points. */
  datatype Eff = Undefined | Val(v: real)

  /** The strict order the source's comparisons give: any comparison with
      an undefined value is false. */
  predicate Less(a: Eff, b: Eff)
    ensures Less(a, b) ==> a.Val? && b.Val?
  {
    a.Val? && b.Val? && a.v < b.v
  }

  lemma LessIrreflexive(a: Eff)
    ensures !Less(a, a)
  {
  }

  lemma LessTransitive(a: Eff, b: Eff, c: Eff)
    requires Less(a, b) && Less(b, c)
    ensures Less(a, c)
  {
  }

  /** An undefined efficiency is neither below nor above anything. */
  lemma LessUndefined(a: Eff)
    ensures !Less(Undefined, a) && !Less(a, Undefined)
  {
  }

  /** The cost column selected by the metric. */
  function CostOf(row: Row, metric: Metric): int {
    match metric
    case Res => row.cost
    case Time => row.time
  }

  /** The culture points the rows of `order` add. */
  function CpSum(cfg: Config, order: seq<nat>): int
    requires ValidIndices(cfg, order)
  {
    if order == [] then 0
    else CpSum(cfg, order[..|order| - 1]) + cfg.table[order[|order| - 1]].cpDelta
  }

  /** The summed cost of the rows of `order` in the chosen column. */
  function CostSum(cfg: Config, order: seq<nat>, metric: Metric): int
    requires ValidIndices(cfg, order)
  {
    if order == [] then 0
    else CostSum(cfg, order[..|order| - 1], metric) + CostOf(cfg.table[order[|order| - 1]], metric)
  }

  /** The effective efficiency of `order`: undefined exactly when it adds
      no culture points, otherwise the value that, multiplied by the culture
      points, gives back the cost. */
  function Efficiency(cfg: Config, order: seq<nat>, metric: Metric): (r: Eff)
    requires ValidIndices(cfg, order)
    ensures r.Undefined? <==> CpSum(cfg, order) == 0
    ensures r.Val? ==> r.v * CpSum(cfg, order) as real == CostSum(cfg, order, metric) as real
  {
    var cp := CpSum(cfg, order);
    if cp == 0 then Undefined else Val(CostSum(cfg, order, metric) as real / cp as real)
  }

  /** The summing loop of `_calculate_effective_efficiency`. */
  method EffectiveEfficiency(cfg: Config, order: seq<nat>, metric: Metric) returns (e: Eff)
    requires ValidIndices(cfg, order)
    ensures e == Efficiency(cfg, order, metric)
  {
    var cpSum := 0;
    var costSum := 0;
    var k := 0;
    while k < |order|
      invariant 0 <= k <= |order|
      invariant cpSum == CpSum(cfg, order[..k])
      invariant costSum == CostSum(cfg, order[..k], metric)
    {
      assert order[..k + 1][..k] == order[..k];
      cpSum := cpSum + cfg.table[order[k]].cpDelta;
      costSum := costSum + CostOf(cfg.table[order[k]], metric);
      k := k + 1;
    }
    assert order[..k] == order;
    if cpSum == 0 {
      e := Undefined;
    } else {
      e := Val(costSum as real / cpSum as real);
    }
  }

  /** An empty chain has an undefined efficiency. */
  lemma EfficiencyEmpty(cfg: Config, metric: Metric)
    ensures Efficiency(cfg, [], metric) == Undefined
  {
  }

  /** Both sums split over a concatenation of chains. */
  lemma {:induction false} SumsAppend(cfg: Config, a: seq<nat>, b: seq<nat>, metric: Metric)
    requires ValidIndices(cfg, a) && ValidIndices(cfg, b)
    ensures ValidIndices(cfg, a + b)
    ensures CpSum(cfg, a + b) == CpSum(cfg, a) + CpSum(cfg, b)
    ensures CostSum(cfg, a + b, metric) == CostSum(cfg, a, metric) + CostSum(cfg, b, metric)
  {
    if b != [] {
      SumsAppend(cfg, a, b[..|b| - 1], metric);
      assert (a + b)[..|a + b| - 1] == a + b[..|b| - 1];
    } else {
      assert a + b == a;
    }
  }

  /** A single row's efficiency is its own cost over its own culture points. */
  lemma EfficiencySingle(cfg: Config, i: nat, metric: Metric)
    requires i < |cfg.table|
    ensures var row := cfg.table[i];
      Efficiency(cfg, [i], metric)
        == if row.cpDelta == 0 then Undefined else Val(CostOf(row, metric) as real / row.cpDelta as real)
  {
    assert [i][..0] == [];
    assert CpSum(cfg, [i]) == cfg.table[i].cpDelta;
    assert CostSum(cfg, [i], metric) == CostOf(cfg.table[i], metric);
  }

  // ---------------------------------------------------------------------
  // The culture-point delta column

  /** `add_cp_delta_column` for one building: the first level keeps its
      culture points, every later level the increase over the level below. */
  function CpDeltas(cp: seq<int>): (d: seq<int>)
    ensures |d| == |cp|
  {
    if cp == [] then []
    else if |cp| == 1 then [cp[0]]
    else CpDeltas(cp[..|cp| - 1]) + [cp[|cp| - 1] - cp[|cp| - 2]]
  }

  function Sum(s: seq<int>): int {
    if s == [] then 0 else Sum(s[..|s| - 1]) + s[|s| - 1]
  }

  /** The deltas telescope: the first `k` of them add up to the culture
      points of level `k`. */
  lemma CpDeltasTelescope(cp: seq<int>, k: nat)
    requires 0 < k <= |cp|
    ensures Sum(CpDeltas(cp)[..k]) == cp[k - 1]
  {
    CpDeltasPrefix(cp, k);
    CpDeltasSum(cp[..k]);
  }

  lemma {:induction false} CpDeltasSum(cp: seq<int>)
    requires cp != []
    ensures Sum(CpDeltas(cp)) == cp[|cp| - 1]
  {
    if |cp| > 1 {
      var front := cp[..|cp| - 1];
      CpDeltasSum(front);
      var d := CpDeltas(cp);
      assert d[..|d| - 1] == CpDeltas(front);
    }
  }

  /** The deltas of a prefix are the prefix of the deltas. */
  lemma {:induction false} CpDeltasPrefix(cp: seq<int>, k: nat)
    requires 0 < k <= |cp|
    ensures CpDeltas(cp)[..k] == CpDeltas(cp[..k])
    decreases |cp|
  {
    if k < |cp| {
      CpDeltasPrefix(cp[..|cp| - 1], k);
      assert cp[..|cp| - 1][..k] == cp[..k];
      if |cp| > 1 {
        assert CpDeltas(cp)[..|cp| - 1] == CpDeltas(cp[..|cp| - 1]);
      }
    } else {
      assert cp[..k] == cp;
    }
  }
}
