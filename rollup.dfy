/**
 * The network-wide averages parseInput recomputes after every probe: each
 * per-node scalar summed over all nodes and divided by the node count.
 */
module NetworkRollup {
  import opened NodeStatsTracker

  /** Which of a node's three scalars is being averaged. */
  datatype Metric = CellsUsageMetric | LatencyMetric | PdrMetric

  function Scalar(n: NodeStats, m: Metric): real
  {
    match m
    case CellsUsageMetric => n.avgCellsUsage
    case LatencyMetric => n.avgLatency
    case PdrMetric => n.avgPdr
  }

  /** The sum of one scalar over the nodes in `keys`, in no particular order. */
  ghost function Total(table: map<string, NodeStats>, keys: set<string>, m: Metric): real
    requires keys <= table.Keys
    decreases keys
  {
    if keys == {} then 0.0
    else
      var k :| k in keys;
      Scalar(table[k], m) + Total(table, keys - {k}, m)
  }

  /** The sum does not depend on the order the nodes are visited in. */
  lemma {:induction false} TotalRemove(table: map<string, NodeStats>, keys: set<string>, m: Metric, k: string)
    requires keys <= table.Keys && k in keys
    ensures Total(table, keys, m) == Scalar(table[k], m) + Total(table, keys - {k}, m)
    decreases keys
  {
    var j :| j in keys && Total(table, keys, m) == Scalar(table[j], m) + Total(table, keys - {j}, m);
    if j != k {
      TotalRemove(table, keys - {j}, m, k);
      TotalRemove(table, keys - {k}, m, j);
      assert keys - {j} - {k} == keys - {k} - {j};
    }
  }

  /** x added to itself n times. */
  function Times(x: real, n: nat): real
  {
    if n == 0 then 0.0 else Times(x, n - 1) + x
  }

  lemma {:induction false} TimesIsProduct(x: real, n: nat)
    ensures Times(x, n) == x * (n as real)
  {
    if n > 0 {
      TimesIsProduct(x, n - 1);
      assert x * (n as real) == x * ((n - 1) as real) + x;
    }
  }

  /** Bounds on every node's scalar bound the sum. */
  lemma {:induction false} TotalWithin(table: map<string, NodeStats>, keys: set<string>, m: Metric, lo: real, hi: real)
    requires keys <= table.Keys
    requires forall k :: k in keys ==> lo <= Scalar(table[k], m) <= hi
    ensures Times(lo, |keys|) <= Total(table, keys, m) <= Times(hi, |keys|)
    decreases keys
  {
    if keys != {} {
      var k :| k in keys;
      TotalRemove(table, keys, m, k);
      TotalWithin(table, keys - {k}, m, lo, hi);
      assert |keys - {k}| == |keys| - 1;
    }
  }

  lemma MeanWithin(total: real, n: real, lo: real, hi: real)
    requires n > 0.0 && lo * n <= total <= hi * n
    ensures lo <= total / n <= hi
  {
  }

  /** Positive scalars give a positive sum over a non-empty set of nodes. */
  lemma {:induction false} TotalPositive(table: map<string, NodeStats>, keys: set<string>, m: Metric)
    requires keys <= table.Keys && keys != {}
    requires forall k :: k in keys ==> 0.0 < Scalar(table[k], m)
    ensures 0.0 < Total(table, keys, m)
    decreases keys
  {
    var k :| k in keys;
    TotalRemove(table, keys, m, k);
    if keys - {k} != {} {
      TotalPositive(table, keys - {k}, m);
    } else {
      assert Total(table, keys - {k}, m) == 0.0;
    }
  }

  datatype Rollup = Rollup(avgCellsUsage: real, avgLatency: real, avgPdr: real)

  /** The unweighted mean of each scalar over every node of the table. */
  ghost function RollupOf(table: map<string, NodeStats>): Rollup
    requires |table| > 0
  {
    var n := |table| as real;
    Rollup(Total(table, table.Keys, CellsUsageMetric) / n,
           Total(table, table.Keys, LatencyMetric) / n,
           Total(table, table.Keys, PdrMetric) / n)
  }

  /** Per-node ratios in (0, 1] give a network delivery ratio in (0, 1]. */
  lemma RollupPdrInRange(table: map<string, NodeStats>)
    requires |table| > 0
    requires forall k :: k in table ==> 0.0 < table[k].avgPdr <= 1.0
    ensures 0.0 < RollupOf(table).avgPdr <= 1.0
  {
    var n := |table.Keys|;
    assert n == |table|;
    var pdr := Total(table, table.Keys, PdrMetric);
    TotalWithin(table, table.Keys, PdrMetric, 0.0, 1.0);
    TotalPositive(table, table.Keys, PdrMetric);
    TimesIsProduct(1.0, n);
    MeanWithin(pdr, n as real, 0.0, 1.0);
  }

  /** Per-node cell usage within [0, 255/64] keeps the network average there too. */
  lemma RollupCellsUsageInRange(table: map<string, NodeStats>)
    requires |table| > 0
    requires forall k :: k in table ==> 0.0 <= table[k].avgCellsUsage <= 255.0 / SlotsPerSlotframe
    ensures 0.0 <= RollupOf(table).avgCellsUsage <= 255.0 / SlotsPerSlotframe
  {
    var n := |table.Keys|;
    assert n == |table|;
    var cells := Total(table, table.Keys, CellsUsageMetric);
    var most := 255.0 / SlotsPerSlotframe;
    TotalWithin(table, table.Keys, CellsUsageMetric, 0.0, most);
    TimesIsProduct(0.0, n);
    TimesIsProduct(most, n);
    MeanWithin(cells, n as real, 0.0, most);
  }

  /** Every valid entry's scalars satisfy the bounds the rollup lemmas need. */
  lemma ValidScalarBounds(table: map<string, NodeStats>)
    requires TableValid(table)
    ensures forall k :: k in table ==> 0.0 < table[k].avgPdr <= 1.0
    ensures forall k :: k in table ==> 0.0 <= table[k].avgCellsUsage <= 255.0 / SlotsPerSlotframe
  {
  }

  /** A network of one node reports that node's own averages. */
  lemma RollupSingle(id: string, s: NodeStats)
    ensures RollupOf(map[id := s]) == Rollup(s.avgCellsUsage, s.avgLatency, s.avgPdr)
  {
    var t := map[id := s];
    assert t.Keys == {id};
    assert |t| == 1;
    forall m: Metric ensures Total(t, t.Keys, m) == Scalar(s, m) {
      TotalRemove(t, t.Keys, m, id);
      assert t.Keys - {id} == {};
    }
  }

  /** Two nodes with ratios 0.5 and 1.0 give a network ratio of 0.75. */
  lemma RollupTwoNodes(a: NodeStats, b: NodeStats)
    requires a.avgPdr == 0.5 && b.avgPdr == 1.0
    ensures RollupOf(map["a" := a, "b" := b]).avgPdr == 0.75
  {
    var t := map["a" := a, "b" := b];
    assert t.Keys == {"a", "b"};
    assert |t| == 2;
    TotalRemove(t, t.Keys, PdrMetric, "a");
    assert t.Keys - {"a"} == {"b"};
    TotalRemove(t, {"b"}, PdrMetric, "b");
    assert {"b"} - {"b"} == {};
  }

  /** The loop of parseInput over avg_pdr_latency_cellUsage.items(). */
  method ComputeRollup(table: map<string, NodeStats>) returns (r: Rollup)
    requires |table| > 0
    ensures r == RollupOf(table)
  {
    var pdrAll, latencyAll, cellsUsageAll := 0.0, 0.0, 0.0;
    var rest := table.Keys;
    while rest != {}
      invariant rest <= table.Keys
      invariant pdrAll == Total(table, table.Keys - rest, PdrMetric)
      invariant latencyAll == Total(table, table.Keys - rest, LatencyMetric)
      invariant cellsUsageAll == Total(table, table.Keys - rest, CellsUsageMetric)
      decreases rest
    {
      var mote :| mote in rest;
      var data := table[mote];
      pdrAll := pdrAll + data.avgPdr;
      latencyAll := latencyAll + data.avgLatency;
      cellsUsageAll := cellsUsageAll + data.avgCellsUsage;
      var done := table.Keys - rest;
      assert table.Keys - (rest - {mote}) == done + {mote};
      assert done + {mote} - {mote} == done;
      TotalRemove(table, done + {mote}, PdrMetric, mote);
      TotalRemove(table, done + {mote}, LatencyMetric, mote);
      TotalRemove(table, done + {mote}, CellsUsageMetric, mote);
      rest := rest - {mote};
    }
    assert table.Keys - {} == table.Keys;
    var numMotes := |table| as real;
    r := Rollup(cellsUsageAll / numMotes, latencyAll / numMotes, pdrAll / numMotes);
  }
}
