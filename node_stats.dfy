/**
 * Per-node statistics of ParserData.avg_pdr_latency_cellUsage: the samples a
 * node's probes carried and the three averages recomputed on every probe.
 */
module NodeStatsTracker {
  import opened Wrappers
  import opened AsnCodec

  /** Slots per slotframe: the divisor of the cell-usage average. */
  const SlotsPerSlotframe: real := 64.0
  /** MSPERSLOT: the duration of one slot, in seconds despite its name. */
  const SecondsPerSlot: real := 0.02

  predicate Sorted(s: seq<int>)
  {
    forall i, j :: 0 <= i < j < |s| ==> s[i] <= s[j]
  }

  /** Inserts x into an ascending sequence. */
  function Insert(s: seq<int>, x: int): (r: seq<int>)
    requires Sorted(s)
    ensures Sorted(r) && multiset(r) == multiset(s) + multiset{x}
    ensures |r| == |s| + 1 && r[0] == if s == [] || x <= s[0] then x else s[0]
  {
    if s == [] || x <= s[0] then [x] + s
    else
      assert s == [s[0]] + s[1..];
      [s[0]] + Insert(s[1..], x)
  }

  /** list.sort(): the ascending permutation of its argument. */
  function Sort(xs: seq<int>): (r: seq<int>)
    ensures Sorted(r) && multiset(r) == multiset(xs)
  {
    if xs == [] then []
    else
      assert xs == xs[..|xs| - 1] + [xs[|xs| - 1]];
      Insert(Sort(xs[..|xs| - 1]), xs[|xs| - 1])
  }

  /** set(counters). */
  function Distinct(s: seq<int>): set<int>
  {
    set x | x in s
  }

  /** Every integer from lo to hi. */
  function Span(lo: int, hi: int): set<int>
    decreases hi - lo
  {
    if hi < lo then {} else Span(lo, hi - 1) + {hi}
  }

  lemma {:induction false} SpanMembers(lo: int, hi: int, x: int)
    ensures x in Span(lo, hi) <==> lo <= x <= hi
    decreases hi - lo
  {
    if lo <= hi {
      SpanMembers(lo, hi - 1, x);
    }
  }

  lemma {:induction false} SpanSize(lo: int, hi: int)
    requires lo <= hi + 1
    ensures |Span(lo, hi)| == hi - lo + 1
    decreases hi - lo
  {
    if lo <= hi {
      SpanSize(lo, hi - 1);
      SpanMembers(lo, hi - 1, hi);
    }
  }

  /** The distinct counters of a sorted list lie between its ends. */
  lemma DistinctWithinSpan(c: seq<int>)
    requires |c| > 0 && Sorted(c)
    ensures Distinct(c) <= Span(c[0], c[|c| - 1])
    ensures 1 <= |Distinct(c)| <= 1 + c[|c| - 1] - c[0]
  {
    assert c[0] in Distinct(c);
    forall x | x in Distinct(c) ensures x in Span(c[0], c[|c| - 1]) {
      SpanMembers(c[0], c[|c| - 1], x);
    }
    SpanSize(c[0], c[|c| - 1]);
    assert |Distinct(c)| <= |Span(c[0], c[|c| - 1])| by {
      SubsetSize(Distinct(c), Span(c[0], c[|c| - 1]));
    }
  }

  lemma SubsetSize(a: set<int>, b: set<int>)
    requires a <= b
    ensures |a| <= |b|
    ensures |a| == |b| ==> a == b
  {
    assert b == a + (b - a);
    if |a| == |b| {
      assert |b - a| == 0;
    }
  }

  /**
   * avg_pdr: distinct counters received over counters expected, where the
   * expected ones run from the first to the last of the sorted list.
   */
  function Pdr(sorted: seq<int>): (p: real)
    requires |sorted| > 0 && Sorted(sorted)
    ensures 0.0 < p <= 1.0
  {
    DistinctWithinSpan(sorted);
    (|Distinct(sorted)| as real) / ((1 + sorted[|sorted| - 1] - sorted[0]) as real)
  }

  /** The ratio is 1 exactly when every counter of the span arrived. */
  lemma PdrOneExactly(sorted: seq<int>)
    requires |sorted| > 0 && Sorted(sorted)
    ensures Pdr(sorted) == 1.0 <==> Distinct(sorted) == Span(sorted[0], sorted[|sorted| - 1])
  {
    var lo, hi := sorted[0], sorted[|sorted| - 1];
    DistinctWithinSpan(sorted);
    SpanSize(lo, hi);
    SubsetSize(Distinct(sorted), Span(lo, hi));
    RatioIsOne(|Distinct(sorted)|, 1 + hi - lo);
  }

  lemma RatioIsOne(d: int, n: int)
    requires 0 < d <= n
    ensures (d as real) / (n as real) == 1.0 <==> d == n
  {
  }

  /** Counters 1, 2, 2, 5: three distinct out of a span of five. */
  lemma PdrExample()
    ensures Pdr([1, 2, 2, 5]) == 0.6
  {
    assert Distinct([1, 2, 2, 5]) == {1, 2, 5};
  }

  /** Two sorted sequences with the same elements are equal. */
  lemma {:induction false} SortUnique(a: seq<int>, b: seq<int>)
    requires Sorted(a) && Sorted(b) && multiset(a) == multiset(b)
    ensures a == b
    decreases |a|
  {
    if a != [] {
      assert |b| == |a| by {
        assert |multiset(a)| == |a| && |multiset(b)| == |b|;
      }
      HeadIsLeast(a, b);
      HeadIsLeast(b, a);
      assert multiset(a[1..]) == multiset(b[1..]) by {
        assert a == [a[0]] + a[1..] && b == [b[0]] + b[1..];
        assert multiset(a[1..]) == multiset(a) - multiset{a[0]};
        assert multiset(b[1..]) == multiset(b) - multiset{b[0]};
      }
      assert Sorted(a[1..]) && Sorted(b[1..]);
      SortUnique(a[1..], b[1..]);
      assert a == [a[0]] + a[1..] && b == [b[0]] + b[1..];
    }
  }

  /** The head of a sorted sequence is at most every element of the same multiset. */
  lemma HeadIsLeast(a: seq<int>, b: seq<int>)
    requires Sorted(a) && |a| > 0 && |b| > 0 && multiset(a) == multiset(b)
    ensures a[0] <= b[0]
  {
    assert b[0] in multiset(a);
    var i :| 0 <= i < |a| && a[i] == b[0];
  }

  function SumOf(xs: seq<int>): int
  {
    if xs == [] then 0 else SumOf(xs[..|xs| - 1]) + xs[|xs| - 1]
  }

  lemma {:induction false} SumOfBytes(xs: seq<byte>)
    ensures 0 <= SumOf(xs) <= 255 * |xs|
  {
    if xs != [] {
      SumOfBytes(xs[..|xs| - 1]);
    }
  }

  /**
   * avg_cellsUsage: the integer (floor) mean of the cells-used samples, as
   * Python 2 divides two ints, over the 64 slots of a slotframe.
   */
  function CellsUsage(cells: seq<byte>): (u: real)
    requires |cells| > 0
    ensures 0.0 <= u <= 255.0 / SlotsPerSlotframe
  {
    SumOfBytes(cells);
    ((SumOf(cells) / |cells|) as real) / SlotsPerSlotframe
  }

  /** Samples 10, 20, 30 average to 20 cells of 64. */
  lemma CellsUsageExample()
    ensures CellsUsage([10, 20, 30]) == 20.0 / 64.0
  {
    var xs: seq<byte> := [10, 20, 30];
    assert xs[..2] == [10, 20] && xs[..2][..1] == [10] && xs[..2][..1][..0] == [];
    assert SumOf([10]) == 10;
    assert SumOf([10, 20]) == 30;
    assert SumOf(xs) == 60;
  }

  /** The integer division drops the fraction: samples 1 and 2 give 1 of 64, not 1.5. */
  lemma CellsUsageFloors()
    ensures CellsUsage([1, 2]) == 1.0 / 64.0
  {
    var xs: seq<byte> := [1, 2];
    assert xs[..1] == [1] && xs[..1][..0] == [];
    assert SumOf(xs) == 3;
  }

  function SumReal(xs: seq<real>): real
  {
    if xs == [] then 0.0 else SumReal(xs[..|xs| - 1]) + xs[|xs| - 1]
  }

  /** avg_latency: the mean of the latency samples (float division). */
  function MeanReal(xs: seq<real>): (m: real)
    requires |xs| > 0
    ensures m * (|xs| as real) == SumReal(xs)
  {
    SumReal(xs) / (|xs| as real)
  }

  lemma {:induction false} SumRealWithin(xs: seq<real>, lo: real, hi: real)
    requires forall i :: 0 <= i < |xs| ==> lo <= xs[i] <= hi
    ensures lo * (|xs| as real) <= SumReal(xs) <= hi * (|xs| as real)
  {
    if xs != [] {
      SumRealWithin(xs[..|xs| - 1], lo, hi);
    }
  }

  /** The mean of samples lies between any bounds of the samples. */
  lemma MeanRealWithin(xs: seq<real>, lo: real, hi: real)
    requires |xs| > 0
    requires forall i :: 0 <= i < |xs| ==> lo <= xs[i] <= hi
    ensures lo <= MeanReal(xs) <= hi
  {
    SumRealWithin(xs, lo, hi);
  }

  /** latency = diff * MSPERSLOT. */
  function Latency(diff: int): (l: real)
    ensures diff == 0 <==> l == 0.0
    ensures diff > 0 <==> l > 0.0
  {
    (diff as real) * SecondsPerSlot
  }

  /** One entry of avg_pdr_latency_cellUsage. */
  datatype NodeStats = NodeStats(
    counter: seq<int>, latency: seq<real>, numCellsUsed: seq<byte>,
    avgCellsUsage: real, avgLatency: real, avgPdr: real)

  /**
   * What every entry satisfies after parseInput has updated it: three lists
   * of one sample per probe, the counters sorted, the averages current.
   */
  ghost predicate NodeValid(n: NodeStats)
  {
    && |n.counter| > 0
    && |n.counter| == |n.latency| == |n.numCellsUsed|
    && Sorted(n.counter)
    && n.avgCellsUsage == CellsUsage(n.numCellsUsed)
    && n.avgLatency == MeanReal(n.latency)
    && n.avgPdr == Pdr(n.counter)
  }

  ghost predicate TableValid(table: map<string, NodeStats>)
  {
    forall id :: id in table ==> NodeValid(table[id])
  }

  /**
   * The entry after one probe: the samples appended (an unseen node starts
   * from singleton lists), the averages recomputed, the counters sorted.
   */
  function Updated(prev: Option<NodeStats>, counter: int, latency: real, cells: byte): (n: NodeStats)
    requires prev.Some? ==> NodeValid(prev.value)
    ensures NodeValid(n)
    ensures prev.None? ==> n.counter == [counter] && n.latency == [latency] && n.numCellsUsed == [cells]
    ensures prev.Some? ==>
              && multiset(n.counter) == multiset(prev.value.counter) + multiset{counter}
              && n.latency == prev.value.latency + [latency]
              && n.numCellsUsed == prev.value.numCellsUsed + [cells]
  {
    var appended := Appended(prev, counter, latency, cells);
    var sorted := Sort(appended.counter);
    assert |sorted| == |multiset(sorted)| == |appended.counter|;
    assert prev.None? ==> sorted == [counter] by {
      if prev.None? { SortUnique(sorted, [counter]); }
    }
    Recomputed(appended)
  }

  /** The entry with the probe's samples appended, or a fresh entry of singleton lists. */
  function Appended(prev: Option<NodeStats>, counter: int, latency: real, cells: byte): (n: NodeStats)
    ensures prev.None? ==> n.counter == [counter] && n.latency == [latency] && n.numCellsUsed == [cells]
    ensures prev.Some? ==>
              && n.counter == prev.value.counter + [counter]
              && n.latency == prev.value.latency + [latency]
              && n.numCellsUsed == prev.value.numCellsUsed + [cells]
    ensures (prev.Some? ==> NodeValid(prev.value)) ==>
              |n.counter| == |n.latency| == |n.numCellsUsed| > 0
  {
    match prev
    case None => NodeStats([counter], [latency], [cells], 0.0, 0.0, 0.0)
    case Some(p) => p.(counter := p.counter + [counter], latency := p.latency + [latency],
                       numCellsUsed := p.numCellsUsed + [cells])
  }

  /** The entry with its averages recomputed and its counters sorted. */
  function Recomputed(n: NodeStats): (r: NodeStats)
    requires |n.counter| > 0 && |n.latency| > 0 && |n.numCellsUsed| > 0
    ensures Sorted(r.counter) && multiset(r.counter) == multiset(n.counter)
    ensures r.latency == n.latency && r.numCellsUsed == n.numCellsUsed
    ensures |n.counter| == |n.latency| == |n.numCellsUsed| ==> NodeValid(r)
  {
    var sorted := Sort(n.counter);
    assert |sorted| == |multiset(sorted)| == |n.counter|;
    n.(avgCellsUsage := CellsUsage(n.numCellsUsed),
       avgLatency := MeanReal(n.latency),
       counter := sorted,
       avgPdr := Pdr(sorted))
  }

  function Lookup(table: map<string, NodeStats>, id: string): Option<NodeStats>
  {
    if id in table then Some(table[id]) else None
  }

  /**
   * The table after a probe from node `id`: that entry updated or created,
   * every other entry as it was.
   */
  function Recorded(table: map<string, NodeStats>, id: string, counter: int, latency: real, cells: byte)
    : (t: map<string, NodeStats>)
    requires TableValid(table)
    ensures TableValid(t)
    ensures t.Keys == table.Keys + {id}
    ensures forall k :: k in table && k != id ==> t[k] == table[k]
  {
    table[id := Updated(Lookup(table, id), counter, latency, cells)]
  }

  /** Each of the node's three sample lists grows by exactly one element. */
  lemma RecordedGrowsByOne(table: map<string, NodeStats>, id: string, counter: int, latency: real, cells: byte)
    requires TableValid(table)
    ensures var t := Recorded(table, id, counter, latency, cells);
            var before := if id in table then |table[id].counter| else 0;
            && |t[id].counter| == before + 1
            && |t[id].latency| == before + 1
            && |t[id].numCellsUsed| == before + 1
  {
  }

  /** After a probe the node's counters are the old ones plus the new one, in ascending order. */
  lemma RecordedCountersSorted(table: map<string, NodeStats>, id: string, counter: int, latency: real, cells: byte)
    requires TableValid(table) && id in table
    ensures var t := Recorded(table, id, counter, latency, cells);
            t[id].counter == Sort(table[id].counter + [counter])
  {
  }
}
