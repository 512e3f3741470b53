/**
 * The figures the results view derives from a finished run: the revealed prefix of
 * every node's readings, the per-tick captured and stored flows, tonnage totals and
 * retention, the cumulative series, the per-component totals, the efficiency and
 * leakage series, and the progress read-outs.
 */
module Metrics {
  import opened Common
  import opened FlowGraph

  /**
   * An `EFFICIENCY` or `LEAKAGE` field of a reading: absent from the record, or present
   * with a number or with `null`.
   */
  datatype Field = Undefined | Defined(value: Option<real>)

  /** One reading of one node; a missing or `null` flow is None. */
  datatype Reading = Reading(flow: Option<real>, efficiency: Field, leakage: Field)

  /** One node of the run's result; an empty `name` stands for a missing one. */
  datatype SimNode = SimNode(id: string, name: string, kind: Kind, series: seq<Reading>)

  // ---------------------------------------------------------------------------
  // Run-level figures
  // ---------------------------------------------------------------------------

  /** `totalPoints`: the first node's number of readings, 0 without nodes. */
  function TotalPoints(nodes: seq<SimNode>): (n: nat)
    ensures nodes == [] ==> n == 0
    ensures nodes != [] ==> n == |nodes[0].series|
  {
    if |nodes| > 0 then |nodes[0].series| else 0
  }

  const DefaultTimestepSeconds: real := 5.0

  /** `Number(simulation_timestep_seconds || 5)`: a missing or zero timestep becomes 5. */
  function TimestepSeconds(ts: Option<real>): (s: real)
    ensures s != 0.0
    ensures ts.None? || ts == Some(0.0) ==> s == DefaultTimestepSeconds
    ensures ts.Some? && ts.value != 0.0 ==> s == ts.value
  {
    match ts
    case None => DefaultTimestepSeconds
    case Some(x) => if x == 0.0 then DefaultTimestepSeconds else x
  }

  /**
   * `simulationDurationMinutes`: the reported duration unless missing or zero; then
   * the readings times the timestep, in minutes.
   */
  function DurationMinutes(reported: Option<real>, total: nat, ts: real): (m: real)
    ensures reported.Some? && reported.value != 0.0 ==> m == reported.value
    ensures reported.None? || reported == Some(0.0) ==> m == (total as real) * ts / 60.0
  {
    if reported.Some? && reported.value != 0.0 then reported.value
    else if total > 0 then (total as real) * ts / 60.0
    else 0.0
  }

  /** Every node has as many readings as the first one. */
  predicate Aligned(nodes: seq<SimNode>)
  {
    forall j :: 0 <= j < |nodes| ==> |nodes[j].series| == TotalPoints(nodes)
  }

  // ---------------------------------------------------------------------------
  // Revealed prefix
  // ---------------------------------------------------------------------------

  /** `visibleNodes`: every series cut by `slice(0, cursor)`. */
  function Revealed(nodes: seq<SimNode>, cursor: nat): (r: seq<SimNode>)
    ensures |r| == |nodes|
    ensures forall j :: 0 <= j < |nodes| ==>
              && r[j].id == nodes[j].id && r[j].name == nodes[j].name && r[j].kind == nodes[j].kind
              && |r[j].series| == Min(cursor, |nodes[j].series|)
              && r[j].series == nodes[j].series[..|r[j].series|]
  {
    seq(|nodes|, j requires 0 <= j < |nodes| =>
      nodes[j].(series := nodes[j].series[..Min(cursor, |nodes[j].series|)]))
  }

  /** Aligned series stay aligned when revealed, and the view shows `min(cursor, total)` ticks. */
  lemma RevealedAligned(nodes: seq<SimNode>, cursor: nat)
    requires Aligned(nodes)
    ensures Aligned(Revealed(nodes, cursor))
    ensures TotalPoints(Revealed(nodes, cursor)) == Min(cursor, TotalPoints(nodes))
  {
  }

  /** A later cursor only extends what an earlier one revealed. */
  lemma RevealExtends(nodes: seq<SimNode>, c1: nat, c2: nat)
    requires c1 <= c2
    ensures forall j :: 0 <= j < |nodes| ==>
              var s1 := Revealed(nodes, c1)[j].series;
              var s2 := Revealed(nodes, c2)[j].series;
              |s1| <= |s2| && s1 == s2[..|s1|]
  {
  }

  // ---------------------------------------------------------------------------
  // Per-tick flows
  // ---------------------------------------------------------------------------

  /** `flow_kg_min || 0`. */
  function FlowOf(r: Reading): (f: real)
    ensures r.flow.None? ==> f == 0.0
    ensures r.flow.Some? ==> f == r.flow.value
  {
    match r.flow
    case None => 0.0
    case Some(x) => x
  }

  const CaptureKinds: set<Kind> := {Capture}
  const StoredKinds: set<Kind> := {Storage, Utilization}
  const TransportKinds: set<Kind> := {Transport}

  /** Every node has a reading at tick `i`. */
  predicate HasTick(nodes: seq<SimNode>, i: nat)
  {
    forall j :: 0 <= j < |nodes| ==> i < |nodes[j].series|
  }

  /** Every node's flow at tick `i`, in node order. */
  function Flows(nodes: seq<SimNode>, i: nat): (r: seq<real>)
    requires HasTick(nodes, i)
    ensures |r| == |nodes|
  {
    seq(|nodes|, j requires 0 <= j < |nodes| => FlowOf(nodes[j].series[i]))
  }

  /** Sum of the flows at tick `i` of the nodes whose kind is in `kinds`. */
  function KindFlow(nodes: seq<SimNode>, i: nat, kinds: set<Kind>): (f: real)
    requires HasTick(nodes, i)
  {
    if nodes == [] then 0.0
    else
      var last := nodes[|nodes| - 1];
      KindFlow(nodes[..|nodes| - 1], i, kinds) + (if last.kind in kinds then FlowOf(last.series[i]) else 0.0)
  }

  /** One entry of `chartData`: every node's flow, and the `Captured` and `Stored` sums. */
  datatype ChartPoint = ChartPoint(flows: seq<real>, captured: real, stored: real)

  function PointAt(nodes: seq<SimNode>, i: nat): (p: ChartPoint)
    requires HasTick(nodes, i)
    ensures |p.flows| == |nodes|
    ensures forall j :: 0 <= j < |nodes| ==> p.flows[j] == FlowOf(nodes[j].series[i])
  {
    ChartPoint(Flows(nodes, i), KindFlow(nodes, i, CaptureKinds), KindFlow(nodes, i, StoredKinds))
  }

  /** `chartData`: one point per tick of the first node's series. */
  function ChartData(nodes: seq<SimNode>): (r: seq<ChartPoint>)
    requires Aligned(nodes)
    ensures |r| == TotalPoints(nodes)
    ensures forall i :: 0 <= i < |r| ==> HasTick(nodes, i) && r[i] == PointAt(nodes, i)
  {
    seq(TotalPoints(nodes), i requires 0 <= i < TotalPoints(nodes) => PointAt(nodes, i))
  }

  /**
   * The `forEach` that builds one chart point: each node's flow is recorded, capture
   * flows go into `captured`, storage and utilization flows into `stored`.
   */
  method ComputePoint(nodes: seq<SimNode>, i: nat) returns (p: ChartPoint)
    requires HasTick(nodes, i)
    ensures p == PointAt(nodes, i)
  {
    var flows: seq<real> := [];
    var captured := 0.0;
    var stored := 0.0;
    var j := 0;
    while j < |nodes|
      invariant 0 <= j <= |nodes|
      invariant flows == Flows(nodes[..j], i)
      invariant captured == KindFlow(nodes[..j], i, CaptureKinds)
      invariant stored == KindFlow(nodes[..j], i, StoredKinds)
    {
      var node := nodes[j];
      var flow := FlowOf(node.series[i]);
      flows := flows + [flow];
      if node.kind == Capture {
        captured := captured + flow;
      } else if node.kind == Storage || node.kind == Utilization {
        stored := stored + flow;
      }
      assert nodes[..j + 1][..j] == nodes[..j];
      j := j + 1;
    }
    assert nodes[..j] == nodes;
    p := ChartPoint(flows, captured, stored);
  }

  /**
   * Every node's flow is counted exactly once: captured, stored and transport flows
   * together are the sum of all flows at that tick, transport being in neither sum.
   */
  lemma {:induction false} FlowsPartition(nodes: seq<SimNode>, i: nat)
    requires HasTick(nodes, i)
    ensures KindFlow(nodes, i, CaptureKinds) + KindFlow(nodes, i, StoredKinds)
            + KindFlow(nodes, i, TransportKinds) == Sum(Flows(nodes, i))
    decreases |nodes|
  {
    if nodes != [] {
      var init := nodes[..|nodes| - 1];
      var last := nodes[|nodes| - 1];
      FlowsPartition(init, i);
      assert Flows(nodes, i)[..|nodes| - 1] == Flows(init, i);
      assert Sum(Flows(nodes, i)) == Sum(Flows(init, i)) + FlowOf(last.series[i]);
      match last.kind
      case Capture =>
      case Transport =>
      case Storage =>
      case Utilization =>
    }
  }

  // ---------------------------------------------------------------------------
  // Tonnage and retention
  // ---------------------------------------------------------------------------

  /** The `Captured` value of every chart point. */
  function CapturedSeries(chart: seq<ChartPoint>): (r: seq<real>)
    ensures |r| == |chart| && forall i :: 0 <= i < |chart| ==> r[i] == chart[i].captured
  {
    seq(|chart|, i requires 0 <= i < |chart| => chart[i].captured)
  }

  /** The `Stored` value of every chart point. */
  function StoredSeries(chart: seq<ChartPoint>): (r: seq<real>)
    ensures |r| == |chart| && forall i :: 0 <= i < |chart| ==> r[i] == chart[i].stored
  {
    seq(|chart|, i requires 0 <= i < |chart| => chart[i].stored)
  }

  /** `reduce((sum, v) => sum + (v * (ts / 60)) / 1000, 0)`: kg/min readings to tonnes. */
  function Tonnes(values: seq<real>, ts: real): (t: real)
  {
    if values == [] then 0.0
    else Tonnes(values[..|values| - 1], ts) + values[|values| - 1] * (ts / 60.0) / 1000.0
  }

  function CapturedTonnes(chart: seq<ChartPoint>, ts: real): (t: real)
    ensures t == Sum(CapturedSeries(chart)) * (ts / 60.0) / 1000.0
  {
    TonnesIsScaledSum(CapturedSeries(chart), ts);
    Tonnes(CapturedSeries(chart), ts)
  }

  function StoredTonnes(chart: seq<ChartPoint>, ts: real): (t: real)
    ensures t == Sum(StoredSeries(chart)) * (ts / 60.0) / 1000.0
  {
    TonnesIsScaledSum(StoredSeries(chart), ts);
    Tonnes(StoredSeries(chart), ts)
  }

  /** `retentionPct`: stored over captured in percent, 0 unless something was captured. */
  function Retention(captured: real, stored: real): (r: real)
    ensures captured <= 0.0 ==> r == 0.0
    ensures captured > 0.0 ==> r * captured == stored * 100.0
  {
    if captured > 0.0 then stored / captured * 100.0 else 0.0
  }

  lemma ScaleDistributes(a: real, b: real, ts: real)
    ensures a * (ts / 60.0) / 1000.0 + b * (ts / 60.0) / 1000.0 == (a + b) * (ts / 60.0) / 1000.0
  {
  }

  /** Each tonnage total is the plain sum of the readings, scaled once. */
  lemma {:induction false} TonnesIsScaledSum(values: seq<real>, ts: real)
    ensures Tonnes(values, ts) == Sum(values) * (ts / 60.0) / 1000.0
    decreases |values|
  {
    if values != [] {
      var init := values[..|values| - 1];
      TonnesIsScaledSum(init, ts);
      ScaleDistributes(Sum(init), values[|values| - 1], ts);
    }
  }

  lemma RatioOfScaled(c: real, s: real, k: real)
    requires k > 0.0
    ensures (c * k > 0.0) == (c > 0.0)
    ensures c > 0.0 ==> (s * k) / (c * k) == s / c
  {
    if c > 0.0 {
      assert (s * k) / (c * k) == s / c by {
        assert (s * k) == (s / c) * (c * k);
      }
    } else {
      assert c * k <= 0.0;
    }
  }

  /** Scaling both totals by the same positive factor leaves retention unchanged. */
  lemma ScaledRetention(ct: real, st: real, c: real, s: real, k: real)
    requires k > 0.0 && ct == c * k && st == s * k
    ensures Retention(ct, st) == Retention(c, s)
  {
    RatioOfScaled(c, s, k);
  }

  lemma ScaledByMinutes(x: real, ts: real)
    ensures x * (ts / 60.0) / 1000.0 == x * ((ts / 60.0) / 1000.0)
  {
  }

  /** Retention is independent of the timestep: it is the ratio of the summed flows. */
  lemma RetentionIgnoresTimestep(chart: seq<ChartPoint>, ts: real)
    requires ts > 0.0
    ensures Retention(CapturedTonnes(chart, ts), StoredTonnes(chart, ts))
            == Retention(Sum(CapturedSeries(chart)), Sum(StoredSeries(chart)))
  {
    var c := Sum(CapturedSeries(chart));
    var s := Sum(StoredSeries(chart));
    TonnesIsScaledSum(CapturedSeries(chart), ts);
    TonnesIsScaledSum(StoredSeries(chart), ts);
    ScaledByMinutes(c, ts);
    ScaledByMinutes(s, ts);
    ScaledRetention(CapturedTonnes(chart, ts), StoredTonnes(chart, ts), c, s, (ts / 60.0) / 1000.0);
  }

  lemma PercentBounds(c: real, s: real)
    requires 0.0 <= s <= c
    ensures 0.0 <= Retention(c, s) <= 100.0
  {
    if c > 0.0 {
      assert s / c <= 1.0;
    }
  }

  /**
   * When no tick stores more than it captures and no flow is negative, retention lies
   * between 0 and 100 percent.
   */
  lemma RetentionWithinPercent(chart: seq<ChartPoint>, ts: real)
    requires ts >= 0.0
    requires forall i :: 0 <= i < |chart| ==> 0.0 <= chart[i].stored <= chart[i].captured
    ensures 0.0 <= Retention(CapturedTonnes(chart, ts), StoredTonnes(chart, ts)) <= 100.0
  {
    TonnesAtMost(chart, ts);
    PercentBounds(CapturedTonnes(chart, ts), StoredTonnes(chart, ts));
  }

  lemma ScaledAtMost(a: real, b: real, ts: real)
    requires 0.0 <= a <= b && ts >= 0.0
    ensures 0.0 <= a * (ts / 60.0) / 1000.0 <= b * (ts / 60.0) / 1000.0
  {
  }

  lemma {:induction false} TonnesAtMost(chart: seq<ChartPoint>, ts: real)
    requires ts >= 0.0
    requires forall i :: 0 <= i < |chart| ==> 0.0 <= chart[i].stored <= chart[i].captured
    ensures 0.0 <= StoredTonnes(chart, ts) <= CapturedTonnes(chart, ts)
    decreases |chart|
  {
    if chart != [] {
      var init := chart[..|chart| - 1];
      var last := chart[|chart| - 1];
      TonnesAtMost(init, ts);
      assert CapturedSeries(chart)[..|chart| - 1] == CapturedSeries(init);
      assert StoredSeries(chart)[..|chart| - 1] == StoredSeries(init);
      var ds := last.stored * (ts / 60.0) / 1000.0;
      var dc := last.captured * (ts / 60.0) / 1000.0;
      ScaledAtMost(last.stored, last.captured, ts);
      assert 0.0 <= ds <= dc;
      assert StoredTonnes(chart, ts) == StoredTonnes(init, ts) + ds;
      assert CapturedTonnes(chart, ts) == CapturedTonnes(init, ts) + dc;
    }
  }

  // ---------------------------------------------------------------------------
  // Cumulative series
  // ---------------------------------------------------------------------------

  /** One entry of `cumulativeData`, in kilograms. */
  datatype CumPoint = CumPoint(stored: real, captured: real)

  /**
   * `cumulativeData`: each entry adds the tick's `Stored` and `Captured` flows, times
   * the timestep in minutes, to the previous entry (to 0 for the first).
   */
  function Cumulative(chart: seq<ChartPoint>, ts: real): (r: seq<CumPoint>)
    ensures |r| == |chart|
  {
    if chart == [] then []
    else
      var acc := Cumulative(chart[..|chart| - 1], ts);
      var prev := if |acc| > 0 then acc[|acc| - 1] else CumPoint(0.0, 0.0);
      var curr := chart[|chart| - 1];
      acc + [CumPoint(prev.stored + curr.stored * (ts / 60.0), prev.captured + curr.captured * (ts / 60.0))]
  }

  /** The cumulative series of a prefix of the chart is the prefix of the cumulative series. */
  lemma {:induction false} CumulativePrefix(chart: seq<ChartPoint>, ts: real, n: nat)
    requires n <= |chart|
    ensures Cumulative(chart[..n], ts) == Cumulative(chart, ts)[..n]
    decreases |chart|
  {
    if n < |chart| {
      var init := chart[..|chart| - 1];
      assert init[..n] == chart[..n];
      CumulativePrefix(init, ts, n);
    } else {
      assert chart[..n] == chart;
    }
  }

  /** The last entry of a nonempty cumulative series extends the one before it. */
  lemma CumulativeLast(chart: seq<ChartPoint>, ts: real)
    requires chart != []
    ensures var r := Cumulative(chart, ts);
            var n := |chart| - 1;
            var prev := if n == 0 then CumPoint(0.0, 0.0) else r[n - 1];
            r[n].stored == prev.stored + chart[n].stored * (ts / 60.0)
            && r[n].captured == prev.captured + chart[n].captured * (ts / 60.0)
  {
    CumulativePrefix(chart, ts, |chart| - 1);
  }

  /** Entry i is entry i-1 (0 before the first) plus the tick's flow times the minutes per tick. */
  lemma CumulativeStep(chart: seq<ChartPoint>, ts: real, i: nat)
    requires i < |chart|
    ensures var r := Cumulative(chart, ts);
            var prev := if i == 0 then CumPoint(0.0, 0.0) else r[i - 1];
            r[i].stored == prev.stored + chart[i].stored * (ts / 60.0)
            && r[i].captured == prev.captured + chart[i].captured * (ts / 60.0)
  {
    var sub := chart[..i + 1];
    CumulativePrefix(chart, ts, i + 1);
    CumulativeLast(sub, ts);
  }

  lemma MinutesDistribute(a: real, b: real, ts: real)
    ensures a * (ts / 60.0) + b * (ts / 60.0) == (a + b) * (ts / 60.0)
  {
  }

  /** Entry i is the sum of the first i + 1 ticks' flows, times the minutes per tick. */
  lemma {:induction false} CumulativeIsRunningSum(chart: seq<ChartPoint>, ts: real, i: nat)
    requires i < |chart|
    ensures Cumulative(chart, ts)[i].stored == Sum(StoredSeries(chart)[..i + 1]) * (ts / 60.0)
    ensures Cumulative(chart, ts)[i].captured == Sum(CapturedSeries(chart)[..i + 1]) * (ts / 60.0)
  {
    var r := Cumulative(chart, ts);
    var st := StoredSeries(chart);
    var ca := CapturedSeries(chart);
    CumulativeStep(chart, ts, i);
    assert st[..i + 1][..i] == st[..i];
    assert ca[..i + 1][..i] == ca[..i];
    if i > 0 {
      CumulativeIsRunningSum(chart, ts, i - 1);
      MinutesDistribute(Sum(st[..i]), st[i], ts);
      MinutesDistribute(Sum(ca[..i]), ca[i], ts);
    } else {
      assert st[..0] == [] && ca[..0] == [];
    }
  }

  lemma NonNegativeStep(a: real, b: real, ts: real)
    requires b >= 0.0 && ts >= 0.0
    ensures a <= a + b * (ts / 60.0)
  {
  }

  /** With non-negative flows and timestep, both cumulative curves never go down. */
  lemma CumulativeMonotone(chart: seq<ChartPoint>, ts: real, i: nat, j: nat)
    requires ts >= 0.0 && i <= j < |chart|
    requires forall k :: 0 <= k < |chart| ==> chart[k].stored >= 0.0 && chart[k].captured >= 0.0
    ensures Cumulative(chart, ts)[i].stored <= Cumulative(chart, ts)[j].stored
    ensures Cumulative(chart, ts)[i].captured <= Cumulative(chart, ts)[j].captured
    decreases j - i
  {
    if i < j {
      CumulativeMonotone(chart, ts, i, j - 1);
      CumulativeStep(chart, ts, j);
      var r := Cumulative(chart, ts);
      NonNegativeStep(r[j - 1].stored, chart[j].stored, ts);
      NonNegativeStep(r[j - 1].captured, chart[j].captured, ts);
    }
  }

  /** The last cumulative entry, in tonnes, is the captured and stored headline figure. */
  lemma CumulativeEndsAtTonnes(chart: seq<ChartPoint>, ts: real)
    requires chart != []
    ensures Cumulative(chart, ts)[|chart| - 1].stored / 1000.0 == StoredTonnes(chart, ts)
    ensures Cumulative(chart, ts)[|chart| - 1].captured / 1000.0 == CapturedTonnes(chart, ts)
  {
    var n := |chart| - 1;
    CumulativeIsRunningSum(chart, ts, n);
    assert StoredSeries(chart)[..n + 1] == StoredSeries(chart);
    assert CapturedSeries(chart)[..n + 1] == CapturedSeries(chart);
    TonnesIsScaledSum(StoredSeries(chart), ts);
    TonnesIsScaledSum(CapturedSeries(chart), ts);
  }

  // ---------------------------------------------------------------------------
  // Per-component totals
  // ---------------------------------------------------------------------------

  /** One entry of `barChartData`. */
  datatype BarEntry = BarEntry(name: string, kind: Kind, total: real)

  /** Every reading's flow of one node, in order. */
  function NodeFlows(n: SimNode): (r: seq<real>)
    ensures |r| == |n.series| && forall i :: 0 <= i < |r| ==> r[i] == FlowOf(n.series[i])
  {
    seq(|n.series|, i requires 0 <= i < |n.series| => FlowOf(n.series[i]))
  }

  /** `name || id`. */
  function DisplayName(n: SimNode): (s: string)
    ensures n.name != "" ==> s == n.name
    ensures n.name == "" ==> s == n.id
  {
    if n.name != "" then n.name else n.id
  }

  /** `barChartData`: one entry per node, its revealed flows in tonnes. */
  function BarChart(nodes: seq<SimNode>, ts: real): (r: seq<BarEntry>)
    ensures |r| == |nodes|
    ensures forall j :: 0 <= j < |nodes| ==>
              r[j] == BarEntry(DisplayName(nodes[j]), nodes[j].kind, Tonnes(NodeFlows(nodes[j]), ts))
  {
    seq(|nodes|, j requires 0 <= j < |nodes| =>
      BarEntry(DisplayName(nodes[j]), nodes[j].kind, Tonnes(NodeFlows(nodes[j]), ts)))
  }

  /** Sum of the bar totals of the entries whose kind is in `kinds`. */
  function KindTotal(bars: seq<BarEntry>, kinds: set<Kind>): real
  {
    if bars == [] then 0.0
    else
      var last := bars[|bars| - 1];
      KindTotal(bars[..|bars| - 1], kinds) + (if last.kind in kinds then last.total else 0.0)
  }

  /** The per-tick sums over `kinds` for ticks 0 .. t-1. */
  function KindSeries(nodes: seq<SimNode>, t: nat, kinds: set<Kind>): (r: seq<real>)
    requires forall i :: 0 <= i < t ==> HasTick(nodes, i)
    ensures |r| == t
  {
    seq(t, i requires 0 <= i < t => KindFlow(nodes, i, kinds))
  }

  lemma {:induction false} TonnesOfSum(a: seq<real>, b: seq<real>, c: seq<real>, ts: real)
    requires |a| == |b| == |c|
    requires forall i :: 0 <= i < |c| ==> c[i] == a[i] + b[i]
    ensures Tonnes(c, ts) == Tonnes(a, ts) + Tonnes(b, ts)
    decreases |c|
  {
    if c != [] {
      var n := |c| - 1;
      TonnesOfSum(a[..n], b[..n], c[..n], ts);
      ScaleDistributes(a[n], b[n], ts);
    }
  }

  lemma {:induction false} TonnesOfZeros(z: seq<real>, ts: real)
    requires forall i :: 0 <= i < |z| ==> z[i] == 0.0
    ensures Tonnes(z, ts) == 0.0
    decreases |z|
  {
    if z != [] {
      TonnesOfZeros(z[..|z| - 1], ts);
    }
  }

  /**
   * The per-component totals of the nodes of the given kinds add up to the headline
   * figure computed from the per-tick sums: summing by node or by tick gives the same
   * tonnes when every series has `t` readings.
   */
  lemma {:induction false} BarTotalsMatchSeries(nodes: seq<SimNode>, t: nat, ts: real, kinds: set<Kind>)
    requires forall j :: 0 <= j < |nodes| ==> |nodes[j].series| == t
    ensures forall i :: 0 <= i < t ==> HasTick(nodes, i)
    ensures KindTotal(BarChart(nodes, ts), kinds) == Tonnes(KindSeries(nodes, t, kinds), ts)
    decreases |nodes|
  {
    if nodes == [] {
      TonnesOfZeros(KindSeries(nodes, t, kinds), ts);
    } else {
      var init := nodes[..|nodes| - 1];
      var last := nodes[|nodes| - 1];
      BarTotalsMatchSeries(init, t, ts, kinds);
      assert BarChart(nodes, ts)[..|nodes| - 1] == BarChart(init, ts);
      var own := seq(t, i requires 0 <= i < t => if last.kind in kinds then FlowOf(last.series[i]) else 0.0);
      forall i | 0 <= i < t
        ensures KindSeries(nodes, t, kinds)[i] == KindSeries(init, t, kinds)[i] + own[i]
      {
        assert nodes[..|nodes| - 1] == init;
      }
      TonnesOfSum(KindSeries(init, t, kinds), own, KindSeries(nodes, t, kinds), ts);
      if last.kind in kinds {
        assert own == NodeFlows(last);
      } else {
        TonnesOfZeros(own, ts);
      }
    }
  }

  /** On aligned series, the capture bars add up to captured tonnes and the storage and utilization bars to stored tonnes. */
  lemma BarTotalsMatchHeadline(nodes: seq<SimNode>, ts: real)
    requires Aligned(nodes)
    ensures KindTotal(BarChart(nodes, ts), CaptureKinds) == CapturedTonnes(ChartData(nodes), ts)
    ensures KindTotal(BarChart(nodes, ts), StoredKinds) == StoredTonnes(ChartData(nodes), ts)
  {
    var t := TotalPoints(nodes);
    BarTotalsMatchSeries(nodes, t, ts, CaptureKinds);
    BarTotalsMatchSeries(nodes, t, ts, StoredKinds);
    assert KindSeries(nodes, t, CaptureKinds) == CapturedSeries(ChartData(nodes));
    assert KindSeries(nodes, t, StoredKinds) == StoredSeries(ChartData(nodes));
  }

  // ---------------------------------------------------------------------------
  // Efficiency and leakage series
  // ---------------------------------------------------------------------------

  /** The two key shapes `${id} Efficiency (%)` and `${id} Leakage (kg/hr)`. */
  datatype PerfKey = EfficiencyOf(id: string) | LeakageOf(id: string)

  /** One key of a performance point and the value passed through (None for `null`). */
  datatype PerfEntry = PerfEntry(key: PerfKey, value: Option<real>)

  /** A capture node with `EFFICIENCY` defined, or a transport node with `LEAKAGE` defined, at tick `i`. */
  predicate Reports(n: SimNode, i: nat)
    requires i < |n.series|
  {
    (n.kind == Capture && n.series[i].efficiency.Defined?)
    || (n.kind == Transport && n.series[i].leakage.Defined?)
  }

  /** The keys one node adds to the point of tick `i`. */
  function NodePerf(n: SimNode, i: nat): (r: seq<PerfEntry>)
    requires i < |n.series|
    ensures |r| <= 1
    ensures |r| > 0 <==> Reports(n, i)
    ensures forall e :: e in r <==>
              (n.kind == Capture && n.series[i].efficiency.Defined?
               && e == PerfEntry(EfficiencyOf(n.id), n.series[i].efficiency.value))
              || (n.kind == Transport && n.series[i].leakage.Defined?
                  && e == PerfEntry(LeakageOf(n.id), n.series[i].leakage.value))
  {
    var r := n.series[i];
    if n.kind == Capture && r.efficiency.Defined? then [PerfEntry(EfficiencyOf(n.id), r.efficiency.value)]
    else if n.kind == Transport && r.leakage.Defined? then [PerfEntry(LeakageOf(n.id), r.leakage.value)]
    else []
  }

  /** The keys of the performance point of tick `i`, besides `time`, in node order. */
  function PerfAt(nodes: seq<SimNode>, i: nat): (r: seq<PerfEntry>)
    requires HasTick(nodes, i)
    ensures |r| <= |nodes|
    ensures (forall j :: 0 <= j < |nodes| ==> !Reports(nodes[j], i)) ==> r == []
  {
    if nodes == [] then []
    else PerfAt(nodes[..|nodes| - 1], i) + NodePerf(nodes[|nodes| - 1], i)
  }

  /** The `forEach` that builds one performance point. */
  method ComputePerfPoint(nodes: seq<SimNode>, i: nat) returns (p: seq<PerfEntry>)
    requires HasTick(nodes, i)
    ensures p == PerfAt(nodes, i)
  {
    p := [];
    var j := 0;
    while j < |nodes|
      invariant 0 <= j <= |nodes|
      invariant p == PerfAt(nodes[..j], i)
    {
      var node := nodes[j];
      var reading := node.series[i];
      if node.kind == Capture && reading.efficiency.Defined? {
        p := p + [PerfEntry(EfficiencyOf(node.id), reading.efficiency.value)];
      }
      if node.kind == Transport && reading.leakage.Defined? {
        p := p + [PerfEntry(LeakageOf(node.id), reading.leakage.value)];
      }
      assert nodes[..j + 1][..j] == nodes[..j];
      j := j + 1;
    }
    assert nodes[..j] == nodes;
  }

  /**
   * A point carries exactly the efficiencies of capture nodes and the leakages of
   * transport nodes whose field is defined at that tick; nothing is zero-filled.
   */
  lemma {:induction false} PerfAtEntries(nodes: seq<SimNode>, i: nat, e: PerfEntry)
    requires HasTick(nodes, i)
    ensures e in PerfAt(nodes, i) <==> exists j :: 0 <= j < |nodes| && e in NodePerf(nodes[j], i)
    decreases |nodes|
  {
    if nodes != [] {
      var init := nodes[..|nodes| - 1];
      PerfAtEntries(init, i, e);
      if e in PerfAt(nodes, i) && e !in NodePerf(nodes[|nodes| - 1], i) {
        var j :| 0 <= j < |init| && e in NodePerf(init[j], i);
        assert nodes[j] == init[j];
      }
      if j :| 0 <= j < |nodes| && e in NodePerf(nodes[j], i) {
        if j < |init| {
          assert nodes[j] == init[j];
        }
      }
    }
  }

  /** A point has a key besides `time` exactly when some node reports at that tick. */
  lemma {:induction false} PerfAtNonEmpty(nodes: seq<SimNode>, i: nat)
    requires HasTick(nodes, i)
    ensures |PerfAt(nodes, i)| > 0 <==> exists j :: 0 <= j < |nodes| && Reports(nodes[j], i)
    decreases |nodes|
  {
    if nodes != [] {
      var init := nodes[..|nodes| - 1];
      PerfAtNonEmpty(init, i);
      if j :| 0 <= j < |init| && Reports(init[j], i) {
        assert nodes[j] == init[j];
      }
      if j :| 0 <= j < |nodes| && Reports(nodes[j], i) {
        if j < |init| {
          assert nodes[j] == init[j];
        }
      }
    }
  }

  /** `performanceData`: one point per tick of the first node's series. */
  function PerformanceData(nodes: seq<SimNode>): (r: seq<seq<PerfEntry>>)
    requires Aligned(nodes)
    ensures |r| == TotalPoints(nodes)
    ensures forall i :: 0 <= i < |r| ==> HasTick(nodes, i) && r[i] == PerfAt(nodes, i)
  {
    seq(TotalPoints(nodes), i requires 0 <= i < TotalPoints(nodes) => PerfAt(nodes, i))
  }

  /** `hasPerformanceSeries`: some point has a key besides `time`. */
  predicate HasPerformanceSeries(perf: seq<seq<PerfEntry>>)
    ensures HasPerformanceSeries(perf) ==> perf != []
  {
    exists i :: 0 <= i < |perf| && |perf[i]| > 0
  }

  /** The efficiency and leakage tab has data exactly when some node reports at some revealed tick. */
  lemma HasPerformanceSeriesIff(nodes: seq<SimNode>)
    requires Aligned(nodes)
    ensures HasPerformanceSeries(PerformanceData(nodes)) <==>
              exists i, j :: 0 <= i < TotalPoints(nodes) && 0 <= j < |nodes| && Reports(nodes[j], i)
  {
    var perf := PerformanceData(nodes);
    if HasPerformanceSeries(perf) {
      var i :| 0 <= i < |perf| && |perf[i]| > 0;
      PerfAtNonEmpty(nodes, i);
    }
    if exists i, j :: 0 <= i < TotalPoints(nodes) && 0 <= j < |nodes| && Reports(nodes[j], i) {
      var i, j :| 0 <= i < TotalPoints(nodes) && 0 <= j < |nodes| && Reports(nodes[j], i);
      PerfAtNonEmpty(nodes, i);
      assert |perf[i]| > 0;
    }
  }

  // ---------------------------------------------------------------------------
  // Progress read-outs
  // ---------------------------------------------------------------------------

  /** `progressPct`: the revealed share of the run in percent, capped at 100; 0 without readings. */
  function ProgressPct(cursor: nat, total: nat): (p: real)
    ensures 0.0 <= p <= 100.0
    ensures total == 0 ==> p == 0.0
    ensures total > 0 && cursor >= total ==> p == 100.0
    ensures total > 0 && cursor <= total ==> p * (total as real) == (cursor as real) * 100.0
  {
    if total > 0 then RealMin(100.0, (cursor as real) / (total as real) * 100.0) else 0.0
  }

  /** `elapsedMinutes`: the revealed readings times the timestep, in minutes. */
  function ElapsedMinutes(cursor: nat, ts: real): (m: real)
    ensures m * 60.0 == (cursor as real) * ts
    ensures ts >= 0.0 ==> m >= 0.0
  {
    (cursor as real) * ts / 60.0
  }

  /**
   * Without a reported duration, the elapsed time read-out reaches the run's duration
   * exactly when the whole run is revealed.
   */
  lemma ElapsedReachesDuration(cursor: nat, total: nat, ts: real)
    requires ts > 0.0 && cursor <= total
    ensures ElapsedMinutes(cursor, ts) <= DurationMinutes(None, total, ts)
    ensures ElapsedMinutes(cursor, ts) == DurationMinutes(None, total, ts) <==> cursor == total
  {
    MinutesOrdered(cursor, total, ts);
  }

  lemma MinutesOrdered(a: nat, b: nat, ts: real)
    requires ts > 0.0 && a <= b
    ensures (a as real) * ts / 60.0 <= (b as real) * ts / 60.0
    ensures (a as real) * ts / 60.0 == (b as real) * ts / 60.0 <==> a == b
  {
    if a < b {
      assert (a as real) * ts < (b as real) * ts;
    }
  }

  // ---------------------------------------------------------------------------
  // A worked run
  // ---------------------------------------------------------------------------

  function Steady(flow: real): Reading
  {
    Reading(Some(flow), Undefined, Undefined)
  }

  /** One capture and one storage node, three readings of 180 kg/min each. */
  function ThreeTickRun(): seq<SimNode>
  {
    [SimNode("cap", "Capture", Capture, [Steady(180.0), Steady(180.0), Steady(180.0)]),
     SimNode("sto", "Storage", Storage, [Steady(180.0), Steady(180.0), Steady(180.0)])]
  }

  lemma ThreeTickPoint(i: nat)
    requires i < 3
    ensures HasTick(ThreeTickRun(), i)
    ensures PointAt(ThreeTickRun(), i).captured == 180.0 && PointAt(ThreeTickRun(), i).stored == 180.0
  {
    var nodes := ThreeTickRun();
    var first := [nodes[0]];
    assert nodes[..1] == first && first[..0] == [];
    assert KindFlow(first, i, CaptureKinds) == 180.0;
    assert KindFlow(first, i, StoredKinds) == 0.0;
  }

  /**
   * The run above with a 5 s step: both per-tick sums are 180, 45 kg are stored after
   * three ticks, and retention is 100.
   */
  lemma ThreeTickScenario()
    ensures var nodes := ThreeTickRun();
            Aligned(nodes)
            && CapturedSeries(ChartData(nodes)) == [180.0, 180.0, 180.0]
            && StoredSeries(ChartData(nodes)) == [180.0, 180.0, 180.0]
            && Cumulative(ChartData(nodes), 5.0)[2].stored == 45.0
            && Retention(CapturedTonnes(ChartData(nodes), 5.0), StoredTonnes(ChartData(nodes), 5.0)) == 100.0
  {
    var nodes := ThreeTickRun();
    var chart := ChartData(nodes);
    forall i | 0 <= i < 3 ensures chart[i].captured == 180.0 && chart[i].stored == 180.0 {
      ThreeTickPoint(i);
    }
    assert CapturedSeries(chart) == [180.0, 180.0, 180.0];
    assert StoredSeries(chart) == [180.0, 180.0, 180.0];
    CumulativeIsRunningSum(chart, 5.0, 2);
    assert StoredSeries(chart)[..3] == [180.0, 180.0, 180.0];
    RetentionIgnoresTimestep(chart, 5.0);
  }
}
