/**
 * The request the editor sends to the simulator: the graph projected to plain
 * records (`handleSimulate`), the run length in minutes, and the number of
 * five-second readings the page asks for.
 */
module SimRequest {
  import opened Common
  import opened FlowGraph

  /** One node as the simulator receives it (`metadata` is always empty and not kept). */
  datatype RequestNode = RequestNode(id: string, kind: Kind, name: string, params: Params)

  /** One edge as the simulator receives it: ends and a weight that is always present. */
  datatype RequestEdge = RequestEdge(source: string, target: string, weight: real)

  datatype Request = Request(nodes: seq<RequestNode>, edges: seq<RequestEdge>, jurisdiction: string)

  function ProjectNode(n: Node): RequestNode
  {
    RequestNode(n.id, n.kind, n.name, n.params)
  }

  /** `weight ?? 100`: only a missing weight is replaced; a present one is sent as is. */
  function SentWeight(e: Edge): (w: real)
    ensures e.weight.None? ==> w == 100.0
    ensures e.weight.Some? ==> w == e.weight.value
  {
    match e.weight
    case None => 100.0
    case Some(x) => x
  }

  function ProjectEdge(e: Edge): RequestEdge
  {
    RequestEdge(e.source, e.target, SentWeight(e))
  }

  /**
   * `graphData` of `handleSimulate`: every node and every edge in editor order, and the
   * chosen jurisdiction. Edge ids are not sent.
   */
  function BuildRequest(nodes: seq<Node>, edges: seq<Edge>, jurisdiction: string): (r: Request)
    ensures |r.nodes| == |nodes| && |r.edges| == |edges|
    ensures r.jurisdiction == jurisdiction
    ensures forall i :: 0 <= i < |nodes| ==>
              r.nodes[i].id == nodes[i].id && r.nodes[i].kind == nodes[i].kind
              && r.nodes[i].name == nodes[i].name && r.nodes[i].params == nodes[i].params
    ensures forall i :: 0 <= i < |edges| ==>
              r.edges[i].source == edges[i].source && r.edges[i].target == edges[i].target
    ensures forall i :: 0 <= i < |edges| ==>
              r.edges[i].weight == (if edges[i].weight.Some? then edges[i].weight.value else 100.0)
  {
    Request(
      seq(|nodes|, i requires 0 <= i < |nodes| => ProjectNode(nodes[i])),
      seq(|edges|, i requires 0 <= i < |edges| => ProjectEdge(edges[i])),
      jurisdiction)
  }

  /**
   * On a graph that keeps the editor's invariant the simulator receives exactly the
   * weights the editor stores, all within [0, 100], and each equals the weight the
   * share labels are computed from; every edge still joins two nodes that exist.
   */
  lemma RequestCarriesEditorWeights(nodes: seq<Node>, edges: seq<Edge>, jurisdiction: string)
    requires GraphInvariant(nodes, edges)
    ensures forall i :: 0 <= i < |edges| ==>
              var w := BuildRequest(nodes, edges, jurisdiction).edges[i].weight;
              Some(w) == edges[i].weight && 0.0 <= w <= 100.0 && w == EffectiveWeight(edges[i])
    ensures forall re :: re in BuildRequest(nodes, edges, jurisdiction).edges ==>
              FindNode(nodes, re.source).Some? && FindNode(nodes, re.target).Some?
  {
    var r := BuildRequest(nodes, edges, jurisdiction);
    forall i | 0 <= i < |edges|
      ensures Some(r.edges[i].weight) == edges[i].weight && 0.0 <= r.edges[i].weight <= 100.0
      ensures r.edges[i].weight == EffectiveWeight(edges[i])
    {
      assert edges[i] in edges;
    }
    forall re | re in r.edges
      ensures FindNode(nodes, re.source).Some? && FindNode(nodes, re.target).Some?
    {
      var i :| 0 <= i < |r.edges| && r.edges[i] == re;
      assert edges[i] in edges;
      assert IsValidConnection(nodes, Connection(edges[i].source, edges[i].target));
    }
  }

  /** The run length the editor opens with, `useState('12')`. */
  const DefaultDurationMinutes: real := 12.0

  /**
   * `Number(durationMinutes) || 12`: the typed text parsed as a number, where None
   * stands for text that does not parse (NaN); NaN and 0 both fall back to 12.
   */
  function RequestedDuration(parsed: Option<real>): (d: real)
    ensures d != 0.0
    ensures parsed.None? || parsed == Some(0.0) ==> d == DefaultDurationMinutes
    ensures parsed.Some? && parsed.value != 0.0 ==> d == parsed.value
  {
    match parsed
    case None => DefaultDurationMinutes
    case Some(x) => if x == 0.0 then DefaultDurationMinutes else x
  }

  /** `Math.round`: the nearest integer, halves rounded up. */
  function Round(x: real): (n: int)
    ensures x - 0.5 < n as real <= x + 0.5
  {
    (x + 0.5).Floor
  }

  /** The simulator's sampling period, in seconds, that the page assumes. */
  const ReadingSeconds: real := 5.0

  /**
   * `Math.max(1, Math.round((durationMinutes * 60) / 5))` after
   * `options?.durationMinutes || 12`: the number of readings requested.
   */
  function Readings(minutes: real): (n: int)
    ensures n >= 1
    ensures var d := if minutes == 0.0 then DefaultDurationMinutes else minutes;
            d * 60.0 / ReadingSeconds >= 0.5 ==>
              (n as real) - 0.5 <= d * 60.0 / ReadingSeconds < (n as real) + 0.5
    ensures var d := if minutes == 0.0 then DefaultDurationMinutes else minutes;
            d * 60.0 / ReadingSeconds < 1.5 ==> n == 1
  {
    var d := if minutes == 0.0 then DefaultDurationMinutes else minutes;
    Max(1, Round(d * 60.0 / ReadingSeconds))
  }

  /** The number of readings covers the requested minutes to within half a reading. */
  lemma ReadingsCoverDuration(parsed: Option<real>)
    requires RequestedDuration(parsed) >= 0.125
    ensures var n := Readings(RequestedDuration(parsed));
            var d := RequestedDuration(parsed);
            (n as real) * ReadingSeconds - 2.5 <= d * 60.0 < (n as real) * ReadingSeconds + 2.5
  {
    var d := RequestedDuration(parsed);
    var n := Readings(d);
    assert d * 60.0 / ReadingSeconds == d * 12.0;
    assert (n as real) - 0.5 <= d * 12.0 < (n as real) + 0.5;
  }

  /** The default run asks for 144 readings; 5, 30 and 60 minutes ask for 60, 360 and 720. */
  lemma DefaultReadings()
    ensures Readings(RequestedDuration(None)) == 144
    ensures Readings(RequestedDuration(Some(0.0))) == 144
    ensures Readings(5.0) == 60 && Readings(30.0) == 360 && Readings(60.0) == 720
  {
  }
}
