/**
 * The operations map's graph model: typed nodes, directed edges carrying a
 * percentage weight, the rule deciding which connections may be drawn, the
 * weight-balancing rules applied when edges are created or edited, and the
 * derived "share" label shown on every edge.
 *
 * Everything here is a value-level function; the editor class in module
 * GraphEditor replaces its lists with these functions' results.
 */
module FlowGraph {
  import opened Common

  datatype Kind = Capture | Transport | Storage | Utilization

  /** The `type` string a node carries in its data. */
  function KindName(k: Kind): string
  {
    match k
    case Capture => "capture"
    case Transport => "transport"
    case Storage => "storage"
    case Utilization => "utilization"
  }

  /** Storage and utilization nodes are sinks: they may not emit edges. */
  predicate IsTerminal(k: Kind)
  {
    k == Storage || k == Utilization
  }

  type Params = map<string, real>

  datatype Node = Node(id: string, kind: Kind, name: string, params: Params)

  /** `weight` is the edge's `data.weight`; None when the edge carries none. */
  datatype Edge = Edge(id: string, source: string, target: string, weight: Option<real>)

  /** The two ends of a drag gesture; an empty source stands for a falsy `params.source`. */
  datatype Connection = Connection(source: string, target: string)

  predicate SameEnds(a: Edge, b: Edge)
  {
    a.id == b.id && a.source == b.source && a.target == b.target
  }

  predicate UniqueNodeIds(nodes: seq<Node>)
  {
    forall i, j :: 0 <= i < j < |nodes| ==> nodes[i].id != nodes[j].id
  }

  predicate UniqueEdgeIds(edges: seq<Edge>)
  {
    forall i, j :: 0 <= i < j < |edges| ==> edges[i].id != edges[j].id
  }

  // ---------------------------------------------------------------------------
  // Connection validator
  // ---------------------------------------------------------------------------

  /** `nodes.find((n) => n.id === id)`: the first node with that id, if any. */
  function FindNode(nodes: seq<Node>, id: string): (r: Option<Node>)
    ensures r.Some? ==> r.value in nodes && r.value.id == id
    ensures r.None? ==> forall n :: n in nodes ==> n.id != id
  {
    if nodes == [] then None
    else if nodes[0].id == id then Some(nodes[0])
    else FindNode(nodes[1..], id)
  }

  /** `isValidConnection`: both ends resolve, the source is no sink, the target no capture. */
  function IsValidConnection(nodes: seq<Node>, c: Connection): (ok: bool)
    ensures FindNode(nodes, c.source).None? || FindNode(nodes, c.target).None? ==> !ok
    ensures ok ==> !IsTerminal(FindNode(nodes, c.source).value.kind)
    ensures ok ==> FindNode(nodes, c.target).value.kind != Capture
  {
    match (FindNode(nodes, c.source), FindNode(nodes, c.target))
    case (Some(s), Some(t)) => !IsTerminal(s.kind) && t.kind != Capture
    case _ => false
  }

  /** The connection rules stated over the node set, independently of search order. */
  ghost predicate LegalEdge(nodes: seq<Node>, source: string, target: string)
  {
    exists s, t :: s in nodes && t in nodes && s.id == source && t.id == target
                   && !IsTerminal(s.kind) && t.kind != Capture
  }

  lemma {:induction false} FindNodeUnique(nodes: seq<Node>, n: Node)
    requires UniqueNodeIds(nodes) && n in nodes
    ensures FindNode(nodes, n.id) == Some(n)
  {
    if nodes[0] != n {
      var k :| 0 <= k < |nodes| && nodes[k] == n;
      assert k != 0;
      assert nodes[1..][k - 1] == n;
      FindNodeUnique(nodes[1..], n);
    }
  }

  /** With distinct node ids the validator accepts exactly the legal edges. */
  lemma ValidConnectionIffLegal(nodes: seq<Node>, c: Connection)
    requires UniqueNodeIds(nodes)
    ensures IsValidConnection(nodes, c) <==> LegalEdge(nodes, c.source, c.target)
  {
    if LegalEdge(nodes, c.source, c.target) {
      var s, t :| s in nodes && t in nodes && s.id == c.source && t.id == c.target
                  && !IsTerminal(s.kind) && t.kind != Capture;
      FindNodeUnique(nodes, s);
      FindNodeUnique(nodes, t);
    }
  }

  /** The validator does not reject a transport node's edge to itself. */
  lemma TransportSelfLoopAccepted(nodes: seq<Node>, n: Node)
    requires UniqueNodeIds(nodes) && n in nodes && n.kind == Transport
    ensures IsValidConnection(nodes, Connection(n.id, n.id))
  {
    FindNodeUnique(nodes, n);
  }

  // ---------------------------------------------------------------------------
  // Siblings (edges leaving the same source)
  // ---------------------------------------------------------------------------

  /** `edges.filter((e) => e.source === src)`. */
  function Outgoing(edges: seq<Edge>, src: string): (r: seq<Edge>)
    ensures |r| <= |edges|
    ensures forall e :: e in r <==> e in edges && e.source == src
  {
    if edges == [] then []
    else (if edges[0].source == src then [edges[0]] else []) + Outgoing(edges[1..], src)
  }

  function OutDegree(edges: seq<Edge>, src: string): nat
  {
    |Outgoing(edges, src)|
  }

  lemma {:induction false} OutgoingAppend(a: seq<Edge>, b: seq<Edge>, src: string)
    ensures Outgoing(a + b, src) == Outgoing(a, src) + Outgoing(b, src)
  {
    if a == [] {
      assert a + b == b;
    } else {
      assert (a + b)[1..] == a[1..] + b;
      OutgoingAppend(a[1..], b, src);
    }
  }

  /** Rewriting weights only (ends untouched) leaves every out-degree as it was. */
  lemma {:induction false} SameEndsSameDegree(a: seq<Edge>, b: seq<Edge>, src: string)
    requires |a| == |b|
    requires forall i :: 0 <= i < |a| ==> a[i].source == b[i].source
    ensures OutDegree(a, src) == OutDegree(b, src)
  {
    if a != [] {
      SameEndsSameDegree(a[1..], b[1..], src);
    }
  }

  /** Any strictly increasing list of indices of edges leaving `src` is a lower bound on its out-degree. */
  lemma {:induction false} DegreeCountsIndices(edges: seq<Edge>, src: string, ks: seq<int>)
    requires forall m :: 0 <= m < |ks| ==> 0 <= ks[m] < |edges| && edges[ks[m]].source == src
    requires forall m, n :: 0 <= m < n < |ks| ==> ks[m] < ks[n]
    ensures OutDegree(edges, src) >= |ks|
    decreases |edges|
  {
    if ks != [] {
      assert 0 <= ks[0] < |edges|;
      var rest := edges[1..];
      if ks[0] == 0 {
        var ks' := seq(|ks| - 1, m requires 0 <= m < |ks| - 1 => ks[m + 1] - 1);
        forall m | 0 <= m < |ks'|
          ensures 0 <= ks'[m] < |rest| && rest[ks'[m]].source == src
        {
          assert ks[0] < ks[m + 1];
        }
        DegreeCountsIndices(rest, src, ks');
      } else {
        var ks' := seq(|ks|, m requires 0 <= m < |ks| => ks[m] - 1);
        forall m | 0 <= m < |ks'|
          ensures 0 <= ks'[m] < |rest| && rest[ks'[m]].source == src
        {
          assert m == 0 || ks[0] < ks[m];
        }
        DegreeCountsIndices(rest, src, ks');
      }
    }
  }

  lemma TwoSiblingsAtLeast(edges: seq<Edge>, src: string, i: int, j: int)
    requires 0 <= i < |edges| && 0 <= j < |edges| && i != j
    requires edges[i].source == src && edges[j].source == src
    ensures OutDegree(edges, src) >= 2
  {
    if i < j {
      DegreeCountsIndices(edges, src, [i, j]);
    } else {
      DegreeCountsIndices(edges, src, [j, i]);
    }
  }

  lemma ThreeSiblingsAtLeast(edges: seq<Edge>, src: string, i: int, j: int, k: int)
    requires 0 <= i < |edges| && 0 <= j < |edges| && 0 <= k < |edges|
    requires i != j && j != k && i != k
    requires edges[i].source == src && edges[j].source == src && edges[k].source == src
    ensures OutDegree(edges, src) >= 3
  {
    if i < j < k { DegreeCountsIndices(edges, src, [i, j, k]); }
    else if i < k < j { DegreeCountsIndices(edges, src, [i, k, j]); }
    else if j < i < k { DegreeCountsIndices(edges, src, [j, i, k]); }
    else if j < k < i { DegreeCountsIndices(edges, src, [j, k, i]); }
    else if k < i < j { DegreeCountsIndices(edges, src, [k, i, j]); }
    else { DegreeCountsIndices(edges, src, [k, j, i]); }
  }

  /** Both weights are present and add up to 100. */
  predicate PairSumsTo100(a: Edge, b: Edge)
  {
    a.weight.Some? && b.weight.Some? && a.weight.value + b.weight.value == 100.0
  }

  ghost predicate BinarySplitsBalanced(edges: seq<Edge>)
  {
    forall i, j ::
      0 <= i < |edges| && 0 <= j < |edges| && i != j
      && edges[i].source == edges[j].source && OutDegree(edges, edges[i].source) == 2
      ==> PairSumsTo100(edges[i], edges[j])
  }

  // ---------------------------------------------------------------------------
  // Weight balancer: connecting
  // ---------------------------------------------------------------------------

  /** `eds.map(edge => edge.id === id ? {...edge, weight: w} : edge)`. */
  function SetWeightById(edges: seq<Edge>, id: string, w: real): (r: seq<Edge>)
    ensures |r| == |edges|
    ensures forall i :: 0 <= i < |edges| ==> SameEnds(r[i], edges[i])
    ensures forall i :: 0 <= i < |edges| && edges[i].id == id ==> r[i].weight == Some(w)
    ensures forall i :: 0 <= i < |edges| && edges[i].id != id ==> r[i] == edges[i]
  {
    seq(|edges|, i requires 0 <= i < |edges| =>
      if edges[i].id == id then edges[i].(weight := Some(w)) else edges[i])
  }

  /** The source node already has exactly one outgoing edge: the new one makes a binary split. */
  predicate SplitsOnConnect(edges: seq<Edge>, c: Connection)
  {
    c.source != "" && OutDegree(edges, c.source) == 1
  }

  /**
   * `onConnect`: a connection without a source is appended at 100; when the source has
   * exactly one outgoing edge, that edge (found by its id) and the new edge get 50 each;
   * otherwise the new edge is appended at 100 and nothing else changes.
   */
  function Connected(edges: seq<Edge>, c: Connection, newId: string): (r: seq<Edge>)
    ensures |r| == |edges| + 1
    ensures r[|edges|] == Edge(newId, c.source, c.target,
                               Some(if SplitsOnConnect(edges, c) then 50.0 else 100.0))
    ensures forall i :: 0 <= i < |edges| ==> SameEnds(r[i], edges[i])
    ensures !SplitsOnConnect(edges, c) ==> r[..|edges|] == edges
  {
    if c.source == "" then
      edges + [Edge(newId, c.source, c.target, Some(100.0))]
    else
      var outgoing := Outgoing(edges, c.source);
      if |outgoing| == 1 then
        SetWeightById(edges, outgoing[0].id, 50.0) + [Edge(newId, c.source, c.target, Some(50.0))]
      else
        edges + [Edge(newId, c.source, c.target, Some(100.0))]
  }

  /** With one outgoing edge and distinct edge ids, the edges leaving `src` are exactly the one with that edge's id. */
  lemma SoleSibling(edges: seq<Edge>, src: string, m: int)
    requires UniqueEdgeIds(edges) && OutDegree(edges, src) == 1
    requires 0 <= m < |edges| && edges[m].source == src
    ensures forall i :: 0 <= i < |edges| ==> (edges[i].source == src <==> edges[i].id == edges[m].id)
  {
    forall i | 0 <= i < |edges|
      ensures edges[i].source == src <==> edges[i].id == edges[m].id
    {
      if edges[i].source == src && i != m {
        TwoSiblingsAtLeast(edges, src, i, m);
      }
    }
  }

  /** Every out-degree grows by one for the new edge's source and stays put elsewhere. */
  lemma ConnectDegree(edges: seq<Edge>, c: Connection, newId: string, src: string)
    ensures OutDegree(Connected(edges, c, newId), src)
            == OutDegree(edges, src) + (if src == c.source then 1 else 0)
  {
    var r := Connected(edges, c, newId);
    assert r == r[..|edges|] + [r[|edges|]];
    OutgoingAppend(r[..|edges|], [r[|edges|]], src);
    SameEndsSameDegree(r[..|edges|], edges, src);
  }

  /**
   * Second outgoing edge: both edges leaving the source weigh 50 afterwards, whatever the
   * old edge weighed, and edges from other sources are untouched.
   */
  lemma ConnectSecondEdgeSplitsEvenly(edges: seq<Edge>, c: Connection, newId: string)
    requires UniqueEdgeIds(edges) && SplitsOnConnect(edges, c)
    ensures OutDegree(Connected(edges, c, newId), c.source) == 2
    ensures forall i :: 0 <= i < |edges| + 1 && Connected(edges, c, newId)[i].source == c.source
                        ==> Connected(edges, c, newId)[i].weight == Some(50.0)
    ensures forall i :: 0 <= i < |edges| && edges[i].source != c.source
                        ==> Connected(edges, c, newId)[i] == edges[i]
  {
    ConnectDegree(edges, c, newId, c.source);
    var outgoing := Outgoing(edges, c.source);
    assert outgoing[0] in outgoing;
    var m :| 0 <= m < |edges| && edges[m] == outgoing[0];
    SoleSibling(edges, c.source, m);
  }

  /** onConnect never breaks a binary split that was balanced (given a source). */
  lemma ConnectKeepsBalance(edges: seq<Edge>, c: Connection, newId: string)
    requires UniqueEdgeIds(edges) && BinarySplitsBalanced(edges) && c.source != ""
    ensures BinarySplitsBalanced(Connected(edges, c, newId))
  {
    var r := Connected(edges, c, newId);
    forall i, j | 0 <= i < |r| && 0 <= j < |r| && i != j
                  && r[i].source == r[j].source && OutDegree(r, r[i].source) == 2
      ensures PairSumsTo100(r[i], r[j])
    {
      var s := r[i].source;
      ConnectDegree(edges, c, newId, s);
      if s == c.source {
        ConnectSecondEdgeSplitsEvenly(edges, c, newId);
      } else {
        assert i < |edges| && j < |edges|;
      }
    }
  }

  // ---------------------------------------------------------------------------
  // Weight balancer: editing one edge's weight
  // ---------------------------------------------------------------------------

  function RealMin(a: real, b: real): real { if a <= b then a else b }
  function RealMax(a: real, b: real): real { if a >= b then a else b }

  /**
   * `Number.isFinite(parsed) ? Math.min(100, Math.max(0, parsed)) : 0`, where None
   * stands for a parse that is not a finite number.
   */
  function Clamp(parsed: Option<real>): (w: real)
    ensures 0.0 <= w <= 100.0
    ensures parsed.None? ==> w == 0.0
    ensures parsed.Some? && 0.0 <= parsed.value <= 100.0 ==> w == parsed.value
    ensures parsed.Some? && parsed.value < 0.0 ==> w == 0.0
    ensures parsed.Some? && parsed.value > 100.0 ==> w == 100.0
  {
    match parsed
    case None => 0.0
    case Some(x) => RealMin(100.0, RealMax(0.0, x))
  }

  /**
   * `updateEdgeWeight`'s rewrite of the edge list for the selected edge `sel` and the
   * clamped value `w`: the selected edge gets `w`; when `sel`'s source has exactly two
   * outgoing edges, the other edge leaving that source gets `100 - w`.
   */
  function Reweighted(edges: seq<Edge>, sel: Edge, w: real): (r: seq<Edge>)
    ensures |r| == |edges|
    ensures forall i :: 0 <= i < |edges| ==> SameEnds(r[i], edges[i])
    ensures forall i :: 0 <= i < |edges| && edges[i].id == sel.id ==> r[i].weight == Some(w)
    ensures forall i :: 0 <= i < |edges| && edges[i].id != sel.id && edges[i].source != sel.source
                        ==> r[i] == edges[i]
    ensures OutDegree(edges, sel.source) != 2 ==>
              forall i :: 0 <= i < |edges| && edges[i].id != sel.id ==> r[i] == edges[i]
  {
    var pair := OutDegree(edges, sel.source) == 2;
    seq(|edges|, i requires 0 <= i < |edges| =>
      if edges[i].id == sel.id then edges[i].(weight := Some(w))
      else if pair && edges[i].source == sel.source then edges[i].(weight := Some(100.0 - w))
      else edges[i])
  }

  /** The selection `sel` names edge `k` of the list (same id, same source). */
  predicate SelectionAt(edges: seq<Edge>, sel: Edge, k: int)
  {
    0 <= k < |edges| && edges[k].id == sel.id && edges[k].source == sel.source
  }

  /** Editing one of exactly two siblings sets the other to `100 - w`: the pair sums to 100. */
  lemma EditBalancesPair(edges: seq<Edge>, sel: Edge, w: real, k: int)
    requires UniqueEdgeIds(edges) && SelectionAt(edges, sel, k)
    requires OutDegree(edges, sel.source) == 2
    ensures forall i :: 0 <= i < |edges| && i != k && edges[i].source == sel.source ==>
              Reweighted(edges, sel, w)[i].weight == Some(100.0 - w)
              && PairSumsTo100(Reweighted(edges, sel, w)[k], Reweighted(edges, sel, w)[i])
  {
    forall i | 0 <= i < |edges| && i != k && edges[i].source == sel.source
      ensures edges[i].id != sel.id
    {
      if i < k { assert edges[i].id != edges[k].id; } else { assert edges[k].id != edges[i].id; }
    }
  }

  /** An edit of the selected edge keeps every binary split balanced. */
  lemma EditKeepsBalance(edges: seq<Edge>, sel: Edge, w: real, k: int)
    requires UniqueEdgeIds(edges) && BinarySplitsBalanced(edges) && SelectionAt(edges, sel, k)
    ensures BinarySplitsBalanced(Reweighted(edges, sel, w))
  {
    var r := Reweighted(edges, sel, w);
    forall i, j | 0 <= i < |r| && 0 <= j < |r| && i != j
                  && r[i].source == r[j].source && OutDegree(r, r[i].source) == 2
      ensures PairSumsTo100(r[i], r[j])
    {
      var s := r[i].source;
      SameEndsSameDegree(r, edges, s);
      assert forall m :: 0 <= m < |edges| && m != k ==> edges[m].id != sel.id by {
        forall m | 0 <= m < |edges| && m != k ensures edges[m].id != sel.id {
          if m < k { assert edges[m].id != edges[k].id; } else { assert edges[k].id != edges[m].id; }
        }
      }
      if s == sel.source {
        EditBalancesPair(edges, sel, w, k);
        if i != k && j != k {
          ThreeSiblingsAtLeast(edges, s, i, j, k);
        }
      }
    }
  }

  // ---------------------------------------------------------------------------
  // Derived share label
  // ---------------------------------------------------------------------------

  /** `getEdgeWeight`: a missing weight counts as 100, a negative one as 0. */
  function EffectiveWeight(e: Edge): (w: real)
    ensures w >= 0.0
    ensures e.weight.None? ==> w == 100.0
    ensures e.weight.Some? && e.weight.value >= 0.0 ==> w == e.weight.value
    ensures e.weight.Some? && e.weight.value < 0.0 ==> w == 0.0
  {
    match e.weight
    case None => 100.0
    case Some(x) => if x >= 0.0 then x else 0.0
  }

  /** `siblingEdges.reduce((sum, e) => sum + getEdgeWeight(e), 0)`. */
  function TotalWeight(siblings: seq<Edge>): (t: real)
    ensures t >= 0.0
  {
    if siblings == [] then 0.0
    else TotalWeight(siblings[..|siblings| - 1]) + EffectiveWeight(siblings[|siblings| - 1])
  }

  /** The percentage label `displayEdges` shows on edge `e`. */
  function Share(edges: seq<Edge>, e: Edge): (r: real)
    ensures r >= 0.0
  {
    var siblings := Outgoing(edges, e.source);
    var total := TotalWeight(siblings);
    if total > 0.0 then EffectiveWeight(e) / total * 100.0
    else if |siblings| > 0 then 100.0 / (|siblings| as real)
    else 100.0
  }

  /** Sum of the labels of the listed edges. */
  function SumShares(edges: seq<Edge>, listed: seq<Edge>): real
  {
    if listed == [] then 0.0
    else SumShares(edges, listed[..|listed| - 1]) + Share(edges, listed[|listed| - 1])
  }

  lemma {:induction false} WeightAtMostTotal(siblings: seq<Edge>, e: Edge)
    requires e in siblings
    ensures EffectiveWeight(e) <= TotalWeight(siblings)
    decreases |siblings|
  {
    var init := siblings[..|siblings| - 1];
    if e != siblings[|siblings| - 1] {
      assert e in init by {
        var k :| 0 <= k < |siblings| && siblings[k] == e;
        assert init[k] == e;
      }
      WeightAtMostTotal(init, e);
    }
  }

  lemma PercentOfWhole(part: real, whole: real)
    requires 0.0 <= part <= whole && whole > 0.0
    ensures 0.0 <= part / whole * 100.0 <= 100.0
  {
  }

  /** Every label lies between 0 and 100. */
  lemma ShareWithinPercent(edges: seq<Edge>, e: Edge)
    requires e in edges
    ensures 0.0 <= Share(edges, e) <= 100.0
  {
    var siblings := Outgoing(edges, e.source);
    var total := TotalWeight(siblings);
    assert e in siblings;
    if total > 0.0 {
      WeightAtMostTotal(siblings, e);
      PercentOfWhole(EffectiveWeight(e), total);
      assert Share(edges, e) == EffectiveWeight(e) / total * 100.0;
    } else {
      var n := |siblings| as real;
      assert n >= 1.0;
      PercentOfWhole(1.0, n);
      assert Share(edges, e) == 100.0 / n;
    }
  }

  /** With a zero sibling total, each sibling shows an equal `100 / siblingCount`. */
  lemma ZeroTotalEqualSplit(edges: seq<Edge>, e: Edge)
    requires e in edges && TotalWeight(Outgoing(edges, e.source)) == 0.0
    ensures Share(edges, e) == 100.0 / (OutDegree(edges, e.source) as real)
  {
    assert e in Outgoing(edges, e.source);
  }

  lemma AddPercentages(x: real, y: real, a: real, b: real, whole: real)
    requires whole != 0.0
    requires x == a / whole * 100.0 && y == b / whole * 100.0
    ensures x + y == (a + b) / whole * 100.0
  {
  }

  lemma {:induction false} SumSharesScaled(edges: seq<Edge>, src: string, listed: seq<Edge>)
    requires forall e :: e in listed ==> e.source == src
    requires TotalWeight(Outgoing(edges, src)) > 0.0
    ensures SumShares(edges, listed) == TotalWeight(listed) / TotalWeight(Outgoing(edges, src)) * 100.0
    decreases |listed|
  {
    var total := TotalWeight(Outgoing(edges, src));
    if listed == [] {
      assert SumShares(edges, listed) == 0.0;
    } else {
      var init := listed[..|listed| - 1];
      var last := listed[|listed| - 1];
      assert init + [last] == listed;
      assert last in listed;
      assert forall e :: e in init ==> e in listed;
      assert Share(edges, last) == EffectiveWeight(last) / total * 100.0;
      SumSharesScaled(edges, src, init);
      ShareStep(edges, init, last, total);
    }
  }

  lemma ShareStep(edges: seq<Edge>, init: seq<Edge>, last: Edge, total: real)
    requires total != 0.0
    requires SumShares(edges, init) == TotalWeight(init) / total * 100.0
    requires Share(edges, last) == EffectiveWeight(last) / total * 100.0
    ensures SumShares(edges, init + [last]) == TotalWeight(init + [last]) / total * 100.0
  {
    var listed := init + [last];
    assert listed[..|listed| - 1] == init;
    AddPercentages(SumShares(edges, init), Share(edges, last), TotalWeight(init), EffectiveWeight(last), total);
  }

  /** `n` copies of `x` added up. */
  function Repeated(n: nat, x: real): real
  {
    if n == 0 then 0.0 else Repeated(n - 1, x) + x
  }

  lemma {:induction false} RepeatedIsProduct(n: nat, x: real)
    ensures Repeated(n, x) == (n as real) * x
  {
    if n > 0 {
      RepeatedIsProduct(n - 1, x);
    }
  }

  lemma {:induction false} SumSharesEqual(edges: seq<Edge>, src: string, listed: seq<Edge>, even: real)
    requires forall e :: e in listed ==> e.source == src
    requires TotalWeight(Outgoing(edges, src)) == 0.0 && OutDegree(edges, src) > 0
    requires even == 100.0 / (OutDegree(edges, src) as real)
    ensures SumShares(edges, listed) == Repeated(|listed|, even)
    decreases |listed|
  {
    if listed != [] {
      var init := listed[..|listed| - 1];
      var last := listed[|listed| - 1];
      assert last in listed;
      assert forall e :: e in init ==> e in listed;
      SumSharesEqual(edges, src, init, even);
      assert Share(edges, last) == even;
    }
  }

  /** The labels of all edges leaving one source add up to 100, whatever their weights. */
  lemma SharesOfSourceSumTo100(edges: seq<Edge>, src: string)
    requires OutDegree(edges, src) > 0
    ensures SumShares(edges, Outgoing(edges, src)) == 100.0
  {
    var siblings := Outgoing(edges, src);
    var total := TotalWeight(siblings);
    assert forall e :: e in siblings ==> e.source == src;
    if total > 0.0 {
      SumSharesScaled(edges, src, siblings);
      WholeIsHundredPercent(total);
    } else {
      var even := 100.0 / (|siblings| as real);
      SumSharesEqual(edges, src, siblings, even);
      EvenSharesAddUp(|siblings|, even);
    }
  }

  lemma WholeIsHundredPercent(t: real)
    requires t != 0.0
    ensures t / t * 100.0 == 100.0
  {
  }

  lemma EvenSharesAddUp(n: nat, even: real)
    requires n > 0 && even == 100.0 / (n as real)
    ensures Repeated(n, even) == 100.0
  {
    RepeatedIsProduct(n, even);
  }

  // ---------------------------------------------------------------------------
  // Nodes: creation defaults and edits
  // ---------------------------------------------------------------------------

  /** The parameter keys the editor shows for each kind (all kinds have `dropout_rate`). */
  function RecognizedKeys(k: Kind): set<string>
  {
    match k
    case Capture => {"base_flow", "efficiency", "dropout_rate"}
    case Transport => {"base_leakage", "dropout_rate"}
    case Storage => {"base_pressure", "dropout_rate"}
    case Utilization => {"conversion_rate", "dropout_rate"}
  }

  /** Each recognized parameter present lies within its documented bounds. */
  predicate WithinSchema(p: Params)
  {
    && ("base_flow" in p ==> p["base_flow"] >= 0.0)
    && ("efficiency" in p ==> 0.0 <= p["efficiency"] <= 100.0)
    && ("base_leakage" in p ==> p["base_leakage"] >= 0.0)
    && ("base_pressure" in p ==> p["base_pressure"] >= 0.0)
    && ("conversion_rate" in p ==> 0.0 <= p["conversion_rate"] <= 100.0)
    && ("dropout_rate" in p ==> 0.0 <= p["dropout_rate"] <= 1.0)
  }

  /** `addNode`'s kind-specific default parameters. */
  function DefaultParams(k: Kind): (p: Params)
    ensures p.Keys == RecognizedKeys(k)
    ensures WithinSchema(p)
  {
    match k
    case Capture => map["base_flow" := 100.0, "efficiency" := 90.0, "dropout_rate" := 0.05]
    case Transport => map["base_leakage" := 2.0, "dropout_rate" := 0.02]
    case Storage => map["base_pressure" := 50.0, "dropout_rate" := 0.01]
    case Utilization => map["conversion_rate" := 95.0, "dropout_rate" := 0.01]
  }

  /** The node `addNode` appends, with `id` supplied by the caller. */
  function NewNode(k: Kind, id: string): (n: Node)
    ensures n.id == id && n.kind == k
    ensures n.params.Keys == RecognizedKeys(k) && WithinSchema(n.params)
    ensures n.params == DefaultParams(k) && n.name == "New " + KindName(k)
  {
    Node(id, k, "New " + KindName(k), DefaultParams(k))
  }

  /** The two edits the properties panel makes through `updateNodeData`. */
  datatype NodeEdit = SetLabel(text: string) | SetParam(key: string, value: real)

  function ApplyEdit(n: Node, edit: NodeEdit): (m: Node)
    ensures m.id == n.id && m.kind == n.kind
    ensures edit.SetLabel? ==> m.name == edit.text && m.params == n.params
    ensures edit.SetParam? ==>
              && m.name == n.name
              && m.params.Keys == n.params.Keys + {edit.key}
              && m.params[edit.key] == edit.value
              && forall key :: key in n.params && key != edit.key ==> m.params[key] == n.params[key]
  {
    match edit
    case SetLabel(text) => n.(name := text)
    case SetParam(key, value) => n.(params := n.params[key := value])
  }

  /** `updateNodeData`'s rewrite of the node list: the node with id `selId` is edited. */
  function EditedNodes(nodes: seq<Node>, selId: string, edit: NodeEdit): (r: seq<Node>)
    ensures |r| == |nodes|
    ensures forall i :: 0 <= i < |nodes| ==> r[i].id == nodes[i].id && r[i].kind == nodes[i].kind
    ensures forall i :: 0 <= i < |nodes| && nodes[i].id != selId ==> r[i] == nodes[i]
    ensures forall i :: 0 <= i < |nodes| && nodes[i].id == selId ==> r[i] == ApplyEdit(nodes[i], edit)
  {
    seq(|nodes|, i requires 0 <= i < |nodes| =>
      if nodes[i].id == selId then ApplyEdit(nodes[i], edit) else nodes[i])
  }

  /** Lists with the same ids and kinds, position by position, agree on every lookup's kind. */
  lemma {:induction false} FindNodeSameShape(a: seq<Node>, b: seq<Node>, id: string)
    requires |a| == |b|
    requires forall i :: 0 <= i < |a| ==> a[i].id == b[i].id && a[i].kind == b[i].kind
    ensures FindNode(a, id).Some? == FindNode(b, id).Some?
    ensures FindNode(a, id).Some? ==> FindNode(a, id).value.kind == FindNode(b, id).value.kind
  {
    if a != [] && a[0].id != id {
      FindNodeSameShape(a[1..], b[1..], id);
    }
  }

  /** Appending a node with a fresh id changes no existing lookup. */
  lemma {:induction false} FindNodeAppend(nodes: seq<Node>, n: Node, id: string)
    requires id != n.id
    ensures FindNode(nodes + [n], id) == FindNode(nodes, id)
  {
    if nodes == [] {
      assert [n][1..] == [];
    } else {
      assert (nodes + [n])[1..] == nodes[1..] + [n];
      FindNodeAppend(nodes[1..], n, id);
    }
  }

  // ---------------------------------------------------------------------------
  // The editor's graph invariant
  // ---------------------------------------------------------------------------

  ghost predicate GraphInvariant(nodes: seq<Node>, edges: seq<Edge>)
  {
    && UniqueNodeIds(nodes)
    && (forall n :: n in nodes ==> n.id != "")
    && UniqueEdgeIds(edges)
    && (forall e :: e in edges ==> IsValidConnection(nodes, Connection(e.source, e.target)))
    && (forall e :: e in edges ==> e.weight.Some? && 0.0 <= e.weight.value <= 100.0)
    && BinarySplitsBalanced(edges)
  }

  lemma ConnectKeepsInvariant(nodes: seq<Node>, edges: seq<Edge>, c: Connection, newId: string)
    requires GraphInvariant(nodes, edges) && IsValidConnection(nodes, c)
    requires forall e :: e in edges ==> e.id != newId
    ensures GraphInvariant(nodes, Connected(edges, c, newId))
  {
    var r := Connected(edges, c, newId);
    assert c.source != "";
    ConnectKeepsBalance(edges, c, newId);
    forall i, j | 0 <= i < j < |r| ensures r[i].id != r[j].id {
      if j == |edges| {
        assert edges[i] in edges;
      }
    }
    forall e | e in r
      ensures IsValidConnection(nodes, Connection(e.source, e.target))
      ensures e.weight.Some? && 0.0 <= e.weight.value <= 100.0
    {
      var i :| 0 <= i < |r| && r[i] == e;
      if i < |edges| {
        assert edges[i] in edges;
      }
    }
  }

  lemma EditKeepsInvariant(nodes: seq<Node>, edges: seq<Edge>, sel: Edge, w: real, k: int)
    requires GraphInvariant(nodes, edges) && SelectionAt(edges, sel, k)
    requires 0.0 <= w <= 100.0
    ensures GraphInvariant(nodes, Reweighted(edges, sel, w))
  {
    var r := Reweighted(edges, sel, w);
    EditKeepsBalance(edges, sel, w, k);
    forall e | e in r
      ensures IsValidConnection(nodes, Connection(e.source, e.target))
      ensures e.weight.Some? && 0.0 <= e.weight.value <= 100.0
    {
      var i :| 0 <= i < |r| && r[i] == e;
      assert edges[i] in edges;
    }
  }

  lemma AddNodeKeepsInvariant(nodes: seq<Node>, edges: seq<Edge>, k: Kind, id: string)
    requires GraphInvariant(nodes, edges)
    requires id != "" && forall n :: n in nodes ==> n.id != id
    ensures GraphInvariant(nodes + [NewNode(k, id)], edges)
  {
    var n := NewNode(k, id);
    var nodes' := nodes + [n];
    forall i, j | 0 <= i < j < |nodes'| ensures nodes'[i].id != nodes'[j].id {
      if j == |nodes| {
        assert nodes[i] in nodes;
      }
    }
    forall e | e in edges
      ensures IsValidConnection(nodes', Connection(e.source, e.target))
    {
      assert IsValidConnection(nodes, Connection(e.source, e.target));
      FindNodeAppend(nodes, n, e.source);
      FindNodeAppend(nodes, n, e.target);
    }
  }

  lemma EditNodeKeepsInvariant(nodes: seq<Node>, edges: seq<Edge>, selId: string, edit: NodeEdit)
    requires GraphInvariant(nodes, edges)
    ensures GraphInvariant(EditedNodes(nodes, selId, edit), edges)
  {
    var nodes' := EditedNodes(nodes, selId, edit);
    forall n | n in nodes' ensures n.id != "" {
      var i :| 0 <= i < |nodes'| && nodes'[i] == n;
      assert nodes[i] in nodes;
    }
    forall c: Connection
      ensures IsValidConnection(nodes', c) == IsValidConnection(nodes, c)
    {
      FindNodeSameShape(nodes', nodes, c.source);
      FindNodeSameShape(nodes', nodes, c.target);
    }
  }

  // ---------------------------------------------------------------------------
  // The graph the editor opens with
  // ---------------------------------------------------------------------------

  function InitialNodes(): (r: seq<Node>)
    ensures |r| == 8
  {
    [ Node("capture-1", Capture, "Steel Mill Capture 1",
           map["base_flow" := 180.0, "efficiency" := 89.0, "dropout_rate" := 0.05]),
      Node("capture-2", Capture, "Refinery Capture 2",
           map["base_flow" := 135.0, "efficiency" := 86.0, "dropout_rate" := 0.06]),
      Node("transport-1", Transport, "Gathering Header",
           map["base_leakage" := 1.2, "dropout_rate" := 0.02]),
      Node("transport-2", Transport, "Trunk Pipeline West",
           map["base_leakage" := 2.0, "dropout_rate" := 0.025]),
      Node("transport-3", Transport, "Trunk Pipeline East",
           map["base_leakage" := 2.4, "dropout_rate" := 0.03]),
      Node("storage-1", Storage, "Saline Aquifer North",
           map["base_pressure" := 105.0, "dropout_rate" := 0.01]),
      Node("storage-2", Storage, "Depleted Gas Field South",
           map["base_pressure" := 92.0, "dropout_rate" := 0.015]),
      Node("utilization-1", Utilization, "E-Fuels Conversion Plant",
           map["conversion_rate" := 93.0, "dropout_rate" := 0.02]) ]
  }

  function InitialEdges(): (r: seq<Edge>)
    ensures |r| == 8
  {
    [ Edge("e-c1-h", "capture-1", "transport-1", Some(100.0)),
      Edge("e-c2-h", "capture-2", "transport-1", Some(100.0)),
      Edge("e-h-w", "transport-1", "transport-2", Some(50.0)),
      Edge("e-h-e", "transport-1", "transport-3", Some(50.0)),
      Edge("e-w-s1", "transport-2", "storage-1", Some(50.0)),
      Edge("e-w-s2", "transport-2", "storage-2", Some(50.0)),
      Edge("e-e-s2", "transport-3", "storage-2", Some(50.0)),
      Edge("e-e-u1", "transport-3", "utilization-1", Some(50.0)) ]
  }

  /** Every initial node carries exactly its kind's parameters, within bounds. */
  lemma InitialParamsFollowSchema()
    ensures forall n :: n in InitialNodes() ==> n.params.Keys == RecognizedKeys(n.kind) && WithinSchema(n.params)
  {
  }

  lemma InitialIdsDistinct()
    ensures UniqueNodeIds(InitialNodes()) && UniqueEdgeIds(InitialEdges())
    ensures forall n :: n in InitialNodes() ==> n.id != ""
  {
  }

  /** A connection between listed nodes `f` and `t` of legal kinds is accepted. */
  lemma ValidBetween(nodes: seq<Node>, f: int, t: int, c: Connection)
    requires UniqueNodeIds(nodes) && 0 <= f < |nodes| && 0 <= t < |nodes|
    requires c.source == nodes[f].id && c.target == nodes[t].id
    requires !IsTerminal(nodes[f].kind) && nodes[t].kind != Capture
    ensures IsValidConnection(nodes, c)
  {
    FindNodeUnique(nodes, nodes[f]);
    FindNodeUnique(nodes, nodes[t]);
  }

  lemma InitialEdgesLegal()
    ensures forall e :: e in InitialEdges() ==> IsValidConnection(InitialNodes(), Connection(e.source, e.target))
  {
    var nodes := InitialNodes();
    var edges := InitialEdges();
    InitialIdsDistinct();
    // positions of each initial edge's source and target in the node list
    var from := [0, 1, 2, 2, 3, 3, 4, 4];
    var to := [2, 2, 3, 4, 5, 6, 6, 7];
    forall i | 0 <= i < |edges|
      ensures IsValidConnection(nodes, Connection(edges[i].source, edges[i].target))
    {
      ValidBetween(nodes, from[i], to[i], Connection(edges[i].source, edges[i].target));
    }
  }

  /** Balance holds outright when every two edges sharing a source sum to 100. */
  lemma SharedSourcesSumTo100(edges: seq<Edge>)
    requires forall i, j ::
               0 <= i < |edges| && 0 <= j < |edges| && i != j && edges[i].source == edges[j].source
               ==> PairSumsTo100(edges[i], edges[j])
    ensures BinarySplitsBalanced(edges)
  {
  }

  lemma InitialSplitsBalanced()
    ensures BinarySplitsBalanced(InitialEdges())
  {
    var edges := InitialEdges();
    // only the three transport splits share a source, each at 50/50
    forall i, j | 0 <= i < |edges| && 0 <= j < |edges| && i != j && edges[i].source == edges[j].source
      ensures PairSumsTo100(edges[i], edges[j])
    {
      assert 2 <= i && 2 <= j;
    }
    SharedSourcesSumTo100(edges);
  }

  lemma InitialWeightsInRange()
    ensures forall e :: e in InitialEdges() ==> e.weight.Some? && 0.0 <= e.weight.value <= 100.0
  {
    var edges := InitialEdges();
    assert forall i :: 0 <= i < |edges| ==> edges[i].weight == Some(50.0) || edges[i].weight == Some(100.0);
  }

  /** The initial graph obeys the connection rules and its binary splits sum to 100. */
  lemma InitialGraphInvariant()
    ensures GraphInvariant(InitialNodes(), InitialEdges())
  {
    InitialIdsDistinct();
    InitialEdgesLegal();
    InitialSplitsBalanced();
    InitialWeightsInRange();
  }
}
