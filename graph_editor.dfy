/**
 * The state of the operations-map editor and the handlers that change it: drawing
 * an edge, typing a weight, adding a node, editing a node's properties, selecting,
 * and sending the graph to the simulator.
 */
module GraphEditor {
  import opened Common
  import opened FlowGraph
  import opened SimRequest

  /** The jurisdiction the editor opens with, `useState('epa')`. */
  const DefaultJurisdiction: string := "epa"

  /** The first edge with that id, if any: how the weight handler finds the edge it rewrote. */
  function FindEdge(edges: seq<Edge>, id: string): (r: Option<Edge>)
    ensures r.Some? ==> r.value in edges && r.value.id == id
    ensures r.None? ==> forall e :: e in edges ==> e.id != id
  {
    if edges == [] then None
    else if edges[0].id == id then Some(edges[0])
    else FindEdge(edges[1..], id)
  }

  lemma {:induction false} FindEdgeAt(edges: seq<Edge>, k: int)
    requires UniqueEdgeIds(edges) && 0 <= k < |edges|
    ensures FindEdge(edges, edges[k].id) == Some(edges[k])
  {
    if k != 0 {
      assert edges[0].id != edges[k].id;
      assert edges[1..][k - 1] == edges[k];
      FindEdgeAt(edges[1..], k - 1);
    }
  }

  class Editor {
    var nodes: seq<Node>
    var edges: seq<Edge>
    var selectedNode: Option<Node>
    var selectedEdge: Option<Edge>
    var jurisdiction: string
    /** The run-length field, parsed; None stands for text that is not a number. */
    var duration: Option<real>

    /**
     * The graph keeps its invariant, a selected edge is one of the edges, a selected
     * node is one of the nodes, and a node and an edge are never selected together.
     */
    ghost predicate Valid()
      reads this
    {
      && GraphInvariant(nodes, edges)
      && (selectedEdge.Some? ==> exists k :: SelectionAt(edges, selectedEdge.value, k))
      && (selectedNode.Some? ==> selectedNode.value in nodes)
      && !(selectedNode.Some? && selectedEdge.Some?)
    }

    constructor()
      ensures Valid()
      ensures nodes == InitialNodes() && edges == InitialEdges()
      ensures selectedNode == None && selectedEdge == None
      ensures jurisdiction == DefaultJurisdiction && duration == Some(DefaultDurationMinutes)
    {
      nodes := InitialNodes();
      edges := InitialEdges();
      selectedNode := None;
      selectedEdge := None;
      jurisdiction := DefaultJurisdiction;
      duration := Some(DefaultDurationMinutes);
      InitialGraphInvariant();
    }

    /** `onNodeClick`: select node `k` and drop any edge selection. */
    method SelectNode(k: int)
      requires Valid() && 0 <= k < |nodes|
      modifies this
      ensures Valid()
      ensures selectedNode == Some(old(nodes)[k]) && selectedEdge == None
      ensures nodes == old(nodes) && edges == old(edges)
      ensures jurisdiction == old(jurisdiction) && duration == old(duration)
    {
      selectedNode := Some(nodes[k]);
      selectedEdge := None;
    }

    /** `onEdgeClick`: select edge `k` and drop any node selection. */
    method SelectEdge(k: int)
      requires Valid() && 0 <= k < |edges|
      modifies this
      ensures Valid()
      ensures selectedEdge == Some(old(edges)[k]) && selectedNode == None
      ensures nodes == old(nodes) && edges == old(edges)
      ensures jurisdiction == old(jurisdiction) && duration == old(duration)
    {
      selectedEdge := Some(edges[k]);
      selectedNode := None;
      assert SelectionAt(edges, edges[k], k);
    }

    /** `onPaneClick`: clear both selections. */
    method ClearSelection()
      requires Valid()
      modifies this
      ensures Valid()
      ensures selectedNode == None && selectedEdge == None
      ensures nodes == old(nodes) && edges == old(edges)
      ensures jurisdiction == old(jurisdiction) && duration == old(duration)
    {
      selectedNode := None;
      selectedEdge := None;
    }

    /** The jurisdiction selector. */
    method SetJurisdiction(j: string)
      requires Valid()
      modifies this
      ensures Valid() && jurisdiction == j
      ensures nodes == old(nodes) && edges == old(edges) && duration == old(duration)
      ensures selectedNode == old(selectedNode) && selectedEdge == old(selectedEdge)
    {
      jurisdiction := j;
    }

    /** The run-length field. */
    method SetDuration(parsed: Option<real>)
      requires Valid()
      modifies this
      ensures Valid() && duration == parsed
      ensures nodes == old(nodes) && edges == old(edges) && jurisdiction == old(jurisdiction)
      ensures selectedNode == old(selectedNode) && selectedEdge == old(selectedEdge)
    {
      duration := parsed;
    }

    /**
     * A drag from one handle to another. The canvas offers the connection to the
     * validator first; only an accepted one reaches `onConnect`, which rewrites the
     * edge list with `newId` as the new edge's id.
     */
    method Connect(c: Connection, newId: string) returns (accepted: bool)
      requires Valid()
      requires forall e :: e in edges ==> e.id != newId
      modifies this
      ensures Valid()
      ensures accepted == IsValidConnection(old(nodes), c)
      ensures edges == (if accepted then Connected(old(edges), c, newId) else old(edges))
      ensures nodes == old(nodes) && jurisdiction == old(jurisdiction) && duration == old(duration)
      ensures selectedNode == old(selectedNode) && selectedEdge == old(selectedEdge)
    {
      accepted := IsValidConnection(nodes, c);
      if accepted {
        ConnectKeepsInvariant(nodes, edges, c, newId);
        var r := Connected(edges, c, newId);
        if selectedEdge.Some? {
          var k :| SelectionAt(edges, selectedEdge.value, k);
          assert SelectionAt(r, selectedEdge.value, k);
        }
        edges := r;
      }
    }

    /**
     * `updateEdgeWeight`: with an edge selected, the typed weight is clamped, the
     * edge list rewritten by the balancer, and the selection replaced by the
     * rewritten edge; with no edge selected nothing happens.
     */
    method UpdateEdgeWeight(parsed: Option<real>)
      requires Valid()
      modifies this
      ensures Valid()
      ensures old(selectedEdge).None? ==> edges == old(edges) && selectedEdge == None
      ensures old(selectedEdge).Some? ==>
                && edges == Reweighted(old(edges), old(selectedEdge).value, Clamp(parsed))
                && selectedEdge.Some?
                && selectedEdge.value.id == old(selectedEdge).value.id
                && selectedEdge.value.source == old(selectedEdge).value.source
                && selectedEdge.value.weight == Some(Clamp(parsed))
                && selectedEdge == FindEdge(edges, old(selectedEdge).value.id)
                && selectedEdge.value in edges
      ensures nodes == old(nodes) && jurisdiction == old(jurisdiction) && duration == old(duration)
      ensures selectedNode == old(selectedNode)
    {
      if selectedEdge.None? {
        return;
      }
      var sel := selectedEdge.value;
      var w := Clamp(parsed);
      ghost var k :| SelectionAt(edges, sel, k);
      EditKeepsInvariant(nodes, edges, sel, w, k);
      var r := Reweighted(edges, sel, w);
      assert r[k].id == sel.id;
      FindEdgeAt(r, k);
      edges := r;
      selectedEdge := FindEdge(r, sel.id);
      assert SelectionAt(edges, selectedEdge.value, k);
    }

    /**
     * `addNode`: append a node of kind `k` with the kind's default parameters. The
     * id, `${type}-${Date.now()}` in the editor, is supplied by the caller and is new.
     */
    method AddNode(k: Kind, newId: string)
      requires Valid()
      requires newId != "" && forall n :: n in nodes ==> n.id != newId
      modifies this
      ensures Valid()
      ensures nodes == old(nodes) + [NewNode(k, newId)]
      ensures edges == old(edges) && jurisdiction == old(jurisdiction) && duration == old(duration)
      ensures selectedNode == old(selectedNode) && selectedEdge == old(selectedEdge)
    {
      AddNodeKeepsInvariant(nodes, edges, k, newId);
      nodes := nodes + [NewNode(k, newId)];
    }

    /**
     * `updateNodeData`: with a node selected, that node's label or one of its
     * parameters is replaced, and the selection follows the edited node; with no
     * node selected nothing happens.
     */
    method UpdateNodeData(edit: NodeEdit)
      requires Valid()
      modifies this
      ensures Valid()
      ensures old(selectedNode).None? ==> nodes == old(nodes) && selectedNode == None
      ensures old(selectedNode).Some? ==>
                && nodes == EditedNodes(old(nodes), old(selectedNode).value.id, edit)
                && selectedNode == Some(ApplyEdit(old(selectedNode).value, edit))
      ensures edges == old(edges) && jurisdiction == old(jurisdiction) && duration == old(duration)
      ensures selectedEdge == old(selectedEdge)
    {
      if selectedNode.None? {
        return;
      }
      var n := selectedNode.value;
      var id := n.id;
      EditNodeKeepsInvariant(nodes, edges, id, edit);
      var r := EditedNodes(nodes, id, edit);
      var i :| 0 <= i < |nodes| && nodes[i] == n;
      assert r[i] == ApplyEdit(n, edit);
      nodes := r;
      selectedNode := Some(r[i]);
    }

    /**
     * `handleSimulate`: the request built from the current graph and jurisdiction,
     * and the run length handed on with it. Nothing in the editor changes.
     */
    method Simulate() returns (request: Request, minutes: real)
      requires Valid()
      ensures request == BuildRequest(nodes, edges, jurisdiction)
      ensures minutes == RequestedDuration(duration) && minutes != 0.0
      ensures forall re :: re in request.edges ==> 0.0 <= re.weight <= 100.0
    {
      request := BuildRequest(nodes, edges, jurisdiction);
      minutes := RequestedDuration(duration);
      RequestCarriesEditorWeights(nodes, edges, jurisdiction);
      forall re | re in request.edges ensures 0.0 <= re.weight <= 100.0 {
        var i :| 0 <= i < |request.edges| && request.edges[i] == re;
      }
    }
  }
}
