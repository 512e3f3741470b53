# Carbon operations dashboard: graph editor and results metrics in Dafny

This project models the client-side logic of the carbon operations dashboard.

**The operations-map editor** (`OperationsMap.tsx`). The operator builds a
typed flow graph of capture, transport, storage and utilization nodes. The model covers:

- the connection validator;
- the weight balancer that `onConnect` and `updateEdgeWeight` apply;
- the percentage label each edge shows;
- node creation defaults and property edits;
- the request that `handleSimulate` hands to the simulator;
- the number of readings the page asks for (`page.tsx`).

The editor state is the class `GraphEditor.Editor`. Its methods mirror the handlers.
Each method is proved against the pure functions in `FlowGraph`, and every method
keeps the graph invariant `FlowGraph.GraphInvariant`:

- node ids are distinct and non-empty;
- edge ids are distinct;
- every edge passes the validator;
- every weight is present and lies in [0, 100];
- every source with exactly two outgoing edges has weights that sum to 100.

**The results view** (`SimulationResults.tsx`). The reveal cursor is the class
`Playback.Player`, with a `Tick` method for the interval callback. The figures
derived from the revealed prefix are folds in `Metrics`:

- the per-tick captured and stored sums;
- tonnes and retention;
- the cumulative series;
- the per-component bars;
- the efficiency and leakage series;
- progress.

Modules:

- `Common`: `Option`, `Min`/`Max`, `Sum`.
- `FlowGraph`: nodes, edges, validator, connect, weight edit, shares, node edits, invariant and initial graph.
- `SimRequest`: request projection, duration fallback and readings.
- `GraphEditor`: the editor class.
- `Metrics`: the derived figures.
- `Playback`: the cursor.

All quantities are `real`. A missing or `null` value is `Option`. A reading's
`EFFICIENCY`/`LEAKAGE` field is `Metrics.Field`, which tells "absent" apart from
"present but null", because the view treats those two differently.

## Model

| member | source | states |
|---|---|---|
| FlowGraph.FindNode | dashboard/src/components/OperationsMap.tsx:156-157 | the node found has the id asked for and is in the list; None only when no node has that id |
| FlowGraph.IsValidConnection | dashboard/src/components/OperationsMap.tsx:155-175 | a connection with an end that names no node is refused; an accepted one leaves a node that is neither storage nor utilization and enters a node that is not capture |
| FlowGraph.ValidConnectionIffLegal | dashboard/src/components/OperationsMap.tsx:155-175 | with distinct ids, a connection is accepted iff both ends exist, the source is neither storage nor utilization, and the target is not capture |
| FlowGraph.TransportSelfLoopAccepted | dashboard/src/components/OperationsMap.tsx:155-175 | a transport node's edge to itself is accepted (self-loops are not rejected) |
| FlowGraph.Outgoing | dashboard/src/components/OperationsMap.tsx:136 | the siblings are exactly the edges of the list that leave the given source |
| FlowGraph.Connected | dashboard/src/components/OperationsMap.tsx:177-199 | one edge is appended with the new id and the dragged ends; its weight is 50 when the source had exactly one outgoing edge, else 100; existing edges keep ids and ends; without a split the old list is unchanged |
| FlowGraph.SetWeightById | dashboard/src/components/OperationsMap.tsx:189-193 | the edge with the id gets the new weight, every other edge is unchanged, and every edge keeps its ends |
| FlowGraph.ConnectDegree | dashboard/src/components/OperationsMap.tsx:183-197 | connecting raises the source's out-degree by one and leaves every other out-degree unchanged |
| FlowGraph.ConnectSecondEdgeSplitsEvenly | dashboard/src/components/OperationsMap.tsx:183-197 | on a second outgoing edge both sibling edges weigh 50 whatever the old weight was, and edges of other sources are untouched |
| FlowGraph.ConnectKeepsBalance | dashboard/src/components/OperationsMap.tsx:177-199 | connecting from a named source keeps every two-edge split summing to 100 |
| FlowGraph.Clamp | dashboard/src/components/OperationsMap.tsx:264-265 | the weight lies in [0, 100]; a non-finite entry gives 0, a value in range is kept, and values below or above are clamped to 0 or 100 |
| FlowGraph.Reweighted | dashboard/src/components/OperationsMap.tsx:267-283 | the list keeps its length, order, ids and ends; the selected edge gets the value; edges of other sources are unchanged; unless the source has exactly two edges, nothing but the selected edge changes |
| FlowGraph.EditBalancesPair | dashboard/src/components/OperationsMap.tsx:268-280 | with exactly two siblings, the other sibling gets `100 - w` and the pair sums to 100 |
| FlowGraph.EditKeepsBalance | dashboard/src/components/OperationsMap.tsx:261-285 | a weight edit keeps every two-edge split summing to 100 |
| FlowGraph.EffectiveWeight | dashboard/src/components/OperationsMap.tsx:130-133 | a missing weight counts as 100 and a negative one as 0; a non-negative one is kept |
| FlowGraph.ShareWithinPercent | dashboard/src/components/OperationsMap.tsx:134-139 | every edge label lies between 0 and 100 |
| FlowGraph.TotalWeight | dashboard/src/components/OperationsMap.tsx:136 | the siblings' total effective weight is never negative |
| FlowGraph.Share | dashboard/src/components/OperationsMap.tsx:134-139 | an edge's label is never negative; its upper bound and the per-source sum are the lemmas around it |
| FlowGraph.ZeroTotalEqualSplit | dashboard/src/components/OperationsMap.tsx:139 | when the siblings weigh 0 in total, each shows `100 / siblingCount` |
| FlowGraph.SharesOfSourceSumTo100 | dashboard/src/components/OperationsMap.tsx:134-139 | the labels of all edges leaving one source add up to exactly 100, whether or not their total weight is zero |
| FlowGraph.DefaultParams | dashboard/src/components/OperationsMap.tsx:232-235 | each kind's defaults carry exactly that kind's parameter keys, within bounds |
| FlowGraph.NewNode | dashboard/src/components/OperationsMap.tsx:216-237 | the added node has the given id and kind, the name "New <kind>" and exactly the kind's default parameters, which lie within the parameter schema |
| FlowGraph.ApplyEdit | dashboard/src/components/OperationsMap.tsx:246-252 | a label edit changes only the name; a parameter edit sets that key to the value and leaves every other key, the name, id and kind unchanged |
| FlowGraph.EditedNodes | dashboard/src/components/OperationsMap.tsx:243-258 | each node with the selected id becomes that node with the edit applied, every other node is unchanged, and the list keeps its length, ids and kinds |
| FlowGraph.FindNodeAppend | dashboard/src/components/OperationsMap.tsx:237 | appending a node with a fresh id changes no existing lookup |
| FlowGraph.ConnectKeepsInvariant | dashboard/src/components/OperationsMap.tsx:177-199 | an accepted connection with a fresh edge id keeps the graph invariant |
| FlowGraph.EditKeepsInvariant | dashboard/src/components/OperationsMap.tsx:261-285 | a clamped weight edit of the selected edge keeps the graph invariant |
| FlowGraph.AddNodeKeepsInvariant | dashboard/src/components/OperationsMap.tsx:216-238 | adding a node with a fresh non-empty id keeps the graph invariant |
| FlowGraph.EditNodeKeepsInvariant | dashboard/src/components/OperationsMap.tsx:240-259 | editing a node's label or parameters keeps the graph invariant (ids and kinds do not change) |
| FlowGraph.InitialParamsFollowSchema | dashboard/src/components/OperationsMap.tsx:31-88 | every initial node carries exactly its kind's parameters, within bounds |
| FlowGraph.InitialEdgesLegal | dashboard/src/components/OperationsMap.tsx:31-99 | every initial edge passes the connection validator |
| FlowGraph.InitialSplitsBalanced | dashboard/src/components/OperationsMap.tsx:90-99 | every source of the initial graph with two outgoing edges has weights summing to 100 |
| FlowGraph.InitialGraphInvariant | dashboard/src/components/OperationsMap.tsx:31-99 | the initial graph satisfies the full graph invariant |
| FlowGraph.InitialNodes | dashboard/src/components/OperationsMap.tsx:31-88 | the editor opens with eight nodes |
| FlowGraph.InitialEdges | dashboard/src/components/OperationsMap.tsx:90-99 | the editor opens with eight edges |
| SimRequest.BuildRequest | dashboard/src/components/OperationsMap.tsx:288-301 | node and edge counts and order are kept with ids, kinds, names, params and ends; a missing weight is sent as 100 and a present one as it is |
| SimRequest.RequestCarriesEditorWeights | dashboard/src/components/OperationsMap.tsx:287-304 | on an editor graph the request carries exactly the stored weights, each in [0, 100] and equal to the weight the labels use, and every edge's ends exist |
| SimRequest.RequestedDuration | dashboard/src/components/OperationsMap.tsx:303 | the duration is never 0; unparsable text or 0 gives 12, any other number is kept |
| SimRequest.Round | dashboard/src/app/page.tsx:23 | the result is the nearest integer, with halves rounded up |
| SimRequest.Readings | dashboard/src/app/page.tsx:22-23 | at least one reading; the count is the nearest integer to minutes·60/5 (0 minutes meaning 12); below 1.5 readings' worth it is 1 |
| SimRequest.ReadingsCoverDuration | dashboard/src/app/page.tsx:22-23 | for runs of at least 7.5 s (0.125 minutes), the readings times 5 s is within 2.5 s of the requested run length; for shorter or negative lengths `max(1, …)` gives one reading and the bound does not hold |
| GraphEditor.FindEdgeAt | dashboard/src/components/OperationsMap.tsx:272-275 | with distinct ids, looking up an edge's id finds that edge |
| GraphEditor.FindEdge | dashboard/src/components/OperationsMap.tsx:272-275 | the edge found has the id asked for and is in the list; None only when no edge has that id |
| GraphEditor.Editor.constructor | dashboard/src/components/OperationsMap.tsx:121-126 | the editor opens on the initial graph, nothing selected, jurisdiction "epa" and 12 minutes, and satisfies the invariant |
| GraphEditor.Editor.SelectNode | dashboard/src/components/OperationsMap.tsx:201-204 | the clicked node is selected and the edge selection cleared; the graph is unchanged |
| GraphEditor.Editor.SelectEdge | dashboard/src/components/OperationsMap.tsx:206-209 | the clicked edge is selected and the node selection cleared; the graph is unchanged |
| GraphEditor.Editor.ClearSelection | dashboard/src/components/OperationsMap.tsx:211-214 | both selections are cleared and nothing else changes |
| GraphEditor.Editor.SetJurisdiction | dashboard/src/components/OperationsMap.tsx:333 | only the jurisdiction changes |
| GraphEditor.Editor.SetDuration | dashboard/src/components/OperationsMap.tsx:351 | only the run length changes |
| GraphEditor.Editor.Connect | dashboard/src/components/OperationsMap.tsx:155-199 | a connection is applied iff the validator accepts it, and then the edges become `Connected` of the old edges; nodes and selections are unchanged and the invariant is kept |
| GraphEditor.Editor.UpdateEdgeWeight | dashboard/src/components/OperationsMap.tsx:261-285 | without a selected edge nothing changes; otherwise the edges become `Reweighted` with the clamped value and the selection is the rewritten edge: the edge of the new list with the selected id, carrying that weight; the invariant is kept |
| GraphEditor.Editor.AddNode | dashboard/src/components/OperationsMap.tsx:216-238 | exactly one node, the kind's default node with the fresh id, is appended; nothing else changes |
| GraphEditor.Editor.UpdateNodeData | dashboard/src/components/OperationsMap.tsx:240-259 | without a selected node nothing changes; otherwise the nodes become `EditedNodes` and the selection is the edited node |
| GraphEditor.Editor.Simulate | dashboard/src/components/OperationsMap.tsx:287-304 | the request is the projection of the current graph and jurisdiction, the run length is the non-zero fallback, and every sent weight lies in [0, 100]; the editor state is left as it was |
| Metrics.TimestepSeconds | dashboard/src/components/SimulationResults.tsx:22 | a missing or zero timestep becomes 5; any other value is kept |
| Metrics.DurationMinutes | dashboard/src/components/SimulationResults.tsx:23-25 | a reported non-zero duration is kept; otherwise readings × timestep / 60 |
| Metrics.TotalPoints | dashboard/src/components/SimulationResults.tsx:21 | 0 without nodes, otherwise the length of the first node's series, which the chart and performance tables take as the number of ticks |
| Metrics.Revealed | dashboard/src/components/SimulationResults.tsx:60-63 | every node keeps id, name and kind, and its series is its prefix of length `min(cursor, len)` |
| Metrics.RevealedAligned | dashboard/src/components/SimulationResults.tsx:60-63 | revealed aligned series stay aligned and show `min(cursor, totalPoints)` ticks |
| Metrics.RevealExtends | dashboard/src/components/SimulationResults.tsx:60-63 | a later cursor only extends what an earlier cursor revealed |
| Metrics.FlowOf | dashboard/src/components/SimulationResults.tsx:75 | a missing or null flow counts as 0 |
| Metrics.ChartData | dashboard/src/components/SimulationResults.tsx:65-89 | there is one point per tick of the first series, each built from that tick's readings |
| Metrics.PointAt | dashboard/src/components/SimulationResults.tsx:66-88 | one flow per node, in node order, a missing flow counting as 0; the captured and stored sums are the per-kind sums that `FlowsPartition` relates to the flows |
| Metrics.ComputePoint | dashboard/src/components/SimulationResults.tsx:69-88 | the per-node loop yields every node's flow, the capture sum and the storage-plus-utilization sum of that tick |
| Metrics.FlowsPartition | dashboard/src/components/SimulationResults.tsx:73-83 | captured + stored + transport flows equal the sum of all flows: each node counts once, and transport counts in neither sum |
| Metrics.Retention | dashboard/src/components/SimulationResults.tsx:104 | 0 unless captured tonnes are positive; otherwise retention × captured = stored × 100 |
| Metrics.TonnesIsScaledSum | dashboard/src/components/SimulationResults.tsx:100-103 | the tonnage fold equals the plain sum of the values times (ts/60)/1000 |
| Metrics.CapturedTonnes | dashboard/src/components/SimulationResults.tsx:100-101 | the captured tonnes equal the summed `Captured` flows times the timestep in minutes, over 1000 |
| Metrics.StoredTonnes | dashboard/src/components/SimulationResults.tsx:102-103 | the stored tonnes equal the summed `Stored` flows times the timestep in minutes, over 1000 |
| Metrics.RetentionIgnoresTimestep | dashboard/src/components/SimulationResults.tsx:100-104 | for a positive timestep, retention is the ratio of summed stored to summed captured flows, whatever the timestep |
| Metrics.RetentionWithinPercent | dashboard/src/components/SimulationResults.tsx:100-104 | when no tick stores more than it captures and flows are non-negative, retention lies in [0, 100] |
| Metrics.Cumulative | dashboard/src/components/SimulationResults.tsx:106-115 | the cumulative series has one entry per chart point |
| Metrics.CumulativeStep | dashboard/src/components/SimulationResults.tsx:107-113 | entry i is entry i-1 (0 for the first) plus the tick's Stored and Captured times ts/60 |
| Metrics.CumulativeIsRunningSum | dashboard/src/components/SimulationResults.tsx:106-115 | entry i is the sum of the first i+1 ticks' flows times ts/60 |
| Metrics.CumulativeMonotone | dashboard/src/components/SimulationResults.tsx:106-115 | with non-negative flows and timestep both cumulative curves never decrease |
| Metrics.CumulativeEndsAtTonnes | dashboard/src/components/SimulationResults.tsx:100-115 | the last cumulative entry divided by 1000 is the stored (or captured) tonnes figure |
| Metrics.DisplayName | dashboard/src/components/SimulationResults.tsx:92 | the bar name is the node's name, or its id when the name is missing |
| Metrics.BarChart | dashboard/src/components/SimulationResults.tsx:91-98 | one entry per node, in order, with its kind and the tonnes of its revealed flows |
| Metrics.BarTotalsMatchSeries | dashboard/src/components/SimulationResults.tsx:91-103 | summing tonnes node by node or tick by tick gives the same total for any set of kinds |
| Metrics.BarTotalsMatchHeadline | dashboard/src/components/SimulationResults.tsx:91-103 | the capture bars add up to captured tonnes, and the storage and utilization bars to stored tonnes |
| Metrics.NodePerf | dashboard/src/components/SimulationResults.tsx:123-130 | a node adds an efficiency key only if it is a capture node with EFFICIENCY defined, and a leakage key only if it is a transport node with LEAKAGE defined, passing the value through |
| Metrics.ComputePerfPoint | dashboard/src/components/SimulationResults.tsx:119-131 | the per-node loop yields exactly the keys of the tick's performance point |
| Metrics.PerfAtEntries | dashboard/src/components/SimulationResults.tsx:117-133 | an entry is in a point iff some node contributes it; nothing is zero-filled |
| Metrics.PerfAt | dashboard/src/components/SimulationResults.tsx:119-131 | a point has at most one entry per node, and none when no node reports at that tick |
| Metrics.PerfAtNonEmpty | dashboard/src/components/SimulationResults.tsx:117-133 | a point has a key besides time iff some node reports at that tick |
| Metrics.PerformanceData | dashboard/src/components/SimulationResults.tsx:117-133 | there is one performance point per tick of the first series |
| Metrics.HasPerformanceSeriesIff | dashboard/src/components/SimulationResults.tsx:135 | the efficiency and leakage tab has data iff some node reports at some revealed tick |
| Metrics.HasPerformanceSeries | dashboard/src/components/SimulationResults.tsx:135 | only a non-empty table can have data; exactly when is `HasPerformanceSeriesIff` |
| Metrics.ProgressPct | dashboard/src/components/SimulationResults.tsx:136 | progress lies in [0, 100]; it is 0 without readings, 100 once the cursor reaches the total, and cursor/total × 100 before that |
| Metrics.ElapsedMinutes | dashboard/src/components/SimulationResults.tsx:137 | elapsed minutes times 60 is the revealed readings times the timestep, and never negative for a non-negative timestep |
| Metrics.ElapsedReachesDuration | dashboard/src/components/SimulationResults.tsx:23-25 | without a reported duration, elapsed minutes never exceed the duration and equal it exactly when the whole run is revealed |
| Metrics.ThreeTickScenario | dashboard/src/components/SimulationResults.tsx:65-115 | one capture and one storage node, three readings of 180 at 5 s: both sums are 180 per tick, 45 kg stored after three ticks, retention 100 |
| Playback.StepSize | dashboard/src/components/SimulationResults.tsx:34-35 | the stride is at least 1 and is the least value with stride × 140 ≥ total |
| Playback.NextCursor | dashboard/src/components/SimulationResults.tsx:39-46 | the cursor advances by exactly the stride while that stays short of the total, and otherwise lands on the total; from within the run it never goes back or past the total |
| Playback.CursorClosedForm | dashboard/src/components/SimulationResults.tsx:33-46 | after k ticks the cursor is `min(total, 1 + k·stride)` |
| Playback.CursorMonotone | dashboard/src/components/SimulationResults.tsx:38-46 | the cursor never decreases and never exceeds the total |
| Playback.CursorReachesTotal | dashboard/src/components/SimulationResults.tsx:34-46 | after 140 ticks the cursor equals the total and stays there |
| Playback.Player.constructor | dashboard/src/components/SimulationResults.tsx:12 | before any result the cursor is 0 and no timer runs |
| Playback.Player.Start | dashboard/src/components/SimulationResults.tsx:27-33 | an empty run gives cursor 0 and no timer; otherwise cursor 1 with the timer armed |
| Playback.Player.Tick | dashboard/src/components/SimulationResults.tsx:38-46 | a disarmed timer changes nothing; otherwise the cursor advances by the stride or lands on the total, and the timer stays armed iff the cursor is short of the total; at most 140 ticks happen |
| Playback.Player.FinishedShowsWholeRun | dashboard/src/components/SimulationResults.tsx:41-43 | once the timer stops, progress reads 100 and the revealed prefix is the whole run |

## Left out

- Rendering is not modelled: ReactFlow, recharts, styling, `toFixed` and `toLocaleTimeString` labels, node positions from `Math.random()`, and the jurisdiction description texts.
- The time label of chart and performance points is not kept, so a `ChartPoint` carries no time.
- The 90 ms interval and React's asynchronous state updates are not modelled. A tick is a call to `Player.Tick`, and `Player.Start` replaces any earlier run, as the effect's cleanup does.
- Fresh ids are not generated by the model. The `${type}-${Date.now()}` node id and xyflow's edge id are passed in as parameters, with freshness as a precondition.
- xyflow's `addEdge` duplicate-connection check is not modelled. `addEdge` is treated as an append.
- Deleting nodes or edges through `onNodesChange`/`onEdgesChange`, and dragging nodes, are not modelled. The selection is kept pointing at a node or edge that exists. Deletion can break the balance clause of `GraphInvariant`: removing one of three sibling edges through `onEdgesChange` can leave a pair such as 50 + 100. The balance clause is therefore proved only for the handlers that are modelled.
- FlowGraph.EffectiveWeight: stored weights are reals, so the non-finite case of `getEdgeWeight` (NaN or ±Infinity counting as 0) is not represented. NaN parameter values from `Number(value)` and NaN flows are not represented either.
- FlowGraph.ApplyEdit: only the keys the panel edits are modelled, namely `label` and the numeric parameters. The generic `newData[key] = value` for any other key is not.
- The `metadata: {}` field of each request node is not modelled; it is always empty.
- The page's HTTP call, its error messages and the `NEXT_PUBLIC_API_BASE_URL` check are not modelled.
- The simulator itself is not modelled: the Python graph engine, gap filling, sensors, ledger and server.
- The audit-log tab is not modelled.
- A result that arrives after a newer request is not discarded, and a second request may be sent while one is pending; each new result restarts playback. The model follows the code.
- Self-loops are accepted, because the validator never compares source and target (see `FlowGraph.TransportSelfLoopAccepted`).
- Metrics over series of different lengths are not modelled. The chart, performance and bar lemmas assume every node's series is as long as the first node's, because the view indexes every node by the first node's length.
