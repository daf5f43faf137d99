/** A project in which feedback edges make the two executors differ: the planning order ignores them,
    so a product is rendered before the signal that feeds it. */
module FeedbackExample {
  import opened Basics
  import opened ExpansionEdges
  import opened Expansion
  import opened FlatMeaning
  import opened Cycles
  import opened Planning
  import opened CurrentOrder
  import opened DspBlocks
  import opened DspRealtime
  import opened DspRefinement
  import opened DspFeedback
  import opened Playback
  import D = DspPlan

  const PLAIN := Attributes(None, None, None, None, None, None, None, None)
  const FEEDBACK := PLAIN.(feedback := Some(Feedback(true, "delay")))

  function NodeOf(id: string, kind: string): GraphNode {
    GraphNode(id, kind, map[], [], None)
  }

  const LEFT_EDGE := EdgeSpec("e1", PortRef("s", "out"), PortRef("m", "left"), FEEDBACK)
  const RIGHT_EDGE := EdgeSpec("e2", PortRef("s", "out"), PortRef("m", "right"), FEEDBACK)
  const OUT_EDGE := EdgeSpec("e3", PortRef("m", "out"), PortRef("d", "left"), PLAIN)

  /** A signal squared: `s` feeds both inputs of the product `m` by feedback edges, and `m` feeds the
      output `d`. */
  const SQUARE := Graph(
    [NodeOf("m", D.MUL_KIND), NodeOf("s", D.SIG_KIND), NodeOf("d", D.OUTPUT_KIND)],
    [LEFT_EDGE, RIGHT_EDGE, OUT_EDGE])

  function SignalIn(id: string): D.Port {
    D.Port(id, D.Input, true)
  }

  const OUT_PORT := D.Port("out", D.Output, true)

  /** The nodes of the project for the audio planner; the signal has the given value. */
  function Played<S>(value: S): GraphNode -> D.AudioNode<S> {
    (n: GraphNode) =>
      if n.id == "m" then D.AudioNode(n.id, n.kind, map[], [SignalIn("left"), SignalIn("right"), OUT_PORT])
      else if n.id == "s" then D.AudioNode(n.id, n.kind, map["value" := value], [OUT_PORT])
      else D.AudioNode(n.id, n.kind, map[], [SignalIn("left"), SignalIn("right")])
  }

  lemma SquareIds()
    ensures Ids(SQUARE.nodes) == ["m", "s", "d"] && Distinct(Ids(SQUARE.nodes))
  {
    assert "m"[0] != "s"[0] && "m"[0] != "d"[0] && "s"[0] != "d"[0];
  }

  /** Only the edge into the output counts for the order. */
  lemma SquareLinks(u: string, v: string)
    ensures Link(u, v) in ForwardLinks(SQUARE.edges) <==> u == "m" && v == "d"
  {
    assert OUT_EDGE in SQUARE.edges;
  }

  lemma KeepFirstTwo(p: string -> bool, a: string, b: string, c: string)
    requires p(a) && p(b) && !p(c)
    ensures Keep(p, [a, b, c]) == [a, b]
  {
    var all := [a, b, c];
    assert all[..2] == [a, b] && [a, b][..1] == [a] && [a][..0] == [];
    assert Keep(p, [a]) == [a];
    assert Keep(p, [a, b]) == [a, b];
  }

  lemma ThirdIsLeft(order: seq<string>, a: string, b: string, c: string)
    requires [a, b] <= order && multiset(order) == multiset([a, b, c])
    ensures order == [a, b, c]
  {
    assert |order| == |multiset(order)| == |multiset([a, b, c])| == 3;
    assert order == [a, b] + [order[2]];
    assert multiset(order) == multiset([a, b]) + multiset{order[2]};
    assert [a, b, c] == [a, b] + [c];
    assert multiset{order[2]} == multiset{c};
    assert order[2] in multiset{c};
  }

  lemma SquareSources()
    ensures Sources(["m", "s", "d"], ForwardLinks(SQUARE.edges)) == ["m", "s"]
  {
    var ids, links := ["m", "s", "d"], ForwardLinks(SQUARE.edges);
    SquareLinks("m", "d");
    forall u
      ensures Link(u, "m") !in links && Link(u, "s") !in links
    {
      SquareLinks(u, "m");
      SquareLinks(u, "s");
    }
    assert HasPredecessor(ids, links, "d");
    KeepFirstTwo(IsSource(ids, links), "m", "s", "d");
  }

  /** The product and the signal both have no predecessors, so they keep their order. */
  lemma SquareOrder(order: seq<string>)
    requires Sources(Ids(SQUARE.nodes), ForwardLinks(SQUARE.edges)) <= order
    requires multiset(order) == multiset(Ids(SQUARE.nodes))
    ensures order == ["m", "s", "d"]
  {
    SquareIds();
    SquareSources();
    ThirdIsLeft(order, "m", "s", "d");
  }

  // ---- The plan ------------------------------------------------------------------------------------

  function SquareGraph<S>(value: S): D.AudioGraph<S> {
    AudioGraphOf(SQUARE, Played(value))
  }

  lemma SquareNodes<S>(value: S)
    ensures
      var graph := SquareGraph(value);
      && D.FindNode(graph.nodes, "m") == Some(Played(value)(SQUARE.nodes[0]))
      && D.FindNode(graph.nodes, "s") == Some(Played(value)(SQUARE.nodes[1]))
      && D.FindNode(graph.nodes, "d") == Some(Played(value)(SQUARE.nodes[2]))
      && forall i, j :: 0 <= i < j < |graph.nodes| ==> graph.nodes[i].id != graph.nodes[j].id
  {
    SquareIds();
    var nodes := SquareGraph(value).nodes;
    assert nodes[0].id == "m" && nodes[1].id == "s" && nodes[2].id == "d";
    assert nodes[1..][0] == nodes[1] && nodes[1..][1..][0] == nodes[2];
  }

  lemma SquareSignals<S>(value: S)
    ensures
      var graph := SquareGraph(value);
      && D.IsSignalEdge(D.AudioEdge(LEFT_EDGE.source, LEFT_EDGE.target), graph)
      && D.IsSignalEdge(D.AudioEdge(RIGHT_EDGE.source, RIGHT_EDGE.target), graph)
      && D.IsSignalEdge(D.AudioEdge(OUT_EDGE.source, OUT_EDGE.target), graph)
  {
    SquareNodes(value);
    var left, right := SignalIn("left"), SignalIn("right");
    assert "left" != "right" && "left" != "out" && "right" != "out";
    assert D.FindPortIn([left, right, OUT_PORT], "left") == Some(left);
    assert [left, right, OUT_PORT][1..] == [right, OUT_PORT] && [right, OUT_PORT][1..] == [OUT_PORT];
    assert D.FindPortIn([right, OUT_PORT], "right") == Some(right);
    assert D.FindPortIn([left, right, OUT_PORT], "right") == Some(right);
    assert D.FindPortIn([OUT_PORT], "out") == Some(OUT_PORT);
    assert D.FindPortIn([right, OUT_PORT], "out") == Some(OUT_PORT);
    assert D.FindPortIn([left, right, OUT_PORT], "out") == Some(OUT_PORT);
    assert D.FindPortIn([left, right], "left") == Some(left);
  }

  /** What the contract of the planner says of one node. */
  lemma PlannedAs<S>(graph: D.AudioGraph<S>, node: D.PlanNode<S>, edges: seq<D.PlanEdge>, buffers: seq<D.Buffer>,
                     original: D.AudioNode<S>)
    requires D.NodePlanned(graph, node, edges, buffers) && D.FindNode(graph.nodes, node.nodeId) == Some(original)
    ensures node.kind == original.kind && node.params == original.params
    ensures D.SignalOutputs(original.ports) == [OUT_PORT] ==>
              |node.signalOutputs| == 1 && node.signalOutputs[0].portId == "out"
              && D.BufferOf(buffers, node.signalOutputs[0].bufferId, PortRef(node.nodeId, "out"))
  {
  }

  lemma SquareOutputs()
    ensures D.SignalOutputs([OUT_PORT]) == [OUT_PORT]
    ensures D.SignalOutputs([SignalIn("left"), SignalIn("right"), OUT_PORT]) == [OUT_PORT]
  {
    var left, right := SignalIn("left"), SignalIn("right");
    var p := D.IsOutput();
    assert !p(left) && !p(right) && p(OUT_PORT);
    assert [OUT_PORT][..0] == [];
    assert [left, right, OUT_PORT][..2] == [left, right] && [left, right][..1] == [left] && [left][..0] == [];
    assert Keep(p, [left]) == [];
    assert Keep(p, [left, right]) == [];
  }

  ghost predicate SquarePlan<S>(value: S, plan: D.Plan<S>) {
    D.WellBuilt(SquareGraph(value), ["m", "s", "d"], plan) && plan.blockSize > 0
  }

  lemma SquareKinds<S>(value: S, plan: D.Plan<S>)
    requires SquarePlan(value, plan)
    ensures |plan.nodes| == 3 && plan.nodes[0].nodeId == "m" && plan.nodes[1].nodeId == "s"
            && plan.nodes[2].nodeId == "d"
    ensures plan.nodes[0].kind == D.MUL_KIND && plan.nodes[1].kind == D.SIG_KIND && plan.nodes[2].kind == D.OUTPUT_KIND
    ensures plan.nodes[1].params == map["value" := value]
    ensures |plan.nodes[0].signalOutputs| == 1 && |plan.nodes[1].signalOutputs| == 1
    ensures plan.nodes[1].signalOutputs[0].portId == "out"
    ensures D.BufferOf(plan.buffers, plan.nodes[0].signalOutputs[0].bufferId, PortRef("m", "out"))
    ensures D.BufferOf(plan.buffers, plan.nodes[1].signalOutputs[0].bufferId, PortRef("s", "out"))
  {
    var graph := SquareGraph(value);
    SquareNodes(value);
    SquareOutputs();
    PlannedAs(graph, plan.nodes[0], plan.edges, plan.buffers, Played(value)(SQUARE.nodes[0]));
    PlannedAs(graph, plan.nodes[1], plan.edges, plan.buffers, Played(value)(SQUARE.nodes[1]));
    PlannedAs(graph, plan.nodes[2], plan.edges, plan.buffers, Played(value)(SQUARE.nodes[2]));
  }

  lemma SquareEdges<S>(value: S, e: D.AudioEdge)
    requires e in SquareGraph(value).edges && e.target.nodeId == "m"
    ensures e.source == PortRef("s", "out")
  {
  }

  lemma HasSquareEdge<S>(value: S, edge: EdgeSpec)
    requires edge == LEFT_EDGE || edge == RIGHT_EDGE
    ensures D.AudioEdge(edge.source, edge.target) in SquareGraph(value).edges
    ensures D.IsSignalEdge(D.AudioEdge(edge.source, edge.target), SquareGraph(value))
  {
    assert edge in SQUARE.edges;
    SquareSignals(value);
  }

  /** A planned node has an input for each planned edge into it. */
  lemma InputExists<S>(graph: D.AudioGraph<S>, node: D.PlanNode<S>, edges: seq<D.PlanEdge>, buffers: seq<D.Buffer>,
                       edge: D.AudioEdge)
    requires D.EdgesPlanned(graph, edges, buffers) && D.NodePlanned(graph, node, edges, buffers)
    requires edge in graph.edges && D.IsSignalEdge(edge, graph) && edge.target.nodeId == node.nodeId
    ensures FindInput(node.signalInputs, edge.target.portId).Some?
  {
    D.PlannedEdges(graph, edges, buffers, edge);
    var p :| p in edges && p.source == edge.source && p.target == edge.target;
    assert D.SignalInput(p.target.portId, p.source, p.bufferId) in node.signalInputs;
  }

  /** An input has the buffer that its source writes. */
  lemma InputHasBuffer<S>(node: D.PlanNode<S>, edges: seq<D.PlanEdge>, nodes: seq<D.PlanNode<S>>, x: D.SignalInput,
                          source: D.PlanNode<S>, output: D.SignalOutput)
    requires node.signalInputs == D.InputsOf(edges, node.nodeId) && x in node.signalInputs && D.Connected(edges, nodes)
    requires source in nodes && output in source.signalOutputs && x.source == PortRef(source.nodeId, output.portId)
    ensures x.bufferId == output.bufferId
  {
    var e :| e in edges && e.target.nodeId == node.nodeId && x == D.SignalInput(e.target.portId, e.source, e.bufferId);
  }

  /** Both inputs of the product have the buffer of the signal. */
  lemma SquareInput<S>(value: S, plan: D.Plan<S>, edge: EdgeSpec)
    requires SquarePlan(value, plan) && (edge == LEFT_EDGE || edge == RIGHT_EDGE)
    ensures |plan.nodes| == 3 && |plan.nodes[1].signalOutputs| == 1
    ensures
      var found := FindInput(plan.nodes[0].signalInputs, edge.target.portId);
      found.Some? && found.value.bufferId == plan.nodes[1].signalOutputs[0].bufferId
  {
    var graph := SquareGraph(value);
    SquareKinds(value, plan);
    var m, s := plan.nodes[0], plan.nodes[1];
    assert D.NodePlanned(graph, m, plan.edges, plan.buffers);
    HasSquareEdge(value, edge);
    InputExists(graph, m, plan.edges, plan.buffers, D.AudioEdge(edge.source, edge.target));
    var x := FindInput(m.signalInputs, edge.target.portId).value;
    D.InputStandsForEdge(graph, m, plan.edges, plan.buffers, x);
    SquareEdges(value, D.AudioEdge(x.source, PortRef(m.nodeId, x.portId)));
    assert s in plan.nodes && s.signalOutputs[0] in s.signalOutputs;
    InputHasBuffer(m, plan.edges, plan.nodes, x, s, s.signalOutputs[0]);
  }

  /** A plan built from a graph is separate if the executor knows all its kinds. */
  lemma BuiltIsSeparate<S(!new)>(graph: D.AudioGraph<S>, ids: seq<string>, plan: D.Plan<S>)
    requires D.WellBuilt(graph, ids, plan) && Distinct(ids) && plan.blockSize > 0 && Renderable(plan)
    requires forall i :: 0 <= i < |plan.nodes| ==> IsRealtimeKind(plan.nodes[i].kind)
    ensures Separate(plan)
  {
    KeptHasOutputs(plan);
    forall i, j, id | 0 <= i < |plan.nodes| && 0 <= j < |plan.nodes| && Writes(plan.nodes[i], id)
        && Writes(plan.nodes[j], id)
      ensures i == j
    {
      BuiltPlansHaveSingleWriters(graph, ids, plan, i, j, id);
    }
  }

  lemma SquareIsRenderable<S(!new)>(plan: D.Plan<S>)
    requires |plan.nodes| == 3
    requires plan.nodes[0].kind == D.MUL_KIND && plan.nodes[1].kind == D.SIG_KIND && plan.nodes[2].kind == D.OUTPUT_KIND
    requires |plan.nodes[0].signalOutputs| == 1 && |plan.nodes[1].signalOutputs| == 1
    requires D.BufferOf(plan.buffers, plan.nodes[0].signalOutputs[0].bufferId, PortRef("m", "out"))
    requires D.BufferOf(plan.buffers, plan.nodes[1].signalOutputs[0].bufferId, PortRef("s", "out"))
    ensures Renderable(plan) && Refusal(plan).None?
    ensures forall i :: 0 <= i < |plan.nodes| ==> IsRealtimeKind(plan.nodes[i].kind)
  {
    OutputIsSilent(plan.nodes[2]);
    OneOutput(plan.nodes);
    forall i | 0 <= i < |plan.nodes| && IsRendering(plan.nodes[i].kind)
      ensures |plan.nodes[i].signalOutputs| > 0
      ensures exists b :: 0 <= b < |plan.buffers| && plan.buffers[b].id == plan.nodes[i].signalOutputs[0].bufferId
    {
      assert i == 0 || i == 1;
    }
  }

  lemma SquareIsSeparate<S(!new)>(value: S, plan: D.Plan<S>)
    requires SquarePlan(value, plan)
    ensures Separate(plan) && Refusal(plan).None?
  {
    SquareKinds(value, plan);
    SquareIsRenderable(plan);
    DistinctSquareIds();
    BuiltIsSeparate(SquareGraph(value), ["m", "s", "d"], plan);
  }

  lemma DistinctSquareIds()
    ensures Distinct(["m", "s", "d"])
  {
    SquareIds();
  }

  lemma OneOutput<S(!new)>(nodes: seq<D.PlanNode<S>>)
    requires |nodes| == 3 && nodes[0].kind == D.MUL_KIND && nodes[1].kind == D.SIG_KIND
             && nodes[2].kind == D.OUTPUT_KIND
    ensures OutputsIn(nodes) == 1
  {
    OutputIsSilent(nodes[2]);
    assert D.OUTPUT_KIND != D.MUL_KIND && D.OUTPUT_KIND != D.SIG_KIND;
    assert nodes[..2][..1][..0] == [];
    assert OutputsIn(nodes[..2][..1]) == 0;
    assert OutputsIn(nodes[..2]) == 0;
  }

  /** In the second block the product is that of the signal in real time, and that of zeros offline. */
  lemma SquareDiffers<S(!new)>(ops: Arithmetic<S>, value: S, plan: D.Plan<S>)
    requires SquarePlan(value, plan) && ops.mul(value, value) != ops.mul(ops.zero, ops.zero)
    ensures Separate(plan) && !SameAfter(ops, plan, map[], 2)
  {
    SquareIsSeparate(value, plan);
    SquareKinds(value, plan);
    SquareInput(value, plan, LEFT_EDGE);
    SquareInput(value, plan, RIGHT_EDGE);
    var id := plan.nodes[1].signalOutputs[0].bufferId;
    assert Writes(plan.nodes[1], id) && !Silent(ops, plan.nodes[1]);
    assert LoudFrom(ops, plan, 0, id);
    SquareHears(ops, value, plan, "left");
    SquareHears(ops, value, plan, "right");
    DifferentProductsStay(ops, plan, map[], 0);
  }

  lemma SquareHears<S(!new)>(ops: Arithmetic<S>, value: S, plan: D.Plan<S>, portId: string)
    requires SquarePlan(value, plan) && Separate(plan) && |plan.nodes| == 3 && |plan.nodes[1].signalOutputs| == 1
    requires !InputReady(ops, plan, 0, portId)
    requires FindInput(plan.nodes[0].signalInputs, portId).value.bufferId == plan.nodes[1].signalOutputs[0].bufferId
    ensures Heard(ops, plan, 0, portId, RtBefore(ops, plan, map[], 0).rows) == value
    ensures HeardOffline(ops, plan, 0, portId, OffBefore(ops, plan, map[], 0).buffers) == ops.zero
  {
    SquareKinds(value, plan);
    var j, b := LateInput(ops, plan, map[], 0, portId);
    assert Writes(plan.nodes[1], plan.buffers[b].id);
    FirstBlockRow(ops, plan, map[], 1, b);
  }

  lemma SquareIsCovered<S>(value: S)
    ensures
      var graph := SquareGraph(value);
      && D.CoversSignals(graph, ["m", "s", "d"])
      && (forall i, j :: 0 <= i < j < |graph.nodes| ==> graph.nodes[i].id != graph.nodes[j].id)
  {
    SquareNodes(value);
    SquareIds();
    var graph := SquareGraph(value);
    forall n | n in graph.nodes
      ensures n.id in ["m", "s", "d"]
    {
      var k :| 0 <= k < |graph.nodes| && graph.nodes[k] == n;
      assert n.id == Ids(SQUARE.nodes)[k];
    }
  }

  lemma AudioIsLeaf(n: GraphNode)
    requires |n.kind| > 12 && n.kind[7] == 'c' && n.kind[12] == 'a'
    ensures IsLeaf(n)
  {
    assert INLET_KIND[12] == 'i' && OUTLET_KIND[12] == 'o' && SUBPATCH_KIND[12] == 's';
    assert PROJECT_PATCH_PREFIX[7] == 'p';
  }

  /** There is nothing to inline in the project. */
  lemma SquareStays(result: ExpansionResult)
    requires result.Rejected? <==> Expand(map[], SQUARE, "", 0, []).diagnostics != []
    requires result.Flat? ==> FlattenedFrom(map[], SQUARE, result.graph)
    ensures result == Flat(SQUARE)
  {
    forall n | n in SQUARE.nodes ensures IsLeaf(n) {
      AudioIsLeaf(n);
    }
    WiresStay(map[], SQUARE);
    var picks :| CompleteFor(map[], SQUARE, picks) && result.graph.edges == FlatEdges(map[], SQUARE, picks);
    FlatGraphStays(map[], SQUARE, picks);
  }

  /** Flattens, orders and plans the project as the program does. The executor accepts the plan, and
      unless the square of the value is that of zero, the two executors differ after two blocks. */
  method PlanSquare<S(!new)>(ops: Arithmetic<S>, value: S, sampleRate: nat) returns (plan: D.Plan<S>)
    ensures SquarePlan(value, plan) && Separate(plan) && Refusal(plan).None?
    ensures ops.mul(value, value) != ops.mul(ops.zero, ops.zero) ==> !SameAfter(ops, plan, map[], 2)
  {
    var flat := ExpandProjectGraph(map[], SQUARE);
    SquareStays(flat);
    SquareIds();
    var order, _ := TopologicalOrderCurrent(flat.graph);
    SquareOrder(order);
    SquareIsCovered(value);
    var graph := AudioGraphOf(flat.graph, Played(value));
    var result := D.BuildPlan(graph, order, 1, sampleRate);
    plan := result.plan;
    SquareIsSeparate(value, plan);
    if ops.mul(value, value) != ops.mul(ops.zero, ops.zero) {
      SquareDiffers(ops, value, plan);
    }
  }
}
