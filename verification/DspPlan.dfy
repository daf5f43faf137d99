/** The audio plan of a graph: one buffer for each signal output, and for each audio node the
    buffers it reads and writes. Samples are values of any type with any arithmetic. */
module DspPlan {
  import opened Basics
  import opened ExpansionEdges

  const SIG_KIND := "object.core.audio.sig"
  const OSC_KIND := "object.core.audio.osc"
  const MUL_KIND := "object.core.audio.operator.mul"
  const SNAPSHOT_KIND := "object.core.audio.snapshot"
  const OUTPUT_KIND := "object.core.audio.output"

  datatype Direction = Input | Output

  /** `isSignal` holds for ports that carry the audio signal type. */
  datatype Port = Port(id: string, direction: Direction, isSignal: bool)

  datatype AudioNode<S> = AudioNode(id: string, kind: string, params: map<string, S>, ports: seq<Port>)

  datatype AudioEdge = AudioEdge(source: PortRef, target: PortRef)

  datatype AudioGraph<S> = AudioGraph(nodes: seq<AudioNode<S>>, edges: seq<AudioEdge>)

  datatype Buffer = Buffer(id: string, producer: PortRef)

  datatype SignalInput = SignalInput(portId: string, source: PortRef, bufferId: string)

  datatype SignalOutput = SignalOutput(portId: string, bufferId: string)

  datatype ControlInput = ControlInput(portId: string, source: Option<PortRef>)

  datatype PlanEdge = PlanEdge(source: PortRef, target: PortRef, bufferId: string)

  datatype PlanNode<S> = PlanNode(
    nodeId: string,
    kind: string,
    params: map<string, S>,
    signalInputs: seq<SignalInput>,
    controlInputs: seq<ControlInput>,
    signalOutputs: seq<SignalOutput>)

  datatype Plan<S> = Plan(
    blockSize: nat,
    sampleRate: nat,
    nodes: seq<PlanNode<S>>,
    edges: seq<PlanEdge>,
    buffers: seq<Buffer>)

  datatype PlanResult<S> = Planned(plan: Plan<S>) | SignalPortOutsideAudioBlock(port: PortRef)

  // ---- Lookups -----------------------------------------------------------------------------------

  function FindNode<S>(nodes: seq<AudioNode<S>>, id: string): (r: Option<AudioNode<S>>)
    ensures r.Some? ==> r.value in nodes && r.value.id == id
    ensures r.None? ==> forall n :: n in nodes ==> n.id != id
  {
    if nodes == [] then None
    else if nodes[0].id == id then Some(nodes[0])
    else FindNode(nodes[1..], id)
  }

  function FindPortIn(ports: seq<Port>, id: string): (r: Option<Port>)
    ensures r.Some? ==> r.value in ports && r.value.id == id
  {
    if ports == [] then None
    else if ports[0].id == id then Some(ports[0])
    else FindPortIn(ports[1..], id)
  }

  function FindPort<S>(graph: AudioGraph<S>, end: PortRef): Option<Port> {
    match FindNode(graph.nodes, end.nodeId)
    case None => None
    case Some(node) => FindPortIn(node.ports, end.portId)
  }

  predicate IsSignalInput(port: Port) {
    port.direction.Input? && port.isSignal
  }

  predicate IsSignalOutput(port: Port) {
    port.direction.Output? && port.isSignal
  }

  predicate IsSignalEdge<S>(edge: AudioEdge, graph: AudioGraph<S>) {
    var from, to := FindPort(graph, edge.source), FindPort(graph, edge.target);
    from.Some? && to.Some? && IsSignalOutput(from.value) && IsSignalInput(to.value)
  }

  function BufferId(n: nat): string {
    "audio_buffer_" + Decimal(n)
  }

  lemma {:induction false} DecimalInjective(m: nat, n: nat)
    requires Decimal(m) == Decimal(n)
    ensures m == n
  {
    DecimalShape(m);
    DecimalShape(n);
    if m >= 10 && n >= 10 {
      assert Decimal(m)[..|Decimal(m)| - 1] == Decimal(m / 10);
      assert Decimal(n)[..|Decimal(n)| - 1] == Decimal(n / 10);
      assert Decimal(m)[|Decimal(m)| - 1] == DigitOf(m % 10);
      assert Decimal(n)[|Decimal(n)| - 1] == DigitOf(n % 10);
      DecimalInjective(m / 10, n / 10);
    }
  }

  lemma {:induction false} DecimalShape(n: nat)
    ensures |Decimal(n)| >= 1 && (|Decimal(n)| == 1 <==> n < 10)
  {
    if n >= 10 {
      DecimalShape(n / 10);
    }
  }

  lemma BufferIdInjective(m: nat, n: nat)
    requires BufferId(m) == BufferId(n)
    ensures m == n
  {
    assert BufferId(m)[13..] == Decimal(m) && BufferId(n)[13..] == Decimal(n);
    DecimalInjective(m, n);
  }

  // ---- Buffers -------------------------------------------------------------------------------------

  /** Buffers are numbered in order of allocation, and the table leads back to each port's own buffer. */
  ghost predicate Allocated(buffers: seq<Buffer>, byOutput: map<PortRef, string>) {
    && (forall i :: 0 <= i < |buffers| ==> buffers[i].id == BufferId(i))
    && (forall port :: port in byOutput ==> BufferOf(buffers, byOutput[port], port))
  }

  /** The buffer was allocated for the port. */
  ghost predicate BufferOf(buffers: seq<Buffer>, id: string, port: PortRef) {
    exists i :: 0 <= i < |buffers| && buffers[i].id == id && buffers[i].producer == port
  }

  /** Every signal output of the node has an entry in the table. */
  ghost predicate Covered<S>(node: AudioNode<S>, byOutput: map<PortRef, string>) {
    forall port :: port in node.ports && IsSignalOutput(port) ==> PortRef(node.id, port.id) in byOutput
  }

  /** Different output ports have different buffers. */
  lemma NoAliasing(buffers: seq<Buffer>, byOutput: map<PortRef, string>, p: PortRef, q: PortRef)
    requires Allocated(buffers, byOutput) && p in byOutput && q in byOutput && byOutput[p] == byOutput[q]
    ensures p == q
  {
    var i :| 0 <= i < |buffers| && buffers[i].id == byOutput[p] && buffers[i].producer == p;
    var j :| 0 <= j < |buffers| && buffers[j].id == byOutput[q] && buffers[j].producer == q;
    BufferIdInjective(i, j);
  }

  lemma OneMoreBuffer(buffers: seq<Buffer>, byOutput: map<PortRef, string>, port: PortRef)
    requires Allocated(buffers, byOutput)
    ensures var id := BufferId(|buffers|); Allocated(buffers + [Buffer(id, port)], byOutput[port := id])
  {
  }

  /** The buffers continue the numbering with one buffer for each of the ports, in their order. */
  ghost predicate Continued(before: seq<Buffer>, buffers: seq<Buffer>, nodeId: string, ports: seq<Port>) {
    && before <= buffers && |buffers| == |before| + |ports|
    && forall k :: 0 <= k < |ports| ==>
         buffers[|before| + k] == Buffer(BufferId(|before| + k), PortRef(nodeId, ports[k].id))
  }

  /** Allocates the buffers of one node's signal outputs. */
  method AllocateNode<S>(node: AudioNode<S>, buffers: seq<Buffer>, byOutput: map<PortRef, string>)
    returns (buffers': seq<Buffer>, byOutput': map<PortRef, string>)
    requires Allocated(buffers, byOutput)
    ensures Allocated(buffers', byOutput') && Continued(buffers, buffers', node.id, SignalOutputs(node.ports))
    ensures byOutput.Keys <= byOutput'.Keys && Covered(node, byOutput')
    ensures forall port :: port in byOutput' && port !in byOutput ==> port.nodeId == node.id
  {
    buffers', byOutput' := buffers, byOutput;
    var k := 0;
    while k < |node.ports|
      invariant 0 <= k <= |node.ports|
      invariant Allocated(buffers', byOutput') && byOutput.Keys <= byOutput'.Keys
      invariant Continued(buffers, buffers', node.id, SignalOutputs(node.ports[..k]))
      invariant forall i ::
                  0 <= i < k && IsSignalOutput(node.ports[i]) ==> PortRef(node.id, node.ports[i].id) in byOutput'
      invariant forall port :: port in byOutput' && port !in byOutput ==> port.nodeId == node.id
    {
      assert node.ports[..k + 1][..k] == node.ports[..k];
      if IsSignalOutput(node.ports[k]) {
        var port := PortRef(node.id, node.ports[k].id);
        var id := BufferId(|buffers'|);
        OneMoreBuffer(buffers', byOutput', port);
        byOutput' := byOutput'[port := id];
        buffers' := buffers' + [Buffer(id, port)];
      }
      k := k + 1;
    }
    assert node.ports[..k] == node.ports;
  }

  // ---- Nodes -----------------------------------------------------------------------------------------

  function InputsOf(edges: seq<PlanEdge>, nodeId: string): (r: seq<SignalInput>)
    ensures forall x :: x in r <==>
              exists e ::
                    e in edges && e.target.nodeId == nodeId && x == SignalInput(e.target.portId, e.source, e.bufferId)
  {
    if edges == [] then [] else
      var n := |edges| - 1;
      assert edges == edges[..n] + [edges[n]];
      InputsOf(edges[..n], nodeId)
      + if edges[n].target.nodeId == nodeId
        then [SignalInput(edges[n].target.portId, edges[n].source, edges[n].bufferId)] else []
  }

  function OutputsOf(nodeId: string, ports: seq<Port>, byOutput: map<PortRef, string>): (r: seq<SignalOutput>)
    requires forall port :: port in ports && IsSignalOutput(port) ==> PortRef(nodeId, port.id) in byOutput
    ensures |r| == |SignalOutputs(ports)|
    ensures forall k :: 0 <= k < |r| ==>
              && r[k].portId == SignalOutputs(ports)[k].id
              && PortRef(nodeId, r[k].portId) in byOutput && r[k].bufferId == byOutput[PortRef(nodeId, r[k].portId)]
  {
    if ports == [] then [] else
      var n := |ports| - 1;
      assert ports == ports[..n] + [ports[n]];
      OutputsOf(nodeId, ports[..n], byOutput)
      + if IsSignalOutput(ports[n]) then [SignalOutput(ports[n].id, byOutput[PortRef(nodeId, ports[n].id)])] else []
  }

  /** The first edge into a port. */
  function EdgeInto(edges: seq<AudioEdge>, target: PortRef): Option<AudioEdge> {
    if edges == [] then None
    else if edges[0].target == target then Some(edges[0])
    else EdgeInto(edges[1..], target)
  }

  function ControlsOf(nodeId: string, ports: seq<Port>, edges: seq<AudioEdge>): seq<ControlInput> {
    if ports == [] then [] else
      var n := |ports| - 1;
      var edge := EdgeInto(edges, PortRef(nodeId, ports[n].id));
      ControlsOf(nodeId, ports[..n], edges)
      + if ports[n].direction.Input? && !ports[n].isSignal
        then [ControlInput(ports[n].id, if edge.Some? then Some(edge.value.source) else None)] else []
  }

  function PlanNodeOf<S>(node: AudioNode<S>, edges: seq<PlanEdge>, byOutput: map<PortRef, string>,
                         graph: AudioGraph<S>): PlanNode<S>
    requires Covered(node, byOutput)
  {
    PlanNode(node.id, node.kind, node.params,
             InputsOf(edges, node.id), ControlsOf(node.id, node.ports, graph.edges),
                 OutputsOf(node.id, node.ports, byOutput))
  }

  // ---- The plan ----------------------------------------------------------------------------------------

  ghost predicate DistinctBuffers(buffers: seq<Buffer>) {
    forall i, j :: 0 <= i < j < |buffers| ==> buffers[i].id != buffers[j].id
  }

  ghost predicate EdgePlanned<S>(graph: AudioGraph<S>, e: PlanEdge, buffers: seq<Buffer>) {
    && AudioEdge(e.source, e.target) in graph.edges && IsSignalEdge(AudioEdge(e.source, e.target), graph)
    && BufferOf(buffers, e.bufferId, e.source)
  }

  ghost predicate HasEdge(edges: seq<PlanEdge>, e: AudioEdge) {
    exists p :: p in edges && p.source == e.source && p.target == e.target
  }

  function IsSignalIn<S>(graph: AudioGraph<S>): AudioEdge -> bool {
    (edge: AudioEdge) => IsSignalEdge(edge, graph)
  }

  function SignalEdges<S>(graph: AudioGraph<S>): seq<AudioEdge> {
    Keep(IsSignalIn(graph), graph.edges)
  }

  function IsOutput(): Port -> bool {
    (port: Port) => IsSignalOutput(port)
  }

  function SignalOutputs(ports: seq<Port>): seq<Port> {
    Keep(IsOutput(), ports)
  }

  function IsControl(): Port -> bool {
    (port: Port) => port.direction.Input? && !port.isSignal
  }

  function ControlPorts(ports: seq<Port>): seq<Port> {
    Keep(IsControl(), ports)
  }

  /** The first edge into the target leaves the source. */
  ghost predicate FirstEdgeFrom(edges: seq<AudioEdge>, source: PortRef, target: PortRef) {
    exists k :: 0 <= k < |edges| && edges[k] == AudioEdge(source, target) && NoEdgeInto(edges[..k], target)
  }

  ghost predicate NoEdgeInto(edges: seq<AudioEdge>, target: PortRef) {
    forall e :: e in edges ==> e.target != target
  }

  ghost predicate ControlSource(edges: seq<AudioEdge>, source: Option<PortRef>, target: PortRef) {
    match source
    case Some(port) => FirstEdgeFrom(edges, port, target)
    case None => NoEdgeInto(edges, target)
  }

  /** The control inputs are the inputs that carry no signal, one by one and in their order, each with
      the port that the first edge into it leaves, if there is such an edge. */
  ghost predicate ControlsPlanned(nodeId: string, ports: seq<Port>, edges: seq<AudioEdge>,
                                  controls: seq<ControlInput>) {
    && |controls| == |ControlPorts(ports)|
    && forall k :: 0 <= k < |controls| ==>
         && controls[k].portId == ControlPorts(ports)[k].id
         && ControlSource(edges, controls[k].source, PortRef(nodeId, controls[k].portId))
  }

  lemma {:induction false} EdgeIntoIsFirst(edges: seq<AudioEdge>, target: PortRef)
    ensures match EdgeInto(edges, target)
            case Some(edge) => edge.target == target && FirstEdgeFrom(edges, edge.source, target)
            case None => NoEdgeInto(edges, target)
  {
    if edges != [] {
      assert edges == [edges[0]] + edges[1..];
      if edges[0].target == target {
        assert edges[0] == AudioEdge(edges[0].source, target) && edges[..0] == [];
      } else {
        EdgeIntoIsFirst(edges[1..], target);
        var edge := EdgeInto(edges[1..], target);
        if edge.Some? {
          var k :| 0 <= k < |edges[1..]| && edges[1..][k] == edge.value && NoEdgeInto(edges[1..][..k], target);
          assert edges[..k + 1] == [edges[0]] + edges[1..][..k] && edges[k + 1] == edge.value;
        }
      }
    }
  }

  lemma {:induction false} ControlsFit(nodeId: string, ports: seq<Port>, edges: seq<AudioEdge>)
    ensures ControlsPlanned(nodeId, ports, edges, ControlsOf(nodeId, ports, edges))
  {
    if ports != [] {
      var n := |ports| - 1;
      ControlsFit(nodeId, ports[..n], edges);
      EdgeIntoIsFirst(edges, PortRef(nodeId, ports[n].id));
    }
  }

  /** The planned edges are the signal edges of the graph, one by one and in their order, each with
      the buffer of its source port. */
  ghost predicate EdgesPlanned<S>(graph: AudioGraph<S>, edges: seq<PlanEdge>, buffers: seq<Buffer>) {
    && |edges| == |SignalEdges(graph)|
    && forall k :: 0 <= k < |edges| ==>
         AudioEdge(edges[k].source, edges[k].target) == SignalEdges(graph)[k] && EdgePlanned(graph, edges[k], buffers)
  }

  /** A planned node reads the buffers of the edges into its ports, and writes one for each of its
      signal outputs, both in their order. */
  ghost predicate NodePlanned<S>(graph: AudioGraph<S>, node: PlanNode<S>, edges: seq<PlanEdge>, buffers: seq<Buffer>) {
    && FindNode(graph.nodes, node.nodeId).Some?
    && var original := FindNode(graph.nodes, node.nodeId).value;
       && node.kind == original.kind && node.params == original.params
       && node.signalInputs == InputsOf(edges, node.nodeId)
       && ControlsPlanned(node.nodeId, original.ports, graph.edges, node.controlInputs)
       && |node.signalOutputs| == |SignalOutputs(original.ports)|
       && forall k :: 0 <= k < |node.signalOutputs| ==>
            && node.signalOutputs[k].portId == SignalOutputs(original.ports)[k].id
            && BufferOf(buffers, node.signalOutputs[k].bufferId, PortRef(node.nodeId, node.signalOutputs[k].portId))
  }

  /** An edge carries the very buffer that the node it comes from writes for that port. */
  ghost predicate Connected<S>(edges: seq<PlanEdge>, nodes: seq<PlanNode<S>>) {
    forall e, n, x :: e in edges && n in nodes && x in n.signalOutputs && e.source == PortRef(n.nodeId, x.portId) ==>
      e.bufferId == x.bufferId
  }

  ghost predicate WellBuilt<S>(graph: AudioGraph<S>, audioIds: seq<string>, plan: Plan<S>) {
    && DistinctBuffers(plan.buffers)
    && EdgesPlanned(graph, plan.edges, plan.buffers)
    && Connected(plan.edges, plan.nodes)
    && |plan.nodes| == |audioIds|
    && forall i :: 0 <= i < |audioIds| ==>
         plan.nodes[i].nodeId == audioIds[i] && NodePlanned(graph, plan.nodes[i], plan.edges, plan.buffers)
  }

  /** The planned edges are exactly the signal edges of the graph. */
  lemma PlannedEdges<S>(graph: AudioGraph<S>, edges: seq<PlanEdge>, buffers: seq<Buffer>, e: AudioEdge)
    requires EdgesPlanned(graph, edges, buffers)
    ensures HasEdge(edges, e) <==> e in graph.edges && IsSignalEdge(e, graph)
  {
    if HasEdge(edges, e) {
      var p :| p in edges && p.source == e.source && p.target == e.target;
      var k :| 0 <= k < |edges| && edges[k] == p;
    }
    if e in graph.edges && IsSignalEdge(e, graph) {
      assert IsSignalIn(graph)(e);
      assert e in SignalEdges(graph);
      var k :| 0 <= k < |SignalEdges(graph)| && SignalEdges(graph)[k] == e;
      assert edges[k] in edges;
    }
  }

  /** A signal input of a planned node stands for a signal edge, and has the buffer of its source. */
  lemma InputStandsForEdge<S>(graph: AudioGraph<S>, node: PlanNode<S>, edges: seq<PlanEdge>, buffers: seq<Buffer>,
                              x: SignalInput)
    requires EdgesPlanned(graph, edges, buffers) && NodePlanned(graph, node, edges, buffers) && x in node.signalInputs
    ensures AudioEdge(x.source, PortRef(node.nodeId, x.portId)) in graph.edges
    ensures IsSignalEdge(AudioEdge(x.source, PortRef(node.nodeId, x.portId)), graph)
    ensures BufferOf(buffers, x.bufferId, x.source)
  {
    var e :| e in edges && e.target.nodeId == node.nodeId && x == SignalInput(e.target.portId, e.source, e.bufferId);
    var k :| 0 <= k < |edges| && edges[k] == e;
    assert e.target == PortRef(node.nodeId, x.portId);
  }

  /** The port is the first signal port of the first node outside the audio group that has one. */
  ghost predicate IsFirstOutside<S>(nodes: seq<AudioNode<S>>, audioIds: seq<string>, port: PortRef) {
    exists i, j ::
      && 0 <= i < |nodes| && nodes[i].id !in audioIds && 0 <= j < |nodes[i].ports| && nodes[i].ports[j].isSignal
      && port == PortRef(nodes[i].id, nodes[i].ports[j].id)
      && (forall k :: 0 <= k < j ==> !nodes[i].ports[k].isSignal)
      && (forall k :: 0 <= k < i && nodes[k].id !in audioIds ==> NoSignals(nodes[k]))
  }

  ghost predicate NoSignals<S>(node: AudioNode<S>) {
    forall p :: p in node.ports ==> !p.isSignal
  }

  lemma {:induction false} SignalPortIsFirst(ports: seq<Port>)
    requires SignalPort(ports).Some?
    ensures exists j :: 0 <= j < |ports| && ports[j].isSignal && ports[j] == SignalPort(ports).value
                        && forall k :: 0 <= k < j ==> !ports[k].isSignal
  {
    if !ports[0].isSignal {
      SignalPortIsFirst(ports[1..]);
      var j :| 0 <= j < |ports[1..]| && ports[1..][j].isSignal && ports[1..][j] == SignalPort(ports).value
               && forall k :: 0 <= k < j ==> !ports[1..][k].isSignal;
      forall k | 0 <= k < j + 1 ensures !ports[k].isSignal {
        assert k > 0 ==> ports[k] == ports[1..][k - 1];
      }
      assert ports[j + 1] == ports[1..][j];
    }
  }

  lemma {:induction false} OutsideIsFirst<S>(nodes: seq<AudioNode<S>>, audioIds: seq<string>)
    ensures var port := FirstOutside(nodes, audioIds);
            port.Some? ==> IsFirstOutside(nodes, audioIds, port.value)
  {
    if nodes != [] {
      if nodes[0].id !in audioIds && SignalPort(nodes[0].ports).Some? {
        SignalPortIsFirst(nodes[0].ports);
      } else {
        OutsideIsFirst(nodes[1..], audioIds);
        if FirstOutside(nodes, audioIds).Some? {
          FirstOutsideLater(nodes, audioIds, FirstOutside(nodes, audioIds).value);
        }
      }
    }
  }

  lemma FirstOutsideLater<S>(nodes: seq<AudioNode<S>>, audioIds: seq<string>, port: PortRef)
    requires nodes != [] && IsFirstOutside(nodes[1..], audioIds, port)
    requires nodes[0].id !in audioIds ==> NoSignals(nodes[0])
    ensures IsFirstOutside(nodes, audioIds, port)
  {
    var i, j :|
      && 0 <= i < |nodes[1..]| && nodes[1..][i].id !in audioIds && 0 <= j < |nodes[1..][i].ports|
      && nodes[1..][i].ports[j].isSignal && port == PortRef(nodes[1..][i].id, nodes[1..][i].ports[j].id)
      && (forall k :: 0 <= k < j ==> !nodes[1..][i].ports[k].isSignal)
      && (forall k :: 0 <= k < i && nodes[1..][k].id !in audioIds ==> NoSignals(nodes[1..][k]));
    assert nodes[i + 1] == nodes[1..][i];
    forall k | 0 <= k < i + 1 && nodes[k].id !in audioIds ensures NoSignals(nodes[k]) {
      assert k > 0 ==> nodes[k] == nodes[1..][k - 1];
    }
  }

  function SignalPort(ports: seq<Port>): (r: Option<Port>)
    ensures r.Some? ==> r.value in ports && r.value.isSignal
    ensures r.None? ==> forall p :: p in ports ==> !p.isSignal
  {
    if ports == [] then None else if ports[0].isSignal then Some(ports[0]) else SignalPort(ports[1..])
  }

  function FirstOutside<S>(nodes: seq<AudioNode<S>>, audioIds: seq<string>): (r: Option<PortRef>)
    ensures r.None? ==> forall n, p :: n in nodes && n.id !in audioIds && p in n.ports ==> !p.isSignal
  {
    if nodes == [] then None
    else
      var port := SignalPort(nodes[0].ports);
      if nodes[0].id !in audioIds && port.Some? then Some(PortRef(nodes[0].id, port.value.id))
      else FirstOutside(nodes[1..], audioIds)
  }

  /** The audio nodes of a plan exist and no other node has signal ports. */
  ghost predicate CoversSignals<S>(graph: AudioGraph<S>, audioIds: seq<string>) {
    && (forall i :: 0 <= i < |audioIds| ==> FindNode(graph.nodes, audioIds[i]).Some?)
    && (forall n, p :: n in graph.nodes && n.id !in audioIds && p in n.ports ==> !p.isSignal)
  }

  ghost predicate AllCovered<S>(graph: AudioGraph<S>, audioIds: seq<string>, byOutput: map<PortRef, string>) {
    forall id ::
          id in audioIds && FindNode(graph.nodes, id).Some? ==> Covered(FindNode(graph.nodes, id).value, byOutput)
  }

  /** The source of a signal edge always has a buffer. */
  lemma SourceHasBuffer<S>(graph: AudioGraph<S>, audioIds: seq<string>, byOutput: map<PortRef, string>, edge: AudioEdge)
    requires CoversSignals(graph, audioIds) && AllCovered(graph, audioIds, byOutput)
    requires IsSignalEdge(edge, graph)
    ensures edge.source in byOutput
  {
    var node := FindNode(graph.nodes, edge.source.nodeId).value;
    assert node.id in audioIds;
  }

  /** The signal outputs of the nodes, one node after the other. */
  function OutputPorts<S>(graph: AudioGraph<S>, ids: seq<string>): seq<PortRef>
    requires forall i :: 0 <= i < |ids| ==> FindNode(graph.nodes, ids[i]).Some?
  {
    if ids == [] then []
    else
      var ports := SignalOutputs(FindNode(graph.nodes, ids[|ids| - 1]).value.ports);
      OutputPorts(graph, ids[..|ids| - 1])
      + seq(|ports|, k requires 0 <= k < |ports| => PortRef(ids[|ids| - 1], ports[k].id))
  }

  /** There is one buffer for each signal output of the nodes, in their order and numbered from zero. */
  ghost predicate BuffersPlanned<S>(graph: AudioGraph<S>, ids: seq<string>, buffers: seq<Buffer>)
    requires forall i :: 0 <= i < |ids| ==> FindNode(graph.nodes, ids[i]).Some?
  {
    && |buffers| == |OutputPorts(graph, ids)|
    && forall i :: 0 <= i < |buffers| ==>
         buffers[i] == Buffer("audio_buffer_" + Decimal(i), OutputPorts(graph, ids)[i])
  }

  lemma NextNodeBuffers<S>(graph: AudioGraph<S>, ids: seq<string>, k: nat, before: seq<Buffer>, buffers: seq<Buffer>)
    requires forall i :: 0 <= i < |ids| ==> FindNode(graph.nodes, ids[i]).Some?
    requires k < |ids| && BuffersPlanned(graph, ids[..k], before)
    requires Continued(before, buffers, ids[k], SignalOutputs(FindNode(graph.nodes, ids[k]).value.ports))
    ensures BuffersPlanned(graph, ids[..k + 1], buffers)
  {
    assert ids[..k + 1][..k] == ids[..k];
    forall i | 0 <= i < |before| ensures buffers[i] == before[i] {
    }
  }

  method AllocateBuffers<S>(graph: AudioGraph<S>, audioIds: seq<string>)
    returns (buffers: seq<Buffer>, byOutput: map<PortRef, string>)
    requires forall i :: 0 <= i < |audioIds| ==> FindNode(graph.nodes, audioIds[i]).Some?
    ensures Allocated(buffers, byOutput) && AllCovered(graph, audioIds, byOutput)
    ensures BuffersPlanned(graph, audioIds, buffers)
  {
    buffers, byOutput := [], map[];
    var k := 0;
    while k < |audioIds|
      invariant 0 <= k <= |audioIds|
      invariant Allocated(buffers, byOutput) && BuffersPlanned(graph, audioIds[..k], buffers)
      invariant forall i :: 0 <= i < k ==> Covered(FindNode(graph.nodes, audioIds[i]).value, byOutput)
    {
      ghost var before, fewer := byOutput, buffers;
      buffers, byOutput := AllocateNode(FindNode(graph.nodes, audioIds[k]).value, buffers, byOutput);
      forall i | 0 <= i < k ensures Covered(FindNode(graph.nodes, audioIds[i]).value, byOutput) {
        assert Covered(FindNode(graph.nodes, audioIds[i]).value, before);
      }
      NextNodeBuffers(graph, audioIds, k, fewer, buffers);
      k := k + 1;
    }
    assert audioIds[..k] == audioIds;
  }

  lemma PlannedHere<S>(graph: AudioGraph<S>, audioIds: seq<string>, buffers: seq<Buffer>,
                       byOutput: map<PortRef, string>, edge: AudioEdge)
    requires CoversSignals(graph, audioIds) && AllCovered(graph, audioIds, byOutput) && Allocated(buffers, byOutput)
    requires edge in graph.edges && IsSignalEdge(edge, graph)
    ensures edge.source in byOutput
            && EdgePlanned(graph, PlanEdge(edge.source, edge.target, byOutput[edge.source]), buffers)
  {
    SourceHasBuffer(graph, audioIds, byOutput, edge);
  }

  /** The edges planned so far are the signal edges among the first k, with their buffers. */
  ghost predicate PlannedUpTo<S>(graph: AudioGraph<S>, edges: seq<PlanEdge>, buffers: seq<Buffer>,
                                 byOutput: map<PortRef, string>, k: nat)
    requires k <= |graph.edges|
  {
    var signals := Keep(IsSignalIn(graph), graph.edges[..k]);
    && |edges| == |signals|
    && forall i :: 0 <= i < |edges| ==>
         && AudioEdge(edges[i].source, edges[i].target) == signals[i] && EdgePlanned(graph, edges[i], buffers)
         && edges[i].source in byOutput && edges[i].bufferId == byOutput[edges[i].source]
  }

  /** One more edge has been looked at, and planned if it is a signal edge. */
  lemma NextEdgePlanned<S>(graph: AudioGraph<S>, edges: seq<PlanEdge>, buffers: seq<Buffer>,
                           byOutput: map<PortRef, string>, k: nat)
    requires k < |graph.edges| && PlannedUpTo(graph, edges, buffers, byOutput, k)
    ensures !IsSignalEdge(graph.edges[k], graph) ==> PlannedUpTo(graph, edges, buffers, byOutput, k + 1)
    ensures
      var edge := graph.edges[k];
      IsSignalEdge(edge, graph) && edge.source in byOutput
      && EdgePlanned(graph, PlanEdge(edge.source, edge.target, byOutput[edge.source]), buffers) ==>
        PlannedUpTo(graph, edges + [PlanEdge(edge.source, edge.target, byOutput[edge.source])], buffers, byOutput,
                    k + 1)
  {
    assert graph.edges[..k + 1][..k] == graph.edges[..k];
  }

  /** Plans the signal edges in their order. */
  method PlanEdges<S>(graph: AudioGraph<S>, ghost audioIds: seq<string>, buffers: seq<Buffer>,
                      byOutput: map<PortRef, string>)
    returns (edges: seq<PlanEdge>)
    requires CoversSignals(graph, audioIds) && AllCovered(graph, audioIds, byOutput) && Allocated(buffers, byOutput)
    ensures EdgesPlanned(graph, edges, buffers)
    ensures forall e :: e in edges ==> e.source in byOutput && e.bufferId == byOutput[e.source]
  {
    edges := [];
    var k := 0;
    while k < |graph.edges|
      invariant 0 <= k <= |graph.edges|
      invariant PlannedUpTo(graph, edges, buffers, byOutput, k)
    {
      NextEdgePlanned(graph, edges, buffers, byOutput, k);
      var edge := graph.edges[k];
      if IsSignalEdge(edge, graph) {
        PlannedHere(graph, audioIds, buffers, byOutput, edge);
        edges := edges + [PlanEdge(edge.source, edge.target, byOutput[edge.source])];
      }
      k := k + 1;
    }
    assert graph.edges[..k] == graph.edges;
  }

  lemma NodeFitsPlan<S>(graph: AudioGraph<S>, audioIds: seq<string>, buffers: seq<Buffer>,
                        byOutput: map<PortRef, string>, edges: seq<PlanEdge>, id: string)
    requires CoversSignals(graph, audioIds) && AllCovered(graph, audioIds, byOutput) && Allocated(buffers, byOutput)
    requires id in audioIds && FindNode(graph.nodes, id).Some?
    ensures NodePlanned(graph, PlanNodeOf(FindNode(graph.nodes, id).value, edges, byOutput, graph), edges, buffers)
    ensures FollowsTable([PlanNodeOf(FindNode(graph.nodes, id).value, edges, byOutput, graph)], byOutput)
  {
    ControlsFit(id, FindNode(graph.nodes, id).value.ports, graph.edges);
  }

  /** Every output of the planned nodes has the buffer that the table gives its port. */
  ghost predicate FollowsTable<S>(nodes: seq<PlanNode<S>>, byOutput: map<PortRef, string>) {
    forall n, x :: n in nodes && x in n.signalOutputs ==>
      PortRef(n.nodeId, x.portId) in byOutput && x.bufferId == byOutput[PortRef(n.nodeId, x.portId)]
  }

  ghost predicate NodesPlanned<S>(graph: AudioGraph<S>, ids: seq<string>, nodes: seq<PlanNode<S>>, edges: seq<PlanEdge>,
                                  buffers: seq<Buffer>, byOutput: map<PortRef, string>) {
    && |nodes| == |ids|
    && (forall i :: 0 <= i < |ids| ==> nodes[i].nodeId == ids[i] && NodePlanned(graph, nodes[i], edges, buffers))
    && FollowsTable(nodes, byOutput)
  }

  lemma OneMoreNode<S>(graph: AudioGraph<S>, ids: seq<string>, k: nat, nodes: seq<PlanNode<S>>, edges: seq<PlanEdge>,
                       buffers: seq<Buffer>, byOutput: map<PortRef, string>, node: PlanNode<S>)
    requires k < |ids| && NodesPlanned(graph, ids[..k], nodes, edges, buffers, byOutput)
    requires node.nodeId == ids[k] && NodePlanned(graph, node, edges, buffers) && FollowsTable([node], byOutput)
    ensures NodesPlanned(graph, ids[..k + 1], nodes + [node], edges, buffers, byOutput)
  {
    var more := nodes + [node];
    forall n, x | n in more && x in n.signalOutputs
      ensures PortRef(n.nodeId, x.portId) in byOutput && x.bufferId == byOutput[PortRef(n.nodeId, x.portId)]
    {
      assert n in nodes || n in [node];
    }
  }

  lemma AllocatedAreDistinct(buffers: seq<Buffer>, byOutput: map<PortRef, string>)
    requires Allocated(buffers, byOutput)
    ensures DistinctBuffers(buffers)
  {
    forall i, j | 0 <= i < j < |buffers| ensures buffers[i].id != buffers[j].id {
      if buffers[i].id == buffers[j].id { BufferIdInjective(i, j); }
    }
  }

  lemma TableConnects<S>(edges: seq<PlanEdge>, nodes: seq<PlanNode<S>>, byOutput: map<PortRef, string>)
    requires FollowsTable(nodes, byOutput)
    requires forall e :: e in edges ==> e.source in byOutput && e.bufferId == byOutput[e.source]
    ensures Connected(edges, nodes)
  {
  }

  /** Builds the plan of the audio nodes in execution order. The check of signal ports refuses it
      exactly when a node outside the audio group has one; otherwise no lookup of a producer's buffer
      fails. */
  method BuildPlan<S>(graph: AudioGraph<S>, audioIds: seq<string>, blockSize: nat, sampleRate: nat)
    returns (r: PlanResult<S>)
    requires forall i, j :: 0 <= i < j < |graph.nodes| ==> graph.nodes[i].id != graph.nodes[j].id
    requires forall i :: 0 <= i < |audioIds| ==> FindNode(graph.nodes, audioIds[i]).Some?
    ensures r.Planned? <==> CoversSignals(graph, audioIds)
    ensures r.SignalPortOutsideAudioBlock? ==> IsFirstOutside(graph.nodes, audioIds, r.port)
    ensures r.Planned? ==>
            WellBuilt(graph, audioIds, r.plan) && r.plan.blockSize == blockSize && r.plan.sampleRate == sampleRate
    ensures r.Planned? ==> BuffersPlanned(graph, audioIds, r.plan.buffers)
  {
    var outside := FirstOutside(graph.nodes, audioIds);
    if outside.Some? {
      OutsideIsFirst(graph.nodes, audioIds);
      return SignalPortOutsideAudioBlock(outside.value);
    }
    var buffers, byOutput := AllocateBuffers(graph, audioIds);
    var edges := PlanEdges(graph, audioIds, buffers, byOutput);
    var nodes: seq<PlanNode<S>> := [];
    var k := 0;
    while k < |audioIds|
      invariant 0 <= k <= |audioIds| && |nodes| == k
      invariant NodesPlanned(graph, audioIds[..k], nodes, edges, buffers, byOutput)
    {
      var node := PlanNodeOf(FindNode(graph.nodes, audioIds[k]).value, edges, byOutput, graph);
      NodeFitsPlan(graph, audioIds, buffers, byOutput, edges, audioIds[k]);
      OneMoreNode(graph, audioIds, k, nodes, edges, buffers, byOutput, node);
      nodes := nodes + [node];
      k := k + 1;
    }
    assert audioIds[..k] == audioIds;
    AllocatedAreDistinct(buffers, byOutput);
    TableConnects(edges, nodes, byOutput);
    r := Planned(Plan(blockSize, sampleRate, nodes, edges, buffers));
  }
}
