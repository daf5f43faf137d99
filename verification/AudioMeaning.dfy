/** The sound of an audio graph, by equations that mention neither plans nor buffers, and what a plan
    has to do with them. */
module AudioMeaning {
  import opened Basics
  import opened ExpansionEdges
  import opened DspPlan
  import opened DspBlocks
  import opened DspOffline
  import opened DspRealtime
  import opened DspRefinement

  // ---- Wires -----------------------------------------------------------------------------------------

  ghost predicate DistinctIds<S(!new)>(graph: AudioGraph<S>) {
    forall i, j :: 0 <= i < j < |graph.nodes| ==> graph.nodes[i].id != graph.nodes[j].id
  }

  /** The port at the position is the first one with that name. */
  ghost predicate FirstNamed(ports: seq<Port>, i: nat, id: string) {
    i < |ports| && ports[i].id == id && forall j :: 0 <= j < i ==> ports[j].id != id
  }

  /** The name at the node stands for a signal port of the given direction. */
  ghost predicate SignalEnd<S(!new)>(graph: AudioGraph<S>, end: PortRef, direction: Direction) {
    exists n, i: nat ::
      && n in graph.nodes && n.id == end.nodeId && FirstNamed(n.ports, i, end.portId)
      && n.ports[i].isSignal && n.ports[i].direction == direction
  }

  /** A wire is an edge from a signal output to a signal input. */
  ghost predicate IsWire<S(!new)>(graph: AudioGraph<S>, edge: AudioEdge) {
    SignalEnd(graph, edge.source, Output) && SignalEnd(graph, edge.target, Input)
  }

  /** The edge at the position is the first wire into the input. */
  ghost predicate FirstWire<S(!new)>(graph: AudioGraph<S>, input: PortRef, w: nat) {
    && w < |graph.edges| && graph.edges[w].target == input && IsWire(graph, graph.edges[w])
    && forall v :: 0 <= v < w && graph.edges[v].target == input ==> !IsWire(graph, graph.edges[v])
  }

  /** The port at the position is the first signal output. */
  ghost predicate FirstOutput(ports: seq<Port>, i: nat) {
    && i < |ports| && ports[i].isSignal && ports[i].direction.Output?
    && forall j :: 0 <= j < i ==> !(ports[j].isSignal && ports[j].direction.Output?)
  }

  /** Only the first signal output of a rendering node sounds. */
  ghost predicate Sounds<S(!new)>(graph: AudioGraph<S>, end: PortRef) {
    exists n, i: nat ::
      && n in graph.nodes && n.id == end.nodeId && IsRendering(n.kind)
      && FirstOutput(n.ports, i) && n.ports[i].id == end.portId
  }

  /** The kinds of nodes that render, and those that an executor knows besides. */
  lemma AudioKinds(kind: string)
    ensures IsRendering(kind) <==>
            kind == "object.core.audio.sig" || kind == "object.core.audio.osc"
            || kind == "object.core.audio.operator.mul"
    ensures IsOfflineKind(kind) <==> IsRendering(kind) || kind == "object.core.audio.snapshot"
    ensures IsRealtimeKind(kind) <==> IsRendering(kind) || kind == "object.core.audio.output"
  {
  }

  // ---- The equations ---------------------------------------------------------------------------------

  /** What is heard through an input: the sound that the first wire into it carries, or nothing. */
  ghost function Heard<S(!new)>(ops: Arithmetic<S>, graph: AudioGraph<S>, sound: (string, nat) -> S, input: PortRef,
                                frame: nat): S {
    if exists w: nat :: FirstWire(graph, input, w) then
      var w: nat :| FirstWire(graph, input, w);
      if Sounds(graph, graph.edges[w].source) then sound(graph.edges[w].source.nodeId, frame) else ops.zero
    else ops.zero
  }

  /** The node at the other end of the first edge into an input of the node that carries no signal. */
  ghost predicate Controls<S(!new)>(graph: AudioGraph<S>, node: AudioNode<S>, portId: string, source: AudioNode<S>) {
    && (exists p :: p in node.ports && p.id == portId && p.direction.Input? && !p.isSignal)
    && source in graph.nodes
    && exists port: PortRef :: port.nodeId == source.id && FirstEdgeFrom(graph.edges, port, PortRef(node.id, portId))
  }

  /** The frequency of an oscillator: the value of the node that controls it, or else its own. */
  ghost function FrequencyHeard<S(!new)>(ops: Arithmetic<S>, graph: AudioGraph<S>, node: AudioNode<S>): S {
    if exists source :: Controls(graph, node, "frequency", source) then
      var source :| Controls(graph, node, "frequency", source);
      if "value" in source.params then source.params["value"] else ops.zero
    else if "frequency" in node.params then node.params["frequency"] else ops.defaultFrequency
  }

  /** The phase after some frames from the start. */
  ghost function Turned<S>(ops: Arithmetic<S>, increment: S, frames: nat): S {
    if frames == 0 then ops.zero else ops.advance(Turned(ops, increment, frames - 1), increment)
  }

  /** What a rendering node sounds like at a frame, given the sound of the others. */
  ghost function NodeSound<S(!new)>(ops: Arithmetic<S>, graph: AudioGraph<S>, rate: nat, sound: (string, nat) -> S,
                                    node: AudioNode<S>, frame: nat): S {
    if node.kind == SIG_KIND then if "value" in node.params then node.params["value"] else ops.zero
    else if node.kind == OSC_KIND then
      ops.sinOf(Turned(ops, ops.increment(FrequencyHeard(ops, graph, node), rate), frame))
    else
      ops.mul(Heard(ops, graph, sound, PortRef(node.id, "left"), frame),
              Heard(ops, graph, sound, PortRef(node.id, "right"), frame))
  }

  ghost predicate SoundsRight<S(!new)>(ops: Arithmetic<S>, graph: AudioGraph<S>, rate: nat, sound: (string, nat) -> S,
                                       node: AudioNode<S>, frame: nat) {
    IsRendering(node.kind) ==> sound(node.id, frame) == NodeSound(ops, graph, rate, sound, node, frame)
  }

  /** The sound of a graph: every rendering node sounds as it should at every frame. */
  ghost predicate IsSound<S(!new)>(ops: Arithmetic<S>, graph: AudioGraph<S>, rate: nat, sound: (string, nat) -> S) {
    forall node, frame: nat :: node in graph.nodes ==> SoundsRight(ops, graph, rate, sound, node, frame)
  }

  // ---- The plan follows the graph ----------------------------------------------------------------------

  lemma SameId<S(!new)>(graph: AudioGraph<S>, n: AudioNode<S>, id: string)
    requires DistinctIds(graph) && n in graph.nodes && n.id == id
    ensures FindNode(graph.nodes, id) == Some(n)
  {
    var m := FindNode(graph.nodes, id).value;
    var i :| 0 <= i < |graph.nodes| && graph.nodes[i] == n;
    var j :| 0 <= j < |graph.nodes| && graph.nodes[j] == m;
  }

  lemma {:induction false} PortFound(ports: seq<Port>, id: string)
    ensures match FindPortIn(ports, id)
            case Some(p) => exists i: nat :: FirstNamed(ports, i, id) && ports[i] == p
            case None => forall p :: p in ports ==> p.id != id
  {
    if ports != [] {
      if ports[0].id == id {
        assert FirstNamed(ports, 0, id);
      } else {
        PortFound(ports[1..], id);
        assert ports == [ports[0]] + ports[1..];
        if FindPortIn(ports, id).Some? {
          var i: nat :| FirstNamed(ports[1..], i, id) && ports[1..][i] == FindPortIn(ports, id).value;
          assert FirstNamed(ports, i + 1, id);
        }
      }
    }
  }

  lemma EndFound<S(!new)>(graph: AudioGraph<S>, end: PortRef, direction: Direction)
    requires DistinctIds(graph)
    ensures SignalEnd(graph, end, direction) <==>
            var port := FindPort(graph, end);
            port.Some? && port.value.isSignal && port.value.direction == direction
  {
    var found := FindNode(graph.nodes, end.nodeId);
    if found.Some? {
      PortFound(found.value.ports, end.portId);
    }
    if SignalEnd(graph, end, direction) {
      var n, i: nat :| n in graph.nodes && n.id == end.nodeId && FirstNamed(n.ports, i, end.portId)
                  && n.ports[i].isSignal && n.ports[i].direction == direction;
      SameId(graph, n, end.nodeId);
    }
  }

  /** The planner's signal edges are the wires. */
  lemma SignalEdgesAreWires<S(!new)>(graph: AudioGraph<S>, edge: AudioEdge)
    requires DistinctIds(graph)
    ensures IsSignalEdge(edge, graph) <==> IsWire(graph, edge)
  {
    EndFound(graph, edge.source, Output);
    EndFound(graph, edge.target, Input);
  }

  /** An element that was kept comes from a position before which exactly its predecessors were kept. */
  lemma {:induction false} KeptFrom<T(!new)>(p: T -> bool, s: seq<T>, k: nat) returns (w: nat)
    requires k < |Keep(p, s)|
    ensures w < |s| && s[w] == Keep(p, s)[k] && Keep(p, s[..w]) == Keep(p, s)[..k]
  {
    var n := |s| - 1;
    if k < |Keep(p, s[..n])| {
      w := KeptFrom(p, s[..n], k);
      assert s[..n][..w] == s[..w];
    } else {
      w := n;
    }
  }

  ghost predicate FirstPlanned(edges: seq<PlanEdge>, input: PortRef, k: nat) {
    k < |edges| && edges[k].target == input && forall j :: 0 <= j < k ==> edges[j].target != input
  }

  lemma {:induction false} FindInputIn(a: seq<SignalInput>, b: seq<SignalInput>, portId: string)
    ensures FindInput(a + b, portId) == Or(FindInput(a, portId), FindInput(b, portId))
  {
    if a == [] {
      assert a + b == b;
    } else {
      assert (a + b)[1..] == a[1..] + b;
      FindInputIn(a[1..], b, portId);
    }
  }

  /** A node finds the first planned edge into its input. */
  lemma {:induction false} InputIsFirst(edges: seq<PlanEdge>, input: PortRef)
    ensures match FindInput(InputsOf(edges, input.nodeId), input.portId)
            case Some(x) =>
              exists k: nat :: FirstPlanned(edges, input, k)
                               && x == SignalInput(input.portId, edges[k].source, edges[k].bufferId)
            case None => forall k: nat :: !FirstPlanned(edges, input, k)
  {
    if edges != [] {
      var n := |edges| - 1;
      var init := edges[..n];
      InputIsFirst(init, input);
      var last := InputsOf(edges, input.nodeId)[|InputsOf(init, input.nodeId)|..];
      assert InputsOf(edges, input.nodeId) == InputsOf(init, input.nodeId) + last;
      FindInputIn(InputsOf(init, input.nodeId), last, input.portId);
      forall k: nat | FirstPlanned(init, input, k) ensures FirstPlanned(edges, input, k) {
      }
      forall k: nat | FirstPlanned(edges, input, k) && k < n ensures FirstPlanned(init, input, k) {
      }
      if FindInput(InputsOf(init, input.nodeId), input.portId).None? {
        NoneFirst(init, input);
        if edges[n].target == input {
          assert FirstPlanned(edges, input, n);
        }
      }
    }
  }

  lemma {:induction false} NoneFirst(edges: seq<PlanEdge>, input: PortRef)
    requires forall k: nat :: !FirstPlanned(edges, input, k)
    ensures forall k :: 0 <= k < |edges| ==> edges[k].target != input
  {
    if edges != [] {
      var n := |edges| - 1;
      forall k: nat ensures !FirstPlanned(edges[..n], input, k) {
        if FirstPlanned(edges[..n], input, k) {
          assert FirstPlanned(edges, input, k);
        }
      }
      NoneFirst(edges[..n], input);
      assert !FirstPlanned(edges, input, n);
    }
  }

  lemma EarlierElsewhere<S(!new)>(graph: AudioGraph<S>, edges: seq<PlanEdge>, buffers: seq<Buffer>, input: PortRef,
                                  k: nat, e: AudioEdge)
    requires EdgesPlanned(graph, edges, buffers) && FirstPlanned(edges, input, k) && e in SignalEdges(graph)[..k]
    ensures e.target != input
  {
    var j :| 0 <= j < k && SignalEdges(graph)[j] == e;
    assert AudioEdge(edges[j].source, edges[j].target) == e;
  }

  lemma NoWireBefore<S(!new)>(graph: AudioGraph<S>, input: PortRef, w: nat, v: nat)
    requires DistinctIds(graph) && v < w <= |graph.edges| && graph.edges[v].target == input
    requires forall e :: e in Keep(IsSignalIn(graph), graph.edges[..w]) ==> e.target != input
    ensures !IsWire(graph, graph.edges[v])
  {
    SignalEdgesAreWires(graph, graph.edges[v]);
    assert graph.edges[..w][v] == graph.edges[v];
  }

  /** The first planned edge into an input stands for the first wire into it. */
  lemma PlannedIsWire<S(!new)>(graph: AudioGraph<S>, edges: seq<PlanEdge>, buffers: seq<Buffer>, input: PortRef, k: nat)
    returns (w: nat)
    requires DistinctIds(graph) && EdgesPlanned(graph, edges, buffers) && FirstPlanned(edges, input, k)
    ensures FirstWire(graph, input, w) && graph.edges[w].source == edges[k].source
  {
    w := KeptFrom(IsSignalIn(graph), graph.edges, k);
    assert graph.edges[w] == SignalEdges(graph)[k] == AudioEdge(edges[k].source, input);
    SignalEdgesAreWires(graph, graph.edges[w]);
    forall e | e in SignalEdges(graph)[..k] ensures e.target != input {
      EarlierElsewhere(graph, edges, buffers, input, k, e);
    }
    forall v | 0 <= v < w && graph.edges[v].target == input ensures !IsWire(graph, graph.edges[v]) {
      NoWireBefore(graph, input, w, v);
    }
  }

  lemma WireIsPlanned<S(!new)>(graph: AudioGraph<S>, edges: seq<PlanEdge>, buffers: seq<Buffer>, input: PortRef, w: nat)
    requires DistinctIds(graph) && EdgesPlanned(graph, edges, buffers) && FirstWire(graph, input, w)
    ensures exists k: nat :: FirstPlanned(edges, input, k)
  {
    var edge := graph.edges[w];
    SignalEdgesAreWires(graph, edge);
    assert edge in graph.edges;
    PlannedEdges(graph, edges, buffers, edge);
    if forall k: nat :: !FirstPlanned(edges, input, k) {
      NoneFirst(edges, input);
    }
  }

  // ---- Who writes what a node reads ----------------------------------------------------------------------

  /** Every node that can sound is planned. */
  ghost predicate SoundersPlanned<S(!new)>(graph: AudioGraph<S>, ids: seq<string>) {
    forall n, i: nat :: n in graph.nodes && IsRendering(n.kind) && FirstOutput(n.ports, i) ==> n.id in ids
  }

  /** A plan of the graph in which all sound is rendered by distinct planned nodes. */
  ghost predicate PlanOf<S(!new)>(graph: AudioGraph<S>, ids: seq<string>, plan: Plan<S>) {
    && DistinctIds(graph) && Distinct(ids) && WellBuilt(graph, ids, plan) && Renderable(plan)
    && SoundersPlanned(graph, ids)
  }

  lemma FirstKeptIsFirst(ports: seq<Port>)
    requires SignalOutputs(ports) != []
    ensures exists i: nat :: FirstOutput(ports, i) && ports[i].id == SignalOutputs(ports)[0].id
  {
    var w := KeptFrom(IsOutput(), ports, 0);
    assert SignalOutputs(ports)[0] in SignalOutputs(ports);
    forall j | 0 <= j < w ensures !(ports[j].isSignal && ports[j].direction.Output?) {
      assert ports[..w][j] == ports[j] && ports[j] !in Keep(IsOutput(), ports[..w]);
    }
  }

  lemma OnlyFirstOutput(ports: seq<Port>, i: nat, j: nat)
    requires FirstOutput(ports, i) && FirstOutput(ports, j)
    ensures i == j
  {
  }

  /** A rendering node writes the buffer of its first signal output. */
  lemma RendersFirstOutput<S(!new)>(graph: AudioGraph<S>, ids: seq<string>, plan: Plan<S>, j: nat)
    requires PlanOf(graph, ids, plan) && j < |plan.nodes| && IsRendering(plan.nodes[j].kind)
    ensures plan.nodes[j].signalOutputs != []
    ensures Sounds(graph, PortRef(ids[j], plan.nodes[j].signalOutputs[0].portId))
  {
    var node := plan.nodes[j];
    assert NodePlanned(graph, node, plan.edges, plan.buffers);
    FirstKeptIsFirst(FindNode(graph.nodes, node.nodeId).value.ports);
  }

  /** A buffer that an edge carries is written only by the node that the edge comes from, which sounds
      there. */
  lemma WriterSounds<S(!new)>(graph: AudioGraph<S>, ids: seq<string>, plan: Plan<S>, e: PlanEdge, j: nat)
    requires PlanOf(graph, ids, plan) && e in plan.edges && j < |plan.nodes| && Writes(plan.nodes[j], e.bufferId)
    ensures Sounds(graph, e.source) && e.source.nodeId == ids[j]
  {
    RendersFirstOutput(graph, ids, plan, j);
    var k :| 0 <= k < |plan.edges| && plan.edges[k] == e;
    assert EdgePlanned(graph, plan.edges[k], plan.buffers);
    var output := plan.nodes[j].signalOutputs[0];
    assert NodePlanned(graph, plan.nodes[j], plan.edges, plan.buffers);
    OneProducer(plan.buffers, e.bufferId, e.source, PortRef(ids[j], output.portId));
  }

  lemma OneProducer(buffers: seq<Buffer>, id: string, p: PortRef, q: PortRef)
    requires DistinctBuffers(buffers) && BufferOf(buffers, id, p) && BufferOf(buffers, id, q)
    ensures p == q
  {
    var i :| 0 <= i < |buffers| && buffers[i].id == id && buffers[i].producer == p;
    var j :| 0 <= j < |buffers| && buffers[j].id == id && buffers[j].producer == q;
  }

  /** A port that sounds is the first signal output of its planned node. */
  lemma SounderIsPlanned<S(!new)>(graph: AudioGraph<S>, ids: seq<string>, plan: Plan<S>, port: PortRef) returns (j: nat)
    requires PlanOf(graph, ids, plan) && Sounds(graph, port)
    ensures j < |plan.nodes| && plan.nodes[j].nodeId == ids[j] == port.nodeId && IsRendering(plan.nodes[j].kind)
    ensures plan.nodes[j].signalOutputs != [] && plan.nodes[j].signalOutputs[0].portId == port.portId
  {
    var n, i: nat :| n in graph.nodes && n.id == port.nodeId && IsRendering(n.kind)
                     && FirstOutput(n.ports, i) && n.ports[i].id == port.portId;
    assert n.id in ids;
    j :| 0 <= j < |ids| && ids[j] == n.id;
    SameId(graph, n, plan.nodes[j].nodeId);
    assert NodePlanned(graph, plan.nodes[j], plan.edges, plan.buffers);
    FirstKeptIsFirst(n.ports);
    var f: nat :| FirstOutput(n.ports, f) && n.ports[f].id == SignalOutputs(n.ports)[0].id;
    OnlyFirstOutput(n.ports, i, f);
  }

  /** An edge from a port that sounds carries the buffer that the node of the port writes. */
  lemma SounderWrites<S(!new)>(graph: AudioGraph<S>, ids: seq<string>, plan: Plan<S>, e: PlanEdge) returns (j: nat)
    requires PlanOf(graph, ids, plan) && e in plan.edges && Sounds(graph, e.source)
    ensures j < |plan.nodes| && ids[j] == e.source.nodeId && Writes(plan.nodes[j], e.bufferId)
  {
    j := SounderIsPlanned(graph, ids, plan, e.source);
    assert plan.nodes[j].signalOutputs[0] in plan.nodes[j].signalOutputs && plan.nodes[j] in plan.nodes;
  }

  lemma OnlyFirstWire<S(!new)>(graph: AudioGraph<S>, input: PortRef, v: nat, w: nat)
    requires FirstWire(graph, input, v) && FirstWire(graph, input, w)
    ensures v == w
  {
  }

  ghost predicate Unwritten<S(!new)>(plan: Plan<S>, bufferId: string) {
    forall j :: 0 <= j < |plan.nodes| ==> !Writes(plan.nodes[j], bufferId)
  }

  /** The sample is that of the node that writes the buffer, or silence if there is none. */
  ghost predicate HeardFrom<S(!new)>(ops: Arithmetic<S>, plan: Plan<S>, bufferId: string, sound: (string, nat) -> S,
                                     frame: nat, sample: S) {
    && (Unwritten(plan, bufferId) ==> sample == ops.zero)
    && (forall j :: 0 <= j < |plan.nodes| && Writes(plan.nodes[j], bufferId) ==>
          sample == sound(plan.nodes[j].nodeId, frame))
  }

  /** What a planned node hears through an input: the node that writes the buffer, or silence if there
      is no input or nobody writes its buffer. */
  lemma InputHears<S(!new)>(ops: Arithmetic<S>, graph: AudioGraph<S>, ids: seq<string>, plan: Plan<S>, i: nat,
                            portId: string, sound: (string, nat) -> S, frame: nat)
    requires PlanOf(graph, ids, plan) && i < |ids|
    ensures
      var heard, found := Heard(ops, graph, sound, PortRef(ids[i], portId), frame),
                          FindInput(plan.nodes[i].signalInputs, portId);
      && (found.None? ==> heard == ops.zero)
      && (found.Some? ==>
            HeardFrom(ops, plan, found.value.bufferId, sound, frame, heard))
  {
    var input := PortRef(ids[i], portId);
    assert NodePlanned(graph, plan.nodes[i], plan.edges, plan.buffers);
    InputIsFirst(plan.edges, input);
    var found := FindInput(plan.nodes[i].signalInputs, portId);
    if found.None? {
      forall w: nat ensures !FirstWire(graph, input, w) {
        if FirstWire(graph, input, w) {
          WireIsPlanned(graph, plan.edges, plan.buffers, input, w);
        }
      }
    } else {
      var k: nat :| FirstPlanned(plan.edges, input, k)
                    && found.value == SignalInput(portId, plan.edges[k].source, plan.edges[k].bufferId);
      WireHeard(ops, graph, ids, plan, input, k, sound, frame);
    }
  }

  lemma WireHeard<S(!new)>(ops: Arithmetic<S>, graph: AudioGraph<S>, ids: seq<string>, plan: Plan<S>, input: PortRef,
                           k: nat, sound: (string, nat) -> S, frame: nat)
    requires PlanOf(graph, ids, plan) && FirstPlanned(plan.edges, input, k)
    ensures
      HeardFrom(ops, plan, plan.edges[k].bufferId, sound, frame, Heard(ops, graph, sound, input, frame))
  {
    var e := plan.edges[k];
    var w := PlannedIsWire(graph, plan.edges, plan.buffers, input, k);
    forall v: nat | FirstWire(graph, input, v) ensures v == w {
      OnlyFirstWire(graph, input, v, w);
    }
    if Sounds(graph, e.source) {
      var j := SounderWrites(graph, ids, plan, e);
      assert Writes(plan.nodes[j], e.bufferId);
    }
    forall j | 0 <= j < |plan.nodes| && Writes(plan.nodes[j], e.bufferId)
      ensures Sounds(graph, e.source) && plan.nodes[j].nodeId == e.source.nodeId
    {
      WriterSounds(graph, ids, plan, e, j);
    }
  }

  // ---- Frequencies -----------------------------------------------------------------------------------------

  lemma {:induction false} ParamsOfNodes<S(!new)>(nodes: seq<AudioNode<S>>)
    requires forall i, j :: 0 <= i < j < |nodes| ==> nodes[i].id != nodes[j].id
    ensures forall n :: n in nodes ==> n.id in ParamsById(nodes) && ParamsById(nodes)[n.id] == n.params
    ensures forall id :: id in ParamsById(nodes) ==> exists n :: n in nodes && n.id == id
  {
    if nodes != [] {
      var n := |nodes| - 1;
      ParamsOfNodes(nodes[..n]);
      assert nodes == nodes[..n] + [nodes[n]];
    }
  }

  lemma {:induction false} ControlFound(inputs: seq<ControlInput>, portId: string)
    ensures match FindControl(inputs, portId)
            case Some(c) => c in inputs && c.portId == portId
            case None => forall c :: c in inputs ==> c.portId != portId
  {
    if inputs != [] {
      ControlFound(inputs[1..], portId);
      assert inputs == [inputs[0]] + inputs[1..];
    }
  }

  lemma OnlyFirstEdge(edges: seq<AudioEdge>, p: PortRef, q: PortRef, target: PortRef)
    requires FirstEdgeFrom(edges, p, target) && FirstEdgeFrom(edges, q, target)
    ensures p == q
  {
    var i :| 0 <= i < |edges| && edges[i] == AudioEdge(p, target) && NoEdgeInto(edges[..i], target);
    var j :| 0 <= j < |edges| && edges[j] == AudioEdge(q, target) && NoEdgeInto(edges[..j], target);
    forall k | 0 <= k < i ensures edges[k].target != target {
      assert edges[..i][k] == edges[k];
    }
    forall k | 0 <= k < j ensures edges[k].target != target {
      assert edges[..j][k] == edges[k];
    }
  }

  /** The planned control input of a port names the node that controls the port. */
  lemma ControlIsPlanned<S(!new)>(graph: AudioGraph<S>, node: AudioNode<S>, controls: seq<ControlInput>, portId: string,
                                  source: AudioNode<S>)
    requires ControlsPlanned(node.id, node.ports, graph.edges, controls)
    ensures Controls(graph, node, portId, source) <==>
            var found := FindControl(controls, portId);
            source in graph.nodes && found.Some? && found.value.source.Some?
            && found.value.source.value.nodeId == source.id
  {
    ControlFound(controls, portId);
    var found := FindControl(controls, portId);
    var ports := ControlPorts(node.ports);
    if found.Some? {
      var k :| 0 <= k < |controls| && controls[k] == found.value;
      assert ports[k] in ports;
      forall p, q | FirstEdgeFrom(graph.edges, p, PortRef(node.id, portId))
                    && FirstEdgeFrom(graph.edges, q, PortRef(node.id, portId))
        ensures p == q
      {
        OnlyFirstEdge(graph.edges, p, q, PortRef(node.id, portId));
      }
    } else {
      forall p | p in node.ports && p.direction.Input? && !p.isSignal ensures p.id != portId {
        assert IsControl()(p) && p in ports;
        var k :| 0 <= k < |ports| && ports[k] == p;
        assert controls[k] in controls;
      }
    }
  }

  /** The executors look up the frequency that the graph gives the oscillator. */
  lemma FrequencyIsHeard<S(!new)>(ops: Arithmetic<S>, graph: AudioGraph<S>, node: AudioNode<S>, planned: PlanNode<S>)
    requires DistinctIds(graph) && node in graph.nodes && planned.params == node.params
    requires ControlsPlanned(node.id, node.ports, graph.edges, planned.controlInputs)
    ensures Frequency(ops, planned, ParamsById(graph.nodes)) == FrequencyHeard(ops, graph, node)
  {
    ParamsOfNodes(graph.nodes);
    var found := FindControl(planned.controlInputs, "frequency");
    forall source: AudioNode<S>
      ensures Controls(graph, node, "frequency", source) <==>
              source in graph.nodes && found.Some? && found.value.source.Some?
              && found.value.source.value.nodeId == source.id
    {
      ControlIsPlanned(graph, node, planned.controlInputs, "frequency", source);
    }
    if source :| Controls(graph, node, "frequency", source) {
      forall other | Controls(graph, node, "frequency", other) ensures other == source {
        SameId(graph, source, source.id);
        SameId(graph, other, source.id);
      }
    }
  }

  // ---- The equations have one solution ------------------------------------------------------------------

  /** A rendering node that hears a sound comes after the node it hears. */
  ghost predicate HeardInOrder<S(!new)>(graph: AudioGraph<S>, ids: seq<string>) {
    forall n, portId, w: nat ::
      n in graph.nodes && FirstWire(graph, PortRef(n.id, portId), w) && Sounds(graph, graph.edges[w].source) ==>
        Before(ids, graph.edges[w].source.nodeId, n.id)
  }

  ghost predicate Before(ids: seq<string>, first: string, second: string) {
    exists i, j :: 0 <= i < j < |ids| && ids[i] == first && ids[j] == second
  }

  ghost predicate Audible<S(!new)>(graph: AudioGraph<S>, id: string) {
    exists n :: n in graph.nodes && n.id == id && IsRendering(n.kind)
  }

  /** Sounds that agree on the nodes heard by a node agree on the node. */
  lemma SameSources<S(!new)>(ops: Arithmetic<S>, graph: AudioGraph<S>, ids: seq<string>, rate: nat, node: AudioNode<S>,
                             a: (string, nat) -> S, b: (string, nat) -> S, frame: nat)
    requires HeardInOrder(graph, ids) && node in graph.nodes
    requires forall id :: Before(ids, id, node.id) && Audible(graph, id) ==> a(id, frame) == b(id, frame)
    ensures NodeSound(ops, graph, rate, a, node, frame) == NodeSound(ops, graph, rate, b, node, frame)
  {
    SameHeard(ops, graph, ids, node, "left", a, b, frame);
    SameHeard(ops, graph, ids, node, "right", a, b, frame);
  }

  lemma SameHeard<S(!new)>(ops: Arithmetic<S>, graph: AudioGraph<S>, ids: seq<string>, node: AudioNode<S>,
                           portId: string, a: (string, nat) -> S, b: (string, nat) -> S, frame: nat)
    requires HeardInOrder(graph, ids) && node in graph.nodes
    requires forall id :: Before(ids, id, node.id) && Audible(graph, id) ==> a(id, frame) == b(id, frame)
    ensures var input := PortRef(node.id, portId);
            Heard(ops, graph, a, input, frame) == Heard(ops, graph, b, input, frame)
  {
    forall v, w: nat | FirstWire(graph, PortRef(node.id, portId), v) && FirstWire(graph, PortRef(node.id, portId), w)
      ensures v == w
    {
      OnlyFirstWire(graph, PortRef(node.id, portId), v, w);
    }
  }

  /** The sample of a node, given the sound of the others. */
  ghost function NextSound<S(!new)>(ops: Arithmetic<S>, graph: AudioGraph<S>, rate: nat, sound: (string, nat) -> S,
                                    id: string, frame: nat): S {
    match FindNode(graph.nodes, id)
    case Some(node) => NodeSound(ops, graph, rate, sound, node, frame)
    case None => ops.zero
  }

  /** All nodes sound right except perhaps those listed from a position on. */
  ghost predicate RightBefore<S(!new)>(ops: Arithmetic<S>, graph: AudioGraph<S>, ids: seq<string>, rate: nat,
                                       sound: (string, nat) -> S, i: nat)
    requires i <= |ids|
  {
    forall node, frame: nat :: node in graph.nodes && node.id !in ids[i..] ==>
      SoundsRight(ops, graph, rate, sound, node, frame)
  }

  /** Nodes outside the list hear nothing. */
  lemma SoundOfOthers<S(!new)>(ops: Arithmetic<S>, graph: AudioGraph<S>, ids: seq<string>, rate: nat)
    returns (sound: (string, nat) -> S)
    requires DistinctIds(graph) && HeardInOrder(graph, ids)
    ensures RightBefore(ops, graph, ids, rate, sound, 0)
  {
    var silence := (id: string, frame: nat) => ops.zero;
    sound := (id: string, frame: nat) => NextSound(ops, graph, rate, silence, id, frame);
    forall node, frame: nat | node in graph.nodes && node.id !in ids[0..]
      ensures SoundsRight(ops, graph, rate, sound, node, frame)
    {
      SameId(graph, node, node.id);
      SameSources(ops, graph, ids, rate, node, silence, sound, frame);
    }
  }

  /** The sound with one node evaluated anew. */
  ghost function Evaluated<S(!new)>(ops: Arithmetic<S>, graph: AudioGraph<S>, rate: nat, sound: (string, nat) -> S,
                                    id: string): (string, nat) -> S {
    (x: string, frame: nat) => if x == id then NextSound(ops, graph, rate, sound, id, frame) else sound(x, frame)
  }

  /** Evaluating a node changes nothing for itself and for the nodes before it. */
  lemma EvaluatedRight<S(!new)>(ops: Arithmetic<S>, graph: AudioGraph<S>, ids: seq<string>, rate: nat,
                                sound: (string, nat) -> S, i: nat, node: AudioNode<S>, frame: nat)
    requires DistinctIds(graph) && Distinct(ids) && HeardInOrder(graph, ids) && i < |ids|
    requires RightBefore(ops, graph, ids, rate, sound, i)
    requires node in graph.nodes && node.id !in ids[i + 1..]
    ensures SoundsRight(ops, graph, rate, Evaluated(ops, graph, rate, sound, ids[i]), node, frame)
  {
    var more := Evaluated(ops, graph, rate, sound, ids[i]);
    forall id | Before(ids, id, node.id) ensures id != ids[i] {
      NotBefore(ids, i, id, node.id);
    }
    SameSources(ops, graph, ids, rate, node, sound, more, frame);
    SameId(graph, node, node.id);
    if node.id == ids[i] {
      assert more(node.id, frame) == NextSound(ops, graph, rate, sound, ids[i], frame);
    } else {
      assert ids[i..] == [ids[i]] + ids[i + 1..];
      assert SoundsRight(ops, graph, rate, sound, node, frame);
      assert more(node.id, frame) == sound(node.id, frame);
    }
  }

  lemma NotBefore(ids: seq<string>, i: nat, id: string, nodeId: string)
    requires Distinct(ids) && i < |ids| && nodeId !in ids[i + 1..] && Before(ids, id, nodeId)
    ensures id != ids[i]
  {
    forall k | i < k < |ids| ensures ids[k] != nodeId {
      assert ids[i + 1..][k - i - 1] == ids[k];
    }
  }

  lemma {:induction false} SoundOfFirst<S(!new)>(ops: Arithmetic<S>, graph: AudioGraph<S>, ids: seq<string>, rate: nat,
                                                 i: nat)
    returns (sound: (string, nat) -> S)
    requires DistinctIds(graph) && Distinct(ids) && HeardInOrder(graph, ids) && i <= |ids|
    ensures RightBefore(ops, graph, ids, rate, sound, i)
  {
    if i == 0 {
      sound := SoundOfOthers(ops, graph, ids, rate);
    } else {
      var j := i - 1;
      var before := SoundOfFirst(ops, graph, ids, rate, j);
      sound := Evaluated(ops, graph, rate, before, ids[j]);
      forall node, frame: nat | node in graph.nodes && node.id !in ids[i..]
        ensures SoundsRight(ops, graph, rate, sound, node, frame)
      {
        EvaluatedRight(ops, graph, ids, rate, before, j, node, frame);
      }
    }
  }

  /** A graph in which every sound is rendered before it is heard has a sound. */
  lemma SoundExists<S(!new)>(ops: Arithmetic<S>, graph: AudioGraph<S>, ids: seq<string>, rate: nat)
    returns (sound: (string, nat) -> S)
    requires DistinctIds(graph) && Distinct(ids) && HeardInOrder(graph, ids)
    ensures IsSound(ops, graph, rate, sound)
  {
    sound := SoundOfFirst(ops, graph, ids, rate, |ids|);
    assert ids[|ids|..] == [];
  }

  /** It has only one. */
  lemma {:induction false} SoundIsUnique<S(!new)>(ops: Arithmetic<S>, graph: AudioGraph<S>, ids: seq<string>, rate: nat,
                                                  a: (string, nat) -> S, b: (string, nat) -> S, i: nat,
                                                  node: AudioNode<S>, frame: nat)
    requires DistinctIds(graph) && Distinct(ids) && HeardInOrder(graph, ids)
    requires IsSound(ops, graph, rate, a) && IsSound(ops, graph, rate, b)
    requires node in graph.nodes && IsRendering(node.kind)
    requires forall j :: i <= j < |ids| ==> ids[j] != node.id
    ensures a(node.id, frame) == b(node.id, frame)
    decreases i
  {
    forall id | Before(ids, id, node.id) && Audible(graph, id) ensures a(id, frame) == b(id, frame) {
      var j, m :| 0 <= j < m < |ids| && ids[j] == id && ids[m] == node.id;
      var n :| n in graph.nodes && n.id == id && IsRendering(n.kind);
      SoundIsUnique(ops, graph, ids, rate, a, b, m, n, frame);
    }
    SameSources(ops, graph, ids, rate, node, a, b, frame);
    assert SoundsRight(ops, graph, rate, a, node, frame) && SoundsRight(ops, graph, rate, b, node, frame);
  }

  /** In a plan with producers first, every sound is rendered before it is heard. */
  lemma PlanInOrder<S(!new)>(graph: AudioGraph<S>, ids: seq<string>, plan: Plan<S>)
    requires PlanOf(graph, ids, plan) && ProducersFirst(plan) && CoversSignals(graph, ids)
    ensures HeardInOrder(graph, ids)
  {
    forall n, portId, w: nat | n in graph.nodes && FirstWire(graph, PortRef(n.id, portId), w)
                               && Sounds(graph, graph.edges[w].source)
      ensures Before(ids, graph.edges[w].source.nodeId, n.id)
    {
      HeardBefore(graph, ids, plan, n, portId, w);
    }
  }

  lemma HeardBefore<S(!new)>(graph: AudioGraph<S>, ids: seq<string>, plan: Plan<S>, n: AudioNode<S>, portId: string,
                             w: nat)
    requires PlanOf(graph, ids, plan) && ProducersFirst(plan) && CoversSignals(graph, ids) && n in graph.nodes
    requires FirstWire(graph, PortRef(n.id, portId), w) && Sounds(graph, graph.edges[w].source)
    ensures Before(ids, graph.edges[w].source.nodeId, n.id)
  {
    var edge := graph.edges[w];
    SignalEdgesAreWires(graph, edge);
    PlannedEdges(graph, plan.edges, plan.buffers, edge);
    var e :| e in plan.edges && e.source == edge.source && e.target == edge.target;
    var i := WiredIsPlanned(graph, ids, n, portId);
    SourceBefore(graph, ids, plan, e, i);
  }

  lemma SourceBefore<S(!new)>(graph: AudioGraph<S>, ids: seq<string>, plan: Plan<S>, e: PlanEdge, i: nat)
    requires PlanOf(graph, ids, plan) && ProducersFirst(plan) && e in plan.edges && Sounds(graph, e.source)
    requires i < |ids| && ids[i] == e.target.nodeId
    ensures Before(ids, e.source.nodeId, ids[i])
  {
    var j := SounderWrites(graph, ids, plan, e);
    assert NodePlanned(graph, plan.nodes[i], plan.edges, plan.buffers);
    assert SignalInput(e.target.portId, e.source, e.bufferId) in plan.nodes[i].signalInputs;
    assert !WrittenFrom(plan, i, e.bufferId);
  }

  lemma WiredIsPlanned<S(!new)>(graph: AudioGraph<S>, ids: seq<string>, n: AudioNode<S>, portId: string)
    returns (i: nat)
    requires DistinctIds(graph) && CoversSignals(graph, ids) && n in graph.nodes
    requires SignalEnd(graph, PortRef(n.id, portId), Input)
    ensures i < |ids| && ids[i] == n.id
  {
    var m, p: nat :| m in graph.nodes && m.id == n.id && FirstNamed(m.ports, p, portId) && m.ports[p].isSignal;
    assert m.id in ids;
    i :| 0 <= i < |ids| && ids[i] == n.id;
  }
}
