/** The offline executor renders the sound of the graph, block by block, and its snapshots record it. */
module OfflineMeaning {
  import opened Basics
  import opened ExpansionEdges
  import opened DspPlan
  import opened DspBlocks
  import opened DspOffline
  import opened DspRefinement
  import opened AudioMeaning

  // ---- The offline executor ----------------------------------------------------------------------------------

  lemma {:induction false} TurnsOn<S>(ops: Arithmetic<S>, increment: S, start: nat, n: nat)
    ensures PhaseAfter(ops, Turned(ops, increment, start), increment, n) == Turned(ops, increment, start + n)
  {
    if n > 0 {
      TurnsOn(ops, increment, start, n - 1);
    }
  }

  /** The samples of a node in a block that starts at a frame. */
  ghost function BlockOf<S>(sound: (string, nat) -> S, id: string, start: nat, n: nat): (r: seq<S>)
    ensures |r| == n && forall i :: 0 <= i < n ==> r[i] == sound(id, start + i)
  {
    seq(n, i requires i >= 0 => sound(id, start + i))
  }

  ghost function RateOf<S(!new)>(ops: Arithmetic<S>, plan: Plan<S>, params: map<string, map<string, S>>, i: nat): S
    requires i < |plan.nodes|
  {
    ops.increment(Frequency(ops, plan.nodes[i], params), plan.sampleRate)
  }

  /** Some node among the first k writes the buffer. */
  ghost predicate WrittenBefore<S(!new)>(plan: Plan<S>, k: nat, bufferId: string) {
    exists j :: 0 <= j < k && j < |plan.nodes| && Writes(plan.nodes[j], bufferId)
  }

  /** The buffer holds the block of the node among the first k that writes it, or silence. */
  ghost predicate HoldsBlock<S(!new)>(ops: Arithmetic<S>, plan: Plan<S>, sound: (string, nat) -> S, start: nat, k: nat,
                                      id: string, samples: seq<S>) {
    && (forall j :: 0 <= j < k && j < |plan.nodes| && Writes(plan.nodes[j], id) ==>
          samples == BlockOf(sound, plan.nodes[j].nodeId, start, plan.blockSize))
    && (!WrittenBefore(plan, k, id) ==> samples == Constant(plan.blockSize, ops.zero))
  }

  /** After the first k nodes of a block every buffer holds what it should, and the oscillators among
      these nodes have been turned to the end of the block. */
  ghost predicate Rendering<S(!new)>(ops: Arithmetic<S>, plan: Plan<S>, params: map<string, map<string, S>>,
                                     sound: (string, nat) -> S, start: nat, k: nat, s: OfflineState<S>) {
    BuffersHold(ops, plan, sound, start, k, s.buffers) && PhasesTurned(ops, plan, params, start, k, s.phases)
  }

  ghost predicate BuffersHold<S(!new)>(ops: Arithmetic<S>, plan: Plan<S>, sound: (string, nat) -> S, start: nat, k: nat,
                                       buffers: map<string, seq<S>>) {
    && (forall b :: b in plan.buffers ==> b.id in buffers)
    && (forall id :: id in buffers ==> HoldsBlock(ops, plan, sound, start, k, id, buffers[id]))
  }

  ghost predicate PhasesTurned<S(!new)>(ops: Arithmetic<S>, plan: Plan<S>, params: map<string, map<string, S>>,
                                        start: nat, k: nat, phases: map<string, S>) {
    forall i :: 0 <= i < |plan.nodes| && plan.nodes[i].kind == OSC_KIND ==>
      PhaseOf(ops, phases, plan.nodes[i].nodeId) ==
      Turned(ops, RateOf(ops, plan, params, i), if i < k then start + plan.blockSize else start)
  }

  /** A complete buffer holds what is heard from it. */
  lemma HeldIsHeard<S(!new)>(ops: Arithmetic<S>, plan: Plan<S>, sound: (string, nat) -> S, start: nat, k: nat,
                             id: string, samples: seq<S>, i: nat, sample: S)
    requires HoldsBlock(ops, plan, sound, start, k, id, samples) && !WrittenFrom(plan, k, id)
    requires HeardFrom(ops, plan, id, sound, start + i, sample)
    ensures |samples| == plan.blockSize && (i < plan.blockSize ==> samples[i] == sample)
  {
    if WrittenBefore(plan, k, id) {
      var j :| 0 <= j < k && j < |plan.nodes| && Writes(plan.nodes[j], id);
      assert samples == BlockOf(sound, plan.nodes[j].nodeId, start, plan.blockSize);
    } else {
      assert Unwritten(plan, id);
    }
  }

  /** What is found in the buffer of an input is what is heard there. */
  lemma SampleFound<S(!new)>(ops: Arithmetic<S>, plan: Plan<S>, sound: (string, nat) -> S, start: nat, k: nat,
                             buffers: map<string, seq<S>>, portId: string, n: nat, i: nat, heard: S)
    requires k < |plan.nodes| && i < n <= plan.blockSize
    requires var found := FindInput(plan.nodes[k].signalInputs, portId);
             if found.None? then heard == ops.zero
             else
               var id := found.value.bufferId;
               && id in buffers && HoldsBlock(ops, plan, sound, start, k, id, buffers[id]) && !WrittenFrom(plan, k, id)
               && HeardFrom(ops, plan, id, sound, start + i, heard)
    ensures var block := InputBlock(ops, plan.nodes[k], portId, buffers, n);
            n <= |block| <= plan.blockSize && block[i] == heard
  {
    var found := FindInput(plan.nodes[k].signalInputs, portId);
    if found.Some? {
      var id := found.value.bufferId;
      HeldIsHeard(ops, plan, sound, start, k, id, buffers[id], i, heard);
    }
  }

  /** What a node finds through an input: nothing, or an allocated buffer that is complete by then, and
      in it what is heard there. */
  ghost predicate InputFits<S(!new)>(ops: Arithmetic<S>, graph: AudioGraph<S>, plan: Plan<S>,
                                     sound: (string, nat) -> S, k: nat, portId: string, frame: nat)
    requires k < |plan.nodes|
  {
    var found := FindInput(plan.nodes[k].signalInputs, portId);
    var heard := Heard(ops, graph, sound, PortRef(plan.nodes[k].nodeId, portId), frame);
    if found.None? then heard == ops.zero
    else
      var id := found.value.bufferId;
      && (exists b :: b in plan.buffers && b.id == id) && !WrittenFrom(plan, k, id)
      && HeardFrom(ops, plan, id, sound, frame, heard)
  }

  lemma PlannedInputFits<S(!new)>(ops: Arithmetic<S>, graph: AudioGraph<S>, ids: seq<string>, plan: Plan<S>,
                                  sound: (string, nat) -> S, k: nat, portId: string, frame: nat)
    requires PlanOf(graph, ids, plan) && ProducersFirst(plan) && k < |plan.nodes|
    ensures InputFits(ops, graph, plan, sound, k, portId, frame)
  {
    InputHears(ops, graph, ids, plan, k, portId, sound, frame);
    var found := FindInput(plan.nodes[k].signalInputs, portId);
    if found.Some? {
      InputAllocated(graph, ids, plan, k, found.value);
    }
  }

  lemma InputSample<S(!new)>(ops: Arithmetic<S>, graph: AudioGraph<S>, plan: Plan<S>, sound: (string, nat) -> S,
                             start: nat, k: nat, buffers: map<string, seq<S>>, portId: string, n: nat, i: nat)
    requires k < |plan.nodes| && i < n <= plan.blockSize && BuffersHold(ops, plan, sound, start, k, buffers)
    requires InputFits(ops, graph, plan, sound, k, portId, start + i)
    ensures var block := InputBlock(ops, plan.nodes[k], portId, buffers, n);
            && n <= |block| <= plan.blockSize
            && block[i] == Heard(ops, graph, sound, PortRef(plan.nodes[k].nodeId, portId), start + i)
  {
    SampleFound(ops, plan, sound, start, k, buffers, portId, n, i,
                Heard(ops, graph, sound, PortRef(plan.nodes[k].nodeId, portId), start + i));
  }

  lemma InputAllocated<S(!new)>(graph: AudioGraph<S>, ids: seq<string>, plan: Plan<S>, k: nat, x: SignalInput)
    requires PlanOf(graph, ids, plan) && k < |plan.nodes| && x in plan.nodes[k].signalInputs
    ensures exists b :: b in plan.buffers && b.id == x.bufferId
  {
    assert NodePlanned(graph, plan.nodes[k], plan.edges, plan.buffers);
    InputStandsForEdge(graph, plan.nodes[k], plan.edges, plan.buffers, x);
    var i :| 0 <= i < |plan.buffers| && plan.buffers[i].id == x.bufferId && plan.buffers[i].producer == x.source;
    assert plan.buffers[i] in plan.buffers;
  }

  /** The node of the plan sounds as the graph says. */
  ghost predicate NodeFits<S(!new)>(ops: Arithmetic<S>, graph: AudioGraph<S>, plan: Plan<S>,
                                    params: map<string, map<string, S>>, sound: (string, nat) -> S, k: nat, frame: nat)
    requires k < |plan.nodes|
  {
    var node := plan.nodes[k];
    if node.kind == SIG_KIND then sound(node.nodeId, frame) == ParamOr(node.params, "value", ops.zero)
    else if node.kind == OSC_KIND then
      sound(node.nodeId, frame) == ops.sinOf(Turned(ops, RateOf(ops, plan, params, k), frame))
    else if node.kind == MUL_KIND then
      sound(node.nodeId, frame) == ops.mul(Heard(ops, graph, sound, PortRef(node.nodeId, "left"), frame),
                                           Heard(ops, graph, sound, PortRef(node.nodeId, "right"), frame))
    else true
  }

  lemma PlannedNodeFits<S(!new)>(ops: Arithmetic<S>, graph: AudioGraph<S>, ids: seq<string>, plan: Plan<S>,
                                 sound: (string, nat) -> S, k: nat, frame: nat)
    requires PlanOf(graph, ids, plan) && k < |plan.nodes| && IsSound(ops, graph, plan.sampleRate, sound)
    ensures NodeFits(ops, graph, plan, ParamsById(graph.nodes), sound, k, frame)
  {
    assert NodePlanned(graph, plan.nodes[k], plan.edges, plan.buffers);
    var node := FindNode(graph.nodes, ids[k]).value;
    assert SoundsRight(ops, graph, plan.sampleRate, sound, node, frame);
    FrequencyIsHeard(ops, graph, node, plan.nodes[k]);
  }

  /** Nodes that read, write and sound as the graph says. */
  ghost predicate Fits<S(!new)>(ops: Arithmetic<S>, graph: AudioGraph<S>, plan: Plan<S>,
                                params: map<string, map<string, S>>, sound: (string, nat) -> S, k: nat)
    requires k < |plan.nodes|
  {
    && (forall portId, frame: nat :: InputFits(ops, graph, plan, sound, k, portId, frame))
    && (forall frame: nat :: NodeFits(ops, graph, plan, params, sound, k, frame))
    && (IsRendering(plan.nodes[k].kind) ==> OnlyWriter(plan, k))
  }

  ghost predicate OnlyWriter<S(!new)>(plan: Plan<S>, k: nat)
    requires k < |plan.nodes|
  {
    && plan.nodes[k].signalOutputs != []
    && (exists b :: b in plan.buffers && b.id == plan.nodes[k].signalOutputs[0].bufferId)
    && forall j :: 0 <= j < |plan.nodes| && Writes(plan.nodes[j], plan.nodes[k].signalOutputs[0].bufferId) ==> j == k
  }

  lemma PlannedOnlyWriter<S(!new)>(graph: AudioGraph<S>, ids: seq<string>, plan: Plan<S>, k: nat)
    requires PlanOf(graph, ids, plan) && k < |plan.nodes| && IsRendering(plan.nodes[k].kind)
    ensures OnlyWriter(plan, k)
  {
    var id := plan.nodes[k].signalOutputs[0].bufferId;
    var b :| 0 <= b < |plan.buffers| && plan.buffers[b].id == id;
    assert plan.buffers[b] in plan.buffers;
    forall j | 0 <= j < |plan.nodes| && Writes(plan.nodes[j], id) ensures j == k {
      BuiltPlansHaveSingleWriters(graph, ids, plan, j, k, id);
    }
  }

  lemma PlannedFits<S(!new)>(ops: Arithmetic<S>, graph: AudioGraph<S>, ids: seq<string>, plan: Plan<S>,
                             sound: (string, nat) -> S, k: nat)
    requires PlanOf(graph, ids, plan) && ProducersFirst(plan) && k < |plan.nodes|
    requires IsSound(ops, graph, plan.sampleRate, sound)
    ensures Fits(ops, graph, plan, ParamsById(graph.nodes), sound, k)
  {
    forall portId, frame: nat ensures InputFits(ops, graph, plan, sound, k, portId, frame) {
      PlannedInputFits(ops, graph, ids, plan, sound, k, portId, frame);
    }
    forall frame: nat ensures NodeFits(ops, graph, plan, ParamsById(graph.nodes), sound, k, frame) {
      PlannedNodeFits(ops, graph, ids, plan, sound, k, frame);
    }
    if IsRendering(plan.nodes[k].kind) {
      PlannedOnlyWriter(graph, ids, plan, k);
    }
  }

  /** Storing the block of the k-th node. */
  lemma StoreHolds<S(!new)>(ops: Arithmetic<S>, plan: Plan<S>, sound: (string, nat) -> S, start: nat, k: nat,
                            buffers: map<string, seq<S>>, block: seq<S>)
    requires k < |plan.nodes| && IsRendering(plan.nodes[k].kind) && OnlyWriter(plan, k)
    requires BuffersHold(ops, plan, sound, start, k, buffers)
    requires |block| == plan.blockSize
             && forall i :: 0 <= i < |block| ==> block[i] == sound(plan.nodes[k].nodeId, start + i)
    ensures BuffersHold(ops, plan, sound, start, k + 1, buffers[plan.nodes[k].signalOutputs[0].bufferId := block])
  {
    var out := plan.nodes[k].signalOutputs[0].bufferId;
    var more := buffers[out := block];
    assert block == BlockOf(sound, plan.nodes[k].nodeId, start, plan.blockSize);
    assert Writes(plan.nodes[k], out);
    forall id | id in more ensures HoldsBlock(ops, plan, sound, start, k + 1, id, more[id]) {
      if id != out {
        assert HoldsBlock(ops, plan, sound, start, k, id, buffers[id]);
        assert !Writes(plan.nodes[k], id);
      } else {
        assert WrittenBefore(plan, k + 1, id);
      }
    }
  }

  lemma SkipHolds<S(!new)>(ops: Arithmetic<S>, plan: Plan<S>, sound: (string, nat) -> S, start: nat, k: nat,
                           buffers: map<string, seq<S>>)
    requires k < |plan.nodes| && !IsRendering(plan.nodes[k].kind)
    requires BuffersHold(ops, plan, sound, start, k, buffers)
    ensures BuffersHold(ops, plan, sound, start, k + 1, buffers)
  {
    forall id | id in buffers ensures HoldsBlock(ops, plan, sound, start, k + 1, id, buffers[id]) {
      assert HoldsBlock(ops, plan, sound, start, k, id, buffers[id]);
    }
  }

  /** The product that is rendered is the product of what is heard. */
  lemma ProductHeard<S(!new)>(ops: Arithmetic<S>, graph: AudioGraph<S>, plan: Plan<S>,
                              params: map<string, map<string, S>>, sound: (string, nat) -> S, start: nat, k: nat,
                              buffers: map<string, seq<S>>)
    requires k < |plan.nodes| && Fits(ops, graph, plan, params, sound, k)
    requires BuffersHold(ops, plan, sound, start, k, buffers)
    requires plan.nodes[k].kind != SIG_KIND && plan.nodes[k].kind != OSC_KIND && plan.nodes[k].kind == MUL_KIND
    ensures
      var n := plan.blockSize;
      var block := Products(ops, InputBlock(ops, plan.nodes[k], "left", buffers, n),
                            InputBlock(ops, plan.nodes[k], "right", buffers, n));
      |block| == n && forall i :: 0 <= i < n ==> block[i] == sound(plan.nodes[k].nodeId, start + i)
  {
    var n := plan.blockSize;
    InputLength(ops, plan, sound, start, k, buffers, "left");
    InputLength(ops, plan, sound, start, k, buffers, "right");
    forall i | 0 <= i < n
      ensures
        var block := Products(ops, InputBlock(ops, plan.nodes[k], "left", buffers, n),
                              InputBlock(ops, plan.nodes[k], "right", buffers, n));
        block[i] == sound(plan.nodes[k].nodeId, start + i)
    {
      assert InputFits(ops, graph, plan, sound, k, "left", start + i);
      assert InputFits(ops, graph, plan, sound, k, "right", start + i);
      InputSample(ops, graph, plan, sound, start, k, buffers, "left", n, i);
      InputSample(ops, graph, plan, sound, start, k, buffers, "right", n, i);
      assert NodeFits(ops, graph, plan, params, sound, k, start + i);
    }
  }

  lemma InputLength<S(!new)>(ops: Arithmetic<S>, plan: Plan<S>, sound: (string, nat) -> S, start: nat, k: nat,
                             buffers: map<string, seq<S>>, portId: string)
    requires k < |plan.nodes| && BuffersHold(ops, plan, sound, start, k, buffers)
    ensures |InputBlock(ops, plan.nodes[k], portId, buffers, plan.blockSize)| == plan.blockSize
  {
    var found := FindInput(plan.nodes[k].signalInputs, portId);
    if found.Some? && found.value.bufferId in buffers {
      var id := found.value.bufferId;
      assert HoldsBlock(ops, plan, sound, start, k, id, buffers[id]);
      if WrittenBefore(plan, k, id) {
        var j :| 0 <= j < k && j < |plan.nodes| && Writes(plan.nodes[j], id);
        assert buffers[id] == BlockOf(sound, plan.nodes[j].nodeId, start, plan.blockSize);
      }
    }
  }

  /** The oscillator's samples are its sound, and its phase is turned to the end of the block. */
  lemma OscHeard<S(!new)>(ops: Arithmetic<S>, graph: AudioGraph<S>, plan: Plan<S>,
                          params: map<string, map<string, S>>, sound: (string, nat) -> S, start: nat, k: nat)
    requires k < |plan.nodes| && Fits(ops, graph, plan, params, sound, k)
    requires plan.nodes[k].kind != SIG_KIND && plan.nodes[k].kind == OSC_KIND
    ensures
      var n, increment := plan.blockSize, RateOf(ops, plan, params, k);
      var block := OscSamples(ops, Turned(ops, increment, start), increment, n);
      && (forall i :: 0 <= i < n ==> block[i] == sound(plan.nodes[k].nodeId, start + i))
      && PhaseAfter(ops, Turned(ops, increment, start), increment, n) == Turned(ops, increment, start + n)
  {
    var n, increment := plan.blockSize, RateOf(ops, plan, params, k);
    TurnsOn(ops, increment, start, n);
    forall i | 0 <= i < n
      ensures OscSamples(ops, Turned(ops, increment, start), increment, n)[i] == sound(plan.nodes[k].nodeId, start + i)
    {
      TurnsOn(ops, increment, start, i);
      assert NodeFits(ops, graph, plan, params, sound, k, start + i);
    }
  }

  lemma PhasesStay<S(!new)>(ops: Arithmetic<S>, plan: Plan<S>, params: map<string, map<string, S>>, start: nat, k: nat,
                            phases: map<string, S>)
    requires k < |plan.nodes| && PhasesTurned(ops, plan, params, start, k, phases) && plan.nodes[k].kind != OSC_KIND
    ensures PhasesTurned(ops, plan, params, start, k + 1, phases)
  {
  }

  lemma PhaseTurns<S(!new)>(ops: Arithmetic<S>, plan: Plan<S>, params: map<string, map<string, S>>, start: nat, k: nat,
                            phases: map<string, S>)
    requires DistinctNodes(plan) && k < |plan.nodes| && PhasesTurned(ops, plan, params, start, k, phases)
    requires plan.nodes[k].kind == OSC_KIND
    ensures PhasesTurned(ops, plan, params, start, k + 1,
                         phases[plan.nodes[k].nodeId :=
                           Turned(ops, RateOf(ops, plan, params, k), start + plan.blockSize)])
  {
  }

  lemma NodeRendered<S(!new)>(ops: Arithmetic<S>, graph: AudioGraph<S>, plan: Plan<S>,
                              params: map<string, map<string, S>>, sound: (string, nat) -> S, start: nat, block: nat,
                              k: nat, s: OfflineState<S>)
    requires k < |plan.nodes| && Fits(ops, graph, plan, params, sound, k) && DistinctNodes(plan)
    requires Rendering(ops, plan, params, sound, start, k, s)
    ensures IsRendering(plan.nodes[k].kind) ==> |plan.nodes[k].signalOutputs| > 0
    ensures Rendering(ops, plan, params, sound, start, k + 1, RenderNode(ops, plan, params, plan.nodes[k], block, s))
  {
    var node := plan.nodes[k];
    if node.kind == SIG_KIND {
      var samples := Constant(plan.blockSize, ParamOr(node.params, "value", ops.zero));
      forall i | 0 <= i < plan.blockSize ensures samples[i] == sound(node.nodeId, start + i) {
        assert NodeFits(ops, graph, plan, params, sound, k, start + i);
      }
      StoreHolds(ops, plan, sound, start, k, s.buffers, samples);
    } else if node.kind == OSC_KIND {
      OscHeard(ops, graph, plan, params, sound, start, k);
      var increment := RateOf(ops, plan, params, k);
      StoreHolds(ops, plan, sound, start, k, s.buffers,
                 OscSamples(ops, Turned(ops, increment, start), increment, plan.blockSize));
      PhaseTurns(ops, plan, params, start, k, s.phases);
    } else if node.kind == MUL_KIND {
      ProductHeard(ops, graph, plan, params, sound, start, k, s.buffers);
      StoreHolds(ops, plan, sound, start, k, s.buffers,
                 Products(ops, InputBlock(ops, node, "left", s.buffers, plan.blockSize),
                          InputBlock(ops, node, "right", s.buffers, plan.blockSize)));
    } else {
      SkipHolds(ops, plan, sound, start, k, s.buffers);
    }
    if node.kind != OSC_KIND {
      PhasesStay(ops, plan, params, start, k, s.phases);
    }
  }

  ghost predicate AllFit<S(!new)>(ops: Arithmetic<S>, graph: AudioGraph<S>, plan: Plan<S>,
                                  params: map<string, map<string, S>>, sound: (string, nat) -> S) {
    DistinctNodes(plan) && forall k :: 0 <= k < |plan.nodes| ==> Fits(ops, graph, plan, params, sound, k)
  }

  lemma NextNodeRendered<S(!new)>(ops: Arithmetic<S>, plan: Plan<S>, params: map<string, map<string, S>>, block: nat,
                                  k: nat, s: OfflineState<S>)
    requires HasOutputs(plan) && k < |plan.nodes|
    ensures RenderNodes(ops, plan, params, k + 1, block, s)
         == RenderNode(ops, plan, params, plan.nodes[k], block, RenderNodes(ops, plan, params, k, block, s))
  {
  }

  ghost predicate RenderedTo<S(!new)>(ops: Arithmetic<S>, plan: Plan<S>, params: map<string, map<string, S>>,
                                      sound: (string, nat) -> S, start: nat, block: nat, k: nat, s: OfflineState<S>)
    requires HasOutputs(plan) && k <= |plan.nodes|
  {
    Rendering(ops, plan, params, sound, start, k, RenderNodes(ops, plan, params, k, block, s))
  }

  lemma OneMoreRendered<S(!new)>(ops: Arithmetic<S>, graph: AudioGraph<S>, plan: Plan<S>,
                                 params: map<string, map<string, S>>, sound: (string, nat) -> S, start: nat,
                                 block: nat, k: nat, s: OfflineState<S>)
    requires k < |plan.nodes| && Fits(ops, graph, plan, params, sound, k) && DistinctNodes(plan) && HasOutputs(plan)
    requires RenderedTo(ops, plan, params, sound, start, block, k, s)
    ensures RenderedTo(ops, plan, params, sound, start, block, k + 1, s)
  {
    var before := RenderNodes(ops, plan, params, k, block, s);
    NodeRendered(ops, graph, plan, params, sound, start, block, k, before);
    var after := RenderNode(ops, plan, params, plan.nodes[k], block, before);
    assert Rendering(ops, plan, params, sound, start, k + 1, after);
    NextNodeRendered(ops, plan, params, block, k, s);
  }

  lemma {:induction false} NodesRendered<S(!new)>(ops: Arithmetic<S>, graph: AudioGraph<S>, plan: Plan<S>,
                                                  params: map<string, map<string, S>>, sound: (string, nat) -> S,
                                                  start: nat, block: nat, k: nat, s: OfflineState<S>)
    requires AllFit(ops, graph, plan, params, sound) && HasOutputs(plan) && k <= |plan.nodes|
    requires RenderedTo(ops, plan, params, sound, start, block, 0, s)
    ensures RenderedTo(ops, plan, params, sound, start, block, k, s)
    decreases k
  {
    if k > 0 {
      var j := k - 1;
      NodesRendered(ops, graph, plan, params, sound, start, block, j, s);
      assert Fits(ops, graph, plan, params, sound, j);
      OneMoreRendered(ops, graph, plan, params, sound, start, block, j, s);
    }
  }

  /** Before a block the buffers are silent, and the oscillators stand where the last block ended. */
  lemma BlockBegins<S(!new)>(ops: Arithmetic<S>, plan: Plan<S>, params: map<string, map<string, S>>,
                             sound: (string, nat) -> S, start: nat, s: OfflineState<S>)
    requires PhasesTurned(ops, plan, params, start, 0, s.phases)
    ensures Rendering(ops, plan, params, sound, start, 0, s.(buffers := Zeroed(ops, plan.buffers, plan.blockSize)))
  {
  }

  lemma NextBlockRendered<S(!new)>(ops: Arithmetic<S>, graph: AudioGraph<S>, plan: Plan<S>,
                                   params: map<string, map<string, S>>, sound: (string, nat) -> S, b: nat)
    requires AllFit(ops, graph, plan, params, sound) && HasOutputs(plan)
    requires PhasesTurned(ops, plan, params, b * plan.blockSize, 0, RenderBlocks(ops, plan, params, b).phases)
    ensures Rendering(ops, plan, params, sound, b * plan.blockSize, |plan.nodes|,
                      RenderBlocks(ops, plan, params, b + 1))
  {
    var before := RenderBlocks(ops, plan, params, b);
    var start := b * plan.blockSize;
    var zeroed := before.(buffers := Zeroed(ops, plan.buffers, plan.blockSize));
    BlockBegins(ops, plan, params, sound, start, before);
    assert RenderedTo(ops, plan, params, sound, start, b, 0, zeroed);
    NodesRendered(ops, graph, plan, params, sound, start, b, |plan.nodes|, zeroed);
    NextBlock(ops, plan, params, b, before);
  }

  lemma PhasesAtNextBlock<S(!new)>(ops: Arithmetic<S>, plan: Plan<S>, params: map<string, map<string, S>>, b: nat,
                                   phases: map<string, S>)
    requires PhasesTurned(ops, plan, params, b * plan.blockSize, |plan.nodes|, phases)
    ensures PhasesTurned(ops, plan, params, (b + 1) * plan.blockSize, 0, phases)
  {
    assert b * plan.blockSize + plan.blockSize == (b + 1) * plan.blockSize;
  }

  /** At every block the oscillators stand where the last block ended. */
  lemma {:induction false} PhasesAtBlock<S(!new)>(ops: Arithmetic<S>, graph: AudioGraph<S>, plan: Plan<S>,
                                                  params: map<string, map<string, S>>, sound: (string, nat) -> S,
                                                  b: nat)
    requires AllFit(ops, graph, plan, params, sound) && HasOutputs(plan)
    ensures PhasesTurned(ops, plan, params, b * plan.blockSize, 0, RenderBlocks(ops, plan, params, b).phases)
  {
    if b > 0 {
      var a := b - 1;
      PhasesAtBlock(ops, graph, plan, params, sound, a);
      NextBlockRendered(ops, graph, plan, params, sound, a);
      PhasesAtNextBlock(ops, plan, params, a, RenderBlocks(ops, plan, params, a + 1).phases);
    }
  }

  lemma PlannedAllFit<S(!new)>(ops: Arithmetic<S>, graph: AudioGraph<S>, ids: seq<string>, plan: Plan<S>,
                               sound: (string, nat) -> S)
    requires PlanOf(graph, ids, plan) && ProducersFirst(plan) && IsSound(ops, graph, plan.sampleRate, sound)
    ensures AllFit(ops, graph, plan, ParamsById(graph.nodes), sound) && HasOutputs(plan)
  {
    forall k | 0 <= k < |plan.nodes| ensures Fits(ops, graph, plan, ParamsById(graph.nodes), sound, k) {
      PlannedFits(ops, graph, ids, plan, sound, k);
    }
  }

  /** Block b of the offline executor holds, for every rendering node, its sound from frame b times the
      block size on, and nothing else. */
  lemma OfflineRendersSound<S(!new)>(ops: Arithmetic<S>, graph: AudioGraph<S>, ids: seq<string>, plan: Plan<S>,
                                     sound: (string, nat) -> S, b: nat)
    requires PlanOf(graph, ids, plan) && ProducersFirst(plan) && IsSound(ops, graph, plan.sampleRate, sound)
    ensures HasOutputs(plan)
            && BuffersHold(ops, plan, sound, b * plan.blockSize, |plan.nodes|,
                           RenderBlocks(ops, plan, ParamsById(graph.nodes), b + 1).buffers)
  {
    PlannedAllFit(ops, graph, ids, plan, sound);
    PhasesAtBlock(ops, graph, plan, ParamsById(graph.nodes), sound, b);
    NextBlockRendered(ops, graph, plan, ParamsById(graph.nodes), sound, b);
  }

  /** The report of the offline executor. A buffer whose port has no other buffer holds the sound of that
      port, if it sounds, and silence otherwise. */
  lemma ReportIsSound<S(!new)>(ops: Arithmetic<S>, graph: AudioGraph<S>, ids: seq<string>, plan: Plan<S>,
                               sound: (string, nat) -> S, report: seq<seq<seq<S>>>, b: nat, x: nat)
    requires PlanOf(graph, ids, plan) && ProducersFirst(plan) && IsSound(ops, graph, plan.sampleRate, sound)
    requires HasOutputs(plan) && ReportsBlocks(ops, plan, ParamsById(graph.nodes), report)
    requires b < |report| && x < |plan.buffers|
    requires forall y :: 0 <= y < |plan.buffers| && plan.buffers[y].producer == plan.buffers[x].producer ==> y == x
    ensures
      var n, port := plan.blockSize, plan.buffers[x].producer;
      && |report[b]| == |plan.buffers| && |report[b][x]| == n
      && forall i :: 0 <= i < n ==>
           report[b][x][i] == if Sounds(graph, port) then sound(port.nodeId, b * n + i) else ops.zero
  {
    var id, port := plan.buffers[x].id, plan.buffers[x].producer;
    assert ReportsBlock(ops, plan, ParamsById(graph.nodes), b, report[b]);
    OfflineRendersSound(ops, graph, ids, plan, sound, b);
    var buffers := RenderBlocks(ops, plan, ParamsById(graph.nodes), b + 1).buffers;
    assert plan.buffers[x] in plan.buffers;
    assert report[b][x] == buffers[id];
    assert HoldsBlock(ops, plan, sound, b * plan.blockSize, |plan.nodes|, id, buffers[id]);
    if Sounds(graph, port) {
      var j := PortWriter(graph, ids, plan, x);
    } else if WrittenBefore(plan, |plan.nodes|, id) {
      var j :| 0 <= j < |plan.nodes| && Writes(plan.nodes[j], id);
      WriterOfPort(graph, ids, plan, x, j);
    }
  }

  lemma PortWriter<S(!new)>(graph: AudioGraph<S>, ids: seq<string>, plan: Plan<S>, x: nat) returns (j: nat)
    requires PlanOf(graph, ids, plan) && x < |plan.buffers| && Sounds(graph, plan.buffers[x].producer)
    requires forall y :: 0 <= y < |plan.buffers| && plan.buffers[y].producer == plan.buffers[x].producer ==> y == x
    ensures j < |plan.nodes| && plan.nodes[j].nodeId == plan.buffers[x].producer.nodeId
    ensures Writes(plan.nodes[j], plan.buffers[x].id)
  {
    j := SounderIsPlanned(graph, ids, plan, plan.buffers[x].producer);
    assert NodePlanned(graph, plan.nodes[j], plan.edges, plan.buffers);
    assert BufferOf(plan.buffers, plan.nodes[j].signalOutputs[0].bufferId, plan.buffers[x].producer);
  }

  lemma WriterOfPort<S(!new)>(graph: AudioGraph<S>, ids: seq<string>, plan: Plan<S>, x: nat, j: nat)
    requires PlanOf(graph, ids, plan) && x < |plan.buffers| && j < |plan.nodes|
    requires Writes(plan.nodes[j], plan.buffers[x].id)
    ensures Sounds(graph, plan.buffers[x].producer)
  {
    RendersFirstOutput(graph, ids, plan, j);
    assert NodePlanned(graph, plan.nodes[j], plan.edges, plan.buffers);
    OneProducer(plan.buffers, plan.buffers[x].id, plan.buffers[x].producer,
                PortRef(ids[j], plan.nodes[j].signalOutputs[0].portId));
  }

  // ---- Snapshots -----------------------------------------------------------------------------------------------

  ghost predicate IsSnapshot<S(!new)>(graph: AudioGraph<S>, id: string) {
    exists n :: n in graph.nodes && n.id == id && n.kind == SNAPSHOT_KIND
  }

  /** What the snapshot nodes among the first k record in a block that starts at a frame. */
  ghost function SnapshotsIn<S(!new)>(ops: Arithmetic<S>, graph: AudioGraph<S>, sound: (string, nat) -> S,
                                      ids: seq<string>, block: nat, start: nat, k: nat): seq<Snapshot<S>>
    requires k <= |ids|
  {
    if k == 0 then []
    else
      SnapshotsIn(ops, graph, sound, ids, block, start, k - 1)
      + if IsSnapshot(graph, ids[k - 1])
        then [Snapshot(block, ids[k - 1], Heard(ops, graph, sound, PortRef(ids[k - 1], "signal"), start))] else []
  }

  /** What they record in the first blocks. */
  ghost function SnapshotsOf<S(!new)>(ops: Arithmetic<S>, graph: AudioGraph<S>, sound: (string, nat) -> S,
                                      ids: seq<string>, n: nat, blocks: nat): seq<Snapshot<S>> {
    if blocks == 0 then []
    else
      SnapshotsOf(ops, graph, sound, ids, n, blocks - 1)
      + SnapshotsIn(ops, graph, sound, ids, blocks - 1, (blocks - 1) * n, |ids|)
  }

  lemma SnapshotKind<S(!new)>(graph: AudioGraph<S>, ids: seq<string>, plan: Plan<S>, k: nat)
    requires PlanOf(graph, ids, plan) && k < |plan.nodes|
    ensures IsSnapshot(graph, ids[k]) <==> plan.nodes[k].kind == SNAPSHOT_KIND
  {
    assert NodePlanned(graph, plan.nodes[k], plan.edges, plan.buffers);
    forall n | n in graph.nodes && n.id == ids[k] ensures Some(n) == FindNode(graph.nodes, ids[k]) {
      SameId(graph, n, ids[k]);
    }
  }

  lemma OneSnapshot<S(!new)>(ops: Arithmetic<S>, graph: AudioGraph<S>, plan: Plan<S>,
                             params: map<string, map<string, S>>, sound: (string, nat) -> S, start: nat, block: nat,
                             k: nat, s: OfflineState<S>)
    requires k < |plan.nodes| && plan.blockSize > 0 && IsOfflineKind(plan.nodes[k].kind)
    requires InputFits(ops, graph, plan, sound, k, "signal", start)
    requires IsRendering(plan.nodes[k].kind) ==> |plan.nodes[k].signalOutputs| > 0
    requires BuffersHold(ops, plan, sound, start, k, s.buffers)
    ensures
      var id := plan.nodes[k].nodeId;
      RenderNode(ops, plan, params, plan.nodes[k], block, s).snapshots == s.snapshots +
        if IsRendering(plan.nodes[k].kind) then []
        else [Snapshot(block, id, Heard(ops, graph, sound, PortRef(id, "signal"), start))]
  {
    if !IsRendering(plan.nodes[k].kind) {
      InputSample(ops, graph, plan, sound, start, k, s.buffers, "signal", 1, 0);
    }
  }

  ghost predicate SnapshotsTaken<S(!new)>(ops: Arithmetic<S>, graph: AudioGraph<S>, plan: Plan<S>, ids: seq<string>,
                                          params: map<string, map<string, S>>, sound: (string, nat) -> S, start: nat,
                                          block: nat, k: nat, s: OfflineState<S>)
    requires HasOutputs(plan) && k <= |plan.nodes| == |ids|
  {
    RenderNodes(ops, plan, params, k, block, s).snapshots ==
    s.snapshots + SnapshotsIn(ops, graph, sound, ids, block, start, k)
  }

  lemma OneMoreSnapshot<S(!new)>(ops: Arithmetic<S>, graph: AudioGraph<S>, ids: seq<string>, plan: Plan<S>,
                                 params: map<string, map<string, S>>, sound: (string, nat) -> S, start: nat,
                                 block: nat, k: nat, s: OfflineState<S>)
    requires HasOutputs(plan) && k < |plan.nodes| == |ids| && plan.blockSize > 0
    requires SnapshotFits(ops, graph, plan, ids, sound, start, k)
    requires RenderedTo(ops, plan, params, sound, start, block, k, s)
    requires SnapshotsTaken(ops, graph, plan, ids, params, sound, start, block, k, s)
    ensures SnapshotsTaken(ops, graph, plan, ids, params, sound, start, block, k + 1, s)
  {
    var before := RenderNodes(ops, plan, params, k, block, s);
    OneSnapshot(ops, graph, plan, params, sound, start, block, k, before);
    NextNodeRendered(ops, plan, params, block, k, s);
  }

  /** The node takes a snapshot of what it hears exactly if it is a snapshot node of the graph. */
  ghost predicate SnapshotFits<S(!new)>(ops: Arithmetic<S>, graph: AudioGraph<S>, plan: Plan<S>, ids: seq<string>,
                                        sound: (string, nat) -> S, start: nat, k: nat)
    requires k < |plan.nodes| == |ids|
  {
    && plan.nodes[k].nodeId == ids[k] && IsOfflineKind(plan.nodes[k].kind)
    && (IsSnapshot(graph, ids[k]) <==> plan.nodes[k].kind == SNAPSHOT_KIND)
    && InputFits(ops, graph, plan, sound, k, "signal", start)
  }

  lemma PlannedSnapshotFits<S(!new)>(ops: Arithmetic<S>, graph: AudioGraph<S>, ids: seq<string>, plan: Plan<S>,
                                     params: map<string, map<string, S>>, sound: (string, nat) -> S, start: nat, k: nat)
    requires PlanOf(graph, ids, plan) && AllFit(ops, graph, plan, params, sound) && k < |plan.nodes|
    requires IsOfflineKind(plan.nodes[k].kind)
    ensures |plan.nodes| == |ids| && SnapshotFits(ops, graph, plan, ids, sound, start, k)
  {
    assert Fits(ops, graph, plan, params, sound, k);
    SnapshotKind(graph, ids, plan, k);
  }

  lemma {:induction false} SnapshotsInBlock<S(!new)>(
    ops: Arithmetic<S>, graph: AudioGraph<S>, ids: seq<string>, plan: Plan<S>, params: map<string, map<string, S>>,
    sound: (string, nat) -> S, start: nat, block: nat, k: nat, s: OfflineState<S>)
    requires HasOutputs(plan) && k <= |plan.nodes| == |ids| && plan.blockSize > 0
    requires forall j :: 0 <= j < |ids| ==> SnapshotFits(ops, graph, plan, ids, sound, start, j)
    requires forall j :: 0 <= j <= |plan.nodes| ==> RenderedTo(ops, plan, params, sound, start, block, j, s)
    ensures SnapshotsTaken(ops, graph, plan, ids, params, sound, start, block, k, s)
    decreases k
  {
    if k > 0 {
      var j := k - 1;
      SnapshotsInBlock(ops, graph, ids, plan, params, sound, start, block, j, s);
      assert SnapshotFits(ops, graph, plan, ids, sound, start, j);
      OneMoreSnapshot(ops, graph, ids, plan, params, sound, start, block, j, s);
    }
  }

  lemma NextBlockSnapshots<S(!new)>(ops: Arithmetic<S>, graph: AudioGraph<S>, ids: seq<string>, plan: Plan<S>,
                                    params: map<string, map<string, S>>, sound: (string, nat) -> S, b: nat)
    requires AllFit(ops, graph, plan, params, sound) && HasOutputs(plan) && plan.blockSize > 0
    requires PlanOf(graph, ids, plan) && forall i :: 0 <= i < |plan.nodes| ==> IsOfflineKind(plan.nodes[i].kind)
    ensures RenderBlocks(ops, plan, params, b + 1).snapshots == RenderBlocks(ops, plan, params, b).snapshots
            + SnapshotsIn(ops, graph, sound, ids, b, b * plan.blockSize, |ids|)
  {
    var before := RenderBlocks(ops, plan, params, b);
    var start := b * plan.blockSize;
    var zeroed := before.(buffers := Zeroed(ops, plan.buffers, plan.blockSize));
    PhasesAtBlock(ops, graph, plan, params, sound, b);
    BlockBegins(ops, plan, params, sound, start, before);
    assert RenderedTo(ops, plan, params, sound, start, b, 0, zeroed);
    forall j | 0 <= j <= |plan.nodes| ensures RenderedTo(ops, plan, params, sound, start, b, j, zeroed) {
      NodesRendered(ops, graph, plan, params, sound, start, b, j, zeroed);
    }
    forall j | 0 <= j < |plan.nodes|
      ensures |plan.nodes| == |ids| && SnapshotFits(ops, graph, plan, ids, sound, start, j)
    {
      PlannedSnapshotFits(ops, graph, ids, plan, params, sound, start, j);
    }
    SnapshotsInBlock(ops, graph, ids, plan, params, sound, start, b, |plan.nodes|, zeroed);
    NextBlock(ops, plan, params, b, before);
  }

  lemma {:induction false} BlockSnapshots<S(!new)>(ops: Arithmetic<S>, graph: AudioGraph<S>, ids: seq<string>,
                                                   plan: Plan<S>, params: map<string, map<string, S>>,
                                                   sound: (string, nat) -> S, b: nat)
    requires AllFit(ops, graph, plan, params, sound) && HasOutputs(plan) && plan.blockSize > 0
    requires PlanOf(graph, ids, plan) && forall i :: 0 <= i < |plan.nodes| ==> IsOfflineKind(plan.nodes[i].kind)
    ensures RenderBlocks(ops, plan, params, b).snapshots
         == SnapshotsOf(ops, graph, sound, ids, plan.blockSize, b)
  {
    if b > 0 {
      BlockSnapshots(ops, graph, ids, plan, params, sound, b - 1);
      NextBlockSnapshots(ops, graph, ids, plan, params, sound, b - 1);
    }
  }

  /** The report holds one snapshot for each block and each snapshot node, with the first sample of the
      block that is heard through its input. */
  lemma SnapshotsAreHeard<S(!new)>(ops: Arithmetic<S>, graph: AudioGraph<S>, ids: seq<string>, plan: Plan<S>,
                                   sound: (string, nat) -> S, blocks: nat)
    requires PlanOf(graph, ids, plan) && ProducersFirst(plan) && IsSound(ops, graph, plan.sampleRate, sound)
    requires plan.blockSize > 0 && forall i :: 0 <= i < |plan.nodes| ==> IsOfflineKind(plan.nodes[i].kind)
    ensures HasOutputs(plan)
            && RenderBlocks(ops, plan, ParamsById(graph.nodes), blocks).snapshots
            == SnapshotsOf(ops, graph, sound, ids, plan.blockSize, blocks)
  {
    PlannedAllFit(ops, graph, ids, plan, sound);
    BlockSnapshots(ops, graph, ids, plan, ParamsById(graph.nodes), sound, blocks);
  }
}
