/** From one callback to the next: the rest of a block that a callback needs only in part is lost. */
module CallbackGaps {
  import opened Basics
  import opened ExpansionEdges
  import opened DspPlan
  import opened DspBlocks
  import opened DspRealtime
  import opened DspRefinement
  import opened AudioMeaning
  import opened RealtimeMeaning
  import DspFeedback

  lemma BlocksCover(total: nat, n: nat)
    requires n > 0
    ensures var b := BlocksFor(total, n);
            total <= b * n < total + n && (b * n == total <==> total % n == 0)
  {
    var q, r := total / n, total % n;
    assert total == q * n + r;
    if r == 0 {
      DivUnique(total + n - 1, n, q, n - 1);
    } else {
      MulAdd(q, 1, n);
      DivUnique(total + n - 1, n, q + 1, r - 1);
    }
  }

  /** After a first callback of some frames, the next one plays the sound from there on. */
  ghost predicate GoesOn<S(!new)>(ops: Arithmetic<S>, graph: AudioGraph<S>, plan: Plan<S>, sound: (string, nat) -> S,
                                  o: nat, channel: nat, total: nat)
    requires plan.blockSize > 0 && o < |plan.nodes|
  {
    forall f: nat ::
      Played(ops, plan, ParamsById(graph.nodes), o, BlocksFor(total, plan.blockSize), f, channel)
      == ChannelSound(ops, graph, sound, plan.nodes[o].nodeId, channel, total + f)
  }

  /** No two frames of the channel sound the same. */
  ghost predicate NeverRepeats<S(!new)>(ops: Arithmetic<S>, graph: AudioGraph<S>, sound: (string, nat) -> S,
                                        outputId: string, channel: nat) {
    forall f: nat, g: nat :: SameSample(ops, graph, sound, outputId, channel, f, g) ==> f == g
  }

  ghost predicate SameSample<S(!new)>(ops: Arithmetic<S>, graph: AudioGraph<S>, sound: (string, nat) -> S,
                                      outputId: string, channel: nat, f: nat, g: nat) {
    ChannelSound(ops, graph, sound, outputId, channel, f) == ChannelSound(ops, graph, sound, outputId, channel, g)
  }

  lemma NextCallback<S(!new)>(ops: Arithmetic<S>, graph: AudioGraph<S>, plan: Plan<S>, sound: (string, nat) -> S,
                              o: nat, channel: nat, total: nat, first: nat)
    requires DistinctBuffers(plan.buffers) && plan.blockSize > 0 && o < |plan.nodes|
    requires OutputSounds(ops, graph, plan, sound, o)
    requires first == BlocksFor(total, plan.blockSize) * plan.blockSize
    ensures first == total ==> GoesOn(ops, graph, plan, sound, o, channel, total)
    ensures NeverRepeats(ops, graph, sound, plan.nodes[o].nodeId, channel) ==>
              (GoesOn(ops, graph, plan, sound, o, channel, total) ==> first == total)
  {
    var b := BlocksFor(total, plan.blockSize);
    forall f: nat
      ensures Played(ops, plan, ParamsById(graph.nodes), o, b, f, channel)
           == ChannelSound(ops, graph, sound, plan.nodes[o].nodeId, channel, first + f)
    {
      ChannelIsHeard(ops, graph, plan, sound, o, b, first, f, channel);
    }
    if GoesOn(ops, graph, plan, sound, o, channel, total) {
      assert Played(ops, plan, ParamsById(graph.nodes), o, b, 0, channel)
          == ChannelSound(ops, graph, sound, plan.nodes[o].nodeId, channel, first + 0);
      assert SameSample(ops, graph, sound, plan.nodes[o].nodeId, channel, total + 0, first + 0);
    }
  }

  /** The next callback goes on where the last one stopped if that was at the end of a block, and, where
      no two frames sound the same, only then. */
  lemma GoesOnExactly<S(!new)>(ops: Arithmetic<S>, graph: AudioGraph<S>, ids: seq<string>, plan: Plan<S>,
                               sound: (string, nat) -> S, o: nat, channel: nat, total: nat)
    requires PlayableFrom(graph, ids, plan) && IsSound(ops, graph, plan.sampleRate, sound) && o < |plan.nodes|
    ensures total % plan.blockSize == 0 ==> GoesOn(ops, graph, plan, sound, o, channel, total)
    ensures NeverRepeats(ops, graph, sound, plan.nodes[o].nodeId, channel) ==>
              (GoesOn(ops, graph, plan, sound, o, channel, total) <==> total % plan.blockSize == 0)
  {
    PlayableOutputSounds(ops, graph, ids, plan, sound, o);
    BlocksCover(total, plan.blockSize);
    NextCallback(ops, graph, plan, sound, o, channel, total, BlocksFor(total, plan.blockSize) * plan.blockSize);
  }

  // ---- An oscillator that plays on the first channel -----------------------------------------------------

  const OSC_PORT := Port("out", Output, true)
  const LEFT_PORT := Port("left", Input, true)
  const OSC_WIRE := AudioEdge(PortRef("osc", "out"), PortRef("out", "left"))

  function OscNode<S>(): AudioNode<S> {
    AudioNode("osc", OSC_KIND, map[], [OSC_PORT])
  }

  function SinkNode<S>(): AudioNode<S> {
    AudioNode("out", OUTPUT_KIND, map[], [LEFT_PORT])
  }

  function OscGraph<S>(): AudioGraph<S> {
    AudioGraph([OscNode(), SinkNode()], [OSC_WIRE])
  }

  const OSC_IDS := ["osc", "out"]

  lemma OscNodes<S(!new)>()
    ensures var graph := OscGraph<S>();
            && DistinctIds(graph) && Distinct(OSC_IDS) && SIG_KIND != OSC_KIND && !IsRendering(OUTPUT_KIND)
            && FindNode(graph.nodes, "osc") == Some(OscNode()) && FindNode(graph.nodes, "out") == Some(SinkNode())
  {
    assert "osc"[1] != "out"[1];
    assert SIG_KIND[18] == 's' && OSC_KIND[18] == 'o';
    KindsApart();
    var nodes := OscGraph<S>().nodes;
    assert nodes[1..][0] == nodes[1];
  }

  lemma OscIsHeard<S(!new)>(ops: Arithmetic<S>, sound: (string, nat) -> S, frame: nat)
    ensures Heard(ops, OscGraph(), sound, PortRef("out", "left"), frame) == sound("osc", frame)
  {
    var graph := OscGraph<S>();
    OscNodes<S>();
    assert OscNode<S>() in graph.nodes && SinkNode<S>() in graph.nodes;
    assert FirstNamed([OSC_PORT], 0, "out") && FirstNamed([LEFT_PORT], 0, "left");
    assert SignalEnd(graph, PortRef("osc", "out"), Output) && SignalEnd(graph, PortRef("out", "left"), Input);
    assert FirstWire(graph, PortRef("out", "left"), 0);
    assert FirstOutput([OSC_PORT], 0);
    assert Sounds(graph, PortRef("osc", "out"));
  }

  /** With terms for samples, the phases of an oscillator are all different. */
  lemma {:induction false} PhasesDiffer(increment: DspFeedback.Term, f: nat, g: nat)
    ensures Turned(DspFeedback.TermArithmetic(), increment, f) == Turned(DspFeedback.TermArithmetic(), increment, g)
            ==> f == g
  {
    if f > 0 && g > 0 {
      PhasesDiffer(increment, f - 1, g - 1);
    }
  }

  lemma OscNeverRepeats(rate: nat, sound: (string, nat) -> DspFeedback.Term)
    requires IsSound(DspFeedback.TermArithmetic(), OscGraph(), rate, sound)
    ensures NeverRepeats(DspFeedback.TermArithmetic(), OscGraph(), sound, "out", 0)
  {
    var ops, graph := DspFeedback.TermArithmetic(), OscGraph<DspFeedback.Term>();
    OscNodes<DspFeedback.Term>();
    var increment := ops.increment(FrequencyHeard(ops, graph, OscNode()), rate);
    forall f: nat
      ensures ChannelSound(ops, graph, sound, "out", 0, f) == DspFeedback.Sine(Turned(ops, increment, f))
    {
      OscIsHeard(ops, sound, f);
      assert OscNode<DspFeedback.Term>() in graph.nodes;
      assert SoundsRight(ops, graph, rate, sound, OscNode(), f);
    }
    forall f: nat, g: nat | SameSample(ops, graph, sound, "out", 0, f, g) ensures f == g {
      PhasesDiffer(increment, f, g);
    }
  }

  lemma OscEdges<S(!new)>(edges: seq<PlanEdge>, buffers: seq<Buffer>)
    requires EdgesPlanned(OscGraph<S>(), edges, buffers)
    ensures forall e :: e in edges ==> e.target.nodeId == "out"
  {
    forall e | e in edges ensures e.target.nodeId == "out" {
      var k :| 0 <= k < |edges| && edges[k] == e;
      assert EdgePlanned(OscGraph<S>(), edges[k], buffers);
    }
  }

  lemma PlannedAs<S(!new)>(graph: AudioGraph<S>, audioIds: seq<string>, plan: Plan<S>, i: nat, node: AudioNode<S>)
    requires WellBuilt(graph, audioIds, plan) && i < |audioIds| && FindNode(graph.nodes, audioIds[i]) == Some(node)
    ensures plan.nodes[i].kind == node.kind && plan.nodes[i].signalInputs == InputsOf(plan.edges, audioIds[i])
  {
    assert NodePlanned(graph, plan.nodes[i], plan.edges, plan.buffers);
  }

  lemma OscPlanNodes<S(!new)>(plan: Plan<S>)
    requires WellBuilt(OscGraph<S>(), OSC_IDS, plan)
    ensures |plan.nodes| == 2 && plan.nodes[0].kind == OSC_KIND && plan.nodes[1].kind == OUTPUT_KIND
    ensures plan.nodes[0].signalInputs == []
  {
    OscNodes<S>();
    PlannedAs(OscGraph(), OSC_IDS, plan, 0, OscNode());
    PlannedAs(OscGraph(), OSC_IDS, plan, 1, SinkNode());
    assert plan.nodes[0].signalInputs == [] by {
      OscEdges<S>(plan.edges, plan.buffers);
      assert "osc"[1] != "out"[1];
      NoInputs(plan.edges, "osc");
    }
  }

  lemma {:induction false} NoInputs(edges: seq<PlanEdge>, nodeId: string)
    requires forall e :: e in edges ==> e.target.nodeId != nodeId
    ensures InputsOf(edges, nodeId) == []
  {
    if edges != [] {
      NoInputs(edges[..|edges| - 1], nodeId);
      assert edges[|edges| - 1] in edges;
    }
  }

  /** Only the oscillator writes, and it reads nothing. */
  lemma OscFirst<S(!new)>(plan: Plan<S>)
    requires |plan.nodes| == 2 && !IsRendering(plan.nodes[1].kind) && plan.nodes[0].signalInputs == []
    ensures ProducersFirst(plan)
  {
    forall i, x | 0 <= i < |plan.nodes| && x in plan.nodes[i].signalInputs ensures !WrittenFrom(plan, i, x.bufferId) {
      assert i == 1;
    }
  }

  lemma OscRenderable<S(!new)>(plan: Plan<S>)
    requires |plan.nodes| == 2 && !IsRendering(plan.nodes[1].kind) && |plan.nodes[0].signalOutputs| > 0
    requires exists b :: 0 <= b < |plan.buffers| && plan.buffers[b].id == plan.nodes[0].signalOutputs[0].bufferId
    ensures Renderable(plan)
  {
  }

  lemma OscPlanned<S(!new)>(plan: Plan<S>)
    requires WellBuilt(OscGraph<S>(), OSC_IDS, plan)
    ensures PlanOf(OscGraph<S>(), OSC_IDS, plan) && ProducersFirst(plan)
  {
    OscNodes<S>();
    OscSounders<S>();
    assert Renderable(plan) && ProducersFirst(plan) by {
      OscPlanNodes(plan);
      OscRenders(plan);
      OscRenderable(plan);
      OscFirst(plan);
    }
  }

  lemma OscSounders<S(!new)>()
    ensures SoundersPlanned(OscGraph<S>(), OSC_IDS)
  {
    assert OSC_IDS[0] == "osc" && OSC_IDS[1] == "out";
  }

  lemma OscPlanIsPlayable<S(!new)>(plan: Plan<S>)
    requires WellBuilt(OscGraph<S>(), OSC_IDS, plan) && plan.blockSize > 0
    ensures PlayableFrom(OscGraph<S>(), OSC_IDS, plan) && plan.nodes[1].kind == OUTPUT_KIND
  {
    OscPlanned(plan);
    OscPlanNodes(plan);
  }

  lemma OscRenders<S(!new)>(plan: Plan<S>)
    requires WellBuilt(OscGraph<S>(), OSC_IDS, plan)
    ensures |plan.nodes[0].signalOutputs| > 0
    ensures exists b :: 0 <= b < |plan.buffers| && plan.buffers[b].id == plan.nodes[0].signalOutputs[0].bufferId
  {
    OscNodes<S>();
    assert NodePlanned(OscGraph<S>(), plan.nodes[0], plan.edges, plan.buffers);
    assert OSC_PORT in [OSC_PORT] && OSC_PORT in SignalOutputs([OSC_PORT]);
    assert BufferOf(plan.buffers, plan.nodes[0].signalOutputs[0].bufferId,
                    PortRef("osc", plan.nodes[0].signalOutputs[0].portId));
  }

  /** Planned by the program's method, an oscillator plays on the first channel of an output that the
      realtime executor accepts; a callback that follows one of `total` frames goes on where that one
      stopped exactly when `total` is a multiple of the block size. */
  method PlanOscillator(blockSize: nat, sampleRate: nat, ghost sound: (string, nat) -> DspFeedback.Term,
                        ghost total: nat)
    returns (plan: Plan<DspFeedback.Term>)
    requires blockSize > 0 && IsSound(DspFeedback.TermArithmetic(), OscGraph(), sampleRate, sound)
    ensures WellBuilt(OscGraph(), OSC_IDS, plan) && PlayableFrom(OscGraph(), OSC_IDS, plan)
    ensures plan.blockSize == blockSize && plan.nodes[1].kind == OUTPUT_KIND
    ensures GoesOn(DspFeedback.TermArithmetic(), OscGraph(), plan, sound, 1, 0, total) <==> total % blockSize == 0
  {
    OscNodes<DspFeedback.Term>();
    var graph := OscGraph<DspFeedback.Term>();
    var result := BuildPlan(graph, OSC_IDS, blockSize, sampleRate);
    assert CoversSignals(graph, OSC_IDS);
    plan := result.plan;
    OscPlanIsPlayable(plan);
    OscNeverRepeats(sampleRate, sound);
    GoesOnExactly(DspFeedback.TermArithmetic(), graph, OSC_IDS, plan, sound, 1, 0, total);
  }

  /** The oscillator has a sound. */
  lemma OscillatorSounds<S(!new)>(ops: Arithmetic<S>, rate: nat) returns (sound: (string, nat) -> S)
    ensures IsSound(ops, OscGraph(), rate, sound)
  {
    var graph := OscGraph<S>();
    OscNodes<S>();
    forall n, portId, w: nat | n in graph.nodes && FirstWire(graph, PortRef(n.id, portId), w)
                               && Sounds(graph, graph.edges[w].source)
      ensures Before(OSC_IDS, graph.edges[w].source.nodeId, n.id)
    {
      assert graph.edges[w] == OSC_WIRE;
      assert OSC_IDS[0] == "osc" && OSC_IDS[1] == "out";
    }
    sound := SoundExists(ops, graph, OSC_IDS, rate);
  }
}
