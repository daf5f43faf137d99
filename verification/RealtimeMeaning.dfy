/** The realtime executor plays the sound of the graph: what a callback delivers on each channel. */
module RealtimeMeaning {
  import opened Basics
  import opened ExpansionEdges
  import opened DspPlan
  import opened DspBlocks
  import opened DspOffline
  import opened DspRealtime
  import opened DspRefinement
  import opened AudioMeaning
  import opened OfflineMeaning

  // ---- The plan without its output nodes ---------------------------------------------------------------

  lemma FewerKept<T(!new)>(p: T -> bool, s: seq<T>, w: nat, v: nat)
    requires w <= v <= |s|
    ensures |Keep(p, s[..w])| <= |Keep(p, s[..v])|
  {
    KeptPrefix(p, s[..v], w);
    assert s[..v][..w] == s[..w];
  }

  lemma KeptInOrder<T(!new)>(p: T -> bool, s: seq<T>, i: nat, j: nat) returns (v: nat, w: nat)
    requires i < j < |Keep(p, s)|
    ensures v < w < |s| && s[v] == Keep(p, s)[i] && s[w] == Keep(p, s)[j]
  {
    v := KeptFrom(p, s, i);
    w := KeptFrom(p, s, j);
    if w <= v {
      FewerKept(p, s, w, v);
    }
  }

  function KeptIds<S(!new)>(plan: Plan<S>): seq<string> {
    var kept := WithoutOutputs(plan).nodes;
    seq(|kept|, i requires 0 <= i < |kept| => kept[i].nodeId)
  }

  lemma KeptAreDistinct<S(!new)>(graph: AudioGraph<S>, ids: seq<string>, plan: Plan<S>)
    requires Distinct(ids) && WellBuilt(graph, ids, plan)
    ensures Distinct(KeptIds(plan))
  {
    var kept := WithoutOutputs(plan).nodes;
    forall i, j | 0 <= i < j < |kept| ensures kept[i].nodeId != kept[j].nodeId {
      var v, w := KeptInOrder(Renders(), plan.nodes, i, j);
      assert plan.nodes[v].nodeId == ids[v] && plan.nodes[w].nodeId == ids[w];
    }
  }

  lemma KeptNode<S(!new)>(graph: AudioGraph<S>, ids: seq<string>, plan: Plan<S>, node: PlanNode<S>)
    requires WellBuilt(graph, ids, plan) && node in plan.nodes
    ensures NodePlanned(graph, node, plan.edges, plan.buffers)
  {
    var i :| 0 <= i < |plan.nodes| && plan.nodes[i] == node;
  }

  lemma KeptIsBuilt<S(!new)>(graph: AudioGraph<S>, ids: seq<string>, plan: Plan<S>)
    requires WellBuilt(graph, ids, plan)
    ensures WellBuilt(graph, KeptIds(plan), WithoutOutputs(plan))
  {
    var kept := WithoutOutputs(plan).nodes;
    forall i | 0 <= i < |kept| ensures NodePlanned(graph, kept[i], plan.edges, plan.buffers) {
      assert kept[i] in kept;
      KeptNode(graph, ids, plan, kept[i]);
    }
  }

  lemma KeptIsRenderable<S(!new)>(plan: Plan<S>)
    requires Renderable(plan)
    ensures Renderable(WithoutOutputs(plan))
  {
    var kept := WithoutOutputs(plan).nodes;
    forall i | 0 <= i < |kept| && IsRendering(kept[i].kind)
      ensures |kept[i].signalOutputs| > 0
      ensures exists b :: 0 <= b < |plan.buffers| && plan.buffers[b].id == kept[i].signalOutputs[0].bufferId
    {
      assert kept[i] in kept;
      var j :| 0 <= j < |plan.nodes| && plan.nodes[j] == kept[i];
    }
  }

  lemma KeptId<S(!new)>(plan: Plan<S>, i: nat)
    requires i < |plan.nodes| && plan.nodes[i].kind != OUTPUT_KIND
    ensures plan.nodes[i].nodeId in KeptIds(plan)
  {
    var kept := WithoutOutputs(plan).nodes;
    assert Renders()(plan.nodes[i]) && plan.nodes[i] in kept;
    var j :| 0 <= j < |kept| && kept[j] == plan.nodes[i];
    assert KeptIds(plan)[j] == plan.nodes[i].nodeId;
  }

  lemma SounderKept<S(!new)>(graph: AudioGraph<S>, ids: seq<string>, plan: Plan<S>, n: AudioNode<S>, i: nat)
    requires DistinctIds(graph) && WellBuilt(graph, ids, plan) && n in graph.nodes && IsRendering(n.kind)
    requires i < |ids| && ids[i] == n.id
    ensures n.id in KeptIds(plan)
  {
    SameId(graph, n, plan.nodes[i].nodeId);
    assert NodePlanned(graph, plan.nodes[i], plan.edges, plan.buffers);
    KindsApart();
    KeptId(plan, i);
  }

  lemma KindsApart()
    ensures !IsRendering(OUTPUT_KIND)
  {
    assert |OUTPUT_KIND| == 24 && |SIG_KIND| == |OSC_KIND| == 21 && |MUL_KIND| == 30;
  }

  lemma KeptSounders<S(!new)>(graph: AudioGraph<S>, ids: seq<string>, plan: Plan<S>)
    requires PlanOf(graph, ids, plan)
    ensures SoundersPlanned(graph, KeptIds(plan))
  {
    forall n, f: nat | n in graph.nodes && IsRendering(n.kind) && FirstOutput(n.ports, f)
      ensures n.id in KeptIds(plan)
    {
      assert n.id in ids;
      var i :| 0 <= i < |ids| && ids[i] == n.id;
      SounderKept(graph, ids, plan, n, i);
    }
  }

  lemma WithoutOutputsIsPlan<S(!new)>(graph: AudioGraph<S>, ids: seq<string>, plan: Plan<S>)
    requires PlanOf(graph, ids, plan)
    ensures PlanOf(graph, KeptIds(plan), WithoutOutputs(plan))
  {
    KeptAreDistinct(graph, ids, plan);
    KeptIsBuilt(graph, ids, plan);
    KeptIsRenderable(plan);
    KeptSounders(graph, ids, plan);
  }

  lemma KeptProducersFirst<S(!new)>(plan: Plan<S>)
    requires ProducersFirst(plan)
    ensures ProducersFirst(WithoutOutputs(plan))
  {
    var kept := WithoutOutputs(plan);
    forall i, x | 0 <= i < |kept.nodes| && x in kept.nodes[i].signalInputs ensures !WrittenFrom(kept, i, x.bufferId) {
      forall j | i <= j < |kept.nodes| ensures !Writes(kept.nodes[j], x.bufferId) {
        KeptWritesEarlier(plan, i, j, x);
      }
    }
  }

  lemma KeptWritesEarlier<S(!new)>(plan: Plan<S>, i: nat, j: nat, x: SignalInput)
    requires ProducersFirst(plan) && i <= j < |WithoutOutputs(plan).nodes|
    requires x in WithoutOutputs(plan).nodes[i].signalInputs
    ensures !Writes(WithoutOutputs(plan).nodes[j], x.bufferId)
  {
    var v, w;
    if i == j {
      v := KeptFrom(Renders(), plan.nodes, i);
      w := v;
    } else {
      v, w := KeptInOrder(Renders(), plan.nodes, i, j);
    }
    assert !WrittenFrom(plan, v, x.bufferId);
  }

  // ---- Buffers -------------------------------------------------------------------------------------------

  lemma KeptHoldsBlock<S(!new)>(ops: Arithmetic<S>, plan: Plan<S>, sound: (string, nat) -> S, start: nat, id: string,
                                samples: seq<S>)
    requires var kept := WithoutOutputs(plan); HoldsBlock(ops, kept, sound, start, |kept.nodes|, id, samples)
    ensures HoldsBlock(ops, plan, sound, start, |plan.nodes|, id, samples)
  {
    var kept := WithoutOutputs(plan);
    forall j | 0 <= j < |plan.nodes| && Writes(plan.nodes[j], id)
      ensures exists i :: 0 <= i < |kept.nodes| && kept.nodes[i] == plan.nodes[j]
    {
      assert Renders()(plan.nodes[j]) && plan.nodes[j] in kept.nodes;
    }
    forall i | 0 <= i < |kept.nodes| && Writes(kept.nodes[i], id) ensures WrittenBefore(plan, |plan.nodes|, id) {
      assert kept.nodes[i] in kept.nodes;
      var j :| 0 <= j < |plan.nodes| && plan.nodes[j] == kept.nodes[i];
    }
  }

  ghost predicate PlayableFrom<S(!new)>(graph: AudioGraph<S>, ids: seq<string>, plan: Plan<S>) {
    && PlanOf(graph, ids, plan) && ProducersFirst(plan) && plan.blockSize > 0
    && forall i :: 0 <= i < |plan.nodes| ==> IsRealtimeKind(plan.nodes[i].kind)
  }

  lemma PlanIsRunnable<S(!new)>(graph: AudioGraph<S>, ids: seq<string>, plan: Plan<S>)
    requires PlanOf(graph, ids, plan) && forall i :: 0 <= i < |plan.nodes| ==> IsRealtimeKind(plan.nodes[i].kind)
    ensures Runnable(plan)
  {
  }

  /** After b + 1 blocks, a realtime buffer holds the sound of the node that writes it from frame b times
      the block size on, or silence. */
  lemma RealtimeRendersSound<S(!new)>(ops: Arithmetic<S>, graph: AudioGraph<S>, ids: seq<string>, plan: Plan<S>,
                                      sound: (string, nat) -> S, b: nat, x: nat)
    requires PlayableFrom(graph, ids, plan) && IsSound(ops, graph, plan.sampleRate, sound) && x < |plan.buffers|
    ensures HoldsBlock(ops, plan, sound, b * plan.blockSize, |plan.nodes|, plan.buffers[x].id,
                       RowsAfter(ops, plan, ParamsById(graph.nodes), b + 1)[x])
  {
    var params, kept := ParamsById(graph.nodes), WithoutOutputs(plan);
    PlanIsRunnable(graph, ids, plan);
    ProducersFirstIsReady(ops, plan);
    RealtimeRefinesOffline(ops, plan, params, b + 1);
    WithoutOutputsIsPlan(graph, ids, plan);
    KeptProducersFirst(plan);
    OfflineRendersSound(ops, graph, KeptIds(plan), kept, sound, b);
    var buffers := RenderBlocks(ops, kept, params, b + 1).buffers;
    KeptHoldsBlock(ops, plan, sound, b * plan.blockSize, plan.buffers[x].id, buffers[plan.buffers[x].id]);
  }

  // ---- Channels --------------------------------------------------------------------------------------------

  /** The name of the input that a channel plays. */
  function ChannelPort(channel: nat): string
    requires channel < 2
  {
    if channel == 0 then "left" else "right"
  }

  /** The buffer at the position is carried by the first signal input of that name. */
  ghost predicate Carries<S(!new)>(plan: Plan<S>, node: PlanNode<S>, portId: string, x: nat) {
    x < |plan.buffers| && exists p :: 0 <= p < |node.signalInputs| && node.signalInputs[p].portId == portId
                                      && node.signalInputs[p].bufferId == plan.buffers[x].id
                                      && NoInput(node.signalInputs[..p], portId)
  }

  ghost predicate NoInput(inputs: seq<SignalInput>, portId: string) {
    forall x :: x in inputs ==> x.portId != portId
  }

  lemma {:induction false} FirstInputFound(inputs: seq<SignalInput>, portId: string, p: nat)
    requires p < |inputs| && inputs[p].portId == portId && NoInput(inputs[..p], portId)
    ensures FindInput(inputs, portId) == Some(inputs[p])
  {
    if p > 0 {
      assert inputs[..p][0] == inputs[0];
      forall x | x in inputs[1..][..p - 1] ensures x.portId != portId {
        assert x in inputs[..p];
      }
      FirstInputFound(inputs[1..], portId, p - 1);
    }
  }

  /** The buffer that a new executor's output node plays on a channel. */
  function ChannelBuffer<S(!new)>(node: RtNode<S>, channel: nat): Option<nat>
    requires channel < 2
  {
    if channel == 0 then node.left else node.right
  }

  lemma ChannelCarries<S(!new)>(ops: Arithmetic<S>, plan: Plan<S>, params: map<string, map<string, S>>, o: nat,
                                channel: nat, x: nat)
    requires DistinctBuffers(plan.buffers) && o < |plan.nodes| && channel < 2
    ensures var buffer := ChannelBuffer(Initial(ops, plan, params).nodes[o], channel);
            && (Carries(plan, plan.nodes[o], ChannelPort(channel), x) ==> buffer == Some(x))
            && (NoInput(plan.nodes[o].signalInputs, ChannelPort(channel)) ==> buffer == None)
  {
    var inputs, portId := plan.nodes[o].signalInputs, ChannelPort(channel);
    if Carries(plan, plan.nodes[o], portId, x) {
      var p :| 0 <= p < |inputs| && inputs[p].portId == portId && inputs[p].bufferId == plan.buffers[x].id
               && NoInput(inputs[..p], portId);
      FirstInputFound(inputs, portId, p);
      BufferIndexUnique(plan.buffers, x);
    }
  }

  /** The sample that an executor made for the plan delivers on a channel of a frame of a callback,
      after it has rendered b blocks. */
  function Played<S(!new)>(ops: Arithmetic<S>, plan: Plan<S>, params: map<string, map<string, S>>, o: nat, b: nat,
                           frame: nat, channel: nat): S
    requires plan.blockSize > 0 && o < |plan.nodes|
  {
    var start := RtBlocks(ops, plan.blockSize, plan.sampleRate, Initial(ops, plan, params), b);
    FrameSample(ops, plan.blockSize, plan.sampleRate, start, o, frame, channel)
  }

  /** The buffers of an executor made for the plan, after some blocks. */
  function RowsAfter<S(!new)>(ops: Arithmetic<S>, plan: Plan<S>, params: map<string, map<string, S>>,
                              blocks: nat): (r: seq<seq<S>>)
    ensures |r| == |plan.buffers|
  {
    RtBlocks(ops, plan.blockSize, plan.sampleRate, Initial(ops, plan, params), blocks).rows
  }

  lemma CellOfFrame<S(!new)>(ops: Arithmetic<S>, plan: Plan<S>, params: map<string, map<string, S>>, o: nat, b: nat,
                             f: nat, q: nat, i: nat, channel: nat)
    requires plan.blockSize > 0 && o < |plan.nodes| && q == f / plan.blockSize && i == f % plan.blockSize
    ensures
      Played(ops, plan, params, o, b, f, channel) ==
      if channel < 2 then
        SampleAt(ops, RowsAfter(ops, plan, params, b + q + 1),
                 ChannelBuffer(Initial(ops, plan, params).nodes[o], channel), i)
      else ops.zero
  {
    var n, start := plan.blockSize, Initial(ops, plan, params);
    OutputStays(ops, n, plan.sampleRate, start, b, o);
    RtBlocksAdd(ops, n, plan.sampleRate, start, b, q + 1);
    assert b + (q + 1) == b + q + 1;
  }

  /** What an executor made for the plan delivers when it plays the blocks after the first b: sample
      f mod n of block b + f div n of the buffer that the output node's first input `left` or `right`
      carries, and silence if it has no such input, and on any other channel. */
  lemma ChannelPlaysBuffer<S(!new)>(ops: Arithmetic<S>, plan: Plan<S>, params: map<string, map<string, S>>, o: nat,
                                    b: nat, f: nat, q: nat, i: nat, channel: nat, x: nat)
    requires DistinctBuffers(plan.buffers) && plan.blockSize > 0 && o < |plan.nodes|
    requires q == f / plan.blockSize && i == f % plan.blockSize
    ensures channel < 2 && Carries(plan, plan.nodes[o], ChannelPort(channel), x) ==>
              Played(ops, plan, params, o, b, f, channel)
              == SampleAt(ops, RowsAfter(ops, plan, params, b + q + 1), Some(x), i)
    ensures channel < 2 && NoInput(plan.nodes[o].signalInputs, ChannelPort(channel)) ==>
              Played(ops, plan, params, o, b, f, channel) == ops.zero
    ensures channel >= 2 ==> Played(ops, plan, params, o, b, f, channel) == ops.zero
  {
    CellOfFrame(ops, plan, params, o, b, f, q, i, channel);
    if channel < 2 {
      ChannelCarries(ops, plan, params, o, channel, x);
    }
  }

  /** The sample is the one that the offline executor leaves in the buffer after some blocks. */
  ghost predicate IsOfflineSample<S(!new)>(ops: Arithmetic<S>, plan: Plan<S>, params: map<string, map<string, S>>,
                                           blocks: nat, id: string, i: nat, sample: S) {
    && HasOutputs(plan)
    && var buffers := RenderBlocks(ops, plan, params, blocks).buffers;
       id in buffers && |buffers[id]| == plan.blockSize && i < plan.blockSize && sample == buffers[id][i]
  }

  lemma RowLength<S(!new)>(ops: Arithmetic<S>, plan: Plan<S>, params: map<string, map<string, S>>, blocks: nat, x: nat)
    requires Runnable(plan) && ReadyUntil(ops, plan, |plan.nodes|) && x < |plan.buffers|
    ensures |RowsAfter(ops, plan, params, blocks)[x]| == plan.blockSize
  {
    KeptHasOutputs(plan);
    StartAgrees(ops, plan, params);
    BlocksAgree(ops, plan, params, Initial(ops, plan, params), blocks);
  }

  lemma RowIsOffline<S(!new)>(ops: Arithmetic<S>, plan: Plan<S>, params: map<string, map<string, S>>, blocks: nat,
                              x: nat, i: nat)
    requires Runnable(plan) && ReadyUntil(ops, plan, |plan.nodes|) && x < |plan.buffers| && i < plan.blockSize
    ensures IsOfflineSample(ops, WithoutOutputs(plan), params, blocks, plan.buffers[x].id, i,
                            SampleAt(ops, RowsAfter(ops, plan, params, blocks), Some(x), i))
  {
    RealtimeRefinesOffline(ops, plan, params, blocks);
    RowLength(ops, plan, params, blocks, x);
  }

  /** On a plan in which no product hears a later sound, that is the sample of the offline block. */
  lemma ChannelPlaysOfflineBlock<S(!new)>(ops: Arithmetic<S>, plan: Plan<S>, params: map<string, map<string, S>>,
                                          o: nat, b: nat, f: nat, q: nat, i: nat, channel: nat, x: nat)
    requires Runnable(plan) && ReadyUntil(ops, plan, |plan.nodes|) && plan.blockSize > 0 && o < |plan.nodes|
    requires q == f / plan.blockSize && i == f % plan.blockSize
    requires channel < 2 && Carries(plan, plan.nodes[o], ChannelPort(channel), x)
    ensures IsOfflineSample(ops, WithoutOutputs(plan), params, b + q + 1, plan.buffers[x].id, i,
                            Played(ops, plan, params, o, b, f, channel))
  {
    var blocks := b + q + 1;
    var rows := RowsAfter(ops, plan, params, blocks);
    assert Played(ops, plan, params, o, b, f, channel) == SampleAt(ops, rows, Some(x), i) by {
      ChannelPlaysBuffer(ops, plan, params, o, b, f, q, i, channel, x);
    }
    RowIsOffline(ops, plan, params, blocks, x, i);
  }

  // ---- What is heard -------------------------------------------------------------------------------------------

  /** A buffer's sample is the sound heard from it. */
  lemma RowHeldIsHeard<S(!new)>(ops: Arithmetic<S>, plan: Plan<S>, sound: (string, nat) -> S, start: nat,
                                rows: seq<seq<S>>, x: nat, i: nat, heard: S)
    requires x < |plan.buffers| == |rows| && i < plan.blockSize
    requires HoldsBlock(ops, plan, sound, start, |plan.nodes|, plan.buffers[x].id, rows[x])
    requires HeardFrom(ops, plan, plan.buffers[x].id, sound, start + i, heard)
    ensures SampleAt(ops, rows, Some(x), i) == heard
  {
    HeldIsHeard(ops, plan, sound, start, |plan.nodes|, plan.buffers[x].id, rows[x], i, heard);
  }

  lemma {:induction false} FoundIsFirst(inputs: seq<SignalInput>, portId: string)
    ensures match FindInput(inputs, portId)
            case Some(x) => exists p :: 0 <= p < |inputs| && inputs[p] == x && NoInput(inputs[..p], portId)
            case None => NoInput(inputs, portId)
  {
    if inputs != [] {
      if inputs[0].portId == portId {
        assert NoInput(inputs[..0], portId);
      } else {
        FoundIsFirst(inputs[1..], portId);
        var found := FindInput(inputs, portId);
        if found.Some? {
          var p :| 0 <= p < |inputs[1..]| && inputs[1..][p] == found.value && NoInput(inputs[1..][..p], portId);
          assert inputs[..p + 1] == [inputs[0]] + inputs[1..][..p];
        }
      }
    }
  }

  lemma InputCarried<S(!new)>(plan: Plan<S>, node: PlanNode<S>, portId: string, x: nat)
    requires x < |plan.buffers| && FindInput(node.signalInputs, portId).Some?
    requires plan.buffers[x].id == FindInput(node.signalInputs, portId).value.bufferId
    ensures Carries(plan, node, portId, x)
  {
    FoundIsFirst(node.signalInputs, portId);
  }

  /** The block, counted from the callback, and the sample in it that a frame takes. */
  lemma FrameNumber(b: nat, n: nat, f: nat) returns (q: nat, i: nat, start: nat)
    requires n > 0
    ensures q == f / n && i == f % n && start == (b + q) * n && start + i == b * n + f
  {
    q, i := f / n, f % n;
    start := (b + q) * n;
    MulAdd(b, q, n);
    assert f == (f / n) * n + f % n;
  }

  /** In the block that starts at a frame, all buffers hold the sound of the nodes that write them. */
  ghost predicate RowsSound<S(!new)>(ops: Arithmetic<S>, plan: Plan<S>, sound: (string, nat) -> S, start: nat,
                                     rows: seq<seq<S>>) {
    |rows| == |plan.buffers|
    && forall x :: 0 <= x < |rows| ==> HoldsBlock(ops, plan, sound, start, |plan.nodes|, plan.buffers[x].id, rows[x])
  }

  /** The sample is what is heard through an input of the node: silence if it has no such input. */
  ghost predicate IsHeardThrough<S(!new)>(ops: Arithmetic<S>, plan: Plan<S>, node: PlanNode<S>, portId: string,
                                          sound: (string, nat) -> S, frame: nat, sample: S) {
    var found := FindInput(node.signalInputs, portId);
    if found.None? then sample == ops.zero
    else
      && (exists x :: 0 <= x < |plan.buffers| && plan.buffers[x].id == found.value.bufferId)
      && HeardFrom(ops, plan, found.value.bufferId, sound, frame, sample)
  }

  lemma PlayedIsHeard<S(!new)>(ops: Arithmetic<S>, plan: Plan<S>, params: map<string, map<string, S>>,
                               sound: (string, nat) -> S, o: nat, b: nat, f: nat, q: nat, i: nat, start: nat,
                               channel: nat, heard: S)
    requires DistinctBuffers(plan.buffers) && plan.blockSize > 0 && o < |plan.nodes| && channel < 2
    requires q == f / plan.blockSize && i == f % plan.blockSize
    requires RowsSound(ops, plan, sound, start, RowsAfter(ops, plan, params, b + q + 1))
    requires IsHeardThrough(ops, plan, plan.nodes[o], ChannelPort(channel), sound, start + i, heard)
    ensures Played(ops, plan, params, o, b, f, channel) == heard
  {
    var portId := ChannelPort(channel);
    var found := FindInput(plan.nodes[o].signalInputs, portId);
    if found.None? {
      FoundIsFirst(plan.nodes[o].signalInputs, portId);
      ChannelPlaysBuffer(ops, plan, params, o, b, f, q, i, channel, 0);
    } else {
      var x :| 0 <= x < |plan.buffers| && plan.buffers[x].id == found.value.bufferId;
      InputCarried(plan, plan.nodes[o], portId, x);
      ChannelPlaysBuffer(ops, plan, params, o, b, f, q, i, channel, x);
      RowHeldIsHeard(ops, plan, sound, start, RowsAfter(ops, plan, params, b + q + 1), x, i, heard);
    }
  }

  /** Block b sounds as it should. */
  ghost predicate BlockSounds<S(!new)>(ops: Arithmetic<S>, plan: Plan<S>, params: map<string, map<string, S>>,
                                       sound: (string, nat) -> S, b: nat) {
    RowsSound(ops, plan, sound, b * plan.blockSize, RowsAfter(ops, plan, params, b + 1))
  }

  lemma EveryBlockSounds<S(!new)>(ops: Arithmetic<S>, graph: AudioGraph<S>, ids: seq<string>, plan: Plan<S>,
                                  sound: (string, nat) -> S, b: nat)
    requires PlayableFrom(graph, ids, plan) && IsSound(ops, graph, plan.sampleRate, sound)
    ensures BlockSounds(ops, plan, ParamsById(graph.nodes), sound, b)
  {
    var rows := RowsAfter(ops, plan, ParamsById(graph.nodes), b + 1);
    forall x | 0 <= x < |rows|
      ensures HoldsBlock(ops, plan, sound, b * plan.blockSize, |plan.nodes|, plan.buffers[x].id, rows[x])
    {
      RealtimeRendersSound(ops, graph, ids, plan, sound, b, x);
    }
  }

  lemma InputBuffer<S(!new)>(graph: AudioGraph<S>, ids: seq<string>, plan: Plan<S>, o: nat, x: SignalInput)
    requires PlanOf(graph, ids, plan) && o < |plan.nodes| && x in plan.nodes[o].signalInputs
    ensures exists i :: 0 <= i < |plan.buffers| && plan.buffers[i].id == x.bufferId
  {
    InputAllocated(graph, ids, plan, o, x);
    var b :| b in plan.buffers && b.id == x.bufferId;
    var i :| 0 <= i < |plan.buffers| && plan.buffers[i] == b;
  }

  lemma OutputHears<S(!new)>(ops: Arithmetic<S>, graph: AudioGraph<S>, ids: seq<string>, plan: Plan<S>,
                             sound: (string, nat) -> S, o: nat, portId: string, frame: nat)
    requires PlanOf(graph, ids, plan) && o < |plan.nodes|
    ensures IsHeardThrough(ops, plan, plan.nodes[o], portId, sound, frame,
                           Heard(ops, graph, sound, PortRef(plan.nodes[o].nodeId, portId), frame))
  {
    InputHears(ops, graph, ids, plan, o, portId, sound, frame);
    var found := FindInput(plan.nodes[o].signalInputs, portId);
    if found.Some? {
      InputBuffer(graph, ids, plan, o, found.value);
    }
  }

  /** What is to be heard on a channel: the output node's input `left` on the first one, its input
      `right` on the second, and nothing on the others. */
  ghost function ChannelSound<S(!new)>(ops: Arithmetic<S>, graph: AudioGraph<S>, sound: (string, nat) -> S,
                                       outputId: string, channel: nat, frame: nat): S {
    if channel < 2 then Heard(ops, graph, sound, PortRef(outputId, ChannelPort(channel)), frame) else ops.zero
  }

  /** The executor's buffers sound block after block, and its output node hears what the graph says. */
  ghost predicate OutputSounds<S(!new)>(ops: Arithmetic<S>, graph: AudioGraph<S>, plan: Plan<S>,
                                        sound: (string, nat) -> S, o: nat)
    requires o < |plan.nodes|
  {
    && (forall b: nat :: BlockSounds(ops, plan, ParamsById(graph.nodes), sound, b))
    && (forall portId, frame ::
          IsHeardThrough(ops, plan, plan.nodes[o], portId, sound, frame,
                         Heard(ops, graph, sound, PortRef(plan.nodes[o].nodeId, portId), frame)))
  }

  lemma PlayableOutputSounds<S(!new)>(ops: Arithmetic<S>, graph: AudioGraph<S>, ids: seq<string>, plan: Plan<S>,
                                      sound: (string, nat) -> S, o: nat)
    requires PlayableFrom(graph, ids, plan) && IsSound(ops, graph, plan.sampleRate, sound) && o < |plan.nodes|
    ensures OutputSounds(ops, graph, plan, sound, o)
  {
    forall b: nat ensures BlockSounds(ops, plan, ParamsById(graph.nodes), sound, b) {
      EveryBlockSounds(ops, graph, ids, plan, sound, b);
    }
    forall portId, frame: nat
      ensures IsHeardThrough(ops, plan, plan.nodes[o], portId, sound, frame,
                             Heard(ops, graph, sound, PortRef(plan.nodes[o].nodeId, portId), frame))
    {
      OutputHears(ops, graph, ids, plan, sound, o, portId, frame);
    }
  }

  /** The callback after b blocks, which have played the frames before `first`, plays what is to be heard
      on its channels, frame by frame and without a gap. */
  lemma ChannelIsHeard<S(!new)>(ops: Arithmetic<S>, graph: AudioGraph<S>, plan: Plan<S>, sound: (string, nat) -> S,
                                o: nat, b: nat, first: nat, f: nat, channel: nat)
    requires DistinctBuffers(plan.buffers) && plan.blockSize > 0 && o < |plan.nodes|
    requires OutputSounds(ops, graph, plan, sound, o) && first == b * plan.blockSize
    ensures Played(ops, plan, ParamsById(graph.nodes), o, b, f, channel)
         == ChannelSound(ops, graph, sound, plan.nodes[o].nodeId, channel, first + f)
  {
    if channel < 2 {
      var input := PortRef(plan.nodes[o].nodeId, ChannelPort(channel));
      var q, i, start := FrameNumber(b, plan.blockSize, f);
      assert RowsSound(ops, plan, sound, start, RowsAfter(ops, plan, ParamsById(graph.nodes), b + q + 1)) by {
        assert BlockSounds(ops, plan, ParamsById(graph.nodes), sound, b + q);
      }
      PlayedIsHeard(ops, plan, ParamsById(graph.nodes), sound, o, b, f, q, i, start, channel,
                    Heard(ops, graph, sound, input, first + f));
    }
  }

  /** What a callback of the given length leaves in its output, after b blocks. */
  function CallbackOutput<S(!new)>(ops: Arithmetic<S>, plan: Plan<S>, params: map<string, map<string, S>>, o: nat,
                                   b: nat, channels: nat, length: nat): (r: seq<S>)
    requires plan.blockSize > 0 && o < |plan.nodes| && channels > 0
    ensures |r| == length
  {
    var start := RtBlocks(ops, plan.blockSize, plan.sampleRate, Initial(ops, plan, params), b);
    Delivered(ops, plan.blockSize, plan.sampleRate, start, o, channels, length / channels, length)
  }

  lemma CellIsPlayed<S(!new)>(ops: Arithmetic<S>, plan: Plan<S>, params: map<string, map<string, S>>, o: nat, b: nat,
                              channels: nat, length: nat, cell: nat, frame: nat, channel: nat)
    requires plan.blockSize > 0 && o < |plan.nodes| && channels > 0 && cell < length
    requires frame == cell / channels && channel == cell % channels
    ensures CallbackOutput(ops, plan, params, o, b, channels, length)[cell]
         == if frame < length / channels then Played(ops, plan, params, o, b, frame, channel) else ops.zero
  {
  }

  /** The cell of an interleaved output holds what is to be heard, counting frames from `first` on, or
      silence after the last whole frame. */
  ghost predicate CellIsHeard<S(!new)>(ops: Arithmetic<S>, graph: AudioGraph<S>, sound: (string, nat) -> S,
                                       outputId: string, first: nat, channels: nat, output: seq<S>, cell: nat)
    requires channels > 0 && cell < |output|
  {
    output[cell] == if cell / channels < |output| / channels
                    then ChannelSound(ops, graph, sound, outputId, cell % channels, first + cell / channels)
                    else ops.zero
  }

  ghost predicate OutputIsHeard<S(!new)>(ops: Arithmetic<S>, graph: AudioGraph<S>, sound: (string, nat) -> S,
                                         outputId: string, first: nat, channels: nat, output: seq<S>)
    requires channels > 0
  {
    forall cell :: 0 <= cell < |output| ==>
      CellIsHeard(ops, graph, sound, outputId, first, channels, output, cell)
  }

  lemma CellSounds<S(!new)>(ops: Arithmetic<S>, graph: AudioGraph<S>, plan: Plan<S>, sound: (string, nat) -> S,
                            o: nat, b: nat, first: nat, channels: nat, length: nat, cell: nat)
    requires DistinctBuffers(plan.buffers) && plan.blockSize > 0 && o < |plan.nodes| && channels > 0
    requires OutputSounds(ops, graph, plan, sound, o) && first == b * plan.blockSize && cell < length
    ensures CellIsHeard(ops, graph, sound, plan.nodes[o].nodeId, first, channels,
                        CallbackOutput(ops, plan, ParamsById(graph.nodes), o, b, channels, length), cell)
  {
    var frame, channel := cell / channels, cell % channels;
    CellIsPlayed(ops, plan, ParamsById(graph.nodes), o, b, channels, length, cell, frame, channel);
    ChannelIsHeard(ops, graph, plan, sound, o, b, first, frame, channel);
  }

  lemma CallbackSounds<S(!new)>(ops: Arithmetic<S>, graph: AudioGraph<S>, plan: Plan<S>, sound: (string, nat) -> S,
                                o: nat, b: nat, first: nat, channels: nat, length: nat)
    requires DistinctBuffers(plan.buffers) && plan.blockSize > 0 && o < |plan.nodes| && channels > 0
    requires OutputSounds(ops, graph, plan, sound, o) && first == b * plan.blockSize
    ensures OutputIsHeard(ops, graph, sound, plan.nodes[o].nodeId, first, channels,
                          CallbackOutput(ops, plan, ParamsById(graph.nodes), o, b, channels, length))
  {
    var output := CallbackOutput(ops, plan, ParamsById(graph.nodes), o, b, channels, length);
    forall cell | 0 <= cell < |output|
      ensures CellIsHeard(ops, graph, sound, plan.nodes[o].nodeId, first, channels, output, cell)
    {
      CellSounds(ops, graph, plan, sound, o, b, first, channels, length, cell);
    }
  }

  /** The callback after b blocks plays the sound of the graph where the last callback's blocks ended. */
  lemma CallbackIsHeard<S(!new)>(ops: Arithmetic<S>, graph: AudioGraph<S>, ids: seq<string>, plan: Plan<S>,
                                 sound: (string, nat) -> S, o: nat, b: nat, first: nat, channels: nat, length: nat)
    requires PlayableFrom(graph, ids, plan) && IsSound(ops, graph, plan.sampleRate, sound) && o < |plan.nodes|
    requires first == b * plan.blockSize && channels > 0
    ensures OutputIsHeard(ops, graph, sound, plan.nodes[o].nodeId, first, channels,
                          CallbackOutput(ops, plan, ParamsById(graph.nodes), o, b, channels, length))
  {
    PlayableOutputSounds(ops, graph, ids, plan, sound, o);
    CallbackSounds(ops, graph, plan, sound, o, b, first, channels, length);
  }
}
