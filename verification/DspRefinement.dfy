/** The realtime executor, which never clears its buffers, computes what the offline one computes
    from fresh buffers, provided that every node comes after the producers of its inputs. */
module DspRefinement {
  import opened Basics
  import opened ExpansionEdges
  import opened Cycles
  import opened Planning
  import opened DspPlan
  import opened DspBlocks
  import opened DspOffline
  import opened DspRealtime

  /** The node renders into the buffer. */
  predicate Writes<S(!new)>(node: PlanNode<S>, bufferId: string) {
    IsRendering(node.kind) && node.signalOutputs != [] && node.signalOutputs[0].bufferId == bufferId
  }

  ghost predicate WrittenFrom<S(!new)>(plan: Plan<S>, k: nat, bufferId: string) {
    exists i :: k <= i < |plan.nodes| && Writes(plan.nodes[i], bufferId)
  }

  /** No node writes a buffer that an earlier node, or the node itself, reads. */
  ghost predicate ProducersFirst<S(!new)>(plan: Plan<S>) {
    forall i, x :: 0 <= i < |plan.nodes| && x in plan.nodes[i].signalInputs ==> !WrittenFrom(plan, i, x.bufferId)
  }

  ghost predicate DistinctNodes<S(!new)>(plan: Plan<S>) {
    forall i, j :: 0 <= i < j < |plan.nodes| ==> plan.nodes[i].nodeId != plan.nodes[j].nodeId
  }

  /** A plan both executors can run, apart from its output nodes. */
  ghost predicate Runnable<S(!new)>(plan: Plan<S>) {
    && (forall i :: 0 <= i < |plan.nodes| ==> IsRealtimeKind(plan.nodes[i].kind))
    && Renderable(plan) && DistinctBuffers(plan.buffers) && DistinctNodes(plan)
  }

  ghost predicate Playable<S(!new)>(plan: Plan<S>) {
    Runnable(plan) && ProducersFirst(plan)
  }

  /** The node renders nothing but zeros. */
  ghost predicate Silent<S(!new)>(ops: Arithmetic<S>, node: PlanNode<S>)
  {
    node.kind == SIG_KIND && ParamOr(node.params, "value", ops.zero) == ops.zero
  }

  /** Some node from the k-th on renders sound into the buffer. */
  ghost predicate LoudFrom<S(!new)>(ops: Arithmetic<S>, plan: Plan<S>, k: nat, bufferId: string) {
    exists i :: k <= i < |plan.nodes| && Writes(plan.nodes[i], bufferId) && !Silent(ops, plan.nodes[i])
  }

  /** What a product reads through a port is complete when it is rendered: no sound is rendered into
      that buffer by the node itself or a later one. */
  ghost predicate InputReady<S(!new)>(ops: Arithmetic<S>, plan: Plan<S>, k: nat, portId: string)
    requires k < |plan.nodes|
  {
    var found := FindInput(plan.nodes[k].signalInputs, portId);
    found.Some? ==> !LoudFrom(ops, plan, k, found.value.bufferId)
  }

  ghost predicate Ready<S(!new)>(ops: Arithmetic<S>, plan: Plan<S>, k: nat)
    requires k < |plan.nodes|
  {
    plan.nodes[k].kind == MUL_KIND ==> InputReady(ops, plan, k, "left") && InputReady(ops, plan, k, "right")
  }

  /** The first n nodes hear nothing of later nodes. */
  ghost predicate ReadyUntil<S(!new)>(ops: Arithmetic<S>, plan: Plan<S>, n: nat) {
    forall k {:trigger Ready(ops, plan, k)} :: 0 <= k < n && k < |plan.nodes| ==> Ready(ops, plan, k)
  }

  lemma ProducersFirstIsReady<S(!new)>(ops: Arithmetic<S>, plan: Plan<S>)
    requires ProducersFirst(plan)
    ensures ReadyUntil(ops, plan, |plan.nodes|)
  {
    forall k, portId | 0 <= k < |plan.nodes|
      ensures InputReady(ops, plan, k, portId)
    {
      var found := FindInput(plan.nodes[k].signalInputs, portId);
      if found.Some? {
        assert !WrittenFrom(plan, k, found.value.bufferId);
      }
    }
  }

  function Renders<S(!new)>(): PlanNode<S> -> bool {
    (node: PlanNode<S>) => node.kind != OUTPUT_KIND
  }

  /** The plan without its output nodes, which the offline executor does not know. */
  function WithoutOutputs<S(!new)>(plan: Plan<S>): Plan<S> {
    plan.(nodes := Keep(Renders(), plan.nodes))
  }

  lemma {:induction false} KeptPrefix<T(!new)>(p: T -> bool, s: seq<T>, k: nat)
    requires k <= |s|
    ensures Keep(p, s[..k]) <= Keep(p, s)
    ensures k < |s| && p(s[k]) ==> |Keep(p, s[..k])| < |Keep(p, s)| && Keep(p, s)[|Keep(p, s[..k])|] == s[k]
    ensures k < |s| ==> Keep(p, s[..k + 1]) == Keep(p, s[..k]) + if p(s[k]) then [s[k]] else []
    decreases |s| - k
  {
    if k == |s| {
      assert s[..k] == s;
    } else {
      assert s[..k + 1][..k] == s[..k];
      KeptPrefix(p, s, k + 1);
    }
  }

  lemma KeptHasOutputs<S(!new)>(plan: Plan<S>)
    requires Renderable(plan)
    ensures HasOutputs(WithoutOutputs(plan))
  {
    var nodes := Keep(Renders(), plan.nodes);
    forall i | 0 <= i < |nodes| && IsRendering(nodes[i].kind) ensures |nodes[i].signalOutputs| > 0 {
      assert nodes[i] in nodes;
      var j :| 0 <= j < |plan.nodes| && plan.nodes[j] == nodes[i];
    }
  }

  // ---- The relation kept while a block is rendered ----------------------------------------------------

  /** The fixed parts of the realtime nodes are those of the plan, and the phases agree. */
  ghost predicate NodesAgree<S(!new)>(ops: Arithmetic<S>, plan: Plan<S>, params: map<string, map<string, S>>,
                                nodes: seq<RtNode<S>>, phases: map<string, S>) {
    && |nodes| == |plan.nodes|
    && forall i :: 0 <= i < |plan.nodes| ==>
         nodes[i] ==
             RtNodeOf(ops, plan.nodes[i], plan.buffers, params).(phase := PhaseOf(ops, phases, plan.nodes[i].nodeId))
  }

  /** Every row and every buffer is a block, and the two tables have the same entries. */
  ghost predicate Shaped<S(!new)>(plan: Plan<S>, rows: seq<seq<S>>, buffers: map<string, seq<S>>) {
    && |rows| == |plan.buffers|
    && (forall b :: 0 <= b < |rows| ==> |rows[b]| == plan.blockSize)
    && (forall b ::
          0 <= b < |plan.buffers| ==> plan.buffers[b].id in buffers && |buffers[plan.buffers[b].id]| == plan.blockSize)
    && (forall id :: id in buffers ==> BufferIndex(plan.buffers, id).Some?)
  }

  /** Buffers into which no later node of the block renders sound, or simply all buffers when the two
      sides are `synced`, hold the same samples; buffers that never get any sound stay silent. */
  ghost predicate RowsAgree<S(!new)>(ops: Arithmetic<S>, plan: Plan<S>, k: nat, synced: bool, rows: seq<seq<S>>,
                                     buffers: map<string, seq<S>>)
    requires Shaped(plan, rows, buffers)
  {
    forall b :: 0 <= b < |rows| ==>
      && (synced || !LoudFrom(ops, plan, k, plan.buffers[b].id) ==> rows[b] == buffers[plan.buffers[b].id])
      && (!LoudFrom(ops, plan, 0, plan.buffers[b].id) ==> rows[b] == Constant(plan.blockSize, ops.zero))
  }

  ghost predicate Agree<S(!new)>(ops: Arithmetic<S>, plan: Plan<S>, params: map<string, map<string, S>>, k: nat,
                                 synced: bool, rt: RtState<S>, off: OfflineState<S>) {
    && NodesAgree(ops, plan, params, rt.nodes, off.phases)
    && Shaped(plan, rt.rows, off.buffers)
    && RowsAgree(ops, plan, k, synced, rt.rows, off.buffers)
  }

  lemma BufferIndexUnique(buffers: seq<Buffer>, b: nat)
    requires DistinctBuffers(buffers) && b < |buffers|
    ensures BufferIndex(buffers, buffers[b].id) == Some(b)
  {
  }

  lemma StoreShape<S(!new)>(plan: Plan<S>, rows: seq<seq<S>>, buffers: map<string, seq<S>>, block: seq<S>, b: nat)
    requires Shaped(plan, rows, buffers) && b < |plan.buffers| && |block| == plan.blockSize
    ensures Shaped(plan, rows[b := block], buffers[plan.buffers[b].id := block])
  {
  }

  lemma LoudLater<S(!new)>(ops: Arithmetic<S>, plan: Plan<S>, k: nat, bufferId: string)
    requires k < |plan.nodes| && (!Writes(plan.nodes[k], bufferId) || Silent(ops, plan.nodes[k]))
    ensures LoudFrom(ops, plan, k, bufferId) ==> LoudFrom(ops, plan, k + 1, bufferId)
  {
  }

  lemma StoreRow<S(!new)>(ops: Arithmetic<S>, plan: Plan<S>, k: nat, synced: bool, rows: seq<seq<S>>,
                          buffers: map<string, seq<S>>, block: seq<S>, b: nat)
    requires Shaped(plan, rows, buffers) && RowsAgree(ops, plan, k, synced, rows, buffers)
             && DistinctBuffers(plan.buffers)
    requires b < |plan.buffers| && |block| == plan.blockSize
    requires k < |plan.nodes| && Writes(plan.nodes[k], plan.buffers[b].id)
    requires Silent(ops, plan.nodes[k]) ==> block == Constant(plan.blockSize, ops.zero)
    ensures Shaped(plan, rows[b := block], buffers[plan.buffers[b].id := block])
    ensures RowsAgree(ops, plan, k + 1, synced, rows[b := block], buffers[plan.buffers[b].id := block])
  {
    var id := plan.buffers[b].id;
    var rows', buffers' := rows[b := block], buffers[id := block];
    StoreShape(plan, rows, buffers, block, b);
    assert !Silent(ops, plan.nodes[k]) ==> LoudFrom(ops, plan, 0, id);
    forall c | 0 <= c < |rows'|
      ensures synced || !LoudFrom(ops, plan, k + 1, plan.buffers[c].id) ==> rows'[c] == buffers'[plan.buffers[c].id]
      ensures !LoudFrom(ops, plan, 0, plan.buffers[c].id) ==> rows'[c] == Constant(plan.blockSize, ops.zero)
    {
      if c != b {
        assert plan.buffers[c].id != id;
        LoudLater(ops, plan, k, plan.buffers[c].id);
      }
    }
  }

  /** The buffer that a rendering node writes. */
  lemma OutputRow<S(!new)>(plan: Plan<S>, k: nat) returns (b: nat)
    requires Runnable(plan) && k < |plan.nodes| && IsRendering(plan.nodes[k].kind)
    ensures |plan.nodes[k].signalOutputs| > 0
    ensures b < |plan.buffers| && plan.buffers[b].id == plan.nodes[k].signalOutputs[0].bufferId
    ensures Writes(plan.nodes[k], plan.buffers[b].id) && OutputIndex(plan.nodes[k], plan.buffers) == Some(b)
  {
    b :| 0 <= b < |plan.buffers| && plan.buffers[b].id == plan.nodes[k].signalOutputs[0].bufferId;
    BufferIndexUnique(plan.buffers, b);
  }

  /** Writing the same block on both sides keeps the agreement. */
  lemma StoreAgrees<S(!new)>(ops: Arithmetic<S>, plan: Plan<S>, params: map<string, map<string, S>>, k: nat,
                             synced: bool, rt: RtState<S>, off: OfflineState<S>, block: seq<S>)
    requires Runnable(plan) && k < |plan.nodes| && IsRendering(plan.nodes[k].kind) && |block| == plan.blockSize
    requires Agree(ops, plan, params, k, synced, rt, off)
    requires Silent(ops, plan.nodes[k]) ==> block == Constant(plan.blockSize, ops.zero)
    ensures |plan.nodes[k].signalOutputs| > 0
    ensures Agree(ops, plan, params, k + 1, synced, rt.(rows := Store(rt.rows, rt.nodes[k].output, block)),
                  off.(buffers := off.buffers[plan.nodes[k].signalOutputs[0].bufferId := block]))
  {
    var b := OutputRow(plan, k);
    StoreRow(ops, plan, k, synced, rt.rows, off.buffers, block, b);
  }

  /** Both sides read the same samples of an input. */
  lemma InputAgrees<S(!new)>(ops: Arithmetic<S>, plan: Plan<S>, k: nat, synced: bool, rows: seq<seq<S>>,
                             buffers: map<string, seq<S>>, portId: string)
    requires Runnable(plan) && k < |plan.nodes| && Shaped(plan, rows, buffers)
             && RowsAgree(ops, plan, k, synced, rows, buffers)
    requires synced || InputReady(ops, plan, k, portId)
    ensures var block := InputBlock(ops, plan.nodes[k], portId, buffers, plan.blockSize);
            && |block| == plan.blockSize
            && forall i :: 0 <= i < plan.blockSize ==>
                 block[i] == SampleAt(ops, rows, InputIndex(plan.nodes[k], portId, plan.buffers), i)
  {
    var found := FindInput(plan.nodes[k].signalInputs, portId);
    if found.Some? {
      var id := found.value.bufferId;
      var index := BufferIndex(plan.buffers, id);
      if index.Some? {
        assert rows[index.value] == buffers[id];
      }
    }
  }

  lemma MulAgrees<S(!new)>(ops: Arithmetic<S>, plan: Plan<S>, k: nat, synced: bool, rows: seq<seq<S>>,
                           buffers: map<string, seq<S>>)
    requires Runnable(plan) && k < |plan.nodes| && Shaped(plan, rows, buffers)
             && RowsAgree(ops, plan, k, synced, rows, buffers)
    requires synced || (InputReady(ops, plan, k, "left") && InputReady(ops, plan, k, "right"))
    ensures Products(ops, InputBlock(ops, plan.nodes[k], "left", buffers, plan.blockSize),
                     InputBlock(ops, plan.nodes[k], "right", buffers, plan.blockSize))
         == MulSamples(ops, rows, InputIndex(plan.nodes[k], "left", plan.buffers),
                       InputIndex(plan.nodes[k], "right", plan.buffers), plan.blockSize)
  {
    InputAgrees(ops, plan, k, synced, rows, buffers, "left");
    InputAgrees(ops, plan, k, synced, rows, buffers, "right");
  }

  lemma PhaseAdvances<S(!new)>(ops: Arithmetic<S>, plan: Plan<S>, params: map<string, map<string, S>>, k: nat, m: nat,
                               synced: bool, rt: RtState<S>, off: OfflineState<S>, phase: S)
    requires DistinctNodes(plan) && Agree(ops, plan, params, m, synced, rt, off) && k < |plan.nodes|
    ensures Agree(ops, plan, params, m, synced, rt.(nodes := rt.nodes[k := rt.nodes[k].(phase := phase)]),
                  off.(phases := off.phases[plan.nodes[k].nodeId := phase]))
  {
  }

  lemma SigAgrees<S(!new)>(ops: Arithmetic<S>, plan: Plan<S>, params: map<string, map<string, S>>, k: nat,
                           synced: bool, block: nat, rt: RtState<S>, off: OfflineState<S>)
    requires Runnable(plan) && k < |plan.nodes| && Agree(ops, plan, params, k, synced, rt, off)
             && plan.nodes[k].kind == SIG_KIND
    ensures |plan.nodes[k].signalOutputs| > 0
    ensures Agree(ops, plan, params, k + 1, synced, RenderRt(ops, plan.blockSize, plan.sampleRate, rt, k),
                  RenderNode(ops, WithoutOutputs(plan), params, plan.nodes[k], block, off))
  {
    StoreAgrees(ops, plan, params, k, synced, rt, off,
                Constant(plan.blockSize, ParamOr(plan.nodes[k].params, "value", ops.zero)));
  }

  lemma OscAgrees<S(!new)>(ops: Arithmetic<S>, plan: Plan<S>, params: map<string, map<string, S>>, k: nat,
                           synced: bool, block: nat, rt: RtState<S>, off: OfflineState<S>)
    requires Runnable(plan) && k < |plan.nodes| && Agree(ops, plan, params, k, synced, rt, off)
    requires plan.nodes[k].kind == OSC_KIND && plan.nodes[k].kind != SIG_KIND
    ensures |plan.nodes[k].signalOutputs| > 0
    ensures Agree(ops, plan, params, k + 1, synced, RenderRt(ops, plan.blockSize, plan.sampleRate, rt, k),
                  RenderNode(ops, WithoutOutputs(plan), params, plan.nodes[k], block, off))
  {
    var n := plan.blockSize;
    var increment := ops.increment(Frequency(ops, plan.nodes[k], params), plan.sampleRate);
    var phase := PhaseOf(ops, off.phases, plan.nodes[k].nodeId);
    StoreAgrees(ops, plan, params, k, synced, rt, off, OscSamples(ops, phase, increment, n));
    PhaseAdvances(ops, plan, params, k, k + 1, synced,
                  rt.(rows := Store(rt.rows, rt.nodes[k].output, OscSamples(ops, phase, increment, n))),
                  off.(buffers := off.buffers[plan.nodes[k].signalOutputs[0].bufferId :=
                                                  OscSamples(ops, phase, increment, n)]),
                  PhaseAfter(ops, phase, increment, n));
  }

  /** What both sides do to render a product. */
  lemma MulRenders<S(!new)>(ops: Arithmetic<S>, plan: Plan<S>, params: map<string, map<string, S>>, k: nat,
                            synced: bool, block: nat, rt: RtState<S>, off: OfflineState<S>)
    requires k < |plan.nodes| && Agree(ops, plan, params, k, synced, rt, off)
    requires plan.nodes[k].kind == MUL_KIND && plan.nodes[k].kind != SIG_KIND && plan.nodes[k].kind != OSC_KIND
    requires |plan.nodes[k].signalOutputs| > 0
    ensures rt.nodes[k].left == InputIndex(plan.nodes[k], "left", plan.buffers)
    ensures rt.nodes[k].right == InputIndex(plan.nodes[k], "right", plan.buffers)
    ensures RenderRt(ops, plan.blockSize, plan.sampleRate, rt, k)
         == rt.(rows := Store(rt.rows, rt.nodes[k].output,
                              MulSamples(ops, rt.rows, rt.nodes[k].left, rt.nodes[k].right, plan.blockSize)))
    ensures RenderNode(ops, WithoutOutputs(plan), params, plan.nodes[k], block, off)
         == off.(buffers := off.buffers[plan.nodes[k].signalOutputs[0].bufferId :=
                   Products(ops, InputBlock(ops, plan.nodes[k], "left", off.buffers, plan.blockSize),
                            InputBlock(ops, plan.nodes[k], "right", off.buffers, plan.blockSize))])
  {
  }

  lemma MulNodeAgrees<S(!new)>(ops: Arithmetic<S>, plan: Plan<S>, params: map<string, map<string, S>>, k: nat,
                               synced: bool, block: nat, rt: RtState<S>, off: OfflineState<S>)
    requires Runnable(plan) && k < |plan.nodes| && Agree(ops, plan, params, k, synced, rt, off)
    requires plan.nodes[k].kind == MUL_KIND && plan.nodes[k].kind != SIG_KIND && plan.nodes[k].kind != OSC_KIND
    requires synced || Ready(ops, plan, k)
    ensures |plan.nodes[k].signalOutputs| > 0
    ensures Agree(ops, plan, params, k + 1, synced, RenderRt(ops, plan.blockSize, plan.sampleRate, rt, k),
                  RenderNode(ops, WithoutOutputs(plan), params, plan.nodes[k], block, off))
  {
    MulAgrees(ops, plan, k, synced, rt.rows, off.buffers);
    MulRenders(ops, plan, params, k, synced, block, rt, off);
    StoreAgrees(ops, plan, params, k, synced, rt, off,
                MulSamples(ops, rt.rows, rt.nodes[k].left, rt.nodes[k].right, plan.blockSize));
  }

  lemma OutputNodeAgrees<S(!new)>(ops: Arithmetic<S>, plan: Plan<S>, params: map<string, map<string, S>>, k: nat,
                                  synced: bool, rt: RtState<S>, off: OfflineState<S>)
    requires k < |plan.nodes| && Agree(ops, plan, params, k, synced, rt, off) && plan.nodes[k].kind == OUTPUT_KIND
    ensures Agree(ops, plan, params, k + 1, synced, RenderRt(ops, plan.blockSize, plan.sampleRate, rt, k), off)
  {
    OutputIsSilent(plan.nodes[k]);
    OutputAgrees(ops, plan, k, synced, rt.rows, off.buffers);
  }

  /** Rendering one node on both sides keeps the agreement. */
  lemma NodeKeepsAgreement<S(!new)>(ops: Arithmetic<S>, plan: Plan<S>, params: map<string, map<string, S>>, k: nat,
                                    synced: bool, block: nat, rt: RtState<S>, off: OfflineState<S>)
    requires Runnable(plan) && k < |plan.nodes| && Agree(ops, plan, params, k, synced, rt, off)
             && plan.nodes[k].kind != OUTPUT_KIND
    requires synced || Ready(ops, plan, k)
    ensures IsRendering(plan.nodes[k].kind) && |plan.nodes[k].signalOutputs| > 0
    ensures Agree(ops, plan, params, k + 1, synced, RenderRt(ops, plan.blockSize, plan.sampleRate, rt, k),
                  RenderNode(ops, WithoutOutputs(plan), params, plan.nodes[k], block, off))
  {
    assert IsRealtimeKind(plan.nodes[k].kind);
    if plan.nodes[k].kind == SIG_KIND {
      SigAgrees(ops, plan, params, k, synced, block, rt, off);
    } else if plan.nodes[k].kind == OSC_KIND {
      OscAgrees(ops, plan, params, k, synced, block, rt, off);
    } else {
      MulNodeAgrees(ops, plan, params, k, synced, block, rt, off);
    }
  }

  lemma OutputIsSilent<S(!new)>(node: PlanNode<S>)
    requires node.kind == OUTPUT_KIND
    ensures !IsRendering(node.kind)
  {
    assert |OUTPUT_KIND| != |SIG_KIND| && |OUTPUT_KIND| != |OSC_KIND| && |OUTPUT_KIND| != |MUL_KIND|;
  }

  lemma OutputAgrees<S(!new)>(ops: Arithmetic<S>, plan: Plan<S>, k: nat, synced: bool, rows: seq<seq<S>>,
                              buffers: map<string, seq<S>>)
    requires k < |plan.nodes| && Shaped(plan, rows, buffers) && RowsAgree(ops, plan, k, synced, rows, buffers)
    requires !IsRendering(plan.nodes[k].kind)
    ensures RowsAgree(ops, plan, k + 1, synced, rows, buffers)
  {
  }

  // ---- Blocks -----------------------------------------------------------------------------------------

  /** The offline state once the first k nodes of the full plan have had their turn. */
  ghost function OfflineFirst<S(!new)>(ops: Arithmetic<S>, plan: Plan<S>, params: map<string, map<string, S>>, k: nat,
                                       block: nat, off: OfflineState<S>): OfflineState<S>
    requires k <= |plan.nodes| && HasOutputs(WithoutOutputs(plan))
  {
    KeptPrefix(Renders(), plan.nodes, k);
    RenderNodes(ops, WithoutOutputs(plan), params, |Keep(Renders(), plan.nodes[..k])|, block, off)
  }

  lemma OfflineNext<S(!new)>(ops: Arithmetic<S>, plan: Plan<S>, params: map<string, map<string, S>>, k: nat, block: nat,
                             off: OfflineState<S>)
    requires k < |plan.nodes| && HasOutputs(WithoutOutputs(plan))
    ensures plan.nodes[k].kind == OUTPUT_KIND ==>
              OfflineFirst(ops, plan, params, k + 1, block, off) == OfflineFirst(ops, plan, params, k, block, off)
    ensures plan.nodes[k].kind != OUTPUT_KIND
            && (IsRendering(plan.nodes[k].kind) ==> |plan.nodes[k].signalOutputs| > 0) ==>
              (OfflineFirst(ops, plan, params, k + 1, block, off) ==
               RenderNode(ops, WithoutOutputs(plan), params, plan.nodes[k], block,
                          OfflineFirst(ops, plan, params, k, block, off)))
  {
    KeptPrefix(Renders(), plan.nodes, k);
    KeptPrefix(Renders(), plan.nodes, k + 1);
  }

  lemma {:induction false} NodesKeepAgreement<S(!new)>(ops: Arithmetic<S>, plan: Plan<S>,
                                                       params: map<string, map<string, S>>, k: nat, synced: bool,
                                                       block: nat, rt: RtState<S>, off: OfflineState<S>)
    requires Runnable(plan) && HasOutputs(WithoutOutputs(plan)) && k <= |plan.nodes|
             && Agree(ops, plan, params, 0, synced, rt, off)
    requires |rt.nodes| == |plan.nodes| && (synced || ReadyUntil(ops, plan, k))
    ensures Agree(ops, plan, params, k, synced, RenderFirst(ops, plan.blockSize, plan.sampleRate, rt, k),
                  OfflineFirst(ops, plan, params, k, block, off))
    decreases k
  {
    if k == 0 {
      assert OfflineFirst(ops, plan, params, 0, block, off) == off;
    } else {
      NodesKeepAgreement(ops, plan, params, k - 1, synced, block, rt, off);
      NextNodeAgrees(ops, plan, params, k - 1, synced, block,
                     RenderFirst(ops, plan.blockSize, plan.sampleRate, rt, k - 1), off);
    }
  }

  lemma NextNodeAgrees<S(!new)>(ops: Arithmetic<S>, plan: Plan<S>, params: map<string, map<string, S>>, k: nat,
                                synced: bool, block: nat, rt: RtState<S>, off: OfflineState<S>)
    requires Runnable(plan) && HasOutputs(WithoutOutputs(plan)) && k < |plan.nodes| == |rt.nodes|
    requires Agree(ops, plan, params, k, synced, rt, OfflineFirst(ops, plan, params, k, block, off))
    requires synced || Ready(ops, plan, k)
    ensures Agree(ops, plan, params, k + 1, synced, RenderRt(ops, plan.blockSize, plan.sampleRate, rt, k),
                  OfflineFirst(ops, plan, params, k + 1, block, off))
  {
    var off' := OfflineFirst(ops, plan, params, k, block, off);
    OfflineNext(ops, plan, params, k, block, off);
    if plan.nodes[k].kind == OUTPUT_KIND {
      OutputNodeAgrees(ops, plan, params, k, synced, rt, off');
    } else {
      NodeKeepsAgreement(ops, plan, params, k, synced, block, rt, off');
    }
  }

  lemma NothingLoudLater<S(!new)>(ops: Arithmetic<S>, plan: Plan<S>, bufferId: string)
    ensures !LoudFrom(ops, plan, |plan.nodes|, bufferId)
  {
  }

  lemma ZeroedShape<S(!new)>(ops: Arithmetic<S>, plan: Plan<S>)
    ensures var z := Zeroed(ops, plan.buffers, plan.blockSize);
            && (forall b ::
                  0 <= b < |plan.buffers| ==>
                      plan.buffers[b].id in z && z[plan.buffers[b].id] == Constant(plan.blockSize, ops.zero))
            && (forall id :: id in z ==> BufferIndex(plan.buffers, id).Some?)
  {
    forall b | 0 <= b < |plan.buffers| ensures plan.buffers[b].id in Zeroed(ops, plan.buffers, plan.blockSize) {
      assert plan.buffers[b] in plan.buffers;
    }
  }

  /** Clearing the offline buffers restores the agreement needed at the start of a block. */
  lemma ReadyForBlock<S(!new)>(ops: Arithmetic<S>, plan: Plan<S>, params: map<string, map<string, S>>, rt: RtState<S>,
                               off: OfflineState<S>)
    requires Agree(ops, plan, params, |plan.nodes|, false, rt, off)
    ensures Agree(ops, plan, params, 0, false, rt, off.(buffers := Zeroed(ops, plan.buffers, plan.blockSize)))
  {
    ZeroedShape(ops, plan);
  }

  lemma BlockAgrees<S(!new)>(ops: Arithmetic<S>, plan: Plan<S>, params: map<string, map<string, S>>, synced: bool,
                             block: nat, rt: RtState<S>, off: OfflineState<S>)
    requires Runnable(plan) && HasOutputs(WithoutOutputs(plan)) && |rt.nodes| == |plan.nodes|
    requires Agree(ops, plan, params, 0, synced, rt, off.(buffers := Zeroed(ops, plan.buffers, plan.blockSize)))
    requires synced || ReadyUntil(ops, plan, |plan.nodes|)
    ensures Agree(ops, plan, params, |plan.nodes|, synced,
                  RenderFirst(ops, plan.blockSize, plan.sampleRate, rt, |rt.nodes|),
                  RenderNodes(ops, WithoutOutputs(plan), params, |WithoutOutputs(plan).nodes|, block,
                              off.(buffers := Zeroed(ops, plan.buffers, plan.blockSize))))
  {
    NodesKeepAgreement(ops, plan, params, |plan.nodes|, synced, block, rt,
                       off.(buffers := Zeroed(ops, plan.buffers, plan.blockSize)));
    assert plan.nodes[..|plan.nodes|] == plan.nodes;
  }

  lemma InitialAgrees<S(!new)>(ops: Arithmetic<S>, plan: Plan<S>, params: map<string, map<string, S>>)
    ensures Agree(ops, plan, params, 0, true, Initial(ops, plan, params),
                  OfflineState(map[], Zeroed(ops, plan.buffers, plan.blockSize), []))
  {
    ZeroedShape(ops, plan);
  }

  lemma RtNext<S(!new)>(ops: Arithmetic<S>, n: nat, rate: nat, s: RtState<S>, k: nat)
    ensures RtBlocks(ops, n, rate, s, k + 1) ==
            RenderFirst(ops, n, rate, RtBlocks(ops, n, rate, s, k), |RtBlocks(ops, n, rate, s, k).nodes|)
  {
  }

  lemma OfflineBlockNext<S(!new)>(ops: Arithmetic<S>, plan: Plan<S>, params: map<string, map<string, S>>, k: nat)
    requires HasOutputs(WithoutOutputs(plan))
    ensures RenderBlocks(ops, WithoutOutputs(plan), params, k + 1) ==
            RenderNodes(ops, WithoutOutputs(plan), params, |WithoutOutputs(plan).nodes|, k,
                        RenderBlocks(ops, WithoutOutputs(plan), params, k).(
                          buffers := Zeroed(ops, plan.buffers, plan.blockSize)))
  {
  }

  ghost predicate AgreeAfter<S(!new)>(ops: Arithmetic<S>, plan: Plan<S>, params: map<string, map<string, S>>,
                                      s: RtState<S>, k: nat)
    requires HasOutputs(WithoutOutputs(plan))
  {
    Agree(ops, plan, params, |plan.nodes|, false, RtBlocks(ops, plan.blockSize, plan.sampleRate, s, k),
          RenderBlocks(ops, WithoutOutputs(plan), params, k))
  }

  lemma NextBlockAgrees<S(!new)>(ops: Arithmetic<S>, plan: Plan<S>, params: map<string, map<string, S>>, s: RtState<S>,
                                 k: nat)
    requires Runnable(plan) && HasOutputs(WithoutOutputs(plan)) && AgreeAfter(ops, plan, params, s, k)
    requires ReadyUntil(ops, plan, |plan.nodes|)
    ensures AgreeAfter(ops, plan, params, s, k + 1)
  {
    var rt := RtBlocks(ops, plan.blockSize, plan.sampleRate, s, k);
    var off := RenderBlocks(ops, WithoutOutputs(plan), params, k);
    RtNext(ops, plan.blockSize, plan.sampleRate, s, k);
    OfflineBlockNext(ops, plan, params, k);
    ReadyForBlock(ops, plan, params, rt, off);
    BlockAgrees(ops, plan, params, false, k, rt, off);
  }

  lemma {:induction false} BlocksAgree<S(!new)>(ops: Arithmetic<S>, plan: Plan<S>, params: map<string, map<string, S>>,
                                                s: RtState<S>, k: nat)
    requires Runnable(plan) && HasOutputs(WithoutOutputs(plan)) && AgreeAfter(ops, plan, params, s, 0)
    requires ReadyUntil(ops, plan, |plan.nodes|)
    ensures AgreeAfter(ops, plan, params, s, k)
    decreases k
  {
    if k > 0 {
      var i := k - 1;
      BlocksAgree(ops, plan, params, s, i);
      assert AgreeAfter(ops, plan, params, s, i);
      NextBlockAgrees(ops, plan, params, s, i);
    }
  }

  /** Every buffer holds the same samples on both sides, and every node has the same phase. */
  ghost predicate SameAudio<S(!new)>(ops: Arithmetic<S>, plan: Plan<S>, rt: RtState<S>, off: OfflineState<S>) {
    && |rt.rows| == |plan.buffers| && |rt.nodes| == |plan.nodes|
    && (forall b :: 0 <= b < |plan.buffers| ==>
          plan.buffers[b].id in off.buffers && rt.rows[b] == off.buffers[plan.buffers[b].id])
    && (forall i :: 0 <= i < |plan.nodes| ==> rt.nodes[i].phase == PhaseOf(ops, off.phases, plan.nodes[i].nodeId))
  }

  lemma SyncedAgrees<S(!new)>(ops: Arithmetic<S>, plan: Plan<S>, params: map<string, map<string, S>>, rt: RtState<S>,
                              off: OfflineState<S>)
    requires exists k: nat :: Agree(ops, plan, params, k, true, rt, off)
    ensures Agree(ops, plan, params, |plan.nodes|, false, rt, off)
  {
  }

  lemma AgreementIsSameAudio<S(!new)>(ops: Arithmetic<S>, plan: Plan<S>, params: map<string, map<string, S>>,
                                      rt: RtState<S>, off: OfflineState<S>)
    requires Agree(ops, plan, params, |plan.nodes|, false, rt, off)
    ensures SameAudio(ops, plan, rt, off)
  {
    forall b | 0 <= b < |plan.buffers| ensures rt.rows[b] == off.buffers[plan.buffers[b].id] {
      NothingLoudLater(ops, plan, plan.buffers[b].id);
    }
  }

  lemma StartAgrees<S(!new)>(ops: Arithmetic<S>, plan: Plan<S>, params: map<string, map<string, S>>)
    requires HasOutputs(WithoutOutputs(plan))
    ensures AgreeAfter(ops, plan, params, Initial(ops, plan, params), 0)
  {
    InitialAgrees(ops, plan, params);
    var rt, off := Initial(ops, plan, params), OfflineState(map[], Zeroed(ops, plan.buffers, plan.blockSize), []);
    SyncedAgrees(ops, plan, params, rt, off);
  }

  /** The audio of both sides is the same after k blocks. */
  ghost predicate SameAfter<S(!new)>(ops: Arithmetic<S>, plan: Plan<S>, params: map<string, map<string, S>>, k: nat)
    requires HasOutputs(WithoutOutputs(plan))
  {
    SameAudio(ops, plan, RtBlocks(ops, plan.blockSize, plan.sampleRate, Initial(ops, plan, params), k),
              RenderBlocks(ops, WithoutOutputs(plan), params, k))
  }

  /** After any number of blocks, every realtime buffer holds the samples of the offline buffer, and
      every oscillator has the same phase, although the realtime side never clears a buffer, if no
      product hears a later node. */
  lemma RealtimeRefinesOffline<S(!new)>(ops: Arithmetic<S>, plan: Plan<S>, params: map<string, map<string, S>>, k: nat)
    requires Runnable(plan) && ReadyUntil(ops, plan, |plan.nodes|)
    ensures HasOutputs(WithoutOutputs(plan)) && SameAfter(ops, plan, params, k)
  {
    KeptHasOutputs(plan);
    StartAgrees(ops, plan, params);
    var s := Initial(ops, plan, params);
    BlocksAgree(ops, plan, params, s, k);
    AgreementIsSameAudio(ops, plan, params, RtBlocks(ops, plan.blockSize, plan.sampleRate, s, k),
                         RenderBlocks(ops, WithoutOutputs(plan), params, k));
  }

  /** Both executors play the plan alike, for as many blocks as one likes. */
  ghost predicate PlaysAlike<S(!new)>(ops: Arithmetic<S>, plan: Plan<S>, params: map<string, map<string, S>>) {
    HasOutputs(WithoutOutputs(plan)) && forall k: nat :: SameAfter(ops, plan, params, k)
  }

  lemma PlayablePlaysAlike<S(!new)>(ops: Arithmetic<S>, plan: Plan<S>, params: map<string, map<string, S>>)
    requires Playable(plan)
    ensures PlaysAlike(ops, plan, params)
  {
    ProducersFirstIsReady(ops, plan);
    KeptHasOutputs(plan);
    forall k: nat
      ensures HasOutputs(WithoutOutputs(plan)) && SameAfter(ops, plan, params, k)
    {
      RealtimeRefinesOffline(ops, plan, params, k);
    }
  }

  // ---- Plans made from a planning order -----------------------------------------------------------------

  lemma {:induction false} KeepOrder(p: string -> bool, nodes: seq<string>, links: seq<Link>, order: seq<string>)
    requires PredecessorsFirst(nodes, links, order)
    ensures forall k, u :: 0 <= k < |Keep(p, order)| && u in nodes && p(u) && Link(u, Keep(p, order)[k]) in links ==>
              u in Keep(p, order)[..k]
  {
    if order != [] {
      var n := |order| - 1;
      var init := order[..n];
      forall k | 0 <= k < |init| ensures After(nodes, links, init, k) {
        assert After(nodes, links, order, k);
        assert init[..k] == order[..k];
      }
      KeepOrder(p, nodes, links, init);
      assert After(nodes, links, order, n);
      var kept := Keep(p, init);
      forall k, u | 0 <= k < |Keep(p, order)| && u in nodes && p(u) && Link(u, Keep(p, order)[k]) in links
        ensures u in Keep(p, order)[..k]
      {
        assert Keep(p, order)[..k] == kept[..k];
        if k < |kept| {
          assert Keep(p, order)[k] == kept[k];
        } else {
          assert kept[..k] == kept;
        }
      }
    }
  }

  /** On a graph without feedback edges, a plan that follows a topological order has every producer
      before its consumers, so both executors agree on it. */
  lemma TopologicalPlanIsReady<S(!new)>(graph: AudioGraph<S>, links: seq<Link>, order: seq<string>,
                                        isAudio: string -> bool, plan: Plan<S>)
    requires PredecessorsFirst(order, links, order) && Distinct(order)
    requires forall e :: e in graph.edges ==> Link(e.source.nodeId, e.target.nodeId) in links
    requires forall n :: n in graph.nodes ==> n.id in order
    requires forall n, p :: n in graph.nodes && !isAudio(n.id) && p in n.ports ==> !p.isSignal
    requires WellBuilt(graph, Keep(isAudio, order), plan)
    ensures ProducersFirst(plan) && DistinctNodes(plan)
  {
    var ids := Keep(isAudio, order);
    DistinctKept(isAudio, order);
    KeepOrder(isAudio, order, links, order);
    forall i, x | 0 <= i < |plan.nodes| && x in plan.nodes[i].signalInputs ensures !WrittenFrom(plan, i, x.bufferId) {
      InputWrittenBefore(graph, links, order, isAudio, plan, i, x);
    }
  }

  /** In a plan built from a graph, no two nodes render into the same buffer. */
  lemma BuiltPlansHaveSingleWriters<S(!new)>(graph: AudioGraph<S>, ids: seq<string>, plan: Plan<S>, i: nat, j: nat,
                                             id: string)
    requires WellBuilt(graph, ids, plan) && Distinct(ids) && Renderable(plan)
    requires i < |plan.nodes| && j < |plan.nodes| && Writes(plan.nodes[i], id) && Writes(plan.nodes[j], id)
    ensures i == j
  {
    var b :| 0 <= b < |plan.buffers| && plan.buffers[b].id == plan.nodes[i].signalOutputs[0].bufferId;
    WriterIsProducer(graph, plan, ids, i, id, b);
    WriterIsProducer(graph, plan, ids, j, id, b);
  }

  lemma InputWrittenBefore<S(!new)>(graph: AudioGraph<S>, links: seq<Link>, order: seq<string>,
                                    isAudio: string -> bool, plan: Plan<S>, i: nat, x: SignalInput)
    requires Distinct(Keep(isAudio, order))
    requires forall k, u ::
               0 <= k < |Keep(isAudio, order)| && u in order && isAudio(u)
                   && Link(u, Keep(isAudio, order)[k]) in links ==>
               u in Keep(isAudio, order)[..k]
    requires forall e :: e in graph.edges ==> Link(e.source.nodeId, e.target.nodeId) in links
    requires forall n :: n in graph.nodes ==> n.id in order
    requires forall n, p :: n in graph.nodes && !isAudio(n.id) && p in n.ports ==> !p.isSignal
    requires WellBuilt(graph, Keep(isAudio, order), plan)
    requires i < |plan.nodes| && x in plan.nodes[i].signalInputs
    ensures !WrittenFrom(plan, i, x.bufferId)
  {
    var ids := Keep(isAudio, order);
    var node := plan.nodes[i];
    InputStandsForEdge(graph, node, plan.edges, plan.buffers, x);
    var edge := AudioEdge(x.source, PortRef(node.nodeId, x.portId));
    assert edge in graph.edges && IsSignalEdge(edge, graph);
    assert isAudio(x.source.nodeId) && x.source.nodeId in ids[..i];
    SourceIsOnlyWriter(graph, plan, ids, i, x);
  }

  /** If the source of an input comes before a node, neither that node nor a later one writes the input. */
  lemma SourceIsOnlyWriter<S(!new)>(graph: AudioGraph<S>, plan: Plan<S>, ids: seq<string>, i: nat, x: SignalInput)
    requires WellBuilt(graph, ids, plan) && Distinct(ids) && i <= |ids|
    requires BufferOf(plan.buffers, x.bufferId, x.source) && x.source.nodeId in ids[..i]
    ensures !WrittenFrom(plan, i, x.bufferId)
  {
    var b :| 0 <= b < |plan.buffers| && plan.buffers[b].id == x.bufferId && plan.buffers[b].producer == x.source;
    forall j | i <= j < |plan.nodes| ensures !Writes(plan.nodes[j], x.bufferId) {
      WriterIsProducer(graph, plan, ids, j, x.bufferId, b);
    }
  }

  lemma WriterIsProducer<S(!new)>(graph: AudioGraph<S>, plan: Plan<S>, ids: seq<string>, j: nat, bufferId: string,
                                  b: nat)
    requires WellBuilt(graph, ids, plan) && j < |plan.nodes| && b < |plan.buffers| && plan.buffers[b].id == bufferId
    ensures Writes(plan.nodes[j], bufferId) ==> plan.buffers[b].producer.nodeId == ids[j]
  {
  }
}
