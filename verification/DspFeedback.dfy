/** Exactly when the two executors agree: the realtime one hears the previous block where a product
    comes before the node that feeds it, and the offline one hears zeros. */
module DspFeedback {
  import opened Basics
  import opened DspPlan
  import opened DspBlocks
  import opened DspOffline
  import opened DspRealtime
  import opened DspRefinement

  /** No two nodes render into the same buffer. */
  ghost predicate SingleWriters<S(!new)>(plan: Plan<S>) {
    forall i, j, id ::
          0 <= i < |plan.nodes| && 0 <= j < |plan.nodes| && Writes(plan.nodes[i], id) && Writes(plan.nodes[j], id) ==>
      i == j
  }

  /** A plan whose nodes each render into buffers of their own, one sample at least. */
  ghost predicate Separate<S(!new)>(plan: Plan<S>) {
    Runnable(plan) && HasOutputs(WithoutOutputs(plan)) && SingleWriters(plan) && plan.blockSize > 0
  }

  /** Arithmetic that loses nothing: products tell their operands apart, and neither products nor
      oscillators yield zero. */
  ghost predicate Lossless<S(!new)>(ops: Arithmetic<S>) {
    && (forall a, b, c, d :: ops.mul(a, b) == ops.mul(c, d) ==> a == c && b == d)
    && (forall a, b :: ops.mul(a, b) != ops.zero)
    && (forall a :: ops.sinOf(a) != ops.zero)
  }

  // ---- Buffers between two nodes ------------------------------------------------------------------

  /** No node from the k-th to the one before the m-th renders into the buffer. */
  ghost predicate Untouched<S(!new)>(plan: Plan<S>, k: nat, m: nat, id: string) {
    forall i {:trigger Writes(plan.nodes[i], id)} :: k <= i < m && i < |plan.nodes| ==> !Writes(plan.nodes[i], id)
  }

  lemma UntouchedShorter<S(!new)>(plan: Plan<S>, k: nat, m: nat, id: string)
    requires k < m <= |plan.nodes| && Untouched(plan, k, m, id)
    ensures Untouched(plan, k, m - 1, id) && !Writes(plan.nodes[m - 1], id)
  {
  }

  /** The realtime nodes are those of the plan, in any phase. */
  ghost predicate FromPlan<S(!new)>(ops: Arithmetic<S>, plan: Plan<S>, params: map<string, map<string, S>>,
                                    s: RtState<S>) {
    && |s.nodes| == |plan.nodes| && |s.rows| == |plan.buffers|
    && forall i :: 0 <= i < |plan.nodes| ==>
         s.nodes[i].(phase := ops.zero) == RtNodeOf(ops, plan.nodes[i], plan.buffers, params)
  }

  lemma StaysFromPlan<S(!new)>(ops: Arithmetic<S>, plan: Plan<S>, params: map<string, map<string, S>>, s: RtState<S>,
                               k: nat)
    requires FromPlan(ops, plan, params, s) && k <= |plan.nodes|
    ensures FromPlan(ops, plan, params, RenderFirst(ops, plan.blockSize, plan.sampleRate, s, k))
  {
    var t := RenderFirst(ops, plan.blockSize, plan.sampleRate, s, k);
    forall i | 0 <= i < |plan.nodes|
      ensures t.nodes[i].(phase := ops.zero) == RtNodeOf(ops, plan.nodes[i], plan.buffers, params)
    {
      KindsStay(ops, plan.blockSize, plan.sampleRate, s, k, i);
      assert t.nodes[i].(phase := ops.zero) == t.nodes[i].(phase := s.nodes[i].phase).(phase := ops.zero);
    }
  }

  /** Rendering a node changes no other buffer than its own. */
  lemma NodeLeavesRow<S(!new)>(ops: Arithmetic<S>, plan: Plan<S>, params: map<string, map<string, S>>, s: RtState<S>,
                               k: nat, b: nat)
    requires Runnable(plan) && FromPlan(ops, plan, params, s) && k < |plan.nodes| && b < |plan.buffers|
    requires !Writes(plan.nodes[k], plan.buffers[b].id)
    ensures RenderRt(ops, plan.blockSize, plan.sampleRate, s, k).rows[b] == s.rows[b]
  {
    assert s.nodes[k].output == RtNodeOf(ops, plan.nodes[k], plan.buffers, params).output;
    assert s.nodes[k].kind == KindOf(ops, plan.nodes[k], params);
    if IsRendering(plan.nodes[k].kind) {
      var own := OutputRow(plan, k);
      assert own != b;
    } else {
      assert s.nodes[k].kind.Out?;
    }
  }

  lemma {:induction false} RowStays<S(!new)>(ops: Arithmetic<S>, plan: Plan<S>, params: map<string, map<string, S>>,
                                             s: RtState<S>, k: nat, m: nat, b: nat)
    requires Runnable(plan) && FromPlan(ops, plan, params, s) && k <= m <= |plan.nodes| && b < |plan.buffers|
    requires Untouched(plan, k, m, plan.buffers[b].id)
    ensures RenderFirst(ops, plan.blockSize, plan.sampleRate, s, m).rows[b]
         == RenderFirst(ops, plan.blockSize, plan.sampleRate, s, k).rows[b]
    decreases m
  {
    if k < m {
      RowStays(ops, plan, params, s, k, m - 1, b);
      NextLeavesRow(ops, plan, params, s, m - 1, b);
    }
  }

  lemma NextLeavesRow<S(!new)>(ops: Arithmetic<S>, plan: Plan<S>, params: map<string, map<string, S>>, s: RtState<S>,
                               k: nat, b: nat)
    requires Runnable(plan) && FromPlan(ops, plan, params, s) && k < |plan.nodes| && b < |plan.buffers|
    requires !Writes(plan.nodes[k], plan.buffers[b].id)
    ensures RenderFirst(ops, plan.blockSize, plan.sampleRate, s, k + 1).rows[b]
         == RenderFirst(ops, plan.blockSize, plan.sampleRate, s, k).rows[b]
  {
    StaysFromPlan(ops, plan, params, s, k);
    NodeLeavesRow(ops, plan, params, RenderFirst(ops, plan.blockSize, plan.sampleRate, s, k), k, b);
  }

  lemma UntouchedAfter<S(!new)>(plan: Plan<S>, j: nat, id: string)
    requires SingleWriters(plan) && j < |plan.nodes| && Writes(plan.nodes[j], id)
    ensures Untouched(plan, j + 1, |plan.nodes|, id)
  {
  }

  /** What a node renders is still there at the end of the block. */
  lemma RowAtEnd<S(!new)>(ops: Arithmetic<S>, plan: Plan<S>, params: map<string, map<string, S>>, s: RtState<S>,
                          j: nat, b: nat)
    requires Runnable(plan) && SingleWriters(plan) && FromPlan(ops, plan, params, s)
    requires j < |plan.nodes| && b < |plan.buffers| && Writes(plan.nodes[j], plan.buffers[b].id)
    ensures
      var n, rate := plan.blockSize, plan.sampleRate;
      RenderFirst(ops, n, rate, s, |plan.nodes|).rows[b] == RenderFirst(ops, n, rate, s, j + 1).rows[b]
  {
    UntouchedAfter(plan, j, plan.buffers[b].id);
    RowStays(ops, plan, params, s, j + 1, |plan.nodes|, b);
  }

  /** A buffer of the offline table after the first k nodes of a block. */
  ghost function BufferAfter<S(!new)>(ops: Arithmetic<S>, plan: Plan<S>, params: map<string, map<string, S>>,
                                      block: nat, off: OfflineState<S>, k: nat, id: string): Option<seq<S>>
    requires Runnable(plan) && HasOutputs(WithoutOutputs(plan)) && k <= |plan.nodes|
  {
    var buffers := OfflineFirst(ops, plan, params, k, block, off).buffers;
    if id in buffers then Some(buffers[id]) else None
  }

  lemma NodeLeavesBuffer<S(!new)>(ops: Arithmetic<S>, plan: Plan<S>, params: map<string, map<string, S>>, block: nat,
                                  off: OfflineState<S>, k: nat, id: string)
    requires Runnable(plan) && HasOutputs(WithoutOutputs(plan)) && k < |plan.nodes| && !Writes(plan.nodes[k], id)
    ensures BufferAfter(ops, plan, params, block, off, k + 1, id) == BufferAfter(ops, plan, params, block, off, k, id)
  {
    OfflineNext(ops, plan, params, k, block, off);
    if plan.nodes[k].kind != OUTPUT_KIND {
      var _ := OutputRow(plan, k);
    }
  }

  /** The same for the offline table. */
  lemma BufferStays<S(!new)>(ops: Arithmetic<S>, plan: Plan<S>, params: map<string, map<string, S>>, block: nat,
                             off: OfflineState<S>, k: nat, m: nat, id: string)
    requires Runnable(plan) && HasOutputs(WithoutOutputs(plan)) && k <= m <= |plan.nodes|
    requires Untouched(plan, k, m, id)
    ensures BufferAfter(ops, plan, params, block, off, m, id) == BufferAfter(ops, plan, params, block, off, k, id)
  {
    var after := (i: nat) =>
      if i <= |plan.nodes| then BufferAfter(ops, plan, params, block, off, i, id) else None;
    forall i: nat | k <= i < m ensures after(i + 1) == after(i) {
      NodeLeavesBuffer(ops, plan, params, block, off, i, id);
    }
    SameThroughout(after, k, m);
  }

  // ---- The first block ------------------------------------------------------------------------------

  function FirstBlock<S(!new)>(ops: Arithmetic<S>, plan: Plan<S>, params: map<string, map<string, S>>): RtState<S> {
    RtBlocks(ops, plan.blockSize, plan.sampleRate, Initial(ops, plan, params), 1)
  }

  /** The offline state at the start of the second block. */
  ghost function Cleared<S(!new)>(ops: Arithmetic<S>, plan: Plan<S>,
                                  params: map<string, map<string, S>>): OfflineState<S>
    requires HasOutputs(WithoutOutputs(plan))
  {
    RenderBlocks(ops, WithoutOutputs(plan), params, 1).(buffers := Zeroed(ops, plan.buffers, plan.blockSize))
  }

  lemma FirstBlockNodes<S(!new)>(ops: Arithmetic<S>, plan: Plan<S>, params: map<string, map<string, S>>)
    ensures var s := Initial(ops, plan, params);
            && FromPlan(ops, plan, params, s)
            && FirstBlock(ops, plan, params) == RenderFirst(ops, plan.blockSize, plan.sampleRate, s, |plan.nodes|)
            && FromPlan(ops, plan, params, FirstBlock(ops, plan, params))
  {
    var s := Initial(ops, plan, params);
    assert RtBlocks(ops, plan.blockSize, plan.sampleRate, s, 0) == s;
    StaysFromPlan(ops, plan, params, s, |plan.nodes|);
  }

  /** In the first block both sides start from zeros, so they agree on everything. */
  lemma FirstBlockAgrees<S(!new)>(ops: Arithmetic<S>, plan: Plan<S>, params: map<string, map<string, S>>)
    requires Runnable(plan) && HasOutputs(WithoutOutputs(plan))
    ensures Agree(ops, plan, params, 0, false, FirstBlock(ops, plan, params), Cleared(ops, plan, params))
  {
    var rt := Initial(ops, plan, params);
    var off := RenderBlocks(ops, WithoutOutputs(plan), params, 0);
    InitialAgrees(ops, plan, params);
    assert off.(buffers := Zeroed(ops, plan.buffers, plan.blockSize)) == off;
    BlockAgrees(ops, plan, params, true, 0, rt, off);
    FirstBlockNodes(ops, plan, params);
    OfflineBlockNext(ops, plan, params, 0);
    var off1 := RenderBlocks(ops, WithoutOutputs(plan), params, 1);
    SyncedAgrees(ops, plan, params, FirstBlock(ops, plan, params), off1);
    ReadyForBlock(ops, plan, params, FirstBlock(ops, plan, params), off1);
  }

  /** What a node rendered in the first block. */
  lemma FirstBlockRow<S(!new)>(ops: Arithmetic<S>, plan: Plan<S>, params: map<string, map<string, S>>, j: nat, b: nat)
    requires Separate(plan) && j < |plan.nodes| && b < |plan.buffers| && Writes(plan.nodes[j], plan.buffers[b].id)
    ensures |FirstBlock(ops, plan, params).rows[b]| == plan.blockSize
    ensures plan.nodes[j].kind == SIG_KIND ==>
              FirstBlock(ops, plan, params).rows[b][0] == ParamOr(plan.nodes[j].params, "value", ops.zero)
    ensures Lossless(ops) && !Silent(ops, plan.nodes[j]) ==> FirstBlock(ops, plan, params).rows[b][0] != ops.zero
  {
    var s := Initial(ops, plan, params);
    FirstBlockNodes(ops, plan, params);
    StaysFromPlan(ops, plan, params, s, j);
    RowAtEnd(ops, plan, params, s, j, b);
    NodeRendersRow(ops, plan, params, RenderFirst(ops, plan.blockSize, plan.sampleRate, s, j), j, b);
  }

  lemma NodeRendersRow<S(!new)>(ops: Arithmetic<S>, plan: Plan<S>, params: map<string, map<string, S>>, s: RtState<S>,
                                j: nat, b: nat)
    requires Separate(plan) && FromPlan(ops, plan, params, s) && j < |plan.nodes| && b < |plan.buffers|
    requires Writes(plan.nodes[j], plan.buffers[b].id)
    ensures var row := RenderRt(ops, plan.blockSize, plan.sampleRate, s, j).rows[b];
            && |row| == plan.blockSize
            && (plan.nodes[j].kind == SIG_KIND ==> row[0] == ParamOr(plan.nodes[j].params, "value", ops.zero))
            && (Lossless(ops) && !Silent(ops, plan.nodes[j]) ==> row[0] != ops.zero)
  {
    BufferIndexUnique(plan.buffers, b);
    assert s.nodes[j].output == RtNodeOf(ops, plan.nodes[j], plan.buffers, params).output;
    assert s.nodes[j].kind == KindOf(ops, plan.nodes[j], params);
  }

  // ---- The second block ------------------------------------------------------------------------------

  /** The first sample that the k-th node hears at a port, in real time and offline. */
  function Heard<S(!new)>(ops: Arithmetic<S>, plan: Plan<S>, k: nat, portId: string, rows: seq<seq<S>>): S
    requires k < |plan.nodes|
  {
    SampleAt(ops, rows, InputIndex(plan.nodes[k], portId, plan.buffers), 0)
  }

  function HeardOffline<S(!new)>(ops: Arithmetic<S>, plan: Plan<S>, k: nat, portId: string,
                                 buffers: map<string, seq<S>>): S
    requires k < |plan.nodes|
  {
    var block := InputBlock(ops, plan.nodes[k], portId, buffers, plan.blockSize);
    if block == [] then ops.zero else block[0]
  }

  /** The two states in front of the k-th node of the second block. */
  function RtBefore<S(!new)>(ops: Arithmetic<S>, plan: Plan<S>, params: map<string, map<string, S>>, k: nat): RtState<S>
    requires k <= |plan.nodes|
  {
    RenderFirst(ops, plan.blockSize, plan.sampleRate, FirstBlock(ops, plan, params), k)
  }

  ghost function OffBefore<S(!new)>(ops: Arithmetic<S>, plan: Plan<S>, params: map<string, map<string, S>>,
                                    k: nat): OfflineState<S>
    requires k <= |plan.nodes| && HasOutputs(WithoutOutputs(plan))
  {
    OfflineFirst(ops, plan, params, k, 1, Cleared(ops, plan, params))
  }

  lemma AgreeBefore<S(!new)>(ops: Arithmetic<S>, plan: Plan<S>, params: map<string, map<string, S>>, k: nat)
    requires Runnable(plan) && HasOutputs(WithoutOutputs(plan)) && k <= |plan.nodes| && ReadyUntil(ops, plan, k)
    ensures Agree(ops, plan, params, k, false, RtBefore(ops, plan, params, k), OffBefore(ops, plan, params, k))
  {
    FirstBlockAgrees(ops, plan, params);
    FirstBlockNodes(ops, plan, params);
    NodesKeepAgreement(ops, plan, params, k, false, 1, FirstBlock(ops, plan, params), Cleared(ops, plan, params));
  }

  lemma ClearedBuffer<S(!new)>(ops: Arithmetic<S>, plan: Plan<S>, params: map<string, map<string, S>>, id: string)
    requires Separate(plan)
    ensures BufferAfter(ops, plan, params, 1, Cleared(ops, plan, params), 0, id) in
            {None, Some(Constant(plan.blockSize, ops.zero))}
  {
    ZeroedShape(ops, plan);
    assert OffBefore(ops, plan, params, 0) == Cleared(ops, plan, params);
  }

  /** A port hears zero offline as long as nothing was rendered into its buffer. */
  lemma UnwrittenIsZero<S(!new)>(ops: Arithmetic<S>, plan: Plan<S>, params: map<string, map<string, S>>, k: nat,
                                 portId: string, id: string)
    requires Separate(plan) && k < |plan.nodes| && Untouched(plan, 0, k, id)
    requires FindInput(plan.nodes[k].signalInputs, portId).Some?
    requires FindInput(plan.nodes[k].signalInputs, portId).value.bufferId == id
    ensures HeardOffline(ops, plan, k, portId, OffBefore(ops, plan, params, k).buffers) == ops.zero
  {
    ClearedBuffer(ops, plan, params, id);
    BufferStays(ops, plan, params, 1, Cleared(ops, plan, params), 0, k, id);
  }

  /** In real time it hears what the first block left there. */
  lemma UnwrittenIsKept<S(!new)>(ops: Arithmetic<S>, plan: Plan<S>, params: map<string, map<string, S>>, k: nat,
                                 portId: string, b: nat)
    requires Separate(plan) && k < |plan.nodes| && b < |plan.buffers| && Untouched(plan, 0, k, plan.buffers[b].id)
    requires InputIndex(plan.nodes[k], portId, plan.buffers) == Some(b)
    requires |FirstBlock(ops, plan, params).rows| == |plan.buffers| && |FirstBlock(ops, plan, params).rows[b]| > 0
    ensures Heard(ops, plan, k, portId, RtBefore(ops, plan, params, k).rows) == FirstBlock(ops, plan, params).rows[b][0]
  {
    FirstBlockNodes(ops, plan, params);
    RowStays(ops, plan, params, FirstBlock(ops, plan, params), 0, k, b);
  }

  /** A port that is not ready hears the first block in real time and zero offline. */
  lemma LateInput<S(!new)>(ops: Arithmetic<S>, plan: Plan<S>, params: map<string, map<string, S>>, k: nat,
                           portId: string)
    returns (j: nat, b: nat)
    requires Separate(plan) && k < |plan.nodes| && !InputReady(ops, plan, k, portId)
    ensures k <= j < |plan.nodes| && !Silent(ops, plan.nodes[j])
    ensures b < |plan.buffers| && Writes(plan.nodes[j], plan.buffers[b].id)
    ensures InputIndex(plan.nodes[k], portId, plan.buffers) == Some(b)
    ensures |FirstBlock(ops, plan, params).rows[b]| == plan.blockSize
    ensures Heard(ops, plan, k, portId, RtBefore(ops, plan, params, k).rows) == FirstBlock(ops, plan, params).rows[b][0]
    ensures HeardOffline(ops, plan, k, portId, OffBefore(ops, plan, params, k).buffers) == ops.zero
  {
    var id := FindInput(plan.nodes[k].signalInputs, portId).value.bufferId;
    j :| k <= j < |plan.nodes| && Writes(plan.nodes[j], id) && !Silent(ops, plan.nodes[j]);
    b := OutputRow(plan, j);
    FirstBlockRow(ops, plan, params, j, b);
    UnwrittenIsKept(ops, plan, params, k, portId, b);
    UnwrittenIsZero(ops, plan, params, k, portId, id);
  }

  /** If a product hears different operands on the two sides, and multiplies them to different
      results, the audio differs after the second block. */
  lemma DifferentProductsStay<S(!new)>(ops: Arithmetic<S>, plan: Plan<S>, params: map<string, map<string, S>>, k: nat)
    requires Separate(plan) && k < |plan.nodes| && plan.nodes[k].kind == MUL_KIND && ReadyUntil(ops, plan, k)
    requires
      var rows, buffers := RtBefore(ops, plan, params, k).rows, OffBefore(ops, plan, params, k).buffers;
      ops.mul(Heard(ops, plan, k, "left", rows), Heard(ops, plan, k, "right", rows))
      != ops.mul(HeardOffline(ops, plan, k, "left", buffers), HeardOffline(ops, plan, k, "right", buffers))
    ensures !SameAfter(ops, plan, params, 2)
  {
    var b := OutputRow(plan, k);
    RealtimeProduct(ops, plan, params, k, b);
    OfflineProduct(ops, plan, params, k, b);
  }

  lemma RealtimeProduct<S(!new)>(ops: Arithmetic<S>, plan: Plan<S>, params: map<string, map<string, S>>, k: nat, b: nat)
    requires Separate(plan) && k < |plan.nodes| && plan.nodes[k].kind == MUL_KIND
    requires b < |plan.buffers| && Writes(plan.nodes[k], plan.buffers[b].id)
    ensures
      var rows := RtBefore(ops, plan, params, k).rows;
      var end := RtBlocks(ops, plan.blockSize, plan.sampleRate, Initial(ops, plan, params), 2).rows;
      |end| == |plan.buffers| && |end[b]| == plan.blockSize
      && end[b][0] == ops.mul(Heard(ops, plan, k, "left", rows), Heard(ops, plan, k, "right", rows))
  {
    FirstBlockNodes(ops, plan, params);
    var first := FirstBlock(ops, plan, params);
    StaysFromPlan(ops, plan, params, first, k);
    RtNext(ops, plan.blockSize, plan.sampleRate, Initial(ops, plan, params), 1);
    RowAtEnd(ops, plan, params, first, k, b);
    ProductRow(ops, plan, params, RtBefore(ops, plan, params, k), k, b);
  }

  lemma ProductRow<S(!new)>(ops: Arithmetic<S>, plan: Plan<S>, params: map<string, map<string, S>>, s: RtState<S>,
                            k: nat, b: nat)
    requires Separate(plan) && FromPlan(ops, plan, params, s) && k < |plan.nodes| && plan.nodes[k].kind == MUL_KIND
    requires b < |plan.buffers| && Writes(plan.nodes[k], plan.buffers[b].id)
    ensures
      var row := RenderRt(ops, plan.blockSize, plan.sampleRate, s, k).rows[b];
      |row| == plan.blockSize
          && row[0] == ops.mul(Heard(ops, plan, k, "left", s.rows), Heard(ops, plan, k, "right", s.rows))
  {
    BufferIndexUnique(plan.buffers, b);
    OtherKind(plan.nodes[k]);
    assert s.nodes[k].(phase := ops.zero) == RtNodeOf(ops, plan.nodes[k], plan.buffers, params);
  }

  lemma OtherKind<S(!new)>(node: PlanNode<S>)
    requires node.kind == MUL_KIND
    ensures node.kind != SIG_KIND && node.kind != OSC_KIND && node.kind != OUTPUT_KIND
  {
    assert |MUL_KIND| != |SIG_KIND| && |MUL_KIND| != |OSC_KIND| && |MUL_KIND| != |OUTPUT_KIND|;
  }

  lemma OfflineProduct<S(!new)>(ops: Arithmetic<S>, plan: Plan<S>, params: map<string, map<string, S>>, k: nat, b: nat)
    requires Separate(plan) && k < |plan.nodes| && plan.nodes[k].kind == MUL_KIND && ReadyUntil(ops, plan, k)
    requires b < |plan.buffers| && Writes(plan.nodes[k], plan.buffers[b].id)
    ensures
      var buffers := OffBefore(ops, plan, params, k).buffers;
      var end := RenderBlocks(ops, WithoutOutputs(plan), params, 2).buffers;
      plan.buffers[b].id in end && end[plan.buffers[b].id] != []
      && end[plan.buffers[b].id][0]
         == ops.mul(HeardOffline(ops, plan, k, "left", buffers), HeardOffline(ops, plan, k, "right", buffers))
  {
    var id := plan.buffers[b].id;
    OtherKind(plan.nodes[k]);
    AgreeBefore(ops, plan, params, k);
    OfflineNext(ops, plan, params, k, 1, Cleared(ops, plan, params));
    InputIsBlock(ops, plan, k, "left", OffBefore(ops, plan, params, k).buffers);
    InputIsBlock(ops, plan, k, "right", OffBefore(ops, plan, params, k).buffers);
    OfflineAtEnd(ops, plan, params, k, id);
  }

  lemma OfflineAtEnd<S(!new)>(ops: Arithmetic<S>, plan: Plan<S>, params: map<string, map<string, S>>, k: nat,
                              id: string)
    requires Separate(plan) && k < |plan.nodes| && Writes(plan.nodes[k], id)
    requires id in OffBefore(ops, plan, params, k + 1).buffers
    ensures
      var end := RenderBlocks(ops, WithoutOutputs(plan), params, 2).buffers;
      id in end && end[id] == OffBefore(ops, plan, params, k + 1).buffers[id]
  {
    UntouchedAfter(plan, k, id);
    BufferStays(ops, plan, params, 1, Cleared(ops, plan, params), k + 1, |plan.nodes|, id);
    assert plan.nodes[..|plan.nodes|] == plan.nodes;
    OfflineBlockNext(ops, plan, params, 1);
  }

  lemma InputIsBlock<S(!new)>(ops: Arithmetic<S>, plan: Plan<S>, k: nat, portId: string, buffers: map<string, seq<S>>)
    requires k < |plan.nodes| && exists rows :: Shaped(plan, rows, buffers)
    ensures |InputBlock(ops, plan.nodes[k], portId, buffers, plan.blockSize)| == plan.blockSize
  {
    var rows :| Shaped(plan, rows, buffers);
    var found := FindInput(plan.nodes[k].signalInputs, portId);
    if found.Some? && found.value.bufferId in buffers {
      assert BufferIndex(plan.buffers, found.value.bufferId).Some?;
    }
  }

  // ---- The exact condition ---------------------------------------------------------------------------

  lemma {:induction false} FirstLateNode<S(!new)>(ops: Arithmetic<S>, plan: Plan<S>, n: nat) returns (k: nat)
    requires n <= |plan.nodes| && !ReadyUntil(ops, plan, n)
    ensures k < n && !Ready(ops, plan, k) && ReadyUntil(ops, plan, k)
    decreases n
  {
    if n > 0 && !ReadyUntil(ops, plan, n - 1) {
      k := FirstLateNode(ops, plan, n - 1);
    } else {
      k := n - 1;
    }
  }

  lemma LateNodesAreHeard<S(!new)>(ops: Arithmetic<S>, plan: Plan<S>, params: map<string, map<string, S>>)
    requires Separate(plan) && Lossless(ops) && !ReadyUntil(ops, plan, |plan.nodes|)
    ensures !SameAfter(ops, plan, params, 2)
  {
    var k := FirstLateNode(ops, plan, |plan.nodes|);
    var portId := if InputReady(ops, plan, k, "left") then "right" else "left";
    var j, b := LateInput(ops, plan, params, k, portId);
    FirstBlockRow(ops, plan, params, j, b);
    DifferentProductsStay(ops, plan, params, k);
  }

  /** With arithmetic that loses nothing, the executors agree for ever exactly when no product hears
      a later node, or itself, except for a signal of zeros. If they do not, two blocks tell. */
  lemma AgreesExactly<S(!new)>(ops: Arithmetic<S>, plan: Plan<S>, params: map<string, map<string, S>>)
    requires Separate(plan) && Lossless(ops)
    ensures (forall k: nat :: SameAfter(ops, plan, params, k)) <==> ReadyUntil(ops, plan, |plan.nodes|)
    ensures SameAfter(ops, plan, params, 2) <==> ReadyUntil(ops, plan, |plan.nodes|)
  {
    if ReadyUntil(ops, plan, |plan.nodes|) {
      forall k: nat
        ensures SameAfter(ops, plan, params, k)
      {
        RealtimeRefinesOffline(ops, plan, params, k);
      }
    } else {
      LateNodesAreHeard(ops, plan, params);
    }
  }

  // ---- An arithmetic that loses nothing ----------------------------------------------------------------

  /** Samples as the terms that compute them. */
  datatype Term =
    | Zero
    | Number(n: int)
    | Product(left: Term, right: Term)
    | Sine(phase: Term)
    | Sum(phase: Term, step: Term)

  function TermArithmetic(): Arithmetic<Term> {
    Arithmetic(Zero, Number(440), (a, b) => Product(a, b), a => Sine(a), (f, rate) => Product(f, Number(rate)),
               (a, b) => Sum(a, b))
  }

  lemma TermsAreLossless()
    ensures Lossless(TermArithmetic())
  {
  }
}
