/** The samples that both executors compute. */
module DspBlocks {
  import opened Basics
  import opened DspPlan

  /** Sample arithmetic: nothing is assumed of it, so it may round as it likes. */
  datatype Arithmetic<!S> = Arithmetic(
    zero: S,
    defaultFrequency: S,
    mul: (S, S) -> S,
    sinOf: S -> S,
    increment: (S, nat) -> S,
    advance: (S, S) -> S)

  function ParamOr<S>(params: map<string, S>, key: string, default: S): S {
    if key in params then params[key] else default
  }

  function ParamsById<S>(nodes: seq<AudioNode<S>>): map<string, map<string, S>> {
    if nodes == [] then map[]
    else ParamsById(nodes[..|nodes| - 1])[nodes[|nodes| - 1].id := nodes[|nodes| - 1].params]
  }

  function Constant<S>(n: nat, value: S): (r: seq<S>)
    ensures |r| == n && forall i :: 0 <= i < n ==> r[i] == value
  {
    seq(n, _ => value)
  }

  function PhaseAfter<S>(ops: Arithmetic<S>, phase: S, increment: S, n: nat): S {
    if n == 0 then phase else ops.advance(PhaseAfter(ops, phase, increment, n - 1), increment)
  }

  function OscSamples<S>(ops: Arithmetic<S>, phase: S, increment: S, n: nat): (r: seq<S>)
    ensures |r| == n && forall i :: 0 <= i < n ==> r[i] == ops.sinOf(PhaseAfter(ops, phase, increment, i))
  {
    seq(n, i requires i >= 0 => ops.sinOf(PhaseAfter(ops, phase, increment, i)))
  }

  function FindControl(inputs: seq<ControlInput>, portId: string): Option<ControlInput> {
    if inputs == [] then None
    else if inputs[0].portId == portId then Some(inputs[0])
    else FindControl(inputs[1..], portId)
  }

  /** The value of the node that feeds a control input, as the offline executor looks it up. */
  function ControlValue<S>(ops: Arithmetic<S>, node: PlanNode<S>, portId: string,
                           params: map<string, map<string, S>>): Option<S> {
    match FindControl(node.controlInputs, portId)
    case None => None
    case Some(input) =>
      if input.source.Some? && input.source.value.nodeId in params
      then Some(ParamOr(params[input.source.value.nodeId], "value", ops.zero)) else None
  }

  function Frequency<S>(ops: Arithmetic<S>, node: PlanNode<S>, params: map<string, map<string, S>>): S {
    match ControlValue(ops, node, "frequency", params)
    case Some(value) => value
    case None => ParamOr(node.params, "frequency", ops.defaultFrequency)
  }

  /** The same value, as the realtime executor looks it up: a loop that stops at the first match. */
  method ControlValueFromParams<S>(ops: Arithmetic<S>, node: PlanNode<S>, portId: string,
                                   params: map<string, map<string, S>>)
    returns (r: Option<S>)
    ensures r == ControlValue(ops, node, portId, params)
  {
    var k := 0;
    while k < |node.controlInputs|
      invariant 0 <= k <= |node.controlInputs|
      invariant FindControl(node.controlInputs, portId) == FindControl(node.controlInputs[k..], portId)
    {
      var input := node.controlInputs[k];
      assert node.controlInputs[k..][1..] == node.controlInputs[k + 1..];
      if input.portId == portId {
        if input.source.None? || input.source.value.nodeId !in params {
          return None;
        }
        return Some(ParamOr(params[input.source.value.nodeId], "value", ops.zero));
      }
      k := k + 1;
    }
    r := None;
  }

  function FindInput(inputs: seq<SignalInput>, portId: string): (r: Option<SignalInput>)
    ensures r.Some? ==> r.value in inputs && r.value.portId == portId
    ensures r.None? ==> forall x :: x in inputs ==> x.portId != portId
  {
    if inputs == [] then None
    else if inputs[0].portId == portId then Some(inputs[0])
    else FindInput(inputs[1..], portId)
  }

  predicate IsRendering(kind: string) {
    kind == SIG_KIND || kind == OSC_KIND || kind == MUL_KIND
  }

  /** Every rendering node has an allocated signal output. */
  ghost predicate Renderable<S>(plan: Plan<S>) {
    forall i :: 0 <= i < |plan.nodes| && IsRendering(plan.nodes[i].kind) ==>
      && |plan.nodes[i].signalOutputs| > 0
      && exists b :: 0 <= b < |plan.buffers| && plan.buffers[b].id == plan.nodes[i].signalOutputs[0].bufferId
  }
}

/** The offline executor: a fresh table of zeroed buffers for every block. */
module DspOffline {
  import opened Basics
  import opened DspPlan
  import opened DspBlocks

  datatype Snapshot<S> = Snapshot(block: nat, nodeId: string, value: S)

  datatype OfflineState<S> = OfflineState(phases: map<string, S>, buffers: map<string, seq<S>>,
                                          snapshots: seq<Snapshot<S>>)

  datatype OfflineResult<S> =
    | Report(blocks: seq<seq<seq<S>>>, snapshots: seq<Snapshot<S>>)
    | InvalidBlockCount
    | UnsupportedKind(nodeId: string, kind: string)

  predicate IsOfflineKind(kind: string) {
    IsRendering(kind) || kind == SNAPSHOT_KIND
  }

  function Zeroed<S>(ops: Arithmetic<S>, buffers: seq<Buffer>, n: nat): map<string, seq<S>> {
    map b | b in buffers :: b.id := Constant(n, ops.zero)
  }

  function InputBlock<S>(ops: Arithmetic<S>, node: PlanNode<S>, portId: string, buffers: map<string, seq<S>>,
                         n: nat): seq<S> {
    match FindInput(node.signalInputs, portId)
    case None => Constant(n, ops.zero)
    case Some(input) => if input.bufferId in buffers then buffers[input.bufferId] else Constant(n, ops.zero)
  }

  /** The products of two blocks, as long as the shorter one. */
  function Products<S>(ops: Arithmetic<S>, left: seq<S>, right: seq<S>): (r: seq<S>)
    ensures |r| == (if |left| <= |right| then |left| else |right|)
    ensures forall i :: 0 <= i < |r| ==> r[i] == ops.mul(left[i], right[i])
  {
    seq(if |left| <= |right| then |left| else |right|,
        i requires 0 <= i < |left| && i < |right| => ops.mul(left[i], right[i]))
  }

  function PhaseOf<S>(ops: Arithmetic<S>, phases: map<string, S>, nodeId: string): S {
    if nodeId in phases then phases[nodeId] else ops.zero
  }

  /** What one node does to the state. */
  function RenderNode<S>(ops: Arithmetic<S>, plan: Plan<S>, params: map<string, map<string, S>>, node: PlanNode<S>,
                         block: nat, s: OfflineState<S>): OfflineState<S>
    requires IsRendering(node.kind) ==> |node.signalOutputs| > 0
  {
    var n := plan.blockSize;
    if node.kind == SIG_KIND then
      s.(buffers := s.buffers[node.signalOutputs[0].bufferId := Constant(n, ParamOr(node.params, "value", ops.zero))])
    else if node.kind == OSC_KIND then
      var increment := ops.increment(Frequency(ops, node, params), plan.sampleRate);
      var phase := PhaseOf(ops, s.phases, node.nodeId);
      s.(phases := s.phases[node.nodeId := PhaseAfter(ops, phase, increment, n)],
         buffers := s.buffers[node.signalOutputs[0].bufferId := OscSamples(ops, phase, increment, n)])
    else if node.kind == MUL_KIND then
      s.(buffers := s.buffers[node.signalOutputs[0].bufferId :=
           Products(ops, InputBlock(ops, node, "left", s.buffers, n), InputBlock(ops, node, "right", s.buffers, n))])
    else
      var signal := InputBlock(ops, node, "signal", s.buffers, 1);
      s.(snapshots := s.snapshots + [Snapshot(block, node.nodeId, if signal == [] then ops.zero else signal[0])])
  }

  /** The state after the first k nodes of the plan. */
  function RenderNodes<S>(ops: Arithmetic<S>, plan: Plan<S>, params: map<string, map<string, S>>, k: nat,
                          block: nat, s: OfflineState<S>): OfflineState<S>
    requires k <= |plan.nodes|
    requires forall i :: 0 <= i < k && IsRendering(plan.nodes[i].kind) ==> |plan.nodes[i].signalOutputs| > 0
  {
    if k == 0 then s
    else RenderNode(ops, plan, params, plan.nodes[k - 1], block, RenderNodes(ops, plan, params, k - 1, block, s))
  }

  ghost predicate HasOutputs<S>(plan: Plan<S>) {
    forall i :: 0 <= i < |plan.nodes| && IsRendering(plan.nodes[i].kind) ==> |plan.nodes[i].signalOutputs| > 0
  }

  /** The state after k blocks; its buffers are those of the last block. */
  ghost function RenderBlocks<S>(ops: Arithmetic<S>, plan: Plan<S>, params: map<string, map<string, S>>,
                                 k: nat): OfflineState<S>
    requires HasOutputs(plan)
  {
    if k == 0 then OfflineState(map[], Zeroed(ops, plan.buffers, plan.blockSize), [])
    else
      var before := RenderBlocks(ops, plan, params, k - 1);
      RenderNodes(ops, plan, params, |plan.nodes|, k - 1, before.(buffers := Zeroed(ops, plan.buffers, plan.blockSize)))
  }

  lemma {:induction false} BuffersStay<S>(ops: Arithmetic<S>, plan: Plan<S>, params: map<string, map<string, S>>,
                                          k: nat, block: nat, s: OfflineState<S>)
    requires k <= |plan.nodes| && Renderable(plan) && HasOutputs(plan)
    requires forall b :: b in plan.buffers ==> b.id in s.buffers
    ensures forall b :: b in plan.buffers ==> b.id in RenderNodes(ops, plan, params, k, block, s).buffers
  {
    if k > 0 {
      BuffersStay(ops, plan, params, k - 1, block, s);
    }
  }

  /** The samples of all buffers, in the order of the plan. */
  function Rendered<S>(plan: Plan<S>, buffers: map<string, seq<S>>): (r: seq<seq<S>>)
    requires forall b :: b in plan.buffers ==> b.id in buffers
    ensures |r| == |plan.buffers| && forall i :: 0 <= i < |r| ==> r[i] == buffers[plan.buffers[i].id]
  {
    seq(|plan.buffers|, i requires 0 <= i < |plan.buffers| => buffers[plan.buffers[i].id])
  }

  /** The oscillator's samples, one after the other, and the phase it stops at. */
  method RenderOsc<S>(ops: Arithmetic<S>, phase: S, increment: S, n: nat) returns (samples: seq<S>, phase': S)
    ensures samples == OscSamples(ops, phase, increment, n) && phase' == PhaseAfter(ops, phase, increment, n)
  {
    samples, phase' := [], phase;
    var i := 0;
    while i < n
      invariant 0 <= i <= n
      invariant samples == OscSamples(ops, phase, increment, i) && phase' == PhaseAfter(ops, phase, increment, i)
    {
      samples := samples + [ops.sinOf(phase')];
      phase' := ops.advance(phase', increment);
      i := i + 1;
    }
  }

  method RenderOneNode<S>(ops: Arithmetic<S>, plan: Plan<S>, params: map<string, map<string, S>>, node: PlanNode<S>,
                          block: nat, s: OfflineState<S>)
    returns (s': OfflineState<S>)
    requires IsOfflineKind(node.kind) && (IsRendering(node.kind) ==> |node.signalOutputs| > 0)
    ensures s' == RenderNode(ops, plan, params, node, block, s)
  {
    if node.kind == OSC_KIND {
      var increment := ops.increment(Frequency(ops, node, params), plan.sampleRate);
      var samples, phase := RenderOsc(ops, PhaseOf(ops, s.phases, node.nodeId), increment, plan.blockSize);
      s' := s.(phases := s.phases[node.nodeId := phase],
               buffers := s.buffers[node.signalOutputs[0].bufferId := samples]);
    } else {
      s' := RenderNode(ops, plan, params, node, block, s);
    }
  }

  /** Renders one block, or stops at the first node of a kind it does not know. */
  method RenderBlock<S>(ops: Arithmetic<S>, plan: Plan<S>, params: map<string, map<string, S>>, block: nat,
                        s: OfflineState<S>)
    returns (s': OfflineState<S>, unsupported: Option<PlanNode<S>>)
    requires HasOutputs(plan)
    ensures unsupported.None? ==> s' == RenderNodes(ops, plan, params, |plan.nodes|, block, s)
    ensures unsupported.None? <==> forall i :: 0 <= i < |plan.nodes| ==> IsOfflineKind(plan.nodes[i].kind)
    ensures unsupported.Some? ==> IsFirstUnknown(plan.nodes, unsupported.value)
  {
    s' := s;
    var j := 0;
    while j < |plan.nodes|
      invariant 0 <= j <= |plan.nodes|
      invariant s' == RenderNodes(ops, plan, params, j, block, s)
      invariant forall i :: 0 <= i < j ==> IsOfflineKind(plan.nodes[i].kind)
    {
      if !IsOfflineKind(plan.nodes[j].kind) {
        assert IsFirstUnknown(plan.nodes, plan.nodes[j]);
        return s', Some(plan.nodes[j]);
      }
      s' := RenderOneNode(ops, plan, params, plan.nodes[j], block, s');
      j := j + 1;
    }
    unsupported := None;
  }

  /** The first node of a kind that the offline executor does not know. */
  ghost predicate IsFirstUnknown<S>(nodes: seq<PlanNode<S>>, node: PlanNode<S>) {
    exists j :: 0 <= j < |nodes| && nodes[j] == node && !IsOfflineKind(node.kind)
                && forall i :: 0 <= i < j ==> IsOfflineKind(nodes[i].kind)
  }

  ghost predicate ReportsBlock<S>(ops: Arithmetic<S>, plan: Plan<S>, params: map<string, map<string, S>>, k: nat,
                                  samples: seq<seq<S>>)
    requires HasOutputs(plan)
  {
    var buffers := RenderBlocks(ops, plan, params, k + 1).buffers;
    (forall b :: b in plan.buffers ==> b.id in buffers) && samples == Rendered(plan, buffers)
  }

  lemma BlockReported<S>(ops: Arithmetic<S>, plan: Plan<S>, params: map<string, map<string, S>>, k: nat)
    requires Renderable(plan) && HasOutputs(plan)
    ensures forall b :: b in plan.buffers ==> b.id in RenderBlocks(ops, plan, params, k + 1).buffers
    ensures ReportsBlock(ops, plan, params, k, Rendered(plan, RenderBlocks(ops, plan, params, k + 1).buffers))
  {
    var zeroed := RenderBlocks(ops, plan, params, k).(buffers := Zeroed(ops, plan.buffers, plan.blockSize));
    BuffersStay(ops, plan, params, |plan.nodes|, k, zeroed);
  }

  /** Each block of the report holds the buffers at the end of that block. */
  ghost predicate ReportsBlocks<S>(ops: Arithmetic<S>, plan: Plan<S>, params: map<string, map<string, S>>,
                                   report: seq<seq<seq<S>>>)
    requires HasOutputs(plan)
  {
    forall k {:trigger ReportsBlock(ops, plan, params, k, report[k])} ::
      0 <= k < |report| ==> ReportsBlock(ops, plan, params, k, report[k])
  }

  lemma NextBlock<S>(ops: Arithmetic<S>, plan: Plan<S>, params: map<string, map<string, S>>, k: nat, s: OfflineState<S>)
    requires HasOutputs(plan) && s == RenderBlocks(ops, plan, params, k)
    ensures RenderBlocks(ops, plan, params, k + 1)
         == RenderNodes(ops, plan, params, |plan.nodes|, k, s.(buffers := Zeroed(ops, plan.buffers, plan.blockSize)))
  {
  }

  lemma ReportOneMore<S>(ops: Arithmetic<S>, plan: Plan<S>, params: map<string, map<string, S>>,
                         report: seq<seq<seq<S>>>, samples: seq<seq<S>>)
    requires HasOutputs(plan) && ReportsBlocks(ops, plan, params, report)
             && ReportsBlock(ops, plan, params, |report|, samples)
    ensures ReportsBlocks(ops, plan, params, report + [samples])
  {
    var more := report + [samples];
    forall k | 0 <= k < |more|
      ensures ReportsBlock(ops, plan, params, k, more[k])
    {
      if k < |report| {
        assert ReportsBlock(ops, plan, params, k, report[k]);
        assert more[k] == report[k];
      } else {
        assert more[k] == samples;
      }
    }
  }

  /** Rendering one more block extends the report. */
  lemma OneMoreBlock<S>(ops: Arithmetic<S>, plan: Plan<S>, params: map<string, map<string, S>>,
                        report: seq<seq<seq<S>>>, before: OfflineState<S>, after: OfflineState<S>)
    requires Renderable(plan) && HasOutputs(plan) && ReportsBlocks(ops, plan, params, report)
    requires before == RenderBlocks(ops, plan, params, |report|)
    requires after == RenderNodes(ops, plan, params, |plan.nodes|, |report|,
                                  before.(buffers := Zeroed(ops, plan.buffers, plan.blockSize)))
    ensures after == RenderBlocks(ops, plan, params, |report| + 1)
    ensures forall b :: b in plan.buffers ==> b.id in after.buffers
    ensures ReportsBlocks(ops, plan, params, report + [Rendered(plan, after.buffers)])
  {
    NextBlock(ops, plan, params, |report|, before);
    BlockReported(ops, plan, params, |report|);
    ReportOneMore(ops, plan, params, report, Rendered(plan, after.buffers));
  }

  /** Renders the given number of blocks, or refuses the first node of a kind it does not know. */
  method RunOffline<S>(ops: Arithmetic<S>, nodes: seq<AudioNode<S>>, plan: Plan<S>, blocks: nat)
    returns (r: OfflineResult<S>)
    requires Renderable(plan) && HasOutputs(plan)
    ensures r.InvalidBlockCount? <==> blocks == 0
    ensures r.UnsupportedKind? <==> blocks > 0 && exists i ::
              0 <= i < |plan.nodes| && !IsOfflineKind(plan.nodes[i].kind)
    ensures r.UnsupportedKind? ==>
              exists node :: IsFirstUnknown(plan.nodes, node) && r.nodeId == node.nodeId && r.kind == node.kind
    ensures r.Report? ==>
            |r.blocks| == blocks && r.snapshots == RenderBlocks(ops, plan, ParamsById(nodes), blocks).snapshots
    ensures r.Report? ==> ReportsBlocks(ops, plan, ParamsById(nodes), r.blocks)
  {
    if blocks == 0 {
      return InvalidBlockCount;
    }
    var params := ParamsById(nodes);
    var s := OfflineState(map[], Zeroed(ops, plan.buffers, plan.blockSize), []);
    var report := [];
    ghost var known := forall i :: 0 <= i < |plan.nodes| ==> IsOfflineKind(plan.nodes[i].kind);
    while |report| < blocks
      invariant |report| <= blocks && (report != [] ==> known)
      invariant s == RenderBlocks(ops, plan, params, |report|)
      invariant ReportsBlocks(ops, plan, params, report)
    {
      ghost var before := s;
      var zeroed := s.(buffers := Zeroed(ops, plan.buffers, plan.blockSize));
      var unsupported;
      s, unsupported := RenderBlock(ops, plan, params, |report|, zeroed);
      if unsupported.Some? {
        return UnsupportedKind(unsupported.value.nodeId, unsupported.value.kind);
      }
      OneMoreBlock(ops, plan, params, report, before, s);
      report := report + [Rendered(plan, s.buffers)];
    }
    r := Report(report, s.snapshots);
  }
}
