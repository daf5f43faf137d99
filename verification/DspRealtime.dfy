/** The realtime executor: indexed buffers that are reused from block to block. */
module DspRealtime {
  import opened Basics
  import opened DspPlan
  import opened DspBlocks

  datatype RtKind<S> = Sig(value: S) | Osc(frequency: S) | Mul | Out

  datatype RtNode<S> = RtNode(kind: RtKind<S>, output: Option<nat>, left: Option<nat>, right: Option<nat>, phase: S)

  /** The values held by an executor: its nodes with their phases, and its buffers. */
  datatype RtState<S> = RtState(nodes: seq<RtNode<S>>, rows: seq<seq<S>>)

  datatype RtError = InvalidChannelCount | OutputCount(count: nat) | UnsupportedKind(nodeId: string, kind: string)

  datatype Creation<S> = Created(executor: Executor<S>) | Refused(error: RtError)

  predicate IsRealtimeKind(kind: string) {
    IsRendering(kind) || kind == OUTPUT_KIND
  }

  // ---- One block, on values ------------------------------------------------------------------------

  /** A sample of a buffer, or zero where there is none. */
  function SampleAt<S>(ops: Arithmetic<S>, rows: seq<seq<S>>, buffer: Option<nat>, i: nat): S {
    if buffer.Some? && buffer.value < |rows| && i < |rows[buffer.value]| then rows[buffer.value][i] else ops.zero
  }

  function Store<S>(rows: seq<seq<S>>, buffer: Option<nat>, block: seq<S>): (r: seq<seq<S>>)
    ensures |r| == |rows|
  {
    if buffer.Some? && buffer.value < |rows| then rows[buffer.value := block] else rows
  }

  function MulSamples<S>(ops: Arithmetic<S>, rows: seq<seq<S>>, left: Option<nat>, right: Option<nat>,
                         n: nat): (r: seq<S>)
    ensures |r| == n && forall i ::
              0 <= i < n ==> r[i] == ops.mul(SampleAt(ops, rows, left, i), SampleAt(ops, rows, right, i))
  {
    seq(n, i requires i >= 0 => ops.mul(SampleAt(ops, rows, left, i), SampleAt(ops, rows, right, i)))
  }

  function RenderRt<S>(ops: Arithmetic<S>, n: nat, rate: nat, s: RtState<S>, k: nat): (r: RtState<S>)
    requires k < |s.nodes|
    ensures |r.nodes| == |s.nodes| && |r.rows| == |s.rows|
  {
    var node := s.nodes[k];
    match node.kind
    case Sig(value) => s.(rows := Store(s.rows, node.output, Constant(n, value)))
    case Osc(frequency) =>
      var increment := ops.increment(frequency, rate);
      RtState(s.nodes[k := node.(phase := PhaseAfter(ops, node.phase, increment, n))],
              Store(s.rows, node.output, OscSamples(ops, node.phase, increment, n)))
    case Mul => s.(rows := Store(s.rows, node.output, MulSamples(ops, s.rows, node.left, node.right, n)))
    case Out => s
  }

  /** The state after the first k nodes of a block. */
  function RenderFirst<S>(ops: Arithmetic<S>, n: nat, rate: nat, s: RtState<S>, k: nat): (r: RtState<S>)
    requires k <= |s.nodes|
    ensures |r.nodes| == |s.nodes| && |r.rows| == |s.rows|
  {
    if k == 0 then s else RenderRt(ops, n, rate, RenderFirst(ops, n, rate, s, k - 1), k - 1)
  }

  /** The state after k blocks. */
  function RtBlocks<S>(ops: Arithmetic<S>, n: nat, rate: nat, s: RtState<S>, k: nat): (r: RtState<S>)
    ensures |r.nodes| == |s.nodes| && |r.rows| == |s.rows|
  {
    if k == 0 then s
    else
      var before := RtBlocks(ops, n, rate, s, k - 1);
      RenderFirst(ops, n, rate, before, |before.nodes|)
  }

  lemma {:induction false} RtBlocksAdd<S>(ops: Arithmetic<S>, n: nat, rate: nat, s: RtState<S>, a: nat, b: nat)
    ensures RtBlocks(ops, n, rate, s, a + b) == RtBlocks(ops, n, rate, RtBlocks(ops, n, rate, s, a), b)
  {
    if b > 0 {
      RtBlocksAdd(ops, n, rate, s, a, b - 1);
      assert a + b - 1 == a + (b - 1);
    }
  }

  lemma {:induction false} KindsStay<S>(ops: Arithmetic<S>, n: nat, rate: nat, s: RtState<S>, k: nat, i: nat)
    requires k <= |s.nodes| && i < |s.nodes|
    ensures RenderFirst(ops, n, rate, s, k).nodes[i].(phase := s.nodes[i].phase) == s.nodes[i]
  {
    if k > 0 {
      KindsStay(ops, n, rate, s, k - 1, i);
    }
  }

  // ---- A callback, on values -----------------------------------------------------------------------

  /** The number of blocks that cover the given number of frames. */
  function BlocksFor(frames: nat, n: nat): nat
    requires n > 0
  {
    (frames + n - 1) / n
  }

  /** The sample that a callback delivers for a channel of a frame: frame f is frame f mod n of the
      (f div n)-th block rendered after the start of the callback. */
  function FrameSample<S>(ops: Arithmetic<S>, n: nat, rate: nat, s: RtState<S>, output: nat, frame: nat,
                          channel: nat): S
    requires n > 0 && output < |s.nodes|
  {
    var rows := RtBlocks(ops, n, rate, s, frame / n + 1).rows;
    if channel == 0 then SampleAt(ops, rows, s.nodes[output].left, frame % n)
    else if channel == 1 then SampleAt(ops, rows, s.nodes[output].right, frame % n)
    else ops.zero
  }

  lemma {:induction false} OutputStays<S>(ops: Arithmetic<S>, n: nat, rate: nat, s: RtState<S>, k: nat, i: nat)
    requires i < |s.nodes|
    ensures RtBlocks(ops, n, rate, s, k).nodes[i].(phase := s.nodes[i].phase) == s.nodes[i]
  {
    if k > 0 {
      OutputStays(ops, n, rate, s, k - 1, i);
      var before := RtBlocks(ops, n, rate, s, k - 1);
      KindsStay(ops, n, rate, before, |before.nodes|, i);
    }
  }

  lemma SplitFrame(m: nat, n: nat, frame: nat)
    requires n > 0
    ensures (m * n + frame) / n == m + frame / n && (m * n + frame) % n == frame % n
  {
    var q, r := frame / n, frame % n;
    assert frame == q * n + r;
    assert m * n + frame == (m + q) * n + r by { MulAdd(m, q, n); }
    DivUnique(m * n + frame, n, m + q, r);
  }

  lemma MulAdd(a: nat, b: nat, n: nat)
    ensures (a + b) * n == a * n + b * n
  {
  }

  lemma MulBound(d: int, n: nat)
    ensures d >= 1 ==> d * n >= n
    ensures d <= -1 ==> d * n + n <= 0
  {
  }

  lemma DivUnique(x: nat, n: nat, q: nat, r: nat)
    requires n > 0 && r < n && x == q * n + r
    ensures x / n == q && x % n == r
  {
    var d := x / n - q;
    assert x == (x / n) * n + x % n;
    assert (x / n) * n - q * n == d * n;
    assert d * n == r - x % n;
    MulBound(d, n);
  }

  lemma BlocksReach(b: nat, n: nat, frames: nat)
    requires n > 0
    ensures b * n < frames <= (b + 1) * n ==> BlocksFor(frames, n) == b + 1
  {
    if b * n < frames <= (b + 1) * n {
      MulAdd(b, 1, n);
      DivUnique(frames + n - 1, n, b + 1, frames - 1 - b * n);
    }
  }

  /** After b blocks, the frames written are those of b whole blocks, or all of them. */
  ghost predicate AtBlock(b: nat, n: nat, offset: nat, total: nat)
    requires n > 0
  {
    && offset <= total
    && (offset < total ==> offset == b * n)
    && (offset == total ==> b == BlocksFor(total, n))
  }

  lemma AtFirstBlock(n: nat, total: nat)
    requires n > 0
    ensures AtBlock(0, n, 0, total)
  {
    assert total == 0 ==> BlocksFor(total, n) == 0;
  }

  /** Where the frames of the next block end. */
  lemma AtNextBlock(b: nat, n: nat, offset: nat, count: nat, total: nat)
    requires n > 0 && AtBlock(b, n, offset, total) && offset < total
    requires count == if n <= total - offset then n else total - offset
    ensures AtBlock(b + 1, n, offset + count, total)
  {
    MulAdd(b, 1, n);
    BlocksReach(b, n, total);
  }

  lemma FrameAt<S>(ops: Arithmetic<S>, n: nat, rate: nat, s: RtState<S>, output: nat, frame: nat, channel: nat,
                   q: nat, i: nat)
    requires n > 0 && output < |s.nodes| && q == frame / n && i == frame % n
    ensures
      var rows := RtBlocks(ops, n, rate, s, q + 1).rows;
      FrameSample(ops, n, rate, s, output, frame, channel) ==
      if channel == 0 then SampleAt(ops, rows, s.nodes[output].left, i)
      else if channel == 1 then SampleAt(ops, rows, s.nodes[output].right, i)
      else ops.zero
  {
  }

  lemma SplitSample<S>(ops: Arithmetic<S>, n: nat, rate: nat, s: RtState<S>, output: nat, m: nat, whole: nat,
                       frame: nat, q: nat, i: nat, channel: nat)
    requires n > 0 && output < |s.nodes|
    requires whole / n == m + q && whole % n == i && frame / n == q && frame % n == i
    ensures FrameSample(ops, n, rate, s, output, whole, channel)
         == FrameSample(ops, n, rate, RtBlocks(ops, n, rate, s, m), output, frame, channel)
  {
    FrameAt(ops, n, rate, s, output, whole, channel, m + q, i);
    FrameAt(ops, n, rate, RtBlocks(ops, n, rate, s, m), output, frame, channel, q, i);
    RtBlocksAdd(ops, n, rate, s, m, q + 1);
    OutputStays(ops, n, rate, s, m, output);
    assert m + q + 1 == m + (q + 1);
  }

  lemma SplitBlocks(m: nat, n: nat, frame: nat)
    requires n > 0
    ensures m * n + frame >= 0 && BlocksFor(m * n + frame, n) == m + BlocksFor(frame, n)
  {
    SplitFrame(m, n, frame + n - 1);
    assert m * n + frame + n - 1 == m * n + (frame + n - 1);
  }

  /** Splitting a callback after a whole number of blocks is inaudible: the second callback starts
      where the first one stopped. */
  lemma SplitCallback<S>(ops: Arithmetic<S>, n: nat, rate: nat, s: RtState<S>, output: nat, m: nat, frame: nat,
                         channel: nat)
    requires n > 0 && output < |s.nodes|
    ensures FrameSample(ops, n, rate, s, output, m * n + frame, channel)
         == FrameSample(ops, n, rate, RtBlocks(ops, n, rate, s, m), output, frame, channel)
    ensures BlocksFor(m * n + frame, n) == m + BlocksFor(frame, n)
  {
    SplitFrame(m, n, frame);
    SplitSample(ops, n, rate, s, output, m, m * n + frame, frame, frame / n, frame % n, channel);
    SplitBlocks(m, n, frame);
  }

  // ---- Setting up ------------------------------------------------------------------------------------

  function BufferIndex(buffers: seq<Buffer>, id: string): (r: Option<nat>)
    ensures r.Some? ==> r.value < |buffers| && buffers[r.value].id == id
    ensures r.None? ==> forall i :: 0 <= i < |buffers| ==> buffers[i].id != id
  {
    if buffers == [] then None
    else if buffers[|buffers| - 1].id == id then Some(|buffers| - 1)
    else BufferIndex(buffers[..|buffers| - 1], id)
  }

  function InputIndex<S>(node: PlanNode<S>, portId: string, buffers: seq<Buffer>): Option<nat> {
    match FindInput(node.signalInputs, portId)
    case None => None
    case Some(input) => BufferIndex(buffers, input.bufferId)
  }

  function OutputIndex<S>(node: PlanNode<S>, buffers: seq<Buffer>): Option<nat> {
    if node.signalOutputs == [] then None else BufferIndex(buffers, node.signalOutputs[0].bufferId)
  }

  function KindOf<S>(ops: Arithmetic<S>, node: PlanNode<S>, params: map<string, map<string, S>>): RtKind<S> {
    if node.kind == SIG_KIND then Sig(ParamOr(node.params, "value", ops.zero))
    else if node.kind == OSC_KIND then Osc(Frequency(ops, node, params))
    else if node.kind == MUL_KIND then Mul
    else Out
  }

  function RtNodeOf<S>(ops: Arithmetic<S>, node: PlanNode<S>, buffers: seq<Buffer>,
                       params: map<string, map<string, S>>): RtNode<S> {
    RtNode(KindOf(ops, node, params), OutputIndex(node, buffers),
           InputIndex(node, "left", buffers), InputIndex(node, "right", buffers), ops.zero)
  }

  /** The state of a new executor. */
  function Initial<S>(ops: Arithmetic<S>, plan: Plan<S>, params: map<string, map<string, S>>): (r: RtState<S>)
    ensures |r.nodes| == |plan.nodes| && |r.rows| == |plan.buffers|
    ensures forall i :: 0 <= i < |plan.nodes| ==> r.nodes[i] == RtNodeOf(ops, plan.nodes[i], plan.buffers, params)
    ensures forall i :: 0 <= i < |plan.buffers| ==> r.rows[i] == Constant(plan.blockSize, ops.zero)
  {
    RtState(seq(|plan.nodes|, i requires 0 <= i < |plan.nodes| => RtNodeOf(ops, plan.nodes[i], plan.buffers, params)),
            seq(|plan.buffers|, _ => Constant(plan.blockSize, ops.zero)))
  }

  function OutputsIn<S>(nodes: seq<PlanNode<S>>): nat {
    if nodes == [] then 0
    else OutputsIn(nodes[..|nodes| - 1]) + if nodes[|nodes| - 1].kind == OUTPUT_KIND then 1 else 0
  }

  /** Where the output nodes are. */
  ghost function OutputNodes<S>(nodes: seq<PlanNode<S>>): set<nat> {
    set i: nat | i < |nodes| && nodes[i].kind == OUTPUT_KIND
  }

  lemma {:induction false} OutputsCounted<S>(nodes: seq<PlanNode<S>>)
    ensures OutputsIn(nodes) == |OutputNodes(nodes)|
  {
    if nodes != [] {
      var n := |nodes| - 1;
      OutputsCounted(nodes[..n]);
      assert OutputNodes(nodes) == OutputNodes(nodes[..n]) + if nodes[n].kind == OUTPUT_KIND then {n} else {};
    }
  }

  /** The first node of a kind that cannot be played in real time. */
  ghost predicate IsFirstUnplayable<S>(nodes: seq<PlanNode<S>>, nodeId: string, kind: string) {
    exists j :: 0 <= j < |nodes| && nodes[j].nodeId == nodeId && nodes[j].kind == kind && !IsRealtimeKind(kind)
                && forall i :: 0 <= i < j ==> IsRealtimeKind(nodes[i].kind)
  }

  lemma {:induction false} UnsupportedIsFirst<S>(nodes: seq<PlanNode<S>>)
    ensures var found := FirstUnsupported(nodes);
            found.Some? ==> IsFirstUnplayable(nodes, found.value.nodeId, found.value.kind)
  {
    if nodes != [] && IsRealtimeKind(nodes[0].kind) {
      UnsupportedIsFirst(nodes[1..]);
      var found := FirstUnsupported(nodes[1..]);
      if found.Some? {
        var j :| 0 <= j < |nodes[1..]| && nodes[1..][j].nodeId == found.value.nodeId
                 && nodes[1..][j].kind == found.value.kind
                 && forall i :: 0 <= i < j ==> IsRealtimeKind(nodes[1..][i].kind);
        forall i | 0 <= i < j + 1 ensures IsRealtimeKind(nodes[i].kind) {
          assert i > 0 ==> nodes[i] == nodes[1..][i - 1];
        }
        assert nodes[j + 1] == nodes[1..][j];
      }
    }
  }

  function FirstUnsupported<S>(nodes: seq<PlanNode<S>>): (r: Option<PlanNode<S>>)
    ensures r.None? <==> forall i :: 0 <= i < |nodes| ==> IsRealtimeKind(nodes[i].kind)
  {
    if nodes == [] then None
    else if !IsRealtimeKind(nodes[0].kind) then Some(nodes[0])
    else FirstUnsupported(nodes[1..])
  }

  function OutputPosition<S>(nodes: seq<PlanNode<S>>): (r: nat)
    requires OutputsIn(nodes) > 0
    ensures r < |nodes| && nodes[r].kind == OUTPUT_KIND
  {
    if OutputsIn(nodes[..|nodes| - 1]) > 0 then OutputPosition(nodes[..|nodes| - 1]) else |nodes| - 1
  }

  /** Why a plan cannot be played in real time: it needs exactly one output and only known kinds. */
  function Refusal<S>(plan: Plan<S>): Option<RtError> {
    if OutputsIn(plan.nodes) != 1 then Some(OutputCount(OutputsIn(plan.nodes)))
    else
      match FirstUnsupported(plan.nodes)
      case Some(node) => Some(UnsupportedKind(node.nodeId, node.kind))
      case None => None
  }

  // ---- The executor ----------------------------------------------------------------------------------

  class Executor<S> {
    const ops: Arithmetic<S>
    const sampleRate: nat
    const channels: nat
    const blockLen: nat
    const outputNode: nat
    const buffers: array2<S>
    const scratch: array<S>
    var nodes: seq<RtNode<S>>
    ghost var rows: seq<seq<S>>

    /** The buffers hold the rows. */
    ghost predicate Valid()
      reads this, buffers, scratch
    {
      && channels > 0 && blockLen > 0 && outputNode < |nodes|
      && buffers.Length0 == |rows| && buffers.Length1 == blockLen == scratch.Length
      && (forall i :: 0 <= i < |rows| ==> |rows[i]| == blockLen)
      && (forall i, j :: 0 <= i < |rows| && 0 <= j < blockLen ==> buffers[i, j] == rows[i][j])
      && (forall i :: 0 <= i < |nodes| && nodes[i].output.Some? ==> nodes[i].output.value < |rows|)
    }

    ghost function State(): RtState<S>
      reads this
    {
      RtState(nodes, rows)
    }

    constructor (ops: Arithmetic<S>, plan: Plan<S>, params: map<string, map<string, S>>, channels: nat)
      requires Refusal(plan).None? && channels > 0 && plan.blockSize > 0
      ensures Valid() && fresh(buffers) && fresh(scratch)
      ensures State() == Initial(ops, plan, params)
      ensures this.ops == ops && this.channels == channels && blockLen == plan.blockSize
              && sampleRate == plan.sampleRate
      ensures outputNode == OutputPosition(plan.nodes)
    {
      this.ops := ops;
      this.sampleRate := plan.sampleRate;
      this.channels := channels;
      this.blockLen := plan.blockSize;
      this.outputNode := OutputPosition(plan.nodes);
      this.nodes := Initial(ops, plan, params).nodes;
      this.rows := Initial(ops, plan, params).rows;
      this.buffers := new S[|plan.buffers|, plan.blockSize]((_, _) => ops.zero);
      this.scratch := new S[plan.blockSize](_ => ops.zero);
    }

    method Sample(buffer: Option<nat>, i: nat) returns (r: S)
      requires Valid()
      ensures r == SampleAt(ops, rows, buffer, i)
    {
      if buffer.Some? && buffer.value < buffers.Length0 && i < buffers.Length1 {
        return buffers[buffer.value, i];
      }
      r := ops.zero;
    }

    /** Copies the scratch buffer to a node's output buffer, if it has one. */
    method CopyScratchToOutput(k: nat)
      requires Valid() && k < |nodes|
      modifies this`rows, buffers
      ensures Valid() && rows == Store(old(rows), nodes[k].output, scratch[..])
    {
      if nodes[k].output.Some? {
        var out := nodes[k].output.value;
        forall j | 0 <= j < blockLen {
          buffers[out, j] := scratch[j];
        }
        rows := rows[out := scratch[..]];
      }
    }

    method RenderSig(k: nat, value: S)
      requires Valid() && k < |nodes| && nodes[k].kind == Sig(value)
      modifies this`rows, buffers
      ensures Valid() && State() == RenderRt(ops, blockLen, sampleRate, old(State()), k)
    {
      if nodes[k].output.Some? {
        var out := nodes[k].output.value;
        forall j | 0 <= j < blockLen {
          buffers[out, j] := value;
        }
        rows := rows[out := Constant(blockLen, value)];
      }
    }

    method RenderOsc(k: nat, frequency: S)
      requires Valid() && k < |nodes| && nodes[k].kind == Osc(frequency)
      modifies this, buffers, scratch
      ensures Valid() && State() == RenderRt(ops, blockLen, sampleRate, old(State()), k)
    {
      var increment := ops.increment(frequency, sampleRate);
      var phase := nodes[k].phase;
      var i := 0;
      while i < blockLen
        invariant 0 <= i <= blockLen
        invariant Valid() && nodes == old(nodes) && rows == old(rows)
        invariant phase == PhaseAfter(ops, nodes[k].phase, increment, i)
        invariant scratch[..i] == OscSamples(ops, nodes[k].phase, increment, i)
      {
        scratch[i] := ops.sinOf(phase);
        assert scratch[..i + 1] == scratch[..i] + [scratch[i]];
        phase := ops.advance(phase, increment);
        i := i + 1;
      }
      assert scratch[..] == scratch[..i];
      nodes := nodes[k := nodes[k].(phase := phase)];
      CopyScratchToOutput(k);
    }

    method RenderMul(k: nat)
      requires Valid() && k < |nodes| && nodes[k].kind == Mul
      modifies this`rows, buffers, scratch
      ensures Valid() && State() == RenderRt(ops, blockLen, sampleRate, old(State()), k)
    {
      var left, right := nodes[k].left, nodes[k].right;
      var i := 0;
      while i < blockLen
        invariant 0 <= i <= blockLen
        invariant Valid() && rows == old(rows)
        invariant scratch[..i] == MulSamples(ops, rows, left, right, i)
      {
        var l := Sample(left, i);
        var r := Sample(right, i);
        scratch[i] := ops.mul(l, r);
        assert scratch[..i + 1] == scratch[..i] + [scratch[i]];
        i := i + 1;
      }
      assert scratch[..] == scratch[..i];
      CopyScratchToOutput(k);
    }

    /** Renders every node once, in order. */
    method ProcessBlock()
      requires Valid()
      modifies this, buffers, scratch
      ensures Valid() && State() == RtBlocks(ops, blockLen, sampleRate, old(State()), 1)
    {
      ghost var start := State();
      var k := 0;
      while k < |nodes|
        invariant 0 <= k <= |nodes| == |start.nodes|
        invariant Valid() && State() == RenderFirst(ops, blockLen, sampleRate, start, k)
      {
        match nodes[k].kind {
          case Sig(value) => RenderSig(k, value);
          case Osc(frequency) => RenderOsc(k, frequency);
          case Mul => RenderMul(k);
          case Out =>
        }
        k := k + 1;
      }
      assert RtBlocks(ops, blockLen, sampleRate, start, 0) == start;
    }

    /** Copies frames of the output node's inputs to channels 0 and 1 of the interleaved output. */
    method CopyOutputFrames(output: array<S>, offset: nat, count: nat)
      requires Valid() && count <= blockLen && (offset + count) * channels <= output.Length && output != scratch
      modifies output
      ensures Valid()
      ensures output[..] == CopyFrames(ops, rows, nodes[outputNode], channels, offset, count, old(output[..]))
    {
      var left, right := nodes[outputNode].left, nodes[outputNode].right;
      var local := 0;
      while local < count
        invariant 0 <= local <= count
        invariant Valid()
        invariant output[..] == CopyFrames(ops, rows, nodes[outputNode], channels, offset, local, old(output[..]))
      {
        var frame := offset + local;
        var base := frame * channels;
        FrameFits(frame, channels, offset + count);
        FrameCells(frame, channels);
        var l := Sample(left, local);
        output[base] := l;
        if channels > 1 {
          var r := Sample(right, local);
          output[base + 1] := r;
        }
        local := local + 1;
      }
    }

    method Silence(output: array<S>)
      modifies output
      ensures forall i :: 0 <= i < output.Length ==> output[i] == ops.zero
    {
      forall i | 0 <= i < output.Length {
        output[i] := ops.zero;
      }
    }

    /** Renders the next block of a callback and copies as many of its frames as are wanted. */
    method NextFrames(output: array<S>, offset: nat, count: nat, ghost start: RtState<S>, ghost b: nat)
      requires Valid() && output != scratch && outputNode < |start.nodes|
      requires offset == b * blockLen && count <= blockLen && offset + count <= output.Length / channels
      requires State() == RtBlocks(ops, blockLen, sampleRate, start, b)
      requires output[..] == Delivered(ops, blockLen, sampleRate, start, outputNode, channels, offset, output.Length)
      modifies this, buffers, scratch, output
      ensures Valid() && State() == RtBlocks(ops, blockLen, sampleRate, start, b + 1)
      ensures output[..] == Delivered(ops, blockLen, sampleRate, start, outputNode, channels, offset + count,
                                      output.Length)
    {
      ProcessBlock();
      RtBlocksAdd(ops, blockLen, sampleRate, start, b, 1);
      FramesFit(offset + count, channels, output.Length);
      CopyOutputFrames(output, offset, count);
      DeliverBlock(ops, blockLen, sampleRate, start, outputNode, channels, b, count, output.Length);
    }

    /** Renders as many blocks as the frames of a callback need. */
    method FillFrames(output: array<S>, total: nat)
      requires Valid() && output != scratch && total == output.Length / channels
      requires output[..] == Delivered(ops, blockLen, sampleRate, State(), outputNode, channels, 0, output.Length)
      modifies this, buffers, scratch, output
      ensures Valid() && State() == RtBlocks(ops, blockLen, sampleRate, old(State()), BlocksFor(total, blockLen))
      ensures output[..] == Delivered(ops, blockLen, sampleRate, old(State()), outputNode, channels, total,
                                      output.Length)
    {
      ghost var start := State();
      var offset := 0;
      ghost var b := 0;
      assert RtBlocks(ops, blockLen, sampleRate, start, 0) == start;
      AtFirstBlock(blockLen, total);
      while offset < total
        invariant Valid() && State() == RtBlocks(ops, blockLen, sampleRate, start, b)
        invariant AtBlock(b, blockLen, offset, total)
        invariant output[..] == Delivered(ops, blockLen, sampleRate, start, outputNode, channels, offset, output.Length)
      {
        var count := if blockLen <= total - offset then blockLen else total - offset;
        NextFrames(output, offset, count, start, b);
        AtNextBlock(b, blockLen, offset, count, total);
        offset := offset + count;
        b := b + 1;
      }
    }

    /** Fills a callback's output, rendering as many blocks as it needs. */
    method ProcessInterleavedOutput(output: array<S>)
      requires Valid() && output != scratch
      modifies this, buffers, scratch, output
      ensures Valid()
      ensures State() ==
              RtBlocks(ops, blockLen, sampleRate, old(State()), BlocksFor(output.Length / channels, blockLen))
      ensures output[..] == Delivered(ops, blockLen, sampleRate, old(State()), outputNode, channels,
                                      output.Length / channels, output.Length)
    {
      Silence(output);
      NothingDelivered(ops, blockLen, sampleRate, State(), outputNode, channels, output[..]);
      var total := output.Length / channels;
      FillFrames(output, total);
    }
  }

  /** Makes an executor for a plan. It is refused, in this order, when there are no channels, when the
      plan does not have one output node, and when it has a node of an unknown kind. */
  method NewExecutor<S>(ops: Arithmetic<S>, plan: Plan<S>, params: map<string, map<string, S>>, channels: nat)
    returns (r: Creation<S>)
    requires plan.blockSize > 0
    ensures r.Created? <==> channels > 0 && |OutputNodes(plan.nodes)| == 1
                            && forall i :: 0 <= i < |plan.nodes| ==> IsRealtimeKind(plan.nodes[i].kind)
    ensures r.Refused? ==>
              if channels == 0 then r.error == InvalidChannelCount
              else if |OutputNodes(plan.nodes)| != 1 then r.error == OutputCount(|OutputNodes(plan.nodes)|)
              else r.error.UnsupportedKind? && IsFirstUnplayable(plan.nodes, r.error.nodeId, r.error.kind)
    ensures r.Created? ==> fresh(r.executor) && r.executor.Valid() && r.executor.State() == Initial(ops, plan, params)
    ensures r.Created? ==>
              && r.executor.channels == channels && r.executor.blockLen == plan.blockSize
              && r.executor.sampleRate == plan.sampleRate && r.executor.ops == ops
              && r.executor.outputNode in OutputNodes(plan.nodes)
  {
    if channels == 0 {
      return Refused(InvalidChannelCount);
    }
    OutputsCounted(plan.nodes);
    UnsupportedIsFirst(plan.nodes);
    var refusal := Refusal(plan);
    if refusal.Some? {
      return Refused(refusal.value);
    }
    var executor := new Executor(ops, plan, params, channels);
    r := Created(executor);
  }

  /** The interleaved output with some frames taken from one block. */
  function CopyFrames<S>(ops: Arithmetic<S>, rows: seq<seq<S>>, node: RtNode<S>, channels: nat, offset: nat, count: nat,
                         before: seq<S>): (r: seq<S>)
    requires channels > 0
    ensures |r| == |before|
  {
    seq(|before|, i requires 0 <= i < |before| =>
      if !(offset <= i / channels < offset + count) then before[i]
      else if i % channels == 0 then SampleAt(ops, rows, node.left, i / channels - offset)
      else if i % channels == 1 then SampleAt(ops, rows, node.right, i / channels - offset)
      else before[i])
  }

  /** The interleaved output after the given number of frames of a callback: channels beyond the
      second and frames not reached are silent. */
  function Delivered<S>(ops: Arithmetic<S>, n: nat, rate: nat, s: RtState<S>, output: nat, channels: nat, frames: nat,
                        length: nat): (r: seq<S>)
    requires n > 0 && channels > 0 && output < |s.nodes|
    ensures |r| == length
    ensures forall i :: 0 <= i < length ==>
              r[i] == (if i / channels < frames
                       then FrameSample(ops, n, rate, s, output, i / channels, i % channels)
                       else ops.zero)
  {
    seq(length, i requires i >= 0 =>
      if i / channels < frames then FrameSample(ops, n, rate, s, output, i / channels, i % channels) else ops.zero)
  }

  lemma NothingDelivered<S>(ops: Arithmetic<S>, n: nat, rate: nat, s: RtState<S>, output: nat, channels: nat,
                            silence: seq<S>)
    requires n > 0 && channels > 0 && output < |s.nodes|
    requires forall i :: 0 <= i < |silence| ==> silence[i] == ops.zero
    ensures silence == Delivered(ops, n, rate, s, output, channels, 0, |silence|)
  {
  }

  /** The frames copied from the next block are the next frames of the callback. */
  lemma DeliverBlock<S>(ops: Arithmetic<S>, n: nat, rate: nat, s: RtState<S>, output: nat, channels: nat, b: nat,
                        count: nat, length: nat)
    requires n > 0 && channels > 0 && output < |s.nodes| && count <= n
    ensures CopyFrames(ops, RtBlocks(ops, n, rate, s, b + 1).rows, RtBlocks(ops, n, rate, s, b + 1).nodes[output],
                       channels,
                       b * n, count, Delivered(ops, n, rate, s, output, channels, b * n, length))
         == Delivered(ops, n, rate, s, output, channels, b * n + count, length)
  {
    OutputStays(ops, n, rate, s, b + 1, output);
    forall i | 0 <= i < length && b * n <= i / channels < b * n + count
      ensures (i / channels) / n == b && (i / channels) % n == i / channels - b * n
    {
      DivUnique(i / channels, n, b, i / channels - b * n);
    }
  }

  lemma FrameCells(frame: nat, channels: nat)
    requires channels > 0
    ensures forall i: nat :: i / channels == frame && i % channels == 0 <==> i == frame * channels
    ensures channels > 1 ==> forall i: nat :: i / channels == frame && i % channels == 1 <==> i == frame * channels + 1
  {
    forall i: nat ensures i == (i / channels) * channels + i % channels {
    }
    DivUnique(frame * channels, channels, frame, 0);
    if channels > 1 {
      DivUnique(frame * channels + 1, channels, frame, 1);
    }
  }

  lemma FrameFits(frame: nat, channels: nat, frames: nat)
    requires frame < frames
    ensures frame * channels + channels <= frames * channels
  {
    MulAdd(frame + 1, frames - frame - 1, channels);
    MulAdd(frame, 1, channels);
  }

  lemma FramesFit(frames: nat, channels: nat, length: nat)
    requires channels > 0 && frames <= length / channels
    ensures frames * channels <= length
  {
    MulAdd(frames, length / channels - frames, channels);
    assert length == (length / channels) * channels + length % channels;
  }
}
