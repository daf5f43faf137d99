/** The control state as the runtime keeps it: updated in place, staged for each event. */
module ControlMachine {
  import opened Basics
  import opened ControlText
  import opened ControlValues
  import opened ControlPropagation
  import opened ControlEvents

  datatype Response<F> = Response(ok: bool, emitted: seq<Emission<F>>)

  /** The response and the new state that an outcome stands for; a failure leaves the old state. */
  ghost predicate Yields<F>(outcome: Outcome<F>, before: State<F>, response: Response<F>, after: State<F>) {
    match outcome
    case Done(s, emitted) => response == Response(true, emitted) && after == s
    case Failed => response == Response(false, []) && after == before
  }

  /** The same, where a failure may leave any state behind. */
  ghost predicate Reports<F>(outcome: Outcome<F>, response: Response<F>, after: State<F>) {
    match outcome
    case Done(s, emitted) => response == Response(true, emitted) && after == s
    case Failed => response == Response(false, [])
  }

  /** Once a target rejects an emission, no later edge matters. */
  lemma {:induction false} RejectionStops<F>(ops: Numbers<F>, graph: ControlGraph<F>, j: nat, k: nat, s: State<F>,
                                             emission: Emission<F>)
    requires j <= k <= |graph.edges| && AlongEdges(ops, graph, j, s, emission).Failed?
    ensures AlongEdges(ops, graph, k, s, emission).Failed?
    decreases k
  {
    if j < k {
      RejectionStops(ops, graph, j, k - 1, s, emission);
    }
  }

  lemma AfterTwice<F>(a: seq<Emission<F>>, b: seq<Emission<F>>, rest: Outcome<F>)
    ensures After(a, After(b, rest)) == After(a + b, rest)
  {
    match rest
    case Failed =>
    case Done(_, c) => assert a + (b + c) == a + b + c;
  }

  /** What has been emitted so far, followed by what is still to come, is the whole. */
  ghost predicate OnTrack<F>(step: Step<F>, whole: Outcome<F>, emitted: seq<Emission<F>>, s: State<F>,
                             waiting: seq<Emission<F>>, left: nat) {
    whole == After(emitted, Propagate(step, s, waiting, left))
  }

  lemma StayOnTrack<F>(step: Step<F>, whole: Outcome<F>, emitted: seq<Emission<F>>, before: State<F>,
                       waiting: seq<Emission<F>>, left: nat, one: Outcome<F>)
    requires waiting != [] && OnTrack(step, whole, emitted, before, waiting, left)
    requires one == step(before, waiting[|waiting| - 1])
    ensures left == 0 || one.Failed? ==> whole.Failed?
    ensures left > 0 && one.Done? ==>
      OnTrack(step, whole, emitted + one.emitted, one.state, waiting[..|waiting| - 1] + one.emitted, left - 1)
  {
    if left > 0 && one.Done? {
      AfterTwice(emitted, one.emitted, Propagate(step, one.state, waiting[..|waiting| - 1] + one.emitted, left - 1));
    }
  }

  /** A specification of one delivery in this graph. */
  ghost predicate Specifies<F(!new)>(step: Step<F>, ops: Numbers<F>, graph: ControlGraph<F>) {
    forall s, emission {:trigger Deliver(ops, graph, s, emission)} ::
          step(s, emission) == Deliver(ops, graph, s, emission)
  }

  class ControlState<!F(!new)> {
    var values: map<string, ControlValue<F>>
    var channels: map<ChannelKey, ControlMessage<F>>
    var operatorRight: map<string, ControlValue<F>>

    function Current(): State<F>
      reads this
    {
      State(values, channels, operatorRight)
    }

    constructor FromGraph(ops: Numbers<F>, graph: ControlGraph<F>)
      ensures Current() == Initial(ops, graph)
    {
      var v: map<string, ControlValue<F>> := map[];
      for i := 0 to |graph.nodes|
        invariant v == DefaultValues(ops, graph.nodes[..i])
      {
        assert graph.nodes[..i + 1][..i] == graph.nodes[..i];
        var default := DefaultValue(ops, graph.nodes[i]);
        if default.Some? {
          v := v[graph.nodes[i].id := default.value];
        }
      }
      var r: map<string, ControlValue<F>> := map[];
      for i := 0 to |graph.nodes|
        invariant r == RightDefaults(ops, graph.nodes[..i])
      {
        assert graph.nodes[..i + 1][..i] == graph.nodes[..i];
        var default := RightDefault(ops, graph.nodes[i]);
        if default.Some? {
          r := r[graph.nodes[i].id := default.value];
        }
      }
      assert graph.nodes[..|graph.nodes|] == graph.nodes;
      values, channels, operatorRight := v, map[], r;
    }

    constructor Clone(other: ControlState<F>)
      ensures Current() == other.Current()
    {
      values, channels, operatorRight := other.values, other.channels, other.operatorRight;
    }

    method ApplyOperatorEvent(ops: Numbers<F>, node: ControlNode<F>, port: string, message: ControlMessage<F>)
      returns (response: Response<F>)
      requires node.kind.OperatorKind?
      modifies this
      ensures Yields(Operate(ops, old(Current()), node, port, message), old(Current()), response, Current())
    {
      if port == "in" {
        if IsBang(message) {
          var stored := if node.id in values then values[node.id] else FloatValue(ops.zero);
          return Response(true, [Emission(node.id, "out", FromValue(stored))]);
        }
        var silent := message.selector == "set";
        var input := NumericMessage(ops, message);
        if input.None? {
          return Response(false, []);
        }
        var right := RightOperand(ops, Current(), node);
        var result := FloatValue(Sanitize(ops, Combine(ops, node.kind.op, input.value, right)));
        values := values[node.id := result];
        return Response(true, if silent then [] else [Emission(node.id, "out", FromValue(result))]);
      }
      if port == "right" {
        if IsBang(message) || message.selector == "set" {
          return Response(false, []);
        }
        var right := NumericMessage(ops, message);
        if right.None? {
          return Response(false, []);
        }
        operatorRight := operatorRight[node.id := FloatValue(right.value)];
        return Response(true, []);
      }
      return Response(false, []);
    }

    /** Either succeeds with the effect of the event, or changes nothing at all. */
    method ApplyEventDirect(ops: Numbers<F>, graph: ControlGraph<F>, request: Request<F>)
      returns (response: Response<F>)
      modifies this
      ensures Yields(Direct(ops, graph.nodes, old(Current()), request), old(Current()), response, Current())
    {
      var found := FindNode(graph.nodes, request.nodeId);
      if found.None? {
        return Response(false, []);
      }
      var node := found.value;
      if !Supports(node.kind) {
        return Response(false, []);
      }
      if node.kind.BangKind? {
        if request.portId != "in" {
          return Response(false, []);
        }
        return Response(true, [Emission(node.id, "out", Bang())]);
      }
      if request.portId !in node.inputs {
        return Response(false, []);
      }
      if node.kind.OperatorKind? {
        response := ApplyOperatorEvent(ops, node, request.portId, request.message);
        return;
      }
      if node.id !in values {
        return Response(false, []);
      }
      if request.portId == "in" {
        response := ApplyHotInput(ops, node, request.message);
      } else if request.portId == "cold" {
        response := ApplyColdInput(ops, node, request.message);
      } else {
        response := Response(false, []);
      }
    }

    method ApplyHotInput(ops: Numbers<F>, node: ControlNode<F>, message: ControlMessage<F>)
      returns (response: Response<F>)
      requires node.id in values
      modifies this
      ensures Yields(HotInput(ops, old(Current()), node, message), old(Current()), response, Current())
    {
      var stored := values[node.id];
      if node.kind.MessageKind? {
        if message.selector == "set" {
          values := values[node.id := Str(SetText(ops, message))];
          return Response(true, []);
        }
        return Response(true, [Emission(node.id, "out", MessageOfStored(ops, stored))]);
      }
      if node.kind.CommentKind? || node.kind.PanelKind? {
        if message.selector != "set" {
          return Response(false, []);
        }
        values := values[node.id := Str(SetText(ops, message))];
        return Response(true, []);
      }
      if IsBang(message) {
        return Response(true, [Emission(node.id, "value", FromValue(stored))]);
      }
      var silent := message.selector == "set";
      var next := ValueFromMessage(ops, message, stored);
      if next.None? {
        return Response(false, []);
      }
      values := values[node.id := next.value];
      return Response(true, if silent then [] else [Emission(node.id, "value", FromValue(next.value))]);
    }

    method ApplyColdInput(ops: Numbers<F>, node: ControlNode<F>, message: ControlMessage<F>)
      returns (response: Response<F>)
      requires node.id in values
      modifies this
      ensures Yields(ColdInput(ops, old(Current()), node, message), old(Current()), response, Current())
    {
      if node.kind.MessageKind? || IsBang(message) || message.selector == "set" {
        return Response(false, []);
      }
      var next := ValueFromMessage(ops, message, values[node.id]);
      if next.None? {
        return Response(false, []);
      }
      values := values[node.id := next.value];
      return Response(true, []);
    }

    /** Offers a message to every receiver of a channel; a receiver that rejects it does no harm. */
    method ApplyReceiveNameUpdates(ops: Numbers<F>, graph: ControlGraph<F>, name: string, message: ControlMessage<F>,
                                   sourceId: string)
      returns (emitted: seq<Emission<F>>)
      modifies this
      ensures (Current(), emitted) ==
              Broadcast(ops, graph.nodes, |graph.nodes|, old(Current()), name, message, sourceId)
    {
      var kind := DataKindOf(message);
      emitted := [];
      for i := 0 to |graph.nodes|
        invariant (Current(), emitted) == Broadcast(ops, graph.nodes, i, old(Current()), name, message, sourceId)
      {
        var node := graph.nodes[i];
        assert emitted + [] == emitted;
        if Receives(node, sourceId, name, kind) {
          var response := ApplyEventDirect(ops, graph, Request(node.id, "in", message));
          if response.ok {
            emitted := emitted + response.emitted;
          }
        }
      }
    }

    method PublishObjectChannel(ops: Numbers<F>, graph: ControlGraph<F>, emission: Emission<F>)
      returns (emitted: seq<Emission<F>>)
      modifies this
      ensures (Current(), emitted) == Publish(ops, graph.nodes, old(Current()), emission)
    {
      var source := FindNode(graph.nodes, emission.nodeId);
      if source.None? {
        return [];
      }
      var name := NamedParam(source.value, "sendName");
      if name.None? {
        return [];
      }
      channels := channels[ChannelKey(DataKindOf(emission.message), name.value) := emission.message];
      emitted := ApplyReceiveNameUpdates(ops, graph, name.value, emission.message, emission.nodeId);
    }

    /** Delivers one emission along the edges from its port, until a target rejects it. */
    method DeliverAlongEdges(ops: Numbers<F>, graph: ControlGraph<F>, emission: Emission<F>)
      returns (response: Response<F>)
      modifies this
      ensures Reports(AlongEdges(ops, graph, |graph.edges|, old(Current()), emission), response, Current())
    {
      var emitted := [];
      for j := 0 to |graph.edges|
        invariant AlongEdges(ops, graph, j, old(Current()), emission) == Done(Current(), emitted)
      {
        var edge := graph.edges[j];
        NextEdge(ops, graph, j, old(Current()), emission, Current(), emitted);
        var target := Target(graph, edge, emission);
        if target.Some? {
          response := ApplyEventDirect(ops, graph, Request(target.value.id, edge.target.portId, emission.message));
          if !response.ok {
            RejectionStops(ops, graph, j + 1, |graph.edges|, old(Current()), emission);
            return;
          }
          emitted := emitted + response.emitted;
        }
      }
      response := Response(true, emitted);
    }

    /** Delivers one emission: to its channel, and then, unless there have been too many deliveries,
        along its edges. */
    method DeliverOne(ops: Numbers<F>, graph: ControlGraph<F>, emission: Emission<F>, exhausted: bool,
                      ghost step: Step<F>)
      returns (response: Response<F>)
      requires Specifies(step, ops, graph)
      modifies this
      ensures Reports(if exhausted then Failed else step(old(Current()), emission), response, Current())
    {
      var published := PublishObjectChannel(ops, graph, emission);
      if exhausted {
        return Response(false, []);
      }
      response := DeliverAlongEdges(ops, graph, emission);
      if response.ok {
        response := Response(true, published + response.emitted);
      }
      assert Reports(Deliver(ops, graph, old(Current()), emission), response, Current());
    }

    /** Delivers emissions, the newest first, until none waits, a target rejects one, or there have
        been too many. */
    method PropagateEmissions(ops: Numbers<F>, graph: ControlGraph<F>, first: seq<Emission<F>>, ghost step: Step<F>)
      returns (response: Response<F>)
      requires Specifies(step, ops, graph)
      modifies this
      ensures Reports(After(first, Propagate(step, old(Current()), first, Limit(|graph.edges|))), response, Current())
    {
      var queue, emitted, visited := first, first, 0;
      var limit := Limit(|graph.edges|);
      ghost var whole := After(first, Propagate(step, Current(), first, limit));
      while queue != []
        invariant visited <= limit
        invariant OnTrack(step, whole, emitted, Current(), queue, limit - visited)
        decreases limit - visited
      {
        ghost var one := step(Current(), queue[|queue| - 1]);
        StayOnTrack(step, whole, emitted, Current(), queue, limit - visited, one);
        var emission := queue[|queue| - 1];
        queue := queue[..|queue| - 1];
        visited := visited + 1;
        response := DeliverOne(ops, graph, emission, visited > limit, step);
        if !response.ok {
          return;
        }
        queue := queue + response.emitted;
        emitted := emitted + response.emitted;
      }
      response := Response(true, emitted);
    }

    /** The effect of an event happens as a whole or not at all. */
    method ApplyEvent(ops: Numbers<F>, graph: ControlGraph<F>, request: Request<F>) returns (response: Response<F>)
      modifies this
      ensures Yields(Event(ops, graph, old(Current()), request), old(Current()), response, Current())
    {
      var staged := new ControlState.Clone(this);
      response := staged.ApplyEventDirect(ops, graph, request);
      if !response.ok {
        return;
      }
      response := staged.PropagateEmissions(ops, graph, response.emitted, Delivering(ops, graph));
      if response.ok {
        values, channels, operatorRight := staged.values, staged.channels, staged.operatorRight;
      }
    }
  }
}
