/** The propagation of emissions: a worklist, for any way of delivering one emission. */
module ControlPropagation {
  import opened ControlValues

  type Step<!F> = (State<F>, Emission<F>) -> Outcome<F>

  function After<F>(emitted: seq<Emission<F>>, rest: Outcome<F>): Outcome<F> {
    match rest
    case Done(s, more) => Done(s, emitted + more)
    case Failed => Failed
  }

  /** Delivers the newest waiting emission first, until none waits; `left` more deliveries are allowed. */
  function Propagate<F>(step: Step<F>, s: State<F>, waiting: seq<Emission<F>>, left: nat): Outcome<F>
    decreases left
  {
    if waiting == [] then Done(s, [])
    else if left == 0 then Failed
    else
      var n := |waiting| - 1;
      match step(s, waiting[n])
      case Failed => Failed
      case Done(after, emitted) => After(emitted, Propagate(step, after, waiting[..n] + emitted, left - 1))
  }

  /** Delivering a list of emissions, one after the other. */
  function Deliveries<F>(step: Step<F>, s: State<F>, order: seq<Emission<F>>): Outcome<F>
    decreases |order|
  {
    if order == [] then Done(s, []) else
      match step(s, order[0])
      case Failed => Failed
      case Done(after, emitted) => After(emitted, Deliveries(step, after, order[1..]))
  }

  /** A propagation that succeeds is a succession of deliveries in which everything that was waiting
      or was emitted on the way is delivered exactly once, within the limit. */
  lemma {:induction false} PropagationDeliversOnce<F>(step: Step<F>, s: State<F>, waiting: seq<Emission<F>>, left: nat)
    returns (order: seq<Emission<F>>)
    requires Propagate(step, s, waiting, left).Done?
    ensures Deliveries(step, s, order) == Propagate(step, s, waiting, left)
    ensures multiset(order) == multiset(waiting + Propagate(step, s, waiting, left).emitted)
    ensures |order| == |waiting| + |Propagate(step, s, waiting, left).emitted| <= left
    decreases left
  {
    if waiting == [] {
      order := [];
    } else {
      var n := |waiting| - 1;
      var one := step(s, waiting[n]);
      var next := waiting[..n] + one.emitted;
      var rest := PropagationDeliversOnce(step, one.state, next, left - 1);
      var extra := Propagate(step, one.state, next, left - 1).emitted;
      order := [waiting[n]] + rest;
      assert order[1..] == rest;
      assert waiting == waiting[..n] + [waiting[n]];
      assert next + extra == waiting[..n] + (one.emitted + extra);
    }
  }

  /** What every delivery keeps, a propagation keeps. */
  lemma {:induction false} PropagationPreserves<F(!new)>(step: Step<F>, kept: State<F> -> bool, s: State<F>,
                                                         waiting: seq<Emission<F>>, left: nat)
    requires forall t: State<F>, e: Emission<F> :: kept(t) && step(t, e).Done? ==> kept(step(t, e).state)
    requires kept(s) && Propagate(step, s, waiting, left).Done?
    ensures kept(Propagate(step, s, waiting, left).state)
    decreases left
  {
    if waiting != [] {
      var n := |waiting| - 1;
      var one := step(s, waiting[n]);
      PropagationPreserves(step, kept, one.state, waiting[..n] + one.emitted, left - 1);
    }
  }

  /** The limit only cuts propagation off: a larger one does not change what a successful propagation does. */
  lemma {:induction false} LimitOnlyCutsOff<F>(step: Step<F>, s: State<F>, waiting: seq<Emission<F>>, left: nat,
                                               more: nat)
    requires left <= more && Propagate(step, s, waiting, left).Done?
    ensures Propagate(step, s, waiting, more) == Propagate(step, s, waiting, left)
    decreases left
  {
    if waiting != [] {
      var n := |waiting| - 1;
      var one := step(s, waiting[n]);
      LimitOnlyCutsOff(step, one.state, waiting[..n] + one.emitted, left - 1, more - 1);
    }
  }

  // ---- Costs ------------------------------------------------------------------------------------------

  /** A bound on the deliveries that waiting emissions cause within a number of generations. */
  type Cost<!F> = (seq<Emission<F>>, nat) -> nat

  /** The emissions that wait after the newest was delivered. */
  function Next<F>(step: Step<F>, s: State<F>, waiting: seq<Emission<F>>): seq<Emission<F>>
    requires waiting != [] && step(s, waiting[|waiting| - 1]).Done?
  {
    waiting[..|waiting| - 1] + step(s, waiting[|waiting| - 1]).emitted
  }

  /** A delivery uses up one of the deliveries counted, and as long as an emission waits, some are. */
  ghost predicate CostFalls<F>(step: Step<F>, cost: Cost<F>, s: State<F>, waiting: seq<Emission<F>>, depth: nat) {
    waiting != [] ==>
      && cost(waiting, depth + 1) > 0
      && (step(s, waiting[|waiting| - 1]).Done? ==> cost(Next(step, s, waiting), depth) + 1 <= cost(waiting, depth + 1))
  }

  /** The delivery succeeds, and all the deliveries counted but one are still to come. */
  ghost predicate CostStays<F>(step: Step<F>, cost: Cost<F>, s: State<F>, waiting: seq<Emission<F>>, depth: nat) {
    if waiting == [] then cost(waiting, depth) == 0 else
      && step(s, waiting[|waiting| - 1]).Done?
      && cost(waiting, depth) <= cost(Next(step, s, waiting), depth) + 1
  }

  /** What costs no more than the deliveries left is propagated as without a limit. */
  lemma {:induction false} CheapIsNotCutOff<F(!new)>(step: Step<F>, cost: Cost<F>, s: State<F>,
                                                     waiting: seq<Emission<F>>, left: nat, more: nat, depth: nat)
    requires forall t, w, d :: CostFalls(step, cost, t, w, d)
    requires cost(waiting, depth) <= left < depth && left <= more
    ensures Propagate(step, s, waiting, more) == Propagate(step, s, waiting, left)
    decreases left
  {
    if waiting != [] {
      assert CostFalls(step, cost, s, waiting, depth - 1);
      var one := step(s, waiting[|waiting| - 1]);
      if one.Done? {
        CheapIsNotCutOff(step, cost, one.state, Next(step, s, waiting), left - 1, more - 1, depth - 1);
      }
    }
  }

  /** If deliveries do not fail, it succeeds. */
  lemma {:induction false} CheapSucceeds<F(!new)>(step: Step<F>, cost: Cost<F>, s: State<F>,
                                                  waiting: seq<Emission<F>>, left: nat, depth: nat)
    requires forall t, w, d :: CostFalls(step, cost, t, w, d)
    requires forall t, e :: step(t, e).Done?
    requires cost(waiting, depth) <= left < depth
    ensures Propagate(step, s, waiting, left).Done?
    decreases left
  {
    if waiting != [] {
      assert CostFalls(step, cost, s, waiting, depth - 1);
      CheapSucceeds(step, cost, step(s, waiting[|waiting| - 1]).state, Next(step, s, waiting), left - 1, depth - 1);
    }
  }

  /** What costs more than the deliveries left, and is not only a bound, is cut off. */
  lemma {:induction false} CostlyIsCutOff<F(!new)>(step: Step<F>, cost: Cost<F>, s: State<F>,
                                                   waiting: seq<Emission<F>>, left: nat, depth: nat)
    requires forall t, w, d :: CostStays(step, cost, t, w, d)
    requires cost(waiting, depth) > left
    ensures Propagate(step, s, waiting, left).Failed?
    decreases left
  {
    assert CostStays(step, cost, s, waiting, depth);
    if left > 0 {
      CostlyIsCutOff(step, cost, step(s, waiting[|waiting| - 1]).state, Next(step, s, waiting), left - 1, depth);
    }
  }

  /** Propagation is depth first: what newer emissions cause is delivered before any older emission is. */
  lemma {:induction false} NewestFirst<F>(step: Step<F>, s: State<F>, older: seq<Emission<F>>, newer: seq<Emission<F>>,
                                          left: nat)
    ensures
      match Propagate(step, s, newer, left)
      case Failed => Propagate(step, s, older + newer, left).Failed?
      case Done(s', emitted) =>
        && |newer| + |emitted| <= left
        && Propagate(step, s, older + newer, left) ==
           After(emitted, Propagate(step, s', older, left - |newer| - |emitted|))
    decreases left
  {
    var all := older + newer;
    if newer == [] {
      assert all == older;
      match Propagate(step, s, older, left)
      case Failed =>
      case Done(_, emitted) => assert [] + emitted == emitted;
    } else if left > 0 {
      var n := |newer| - 1;
      assert all[|all| - 1] == newer[n] && all[..|all| - 1] == older + newer[..n];
      match step(s, newer[n])
      case Failed =>
      case Done(after, emitted) =>
        var next := newer[..n] + emitted;
        assert all[..|all| - 1] + emitted == older + next;
        NewestFirst(step, after, older, next, left - 1);
        match Propagate(step, after, next, left - 1)
        case Failed =>
        case Done(s', more) =>
          match Propagate(step, s', older, left - 1 - |next| - |more|)
          case Failed =>
          case Done(_, last) => assert emitted + (more + last) == emitted + more + last;
    }
  }
}

/** A whole event, its effect on several nodes, and what every run keeps. */
module ControlEvents {
  import opened Basics
  import opened ControlText
  import opened ControlValues
  import opened ControlPropagation

  function Delivering<F>(ops: Numbers<F>, graph: ControlGraph<F>): Step<F> {
    (s, emission) => Deliver(ops, graph, s, emission)
  }

  /** A whole event: its direct effect, then everything that follows from it. */
  function Event<F>(ops: Numbers<F>, graph: ControlGraph<F>, s: State<F>, request: Request<F>): Outcome<F> {
    match Direct(ops, graph.nodes, s, request)
    case Failed => Failed
    case Done(staged, emitted) =>
      After(emitted, Propagate(Delivering(ops, graph), staged, emitted, Limit(|graph.edges|)))
  }

  /** The state that a sequence of events leads to; a failed event changes nothing. */
  function Events<F>(ops: Numbers<F>, graph: ControlGraph<F>, s: State<F>, requests: seq<Request<F>>): State<F> {
    if requests == [] then s else
      var n := |requests| - 1;
      var before := Events(ops, graph, s, requests[..n]);
      match Event(ops, graph, before, requests[n])
      case Done(after, _) => after
      case Failed => before
  }

  /** An accepted event delivers each of its emissions exactly once, and there are at most as many
      as the limit allows. */
  lemma EventDeliversOnce<F>(ops: Numbers<F>, graph: ControlGraph<F>, s: State<F>, request: Request<F>)
    returns (order: seq<Emission<F>>)
    requires Event(ops, graph, s, request).Done?
    ensures
      var event := Event(ops, graph, s, request);
      var direct := Direct(ops, graph.nodes, s, request);
      && direct.Done?
      && multiset(order) == multiset(event.emitted)
      && After(direct.emitted, Deliveries(Delivering(ops, graph), direct.state, order)) == event
      && |event.emitted| <= Limit(|graph.edges|)
  {
    var direct := Direct(ops, graph.nodes, s, request);
    order := PropagationDeliversOnce(Delivering(ops, graph), direct.state, direct.emitted, Limit(|graph.edges|));
  }

  // ---- Nodes are independent -----------------------------------------------------------------------

  ghost predicate SameAt<F>(s: State<F>, t: State<F>, id: string) {
    && (id in s.values <==> id in t.values)
    && (id in s.values ==> s.values[id] == t.values[id])
    && (id in s.operatorRight <==> id in t.operatorRight)
    && (id in s.operatorRight ==> s.operatorRight[id] == t.operatorRight[id])
  }

  /** The direct effect of an event stays within the entries of its node. */
  lemma DirectIsLocal<F>(ops: Numbers<F>, nodes: seq<ControlNode<F>>, s: State<F>, request: Request<F>, id: string)
    requires Direct(ops, nodes, s, request).Done? && id != request.nodeId
    ensures SameAt(s, Direct(ops, nodes, s, request).state, id)
    ensures Direct(ops, nodes, s, request).state.channels == s.channels
  {
  }

  ghost predicate SameOutcomeAt<F>(a: Outcome<F>, b: Outcome<F>, id: string) {
    (a.Done? <==> b.Done?) && (a.Done? ==> a.emitted == b.emitted && SameAt(a.state, b.state, id))
  }

  lemma OperateReadsItsNode<F>(ops: Numbers<F>, s: State<F>, t: State<F>, node: ControlNode<F>, port: string,
                               message: ControlMessage<F>)
    requires SameAt(s, t, node.id) && node.kind.OperatorKind?
    ensures SameOutcomeAt(Operate(ops, s, node, port, message), Operate(ops, t, node, port, message), node.id)
  {
    assert RightOperand(ops, s, node) == RightOperand(ops, t, node);
  }

  lemma HotReadsItsNode<F>(ops: Numbers<F>, s: State<F>, t: State<F>, node: ControlNode<F>, message: ControlMessage<F>)
    requires SameAt(s, t, node.id) && node.id in s.values
    ensures SameOutcomeAt(HotInput(ops, s, node, message), HotInput(ops, t, node, message), node.id)
  {
  }

  lemma ColdReadsItsNode<F>(ops: Numbers<F>, s: State<F>, t: State<F>, node: ControlNode<F>, message: ControlMessage<F>)
    requires SameAt(s, t, node.id) && node.id in s.values
    ensures SameOutcomeAt(ColdInput(ops, s, node, message), ColdInput(ops, t, node, message), node.id)
  {
  }

  /** The direct effect of an event depends on nothing but the entries of its node. */
  lemma DirectReadsItsNode<F>(ops: Numbers<F>, nodes: seq<ControlNode<F>>, s: State<F>, t: State<F>,
                              request: Request<F>)
    requires SameAt(s, t, request.nodeId)
    ensures SameOutcomeAt(Direct(ops, nodes, s, request), Direct(ops, nodes, t, request), request.nodeId)
  {
    var found := FindNode(nodes, request.nodeId);
    if found.Some? {
      var node := found.value;
      if node.kind.OperatorKind? {
        OperateReadsItsNode(ops, s, t, node, request.portId, request.message);
      } else if node.id in s.values {
        HotReadsItsNode(ops, s, t, node, request.message);
        ColdReadsItsNode(ops, s, t, node, request.message);
      }
    }
  }

  lemma DistinctIds<F>(nodes: seq<ControlNode<F>>, i: nat, j: nat)
    requires Distinct(NodeIds(nodes)) && i < |nodes| && j < |nodes| && i != j
    ensures nodes[i].id != nodes[j].id
  {
    assert NodeIds(nodes)[i] == nodes[i].id && NodeIds(nodes)[j] == nodes[j].id;
  }

  type Update<!F> = (State<F>, ControlNode<F>) -> State<F>

  /** The first k nodes updated one after the other. */
  function Each<F>(update: Update<F>, nodes: seq<ControlNode<F>>, k: nat, s: State<F>): State<F>
    requires k <= |nodes|
  {
    if k == 0 then s else update(Each(update, nodes, k - 1, s), nodes[k - 1])
  }

  /** An update of a node stays within the entries of the node and depends on nothing else. */
  ghost predicate Local<F(!new)>(update: Update<F>) {
    && (forall s: State<F>, node: ControlNode<F> :: update(s, node).channels == s.channels)
    && (forall s: State<F>, node: ControlNode<F>, id {:trigger SameAt(s, update(s, node), id)} ::
          id != node.id ==> SameAt(s, update(s, node), id))
    && (forall s: State<F>, t: State<F>, node: ControlNode<F> {:trigger update(s, node), update(t, node)} ::
          SameAt(s, t, node.id) ==> SameAt(update(s, node), update(t, node), node.id))
  }

  lemma {:induction false} EachKeepsChannels<F(!new)>(update: Update<F>, nodes: seq<ControlNode<F>>, k: nat,
                                                      s: State<F>)
    requires Local(update) && k <= |nodes|
    ensures Each(update, nodes, k, s).channels == s.channels
    decreases k
  {
    if k > 0 {
      EachKeepsChannels(update, nodes, k - 1, s);
    }
  }

  lemma {:induction false} EachIsSimultaneous<F(!new)>(update: Update<F>, nodes: seq<ControlNode<F>>, k: nat,
                                                       s: State<F>, i: nat)
    requires Local(update) && Distinct(NodeIds(nodes)) && k <= |nodes| && i < |nodes|
    ensures SameAt(if i < k then update(s, nodes[i]) else s, Each(update, nodes, k, s), nodes[i].id)
    decreases k
  {
    if k > 0 {
      var before := Each(update, nodes, k - 1, s);
      EachIsSimultaneous(update, nodes, k - 1, s, i);
      if i != k - 1 {
        DistinctIds(nodes, i, k - 1);
        assert SameAt(before, update(before, nodes[k - 1]), nodes[i].id);
      } else {
        assert SameAt(update(s, nodes[i]), update(before, nodes[i]), nodes[i].id);
      }
    }
  }

  /** What a broadcast does to a node. */
  function Receiving<F>(ops: Numbers<F>, nodes: seq<ControlNode<F>>, name: string, message: ControlMessage<F>,
                        sourceId: string): Update<F> {
    (s, node) => Receive(ops, nodes, s, node, name, message, sourceId).0
  }

  lemma {:induction false} BroadcastIsEach<F>(ops: Numbers<F>, nodes: seq<ControlNode<F>>, k: nat, s: State<F>,
                                              name: string, message: ControlMessage<F>, sourceId: string)
    requires k <= |nodes|
    ensures Broadcast(ops, nodes, k, s, name, message, sourceId).0 ==
            Each(Receiving(ops, nodes, name, message, sourceId), nodes, k, s)
    decreases k
  {
    if k > 0 {
      BroadcastIsEach(ops, nodes, k - 1, s, name, message, sourceId);
    }
  }

  lemma ReceiveIsLocal<F>(ops: Numbers<F>, nodes: seq<ControlNode<F>>, s: State<F>, node: ControlNode<F>, name: string,
                          message: ControlMessage<F>, sourceId: string, id: string)
    requires id != node.id
    ensures Receive(ops, nodes, s, node, name, message, sourceId).0.channels == s.channels
    ensures SameAt(s, Receive(ops, nodes, s, node, name, message, sourceId).0, id)
  {
    var request := Request(node.id, "in", message);
    if Direct(ops, nodes, s, request).Done? {
      DirectIsLocal(ops, nodes, s, request, id);
    }
  }

  lemma ReceiveReadsItsNode<F>(ops: Numbers<F>, nodes: seq<ControlNode<F>>, s: State<F>, t: State<F>,
                               node: ControlNode<F>, name: string, message: ControlMessage<F>, sourceId: string)
    requires SameAt(s, t, node.id)
    ensures SameAt(Receive(ops, nodes, s, node, name, message, sourceId).0,
                   Receive(ops, nodes, t, node, name, message, sourceId).0, node.id)
  {
    DirectReadsItsNode(ops, nodes, s, t, Request(node.id, "in", message));
  }

  lemma ReceivingIsLocal<F(!new)>(ops: Numbers<F>, nodes: seq<ControlNode<F>>, name: string,
                                  message: ControlMessage<F>, sourceId: string)
    ensures Local(Receiving(ops, nodes, name, message, sourceId))
  {
    var update := Receiving(ops, nodes, name, message, sourceId);
    forall s: State<F>, node: ControlNode<F>, id | id != node.id
      ensures SameAt(s, update(s, node), id)
    {
      ReceiveIsLocal(ops, nodes, s, node, name, message, sourceId, id);
    }
    forall s: State<F>, node: ControlNode<F>
      ensures update(s, node).channels == s.channels
    {
      ReceiveIsLocal(ops, nodes, s, node, name, message, sourceId, node.id + "'");
    }
    forall s: State<F>, t: State<F>, node: ControlNode<F> | SameAt(s, t, node.id)
      ensures SameAt(update(s, node), update(t, node), node.id)
    {
      ReceiveReadsItsNode(ops, nodes, s, t, node, name, message, sourceId);
    }
  }

  /** A broadcast updates all receivers as if at once: each one from the state before the broadcast,
      in no order that could be told apart, and a rejection by one does not touch the others. */
  lemma BroadcastIsSimultaneous<F(!new)>(ops: Numbers<F>, nodes: seq<ControlNode<F>>, s: State<F>, name: string,
                                         message: ControlMessage<F>, sourceId: string)
    requires Distinct(NodeIds(nodes))
    ensures
      var after := Broadcast(ops, nodes, |nodes|, s, name, message, sourceId).0;
      && after.channels == s.channels
      && forall node :: node in nodes ==>
           SameAt(Receive(ops, nodes, s, node, name, message, sourceId).0, after, node.id)
  {
    var update := Receiving(ops, nodes, name, message, sourceId);
    ReceivingIsLocal(ops, nodes, name, message, sourceId);
    BroadcastIsEach(ops, nodes, |nodes|, s, name, message, sourceId);
    EachKeepsChannels(update, nodes, |nodes|, s);
    forall node | node in nodes
      ensures SameAt(update(s, node), Each(update, nodes, |nodes|, s), node.id)
    {
      var i :| 0 <= i < |nodes| && nodes[i] == node;
      EachIsSimultaneous(update, nodes, |nodes|, s, i);
    }
  }

  // ---- The invariant of every run --------------------------------------------------------------------

  function NodeIds<F>(nodes: seq<ControlNode<F>>): (ids: seq<string>)
    ensures |ids| == |nodes| && forall i :: 0 <= i < |ids| ==> ids[i] == nodes[i].id
  {
    seq(|nodes|, i requires 0 <= i < |nodes| => nodes[i].id)
  }

  predicate SameShape<F>(a: ControlValue<F>, b: ControlValue<F>) {
    match (a, b)
    case (Float(r, _), Float(r', _)) => r == r'
    case (Int(r, _), Int(r', _)) => r == r'
    case (Uint(r, _), Uint(r', _)) => r == r'
    case (Color(r, space, _), Color(r', space', _)) => r == r' && space == space'
    case (Bool(_), Bool(_)) => true
    case (Str(_), Str(_)) => true
    case (_, _) => false
  }

  /** Exactly the nodes with a default have a value, always of the shape of the default. */
  ghost predicate ValueFits<F>(ops: Numbers<F>, node: ControlNode<F>, values: map<string, ControlValue<F>>) {
    && (node.id in values <==> DefaultValue(ops, node).Some?)
    && (node.id in values ==> SameShape(values[node.id], DefaultValue(ops, node).value))
  }

  ghost predicate ChannelsTyped<F>(channels: map<ChannelKey, ControlMessage<F>>) {
    forall key :: key in channels ==> DataKindOf(channels[key]) == key.kind
  }

  ghost predicate RightsNumeric<F>(rights: map<string, ControlValue<F>>) {
    forall id :: id in rights ==> rights[id].Float? && rights[id].representation == "f32"
  }

  ghost predicate Sound<F>(ops: Numbers<F>, nodes: seq<ControlNode<F>>, s: State<F>) {
    && (forall node :: node in nodes ==> ValueFits(ops, node, s.values))
    && (forall id :: id in s.values ==> id in NodeIds(nodes))
    && ChannelsTyped(s.channels)
    && RightsNumeric(s.operatorRight)
  }

  lemma {:induction false} DefaultsFit<F>(ops: Numbers<F>, nodes: seq<ControlNode<F>>)
    requires Distinct(NodeIds(nodes))
    ensures forall i :: 0 <= i < |nodes| ==> ValueFits(ops, nodes[i], DefaultValues(ops, nodes))
    ensures forall id :: id in DefaultValues(ops, nodes) ==> id in NodeIds(nodes)
    decreases |nodes|
  {
    if nodes != [] {
      var n := |nodes| - 1;
      var before := nodes[..n];
      assert NodeIds(before) == NodeIds(nodes)[..n];
      assert Distinct(NodeIds(before));
      DefaultsFit(ops, before);
      assert NodeIds(nodes)[n] == nodes[n].id;
      forall i | 0 <= i < n
        ensures ValueFits(ops, nodes[i], DefaultValues(ops, nodes))
      {
        DistinctIds(nodes, i, n);
        assert ValueFits(ops, before[i], DefaultValues(ops, before));
      }
      assert nodes[n].id !in DefaultValues(ops, before);
    }
  }

  lemma {:induction false} RightsFit<F>(ops: Numbers<F>, nodes: seq<ControlNode<F>>)
    ensures RightsNumeric(RightDefaults(ops, nodes))
    decreases |nodes|
  {
    if nodes != [] {
      RightsFit(ops, nodes[..|nodes| - 1]);
    }
  }

  lemma InitialIsSound<F>(ops: Numbers<F>, graph: ControlGraph<F>)
    requires Distinct(NodeIds(graph.nodes))
    ensures Sound(ops, graph.nodes, Initial(ops, graph))
  {
    DefaultsFit(ops, graph.nodes);
    RightsFit(ops, graph.nodes);
    forall node | node in graph.nodes
      ensures ValueFits(ops, node, Initial(ops, graph).values)
    {
      var i :| 0 <= i < |graph.nodes| && graph.nodes[i] == node;
    }
  }

  lemma ConversionKeepsShape<F>(ops: Numbers<F>, message: ControlMessage<F>, stored: ControlValue<F>)
    ensures ValueFromMessage(ops, message, stored).Some? ==>
            SameShape(ValueFromMessage(ops, message, stored).value, stored)
  {
  }

  lemma PutKeeps<F>(ops: Numbers<F>, nodes: seq<ControlNode<F>>, s: State<F>, node: ControlNode<F>,
                    value: ControlValue<F>)
    requires Distinct(NodeIds(nodes)) && Sound(ops, nodes, s) && node in nodes
    requires DefaultValue(ops, node).Some? && SameShape(value, DefaultValue(ops, node).value)
    ensures Sound(ops, nodes, s.(values := s.values[node.id := value]))
    ensures s.values[node.id := value].Keys == s.values.Keys
  {
  }

  ghost predicate SoundAfter<F>(ops: Numbers<F>, nodes: seq<ControlNode<F>>, s: State<F>, s': State<F>) {
    Sound(ops, nodes, s') && s'.values.Keys == s.values.Keys
  }

  lemma OperateKeeps<F>(ops: Numbers<F>, nodes: seq<ControlNode<F>>, s: State<F>, node: ControlNode<F>, port: string,
                        message: ControlMessage<F>)
    requires Distinct(NodeIds(nodes)) && Sound(ops, nodes, s) && node in nodes && node.kind.OperatorKind?
    ensures
      var outcome := Operate(ops, s, node, port, message);
      outcome.Done? ==> SoundAfter(ops, nodes, s, outcome.state)
  {
    var input := NumericMessage(ops, message);
    if port == "in" && !IsBang(message) && input.Some? {
      var result := FloatValue(Sanitize(ops, Combine(ops, node.kind.op, input.value, RightOperand(ops, s, node))));
      PutKeeps(ops, nodes, s, node, result);
    }
  }

  lemma InputKeeps<F>(ops: Numbers<F>, nodes: seq<ControlNode<F>>, s: State<F>, node: ControlNode<F>,
                      message: ControlMessage<F>)
    requires Distinct(NodeIds(nodes)) && Sound(ops, nodes, s) && node in nodes && node.id in s.values
    ensures
      var hot := HotInput(ops, s, node, message);
      var cold := ColdInput(ops, s, node, message);
      (hot.Done? ==> SoundAfter(ops, nodes, s, hot.state)) && (cold.Done? ==> SoundAfter(ops, nodes, s, cold.state))
  {
    assert ValueFits(ops, node, s.values);
    var stored := s.values[node.id];
    if node.kind.MessageKind? || node.kind.CommentKind? || node.kind.PanelKind? {
      PutKeeps(ops, nodes, s, node, Str(SetText(ops, message)));
    }
    var next := ValueFromMessage(ops, message, stored);
    if next.Some? {
      ConversionKeepsShape(ops, message, stored);
      PutKeeps(ops, nodes, s, node, next.value);
    }
  }

  lemma DirectKeeps<F>(ops: Numbers<F>, nodes: seq<ControlNode<F>>, s: State<F>, request: Request<F>)
    requires Distinct(NodeIds(nodes)) && Sound(ops, nodes, s)
    ensures
      var outcome := Direct(ops, nodes, s, request);
      outcome.Done? ==> SoundAfter(ops, nodes, s, outcome.state)
  {
    var found := FindNode(nodes, request.nodeId);
    if found.Some? {
      var node := found.value;
      if node.kind.OperatorKind? {
        OperateKeeps(ops, nodes, s, node, request.portId, request.message);
      } else if node.id in s.values {
        InputKeeps(ops, nodes, s, node, request.message);
      }
    }
  }

  lemma {:induction false} BroadcastKeeps<F>(ops: Numbers<F>, nodes: seq<ControlNode<F>>, k: nat, s: State<F>,
                                             name: string, message: ControlMessage<F>, sourceId: string)
    requires Distinct(NodeIds(nodes)) && Sound(ops, nodes, s) && k <= |nodes|
    ensures SoundAfter(ops, nodes, s, Broadcast(ops, nodes, k, s, name, message, sourceId).0)
    decreases k
  {
    if k > 0 {
      BroadcastKeeps(ops, nodes, k - 1, s, name, message, sourceId);
      DirectKeeps(ops, nodes, Broadcast(ops, nodes, k - 1, s, name, message, sourceId).0,
                  Request(nodes[k - 1].id, "in", message));
    }
  }

  lemma PublishKeeps<F>(ops: Numbers<F>, nodes: seq<ControlNode<F>>, s: State<F>, emission: Emission<F>)
    requires Distinct(NodeIds(nodes)) && Sound(ops, nodes, s)
    ensures SoundAfter(ops, nodes, s, Publish(ops, nodes, s, emission).0)
  {
    var found := FindNode(nodes, emission.nodeId);
    if found.Some? && NamedParam(found.value, "sendName").Some? {
      var name := NamedParam(found.value, "sendName").value;
      var stored := s.(channels := s.channels[ChannelKey(DataKindOf(emission.message), name) := emission.message]);
      BroadcastKeeps(ops, nodes, |nodes|, stored, name, emission.message, emission.nodeId);
    }
  }

  lemma {:induction false} AlongEdgesKeep<F>(ops: Numbers<F>, graph: ControlGraph<F>, k: nat, s: State<F>,
                                             emission: Emission<F>)
    requires Distinct(NodeIds(graph.nodes)) && Sound(ops, graph.nodes, s) && k <= |graph.edges|
    ensures
      var outcome := AlongEdges(ops, graph, k, s, emission);
      outcome.Done? ==> SoundAfter(ops, graph.nodes, s, outcome.state)
    decreases k
  {
    if k > 0 {
      AlongEdgesKeep(ops, graph, k - 1, s, emission);
      var before := AlongEdges(ops, graph, k - 1, s, emission);
      var edge := graph.edges[k - 1];
      var target := Target(graph, edge, emission);
      if before.Done? && target.Some? {
        DirectKeeps(ops, graph.nodes, before.state, Request(target.value.id, edge.target.portId, emission.message));
      }
    }
  }

  lemma DeliverKeeps<F>(ops: Numbers<F>, graph: ControlGraph<F>, s: State<F>, emission: Emission<F>)
    requires Distinct(NodeIds(graph.nodes)) && Sound(ops, graph.nodes, s)
    ensures
      var outcome := Deliver(ops, graph, s, emission);
      outcome.Done? ==> SoundAfter(ops, graph.nodes, s, outcome.state)
  {
    PublishKeeps(ops, graph.nodes, s, emission);
    AlongEdgesKeep(ops, graph, |graph.edges|, Publish(ops, graph.nodes, s, emission).0, emission);
  }

  lemma PropagationKeeps<F(!new)>(ops: Numbers<F>, graph: ControlGraph<F>, s: State<F>, waiting: seq<Emission<F>>,
                                  left: nat)
    requires Distinct(NodeIds(graph.nodes)) && Sound(ops, graph.nodes, s)
    ensures
      var outcome := Propagate(Delivering(ops, graph), s, waiting, left);
      outcome.Done? ==> SoundAfter(ops, graph.nodes, s, outcome.state)
  {
    var step := Delivering(ops, graph);
    var kept := t => SoundAfter(ops, graph.nodes, s, t);
    forall t: State<F>, e: Emission<F> | kept(t) && step(t, e).Done?
      ensures kept(step(t, e).state)
    {
      DeliverKeeps(ops, graph, t, e);
    }
    if Propagate(step, s, waiting, left).Done? {
      PropagationPreserves(step, kept, s, waiting, left);
    }
  }

  /** Whatever events arrive: exactly the nodes with a default keep a value, of the variant,
      representation and colour space of that default; every channel holds a message of its kind; and
      every right operand is a plain float. */
  lemma {:induction false} EveryRunIsSound<F(!new)>(ops: Numbers<F>, graph: ControlGraph<F>, requests: seq<Request<F>>)
    requires Distinct(NodeIds(graph.nodes))
    ensures
      var s := Events(ops, graph, Initial(ops, graph), requests);
      Sound(ops, graph.nodes, s) && s.values.Keys == Initial(ops, graph).values.Keys
    decreases |requests|
  {
    InitialIsSound(ops, graph);
    if requests != [] {
      var n := |requests| - 1;
      EveryRunIsSound(ops, graph, requests[..n]);
      var before := Events(ops, graph, Initial(ops, graph), requests[..n]);
      DirectKeeps(ops, graph.nodes, before, requests[n]);
      var direct := Direct(ops, graph.nodes, before, requests[n]);
      if direct.Done? {
        PropagationKeeps(ops, graph, direct.state, direct.emitted, Limit(|graph.edges|));
      }
    }
  }
}
