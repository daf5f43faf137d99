/** When the safety limit cuts an event off: the deliveries that an event can cause, counted along edges
    and channels, against the limit. */
module ControlLimits {
  import opened Basics
  import opened ExpansionEdges
  import opened ControlText
  import opened ControlValues
  import opened ControlPropagation
  import opened ControlEvents

  // ---- Counting deliveries ---------------------------------------------------------------------------

  /** The port at which a node emits. */
  function OutPort(kind: ControlKind): string {
    if kind.FloatKind? || kind.IntKind? || kind.UintKind? || kind.ColorKind? then "value" else "out"
  }

  /** The node listens to the channel that the source sends to. */
  predicate Listens<F>(nodes: seq<ControlNode<F>>, node: ControlNode<F>, sourceId: string) {
    match FindNode(nodes, sourceId)
    case None => false
    case Some(source) =>
      && node.id != sourceId && NamedParam(source, "sendName").Some?
      && NamedParam(node, "receiveName") == NamedParam(source, "sendName")
  }

  /** The weight of the first k nodes that listen to the source. */
  function Listening<F>(nodes: seq<ControlNode<F>>, sourceId: string, k: nat, weight: string -> nat): nat
    requires k <= |nodes|
  {
    if k == 0 then 0 else
      Listening(nodes, sourceId, k - 1, weight)
      + if Listens(nodes, nodes[k - 1], sourceId) then weight(nodes[k - 1].id) else 0
  }

  /** The weight of the targets of those of the first k edges that leave the port. */
  function Leaving(edges: seq<Wire>, port: PortRef, k: nat, weight: string -> nat): nat
    requires k <= |edges|
  {
    if k == 0 then 0 else
      Leaving(edges, port, k - 1, weight)
      + if edges[k - 1].source == port then weight(edges[k - 1].target.nodeId) else 0
  }

  /** The most deliveries that an emission from a port can cause within some generations, its own
      included. */
  function Fan<F>(graph: ControlGraph<F>, port: PortRef, depth: nat): nat
    decreases depth, 0
  {
    if depth == 0 then 0 else
      var weight := (id: string) => NodeFan(graph, id, depth - 1);
      1 + Listening(graph.nodes, port.nodeId, |graph.nodes|, weight)
      + Leaving(graph.edges, port, |graph.edges|, weight)
  }

  /** The same for an event at a node. */
  function NodeFan<F>(graph: ControlGraph<F>, id: string, depth: nat): nat
    decreases depth, 1
  {
    match FindNode(graph.nodes, id)
    case None => 0
    case Some(node) => if Supports(node.kind) then Fan(graph, PortRef(id, OutPort(node.kind)), depth) else 0
  }

  function Weight<F>(graph: ControlGraph<F>, depth: nat): string -> nat {
    (id: string) => NodeFan(graph, id, depth)
  }

  function PortCost<F>(graph: ControlGraph<F>, depth: nat): PortRef -> nat {
    (port: PortRef) => Fan(graph, port, depth)
  }

  function Total<F>(emitted: seq<Emission<F>>, cost: PortRef -> nat): nat {
    if emitted == [] then 0 else
      var n := |emitted| - 1;
      Total(emitted[..n], cost) + cost(PortRef(emitted[n].nodeId, emitted[n].portId))
  }

  lemma {:induction false} TotalAppend<F>(a: seq<Emission<F>>, b: seq<Emission<F>>, cost: PortRef -> nat)
    ensures Total(a + b, cost) == Total(a, cost) + Total(b, cost)
    decreases |b|
  {
    if b == [] {
      assert a + b == a;
    } else {
      var n := |b| - 1;
      TotalAppend(a, b[..n], cost);
      assert (a + b)[..|a + b| - 1] == a + b[..n];
    }
  }

  lemma FanSplit<F>(graph: ControlGraph<F>, port: PortRef, depth: nat)
    ensures Fan(graph, port, depth + 1) ==
            1 + Listening(graph.nodes, port.nodeId, |graph.nodes|, Weight(graph, depth))
            + Leaving(graph.edges, port, |graph.edges|, Weight(graph, depth))
  {
    var weight := (id: string) => NodeFan(graph, id, depth);
    SameListening(graph.nodes, port.nodeId, |graph.nodes|, weight, Weight(graph, depth));
    SameLeaving(graph.edges, port, |graph.edges|, weight, Weight(graph, depth));
  }

  lemma {:induction false} MoreListening<F>(nodes: seq<ControlNode<F>>, sourceId: string, k: nat,
                                            weight: string -> nat, weight': string -> nat)
    requires k <= |nodes| && forall id :: weight(id) <= weight'(id)
    ensures Listening(nodes, sourceId, k, weight) <= Listening(nodes, sourceId, k, weight')
    decreases k
  {
    if k > 0 {
      MoreListening(nodes, sourceId, k - 1, weight, weight');
    }
  }

  lemma {:induction false} MoreLeaving(edges: seq<Wire>, port: PortRef, k: nat,
                                       weight: string -> nat, weight': string -> nat)
    requires k <= |edges| && forall id :: weight(id) <= weight'(id)
    ensures Leaving(edges, port, k, weight) <= Leaving(edges, port, k, weight')
    decreases k
  {
    if k > 0 {
      MoreLeaving(edges, port, k - 1, weight, weight');
    }
  }

  lemma SameListening<F>(nodes: seq<ControlNode<F>>, sourceId: string, k: nat,
                         weight: string -> nat, weight': string -> nat)
    requires k <= |nodes| && forall id :: weight(id) == weight'(id)
    ensures Listening(nodes, sourceId, k, weight) == Listening(nodes, sourceId, k, weight')
  {
    MoreListening(nodes, sourceId, k, weight, weight');
    MoreListening(nodes, sourceId, k, weight', weight);
  }

  lemma SameLeaving(edges: seq<Wire>, port: PortRef, k: nat, weight: string -> nat, weight': string -> nat)
    requires k <= |edges| && forall id :: weight(id) == weight'(id)
    ensures Leaving(edges, port, k, weight) == Leaving(edges, port, k, weight')
  {
    MoreLeaving(edges, port, k, weight, weight');
    MoreLeaving(edges, port, k, weight', weight);
  }

  // ---- More generations ---------------------------------------------------------------------------------

  lemma {:induction false} FanGrows<F>(graph: ControlGraph<F>, port: PortRef, depth: nat)
    ensures Fan(graph, port, depth) <= Fan(graph, port, depth + 1)
    decreases depth, 0
  {
    if depth > 0 {
      FanSplit(graph, port, depth - 1);
      FanSplit(graph, port, depth);
      forall id ensures Weight(graph, depth - 1)(id) <= Weight(graph, depth)(id) {
        NodeFanGrows(graph, id, depth - 1);
      }
      MoreListening(graph.nodes, port.nodeId, |graph.nodes|, Weight(graph, depth - 1), Weight(graph, depth));
      MoreLeaving(graph.edges, port, |graph.edges|, Weight(graph, depth - 1), Weight(graph, depth));
    }
  }

  lemma {:induction false} NodeFanGrows<F>(graph: ControlGraph<F>, id: string, depth: nat)
    ensures NodeFan(graph, id, depth) <= NodeFan(graph, id, depth + 1)
    decreases depth, 1
  {
    var found := FindNode(graph.nodes, id);
    if found.Some? {
      FanGrows(graph, PortRef(id, OutPort(found.value.kind)), depth);
    }
  }

  lemma {:induction false} TotalGrows<F>(graph: ControlGraph<F>, emitted: seq<Emission<F>>, depth: nat)
    ensures Total(emitted, PortCost(graph, depth)) <= Total(emitted, PortCost(graph, depth + 1))
    decreases |emitted|
  {
    if emitted != [] {
      var n := |emitted| - 1;
      TotalGrows(graph, emitted[..n], depth);
      FanGrows(graph, PortRef(emitted[n].nodeId, emitted[n].portId), depth);
    }
  }

  // ---- What a delivery causes ---------------------------------------------------------------------------

  /** A node weighs at least as much as an emission from its port costs. */
  ghost predicate Covers<F>(nodes: seq<ControlNode<F>>, weight: string -> nat, cost: PortRef -> nat) {
    forall id :: FindNode(nodes, id).Some? && Supports(FindNode(nodes, id).value.kind) ==>
      cost(PortRef(id, OutPort(FindNode(nodes, id).value.kind))) <= weight(id)
  }

  lemma FanCovers<F>(graph: ControlGraph<F>, depth: nat)
    ensures Covers(graph.nodes, Weight(graph, depth), PortCost(graph, depth))
  {
  }

  /** An event at a node makes it emit once at most, at its own port. */
  lemma EmitsOnce<F>(ops: Numbers<F>, nodes: seq<ControlNode<F>>, s: State<F>, request: Request<F>)
    requires Direct(ops, nodes, s, request).Done?
    ensures FindNode(nodes, request.nodeId).Some? && Supports(FindNode(nodes, request.nodeId).value.kind)
    ensures var emitted := Direct(ops, nodes, s, request).emitted;
            && |emitted| <= 1
            && (emitted != [] ==> emitted[0].nodeId == request.nodeId
                                  && emitted[0].portId == OutPort(FindNode(nodes, request.nodeId).value.kind))
  {
  }

  lemma DirectCosts<F>(ops: Numbers<F>, nodes: seq<ControlNode<F>>, s: State<F>, request: Request<F>,
                       weight: string -> nat, cost: PortRef -> nat)
    requires Covers(nodes, weight, cost) && Direct(ops, nodes, s, request).Done?
    ensures Total(Direct(ops, nodes, s, request).emitted, cost) <= weight(request.nodeId)
  {
    var emitted := Direct(ops, nodes, s, request).emitted;
    EmitsOnce(ops, nodes, s, request);
    if emitted != [] {
      assert emitted[..0] == [];
    }
  }

  lemma ReceiveCosts<F>(ops: Numbers<F>, nodes: seq<ControlNode<F>>, s: State<F>, node: ControlNode<F>, name: string,
                        message: ControlMessage<F>, sourceId: string, weight: string -> nat, cost: PortRef -> nat)
    requires Covers(nodes, weight, cost) && FindNode(nodes, sourceId).Some?
    requires NamedParam(FindNode(nodes, sourceId).value, "sendName") == Some(name)
    ensures Total(Receive(ops, nodes, s, node, name, message, sourceId).1, cost)
         <= if Listens(nodes, node, sourceId) then weight(node.id) else 0
  {
    if Receive(ops, nodes, s, node, name, message, sourceId).1 != [] {
      DirectCosts(ops, nodes, s, Request(node.id, "in", message), weight, cost);
    }
  }

  /** What a node does when it is reached, and what it emits. */
  type Reaction<!F> = (State<F>, ControlNode<F>) -> (State<F>, seq<Emission<F>>)

  /** The first k nodes are reached one after the other. */
  function Spread<F>(reaction: Reaction<F>, nodes: seq<ControlNode<F>>, k: nat, s: State<F>)
    : (State<F>, seq<Emission<F>>)
    requires k <= |nodes|
  {
    if k == 0 then (s, []) else
      var before := Spread(reaction, nodes, k - 1, s);
      var one := reaction(before.0, nodes[k - 1]);
      (one.0, before.1 + one.1)
  }

  function Reacting<F>(ops: Numbers<F>, nodes: seq<ControlNode<F>>, name: string, message: ControlMessage<F>,
                       sourceId: string): Reaction<F> {
    (s, node) => Receive(ops, nodes, s, node, name, message, sourceId)
  }

  lemma {:induction false} BroadcastIsSpread<F>(ops: Numbers<F>, nodes: seq<ControlNode<F>>, k: nat, s: State<F>,
                                                name: string, message: ControlMessage<F>, sourceId: string)
    requires k <= |nodes|
    ensures Broadcast(ops, nodes, k, s, name, message, sourceId) ==
            Spread(Reacting(ops, nodes, name, message, sourceId), nodes, k, s)
    decreases k
  {
    if k > 0 {
      BroadcastIsSpread(ops, nodes, k - 1, s, name, message, sourceId);
    }
  }

  lemma {:induction false} SpreadCosts<F(!new)>(reaction: Reaction<F>, nodes: seq<ControlNode<F>>, k: nat, s: State<F>,
                                                sourceId: string, weight: string -> nat, cost: PortRef -> nat)
    requires k <= |nodes|
    requires forall t, node :: node in nodes ==>
               Total(reaction(t, node).1, cost) <= if Listens(nodes, node, sourceId) then weight(node.id) else 0
    ensures Total(Spread(reaction, nodes, k, s).1, cost) <= Listening(nodes, sourceId, k, weight)
    decreases k
  {
    if k > 0 {
      var before := Spread(reaction, nodes, k - 1, s);
      SpreadCosts(reaction, nodes, k - 1, s, sourceId, weight, cost);
      TotalAppend(before.1, reaction(before.0, nodes[k - 1]).1, cost);
    }
  }

  lemma {:induction false} SpreadCostsAll<F(!new)>(reaction: Reaction<F>, nodes: seq<ControlNode<F>>, k: nat,
                                                   s: State<F>, sourceId: string, weight: string -> nat,
                                                   cost: PortRef -> nat)
    requires k <= |nodes|
    requires forall t, node :: node in nodes ==>
               Total(reaction(t, node).1, cost) >= if Listens(nodes, node, sourceId) then weight(node.id) else 0
    ensures Total(Spread(reaction, nodes, k, s).1, cost) >= Listening(nodes, sourceId, k, weight)
    decreases k
  {
    if k > 0 {
      var before := Spread(reaction, nodes, k - 1, s);
      SpreadCostsAll(reaction, nodes, k - 1, s, sourceId, weight, cost);
      TotalAppend(before.1, reaction(before.0, nodes[k - 1]).1, cost);
    }
  }

  lemma BroadcastCosts<F(!new)>(ops: Numbers<F>, nodes: seq<ControlNode<F>>, s: State<F>, name: string,
                                message: ControlMessage<F>, sourceId: string,
                                weight: string -> nat, cost: PortRef -> nat)
    requires Covers(nodes, weight, cost) && FindNode(nodes, sourceId).Some?
    requires NamedParam(FindNode(nodes, sourceId).value, "sendName") == Some(name)
    ensures Total(Broadcast(ops, nodes, |nodes|, s, name, message, sourceId).1, cost)
         <= Listening(nodes, sourceId, |nodes|, weight)
  {
    var reaction := Reacting(ops, nodes, name, message, sourceId);
    forall t, node | node in nodes
      ensures Total(reaction(t, node).1, cost) <= if Listens(nodes, node, sourceId) then weight(node.id) else 0
    {
      ReceiveCosts(ops, nodes, t, node, name, message, sourceId, weight, cost);
    }
    BroadcastIsSpread(ops, nodes, |nodes|, s, name, message, sourceId);
    SpreadCosts(reaction, nodes, |nodes|, s, sourceId, weight, cost);
  }

  lemma PublishCosts<F(!new)>(ops: Numbers<F>, nodes: seq<ControlNode<F>>, s: State<F>, e: Emission<F>,
                        weight: string -> nat, cost: PortRef -> nat)
    requires Covers(nodes, weight, cost)
    ensures Total(Publish(ops, nodes, s, e).1, cost) <= Listening(nodes, e.nodeId, |nodes|, weight)
  {
    var found := FindNode(nodes, e.nodeId);
    if found.Some? && NamedParam(found.value, "sendName").Some? {
      var name := NamedParam(found.value, "sendName").value;
      var key := ChannelKey(DataKindOf(e.message), name);
      var stored := s.(channels := s.channels[key := e.message]);
      BroadcastCosts(ops, nodes, stored, name, e.message, e.nodeId, weight, cost);
    }
  }

  lemma {:induction false} AlongCosts<F>(ops: Numbers<F>, graph: ControlGraph<F>, k: nat, s: State<F>,
                                         e: Emission<F>, weight: string -> nat, cost: PortRef -> nat)
    requires Covers(graph.nodes, weight, cost) && k <= |graph.edges| && AlongEdges(ops, graph, k, s, e).Done?
    ensures Total(AlongEdges(ops, graph, k, s, e).emitted, cost)
         <= Leaving(graph.edges, PortRef(e.nodeId, e.portId), k, weight)
    decreases k
  {
    if k > 0 {
      var before := AlongEdges(ops, graph, k - 1, s, e);
      var edge := graph.edges[k - 1];
      AlongCosts(ops, graph, k - 1, s, e, weight, cost);
      if Target(graph, edge, e).Some? {
        var request := Request(edge.target.nodeId, edge.target.portId, e.message);
        DirectCosts(ops, graph.nodes, before.state, request, weight, cost);
        TotalAppend(before.emitted, Direct(ops, graph.nodes, before.state, request).emitted, cost);
      }
    }
  }

  lemma DeliverCosts<F(!new)>(ops: Numbers<F>, graph: ControlGraph<F>, s: State<F>, e: Emission<F>, depth: nat)
    requires Deliver(ops, graph, s, e).Done?
    ensures Total(Deliver(ops, graph, s, e).emitted, PortCost(graph, depth)) + 1
         <= Fan(graph, PortRef(e.nodeId, e.portId), depth + 1)
  {
    var weight, cost := Weight(graph, depth), PortCost(graph, depth);
    var published := Publish(ops, graph.nodes, s, e);
    FanCovers(graph, depth);
    FanSplit(graph, PortRef(e.nodeId, e.portId), depth);
    PublishCosts(ops, graph.nodes, s, e, weight, cost);
    AlongCosts(ops, graph, |graph.edges|, published.0, e, weight, cost);
    TotalAppend(published.1, AlongEdges(ops, graph, |graph.edges|, published.0, e).emitted, cost);
  }

  // ---- Within the limit --------------------------------------------------------------------------------

  function Costs<F>(graph: ControlGraph<F>): Cost<F> {
    (waiting, depth) => Total(waiting, PortCost(graph, depth))
  }

  lemma DeliveryFalls<F(!new)>(ops: Numbers<F>, graph: ControlGraph<F>, s: State<F>, waiting: seq<Emission<F>>,
                               depth: nat)
    ensures CostFalls(Delivering(ops, graph), Costs(graph), s, waiting, depth)
  {
    if waiting != [] {
      var n := |waiting| - 1;
      if Deliver(ops, graph, s, waiting[n]).Done? {
        DeliverCosts(ops, graph, s, waiting[n], depth);
        TotalGrows(graph, waiting[..n], depth);
        TotalAppend(waiting[..n], Deliver(ops, graph, s, waiting[n]).emitted, PortCost(graph, depth));
      }
    }
  }

  /** An event with another limit. */
  function EventWithin<F>(ops: Numbers<F>, graph: ControlGraph<F>, s: State<F>, request: Request<F>, limit: nat)
    : Outcome<F>
  {
    match Direct(ops, graph.nodes, s, request)
    case Failed => Failed
    case Done(staged, emitted) => After(emitted, Propagate(Delivering(ops, graph), staged, emitted, limit))
  }

  /** The deliveries that an event at the node can cause stay within the limit. */
  predicate WithinLimit<F>(graph: ControlGraph<F>, id: string) {
    var limit := Limit(|graph.edges|);
    NodeFan(graph, id, limit + 1) <= limit
  }

  /** An event at a node whose deliveries stay within the limit has the outcome that it has with any
      larger limit: it is not cut off. */
  lemma EventNotCutOff<F(!new)>(ops: Numbers<F>, graph: ControlGraph<F>, s: State<F>, request: Request<F>, more: nat)
    requires WithinLimit(graph, request.nodeId) && more >= Limit(|graph.edges|)
    ensures Event(ops, graph, s, request) == EventWithin(ops, graph, s, request, more)
  {
    var direct := Direct(ops, graph.nodes, s, request);
    if direct.Done? {
      var limit := Limit(|graph.edges|);
      FanCovers(graph, limit + 1);
      DirectCosts(ops, graph.nodes, s, request, Weight(graph, limit + 1), PortCost(graph, limit + 1));
      forall t, w, d ensures CostFalls(Delivering(ops, graph), Costs(graph), t, w, d) {
        DeliveryFalls(ops, graph, t, w, d);
      }
      CheapIsNotCutOff(Delivering(ops, graph), Costs(graph), direct.state, direct.emitted, limit, more, limit + 1);
    }
  }

  // ---- Exactly when, for bang nodes ---------------------------------------------------------------------

  ghost predicate IsBangs<F>(nodes: seq<ControlNode<F>>) {
    forall n :: n in nodes ==> n.kind.BangKind?
  }

  /** A graph of bang nodes, which answer every event at their input. */
  ghost predicate BangGraph<F>(graph: ControlGraph<F>) {
    IsBangs(graph.nodes) && forall e :: e in graph.edges ==> e.target.portId == "in"
  }

  /** A node weighs what an emission from its port costs, and nothing if there is no such node. */
  ghost predicate Balances<F>(nodes: seq<ControlNode<F>>, weight: string -> nat, cost: PortRef -> nat) {
    forall id :: weight(id) == if FindNode(nodes, id).Some? then cost(PortRef(id, "out")) else 0
  }

  lemma FanBalances<F>(graph: ControlGraph<F>, depth: nat)
    requires BangGraph(graph)
    ensures Balances(graph.nodes, Weight(graph, depth), PortCost(graph, depth))
  {
  }

  lemma DirectBang<F>(ops: Numbers<F>, nodes: seq<ControlNode<F>>, s: State<F>, id: string, message: ControlMessage<F>,
                      weight: string -> nat, cost: PortRef -> nat)
    requires IsBangs(nodes) && Balances(nodes, weight, cost) && FindNode(nodes, id).Some?
    ensures Direct(ops, nodes, s, Request(id, "in", message)) == Done(s, [Emission(id, "out", Bang())])
    ensures Total(Direct(ops, nodes, s, Request(id, "in", message)).emitted, cost) == weight(id)
  {
    var emitted: seq<Emission<F>> := [Emission(id, "out", Bang())];
    assert emitted[..0] == [];
  }

  lemma {:induction false} FoundById<F>(nodes: seq<ControlNode<F>>, n: ControlNode<F>)
    requires n in nodes
    ensures FindNode(nodes, n.id).Some?
    decreases |nodes|
  {
    if nodes[0] != n {
      assert n in nodes[1..];
      FoundById(nodes[1..], n);
    }
  }

  lemma ReceiveBang<F>(ops: Numbers<F>, nodes: seq<ControlNode<F>>, s: State<F>, node: ControlNode<F>, name: string,
                       message: ControlMessage<F>, sourceId: string, weight: string -> nat, cost: PortRef -> nat)
    requires IsBangs(nodes) && Balances(nodes, weight, cost) && node in nodes && FindNode(nodes, sourceId).Some?
    requires NamedParam(FindNode(nodes, sourceId).value, "sendName") == Some(name)
    ensures Total(Receive(ops, nodes, s, node, name, message, sourceId).1, cost)
         == if Listens(nodes, node, sourceId) then weight(node.id) else 0
  {
    FoundById(nodes, node);
    DirectBang(ops, nodes, s, node.id, message, weight, cost);
  }

  lemma BroadcastBangs<F(!new)>(ops: Numbers<F>, nodes: seq<ControlNode<F>>, s: State<F>, name: string,
                                message: ControlMessage<F>, sourceId: string,
                                weight: string -> nat, cost: PortRef -> nat)
    requires IsBangs(nodes) && Balances(nodes, weight, cost) && FindNode(nodes, sourceId).Some?
    requires NamedParam(FindNode(nodes, sourceId).value, "sendName") == Some(name)
    ensures Total(Broadcast(ops, nodes, |nodes|, s, name, message, sourceId).1, cost)
         == Listening(nodes, sourceId, |nodes|, weight)
  {
    var reaction := Reacting(ops, nodes, name, message, sourceId);
    forall t, node | node in nodes
      ensures Total(reaction(t, node).1, cost) == if Listens(nodes, node, sourceId) then weight(node.id) else 0
    {
      ReceiveBang(ops, nodes, t, node, name, message, sourceId, weight, cost);
    }
    BroadcastIsSpread(ops, nodes, |nodes|, s, name, message, sourceId);
    SpreadCosts(reaction, nodes, |nodes|, s, sourceId, weight, cost);
    SpreadCostsAll(reaction, nodes, |nodes|, s, sourceId, weight, cost);
  }

  lemma {:induction false} NobodyListens<F>(nodes: seq<ControlNode<F>>, sourceId: string, k: nat, weight: string -> nat)
    requires k <= |nodes|
    requires var found := FindNode(nodes, sourceId);
             found.None? || NamedParam(found.value, "sendName").None?
    ensures Listening(nodes, sourceId, k, weight) == 0
    decreases k
  {
    if k > 0 {
      NobodyListens(nodes, sourceId, k - 1, weight);
    }
  }

  lemma PublishBangs<F(!new)>(ops: Numbers<F>, nodes: seq<ControlNode<F>>, s: State<F>, e: Emission<F>,
                        weight: string -> nat, cost: PortRef -> nat)
    requires IsBangs(nodes) && Balances(nodes, weight, cost)
    ensures Total(Publish(ops, nodes, s, e).1, cost) == Listening(nodes, e.nodeId, |nodes|, weight)
  {
    var found := FindNode(nodes, e.nodeId);
    if found.Some? && NamedParam(found.value, "sendName").Some? {
      var name := NamedParam(found.value, "sendName").value;
      var key := ChannelKey(DataKindOf(e.message), name);
      var stored := s.(channels := s.channels[key := e.message]);
      BroadcastBangs(ops, nodes, stored, name, e.message, e.nodeId, weight, cost);
    } else {
      NobodyListens(nodes, e.nodeId, |nodes|, weight);
    }
  }

  lemma {:induction false} AlongBangs<F>(ops: Numbers<F>, graph: ControlGraph<F>, k: nat, s: State<F>,
                                         e: Emission<F>, weight: string -> nat, cost: PortRef -> nat)
    requires BangGraph(graph) && Balances(graph.nodes, weight, cost) && k <= |graph.edges|
    ensures AlongEdges(ops, graph, k, s, e).Done?
    ensures Total(AlongEdges(ops, graph, k, s, e).emitted, cost)
         == Leaving(graph.edges, PortRef(e.nodeId, e.portId), k, weight)
    decreases k
  {
    if k > 0 {
      var before := AlongEdges(ops, graph, k - 1, s, e);
      var edge := graph.edges[k - 1];
      AlongBangs(ops, graph, k - 1, s, e, weight, cost);
      if Target(graph, edge, e).Some? {
        var id := edge.target.nodeId;
        DirectBang(ops, graph.nodes, before.state, id, e.message, weight, cost);
        TotalAppend(before.emitted, [Emission(id, "out", Bang())], cost);
      }
    }
  }

  /** Among bang nodes, a delivery causes all the deliveries counted. */
  lemma DeliverBang<F(!new)>(ops: Numbers<F>, graph: ControlGraph<F>, s: State<F>, e: Emission<F>, depth: nat)
    requires BangGraph(graph)
    ensures Deliver(ops, graph, s, e).Done?
    ensures Total(Deliver(ops, graph, s, e).emitted, PortCost(graph, depth)) + 1
         == Fan(graph, PortRef(e.nodeId, e.portId), depth + 1)
  {
    var weight, cost := Weight(graph, depth), PortCost(graph, depth);
    var published := Publish(ops, graph.nodes, s, e);
    FanBalances(graph, depth);
    FanSplit(graph, PortRef(e.nodeId, e.portId), depth);
    PublishBangs(ops, graph.nodes, s, e, weight, cost);
    AlongBangs(ops, graph, |graph.edges|, published.0, e, weight, cost);
    TotalAppend(published.1, AlongEdges(ops, graph, |graph.edges|, published.0, e).emitted, cost);
  }

  lemma BangStays<F(!new)>(ops: Numbers<F>, graph: ControlGraph<F>, s: State<F>, waiting: seq<Emission<F>>, depth: nat)
    requires BangGraph(graph)
    ensures CostStays(Delivering(ops, graph), Costs(graph), s, waiting, depth)
  {
    if waiting != [] {
      var n := |waiting| - 1;
      var e := waiting[n];
      DeliverBang(ops, graph, s, e, depth);
      FanGrows(graph, PortRef(e.nodeId, e.portId), depth);
      TotalAppend(waiting[..n], Deliver(ops, graph, s, e).emitted, PortCost(graph, depth));
    }
  }

  /** Among bang nodes, the count is exact: an event is accepted exactly when the deliveries that it
      causes stay within the limit. */
  lemma CutOffExactly<F(!new)>(ops: Numbers<F>, graph: ControlGraph<F>, s: State<F>, id: string,
                               message: ControlMessage<F>)
    requires BangGraph(graph) && FindNode(graph.nodes, id).Some?
    ensures Event(ops, graph, s, Request(id, "in", message)).Done? <==> WithinLimit(graph, id)
  {
    var step, limit := Delivering(ops, graph), Limit(|graph.edges|);
    var direct := Direct(ops, graph.nodes, s, Request(id, "in", message));
    FanBalances(graph, limit + 1);
    DirectBang(ops, graph.nodes, s, id, message, Weight(graph, limit + 1), PortCost(graph, limit + 1));
    if WithinLimit(graph, id) {
      forall t, w, d ensures CostFalls(step, Costs(graph), t, w, d) {
        DeliveryFalls(ops, graph, t, w, d);
      }
      forall t, e ensures step(t, e).Done? {
        DeliverBang(ops, graph, t, e, 0);
      }
      CheapSucceeds(step, Costs(graph), direct.state, direct.emitted, limit, limit + 1);
    } else {
      forall t, w, d ensures CostStays(step, Costs(graph), t, w, d) {
        BangStays(ops, graph, t, w, d);
      }
      CostlyIsCutOff(step, Costs(graph), direct.state, direct.emitted, limit, limit + 1);
    }
  }

  // ---- A chain of diamonds ----------------------------------------------------------------------------

  function NodeName(j: nat): (r: string)
    ensures |r| == j + 1
  {
    seq(j + 1, _ => 'n')
  }

  function BangNode<F>(j: nat): ControlNode<F> {
    ControlNode(NodeName(j), BangKind, {"in"}, map[], map[], None, None, None)
  }

  function Joins(i: nat, j: nat): Wire {
    Wire(PortRef(NodeName(i), "out"), PortRef(NodeName(j), "in"))
  }

  /** The four edges of a diamond, from its first node over two others to the first of the next. */
  function DiamondEdge(j: nat): Wire {
    var i := 3 * (j / 4);
    if j % 4 == 0 then Joins(i, i + 1)
    else if j % 4 == 1 then Joins(i, i + 2)
    else if j % 4 == 2 then Joins(i + 1, i + 3)
    else Joins(i + 2, i + 3)
  }

  lemma DiamondEdges(i: nat)
    ensures DiamondEdge(4 * i) == Joins(3 * i, 3 * i + 1) && DiamondEdge(4 * i + 1) == Joins(3 * i, 3 * i + 2)
    ensures DiamondEdge(4 * i + 2) == Joins(3 * i + 1, 3 * i + 3)
    ensures DiamondEdge(4 * i + 3) == Joins(3 * i + 2, 3 * i + 3)
  {
    assert (4 * i) / 4 == i && (4 * i + 1) / 4 == i && (4 * i + 2) / 4 == i && (4 * i + 3) / 4 == i;
  }

  /** A chain of k diamonds of bang nodes. */
  ghost predicate IsDiamonds<F>(graph: ControlGraph<F>, k: nat) {
    && |graph.nodes| == 3 * k + 1 && (forall j :: 0 <= j < |graph.nodes| ==> graph.nodes[j] == BangNode(j))
    && |graph.edges| == 4 * k && (forall j :: 0 <= j < |graph.edges| ==> graph.edges[j] == DiamondEdge(j))
  }

  function Diamonds<F>(k: nat): (r: ControlGraph<F>)
    ensures IsDiamonds(r, k)
  {
    ControlGraph(seq(3 * k + 1, j requires j >= 0 => BangNode(j)), seq(4 * k, j requires j >= 0 => DiamondEdge(j)))
  }

  lemma DiamondsAreBangs<F>(graph: ControlGraph<F>, k: nat, j: nat)
    requires IsDiamonds(graph, k) && j <= 3 * k
    ensures BangGraph(graph) && FindNode(graph.nodes, NodeName(j)).Some?
  {
    assert graph.nodes[j] in graph.nodes && graph.nodes[j].id == NodeName(j);
    FoundById(graph.nodes, graph.nodes[j]);
  }

  lemma {:induction false} EdgeWeighs(edges: seq<Wire>, port: PortRef, i: nat, k: nat, weight: string -> nat)
    requires i < k <= |edges| && edges[i].source == port
    ensures Leaving(edges, port, k, weight) >= Leaving(edges, port, i, weight) + weight(edges[i].target.nodeId)
    decreases k
  {
    if i < k - 1 {
      EdgeWeighs(edges, port, i, k - 1, weight);
    }
  }

  lemma TwoEdgesWeigh(edges: seq<Wire>, port: PortRef, i: nat, weight: string -> nat)
    requires i + 1 < |edges| && edges[i].source == edges[i + 1].source == port
    ensures Leaving(edges, port, |edges|, weight)
         >= weight(edges[i].target.nodeId) + weight(edges[i + 1].target.nodeId)
  {
    EdgeWeighs(edges, port, i, i + 1, weight);
    EdgeWeighs(edges, port, i + 1, |edges|, weight);
  }

  /** An event at a bang node causes one delivery and those along the edges from its output. */
  lemma BangFan<F>(graph: ControlGraph<F>, id: string, depth: nat)
    requires BangGraph(graph) && FindNode(graph.nodes, id).Some?
    ensures NodeFan(graph, id, depth + 1)
         >= 1 + Leaving(graph.edges, PortRef(id, "out"), |graph.edges|, Weight(graph, depth))
  {
    FanSplit(graph, PortRef(id, "out"), depth);
  }

  /** The walks that start at the first node of a chain of m diamonds. */
  function Walks(m: nat): nat {
    if m == 0 then 1 else 3 + 2 * Walks(m - 1)
  }

  lemma {:induction false} WalksOutgrow(m: nat)
    requires m >= 4
    ensures Walks(m) > 8 * m
  {
    if m == 4 {
      assert Walks(2) == 13 && Walks(4) == 61;
    } else {
      WalksOutgrow(m - 1);
    }
  }

  lemma OneEdgeCounts<F>(graph: ControlGraph<F>, k: nat, e: nat, i: nat, j: nat, depth: nat)
    requires IsDiamonds(graph, k) && e < 4 * k && i <= 3 * k && DiamondEdge(e) == Joins(i, j)
    ensures NodeFan(graph, NodeName(i), depth + 1) >= 1 + NodeFan(graph, NodeName(j), depth)
  {
    DiamondsAreBangs(graph, k, i);
    BangFan(graph, NodeName(i), depth);
    EdgeWeighs(graph.edges, PortRef(NodeName(i), "out"), e, |graph.edges|, Weight(graph, depth));
  }

  lemma TwoEdgesCount<F>(graph: ControlGraph<F>, k: nat, e: nat, i: nat, j: nat, j': nat, depth: nat)
    requires IsDiamonds(graph, k) && e + 1 < 4 * k && i <= 3 * k
    requires DiamondEdge(e) == Joins(i, j) && DiamondEdge(e + 1) == Joins(i, j')
    ensures NodeFan(graph, NodeName(i), depth + 1)
         >= 1 + NodeFan(graph, NodeName(j), depth) + NodeFan(graph, NodeName(j'), depth)
  {
    DiamondsAreBangs(graph, k, i);
    BangFan(graph, NodeName(i), depth);
    TwoEdgesWeigh(graph.edges, PortRef(NodeName(i), "out"), e, Weight(graph, depth));
  }

  lemma DiamondCounts<F>(graph: ControlGraph<F>, k: nat, e: nat, i: nat, a: nat, b: nat, j: nat, depth: nat)
    requires IsDiamonds(graph, k) && e + 3 < 4 * k && i <= 3 * k && a <= 3 * k && b <= 3 * k
    requires DiamondEdge(e) == Joins(i, a) && DiamondEdge(e + 1) == Joins(i, b)
    requires DiamondEdge(e + 2) == Joins(a, j) && DiamondEdge(e + 3) == Joins(b, j)
    ensures NodeFan(graph, NodeName(i), depth + 2) >= 3 + 2 * NodeFan(graph, NodeName(j), depth)
  {
    TwoEdgesCount(graph, k, e, i, a, b, depth + 1);
    OneEdgeCounts(graph, k, e + 2, a, j, depth);
    OneEdgeCounts(graph, k, e + 3, b, j, depth);
  }

  lemma NextDiamond<F>(graph: ControlGraph<F>, k: nat, i: nat, depth: nat)
    requires IsDiamonds(graph, k) && i < k
    ensures NodeFan(graph, NodeName(3 * i), depth + 2) >= 3 + 2 * NodeFan(graph, NodeName(3 * (i + 1)), depth)
  {
    DiamondEdges(i);
    DiamondCounts(graph, k, 4 * i, 3 * i, 3 * i + 1, 3 * i + 2, 3 * i + 3, depth);
  }

  lemma {:induction false} DiamondFan<F>(graph: ControlGraph<F>, k: nat, i: nat, depth: nat)
    requires IsDiamonds(graph, k) && i <= k && depth >= 2 * (k - i) + 1
    ensures NodeFan(graph, NodeName(3 * i), depth) >= Walks(k - i)
    decreases k - i
  {
    if i == k {
      DiamondsAreBangs(graph, k, 3 * i);
      BangFan(graph, NodeName(3 * i), depth - 1);
    } else {
      DiamondFan(graph, k, i + 1, depth - 2);
      NextDiamond(graph, k, i, depth - 2);
    }
  }

  lemma DiamondsExceedLimit<F>(graph: ControlGraph<F>, k: nat)
    requires IsDiamonds(graph, k) && k >= 4
    ensures !WithinLimit(graph, NodeName(0))
  {
    DiamondFan(graph, k, 0, Limit(|graph.edges|) + 1);
    WalksOutgrow(k);
  }

  /** A chain of four diamonds or more has no cycle, since every edge leads to a longer name, but it is
      too much for the limit: every event at its first node is rejected. */
  lemma DiamondsAreCutOff<F(!new)>(ops: Numbers<F>, s: State<F>, k: nat, message: ControlMessage<F>)
    requires k >= 4
    ensures Event(ops, Diamonds<F>(k), s, Request(NodeName(0), "in", message)).Failed?
    ensures forall edge :: edge in Diamonds<F>(k).edges ==> |edge.source.nodeId| < |edge.target.nodeId|
  {
    var graph := Diamonds<F>(k);
    DiamondsAreBangs(graph, k, 0);
    DiamondsExceedLimit(graph, k);
    CutOffExactly(ops, graph, s, NodeName(0), message);
  }
}
