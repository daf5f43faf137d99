/** The whole way from a nested project to sound: flattening, planning order, audio plan, executors. */
module Playback {
  import opened Basics
  import opened ExpansionEdges
  import opened Expansion
  import opened Flattening
  import opened FlatMeaning
  import opened CurrentOrder
  import opened Cycles
  import opened DspBlocks
  import Contraction
  import NestedMeaning
  import DspPlan
  import DspRealtime
  import DspRefinement

  /** A flat graph as the audio planner sees it. */
  function AudioGraphOf<S>(flat: Graph, asAudio: GraphNode -> DspPlan.AudioNode<S>): (r: DspPlan.AudioGraph<S>)
    ensures |r.nodes| == |flat.nodes| && forall k :: 0 <= k < |r.nodes| ==> r.nodes[k] == asAudio(flat.nodes[k])
    ensures |r.edges| == |flat.edges|
    ensures forall k ::
              0 <= k < |r.edges| ==> r.edges[k] == DspPlan.AudioEdge(flat.edges[k].source, flat.edges[k].target)
  {
    var edges := seq(|flat.edges|,
                     k requires 0 <= k < |flat.edges| => DspPlan.AudioEdge(flat.edges[k].source, flat.edges[k].target));
    DspPlan.AudioGraph(seq(|flat.nodes|, k requires 0 <= k < |flat.nodes| => asAudio(flat.nodes[k])), edges)
  }

  ghost predicate KeepsIds<S>(asAudio: GraphNode -> DspPlan.AudioNode<S>) {
    forall n :: asAudio(n).id == n.id
  }

  /** No edge is a feedback edge, and the edges make no cycle. */
  ghost predicate FeedbackFree(flat: Graph) {
    (forall e :: e in flat.edges ==> !IsFeedback(e)) && Acyclic(Ids(flat.nodes), ForwardLinks(flat.edges))
  }

  /** Every audio node is of a kind the realtime executor renders, with a signal output if it makes sound. */
  ghost predicate Supported<S>(flat: Graph, asAudio: GraphNode -> DspPlan.AudioNode<S>, isAudio: string -> bool) {
    forall n :: n in flat.nodes && isAudio(n.id) ==>
      && DspRealtime.IsRealtimeKind(asAudio(n).kind)
      && (IsRendering(asAudio(n).kind) ==> exists p :: p in asAudio(n).ports && DspPlan.IsSignalOutput(p))
  }

  datatype ProjectPlan<S> =
    | Rejected(diagnostics: seq<Diagnostic>)
    | Prepared(ordered: Graph, flat: Graph, result: DspPlan.PlanResult<S>)

  /** The graph is the flattened project, for some order of pin elimination. */
  ghost predicate FlattenedFrom(lib: Library, root: Graph, flat: Graph) {
    && flat.nodes == Expand(lib, root, "", 0, []).nodes
    && exists picks :: CompleteFor(lib, root, picks) && flat.edges == FlatEdges(lib, root, picks)
  }

  /** The plan was built for the audio nodes of the graph, in some order of all its nodes. */
  ghost predicate PlannedFrom<S>(flat: Graph, asAudio: GraphNode -> DspPlan.AudioNode<S>, isAudio: string -> bool,
                                 plan: DspPlan.Plan<S>) {
    exists order :: multiset(order) == multiset(Ids(flat.nodes))
                    && DspPlan.WellBuilt(AudioGraphOf(flat, asAudio), Keep(isAudio, order), plan)
                    && DspPlan.CoversSignals(AudioGraphOf(flat, asAudio), Keep(isAudio, order))
  }

  lemma IdsAreDistinct(lib: Library, root: Graph)
    requires NestedMeaning.PlainLibrary(lib) && NestedMeaning.PlainGraph(root)
             && Expand(lib, root, "", 0, []).diagnostics == []
    ensures Distinct(Ids(Expand(lib, root, "", 0, []).nodes))
  {
    FlatIdsDistinct(lib, root, [], 0, []);
  }

  /** A planned node that makes sound has a buffer to render into. */
  lemma PlanIsRenderable<S>(flat: Graph, asAudio: GraphNode -> DspPlan.AudioNode<S>, isAudio: string -> bool,
                            ids: seq<string>, plan: DspPlan.Plan<S>)
    requires KeepsIds(asAudio) && Supported(flat, asAudio, isAudio) && forall id :: id in ids ==> isAudio(id)
    requires DspPlan.WellBuilt(AudioGraphOf(flat, asAudio), ids, plan)
    ensures Renderable(plan)
    ensures forall i :: 0 <= i < |plan.nodes| ==> DspRealtime.IsRealtimeKind(plan.nodes[i].kind)
  {
    var graph := AudioGraphOf(flat, asAudio);
    forall i | 0 <= i < |plan.nodes|
      ensures DspRealtime.IsRealtimeKind(plan.nodes[i].kind)
      ensures IsRendering(plan.nodes[i].kind) ==>
        && |plan.nodes[i].signalOutputs| > 0
        && exists b :: 0 <= b < |plan.buffers| && plan.buffers[b].id == plan.nodes[i].signalOutputs[0].bufferId
    {
      var node := plan.nodes[i];
      assert DspPlan.NodePlanned(graph, node, plan.edges, plan.buffers);
      var found := DspPlan.FindNode(graph.nodes, node.nodeId).value;
      var k :| 0 <= k < |graph.nodes| && graph.nodes[k] == found;
      assert found == asAudio(flat.nodes[k]) && flat.nodes[k].id == ids[i];
      if IsRendering(node.kind) {
        var port :| port in found.ports && DspPlan.IsSignalOutput(port);
        assert port in DspPlan.SignalOutputs(found.ports);
        assert DspPlan.BufferOf(plan.buffers, node.signalOutputs[0].bufferId,
                                PortRef(node.nodeId, node.signalOutputs[0].portId));
      }
    }
  }

  /** Both graphs link the same pairs of nodes. */
  ghost predicate SameWiring(a: Graph, b: Graph) {
    && a.nodes == b.nodes
    && forall s, t :: Contraction.Links(a.edges, s, t) <==> Contraction.Links(b.edges, s, t)
  }

  /** Flattening a project twice, even with pins eliminated in different orders, gives the same wiring. */
  lemma FlattenedTwice(lib: Library, root: Graph, a: Graph, b: Graph)
    requires Expand(lib, root, "", 0, []).diagnostics == []
    requires FlattenedFrom(lib, root, a) && FlattenedFrom(lib, root, b)
    ensures SameWiring(a, b)
  {
    var e := Expand(lib, root, "", 0, []);
    ExpandRegistered(lib, root, "", 0, []);
    var picks :| CompleteFor(lib, root, picks) && a.edges == FlatEdges(lib, root, picks);
    var picks' :| CompleteFor(lib, root, picks') && b.edges == FlatEdges(lib, root, picks');
    forall s, t
      ensures Contraction.Links(a.edges, s, t) <==> Contraction.Links(b.edges, s, t)
    {
      Contraction.OrderIrrelevant(e.edges, e.pins, picks, picks', s, t);
    }
  }

  /** A plan that follows an order of a feedback-free graph with the same wiring has every producer
      before its consumers. */
  lemma PlanIsPlayable<S(!new)>(ordered: Graph, flat: Graph, order: seq<string>,
                                asAudio: GraphNode -> DspPlan.AudioNode<S>, isAudio: string -> bool,
                                plan: DspPlan.Plan<S>)
    requires KeepsIds(asAudio) && Supported(flat, asAudio, isAudio) && FeedbackFree(ordered)
             && SameWiring(ordered, flat)
    requires Distinct(Ids(flat.nodes)) && multiset(order) == multiset(Ids(flat.nodes))
    requires PredecessorsFirst(Ids(ordered.nodes), ForwardLinks(ordered.edges), order)
    requires DspPlan.CoversSignals(AudioGraphOf(flat, asAudio), Keep(isAudio, order))
    requires DspPlan.WellBuilt(AudioGraphOf(flat, asAudio), Keep(isAudio, order), plan)
    ensures DspRefinement.Playable(plan)
  {
    var ids, links, graph := Ids(flat.nodes), ForwardLinks(ordered.edges), AudioGraphOf(flat, asAudio);
    SameElements(order, ids);
    KeptAreAudio(isAudio, order);
    PlanIsRenderable(flat, asAudio, isAudio, Keep(isAudio, order), plan);
    FirstAmongListed(ids, links, order);
    forall e | e in graph.edges
      ensures Link(e.source.nodeId, e.target.nodeId) in links
    {
      assert Contraction.Links(flat.edges, e.source, e.target);
      var x :| x in ordered.edges && x.source == e.source && x.target == e.target;
      assert !IsFeedback(x);
    }
    forall n | n in graph.nodes
      ensures n.id in order
    {
      var k :| 0 <= k < |graph.nodes| && graph.nodes[k] == n;
      assert ids[k] == n.id;
    }
    DspRefinement.TopologicalPlanIsReady(graph, links, order, isAudio, plan);
  }

  lemma SameElements(order: seq<string>, ids: seq<string>)
    requires multiset(order) == multiset(ids) && Distinct(ids)
    ensures Distinct(order) && forall v :: v in order <==> v in ids
  {
    forall v
      ensures v in order <==> v in ids
    {
      assert v in multiset(order) <==> v in order;
      assert v in multiset(ids) <==> v in ids;
    }
    DistinctOccursOnce(ids);
    forall i, j | 0 <= i < j < |order|
      ensures order[i] != order[j]
    {
      if order[i] == order[j] {
        OccursTwice(order, i, j);
      }
    }
  }

  lemma OccursTwice(order: seq<string>, i: nat, j: nat)
    requires i < j < |order| && order[i] == order[j]
    ensures multiset(order)[order[i]] >= 2
  {
    assert order == order[..i] + [order[i]] + order[i + 1..j] + [order[j]] + order[j + 1..];
  }

  lemma {:induction false} DistinctOccursOnce(ids: seq<string>)
    requires Distinct(ids)
    ensures forall v :: multiset(ids)[v] <= 1
    decreases |ids|
  {
    if ids != [] {
      var n := |ids| - 1;
      DistinctOccursOnce(ids[..n]);
      assert ids == ids[..n] + [ids[n]];
      assert ids[n] !in ids[..n];
      assert multiset(ids[..n])[ids[n]] == 0;
    }
  }

  lemma KeptAreAudio(isAudio: string -> bool, order: seq<string>)
    ensures forall id :: id in Keep(isAudio, order) ==> isAudio(id)
  {
  }

  lemma FirstAmongListed(ids: seq<string>, links: seq<Link>, order: seq<string>)
    requires PredecessorsFirst(ids, links, order) && forall v :: v in order <==> v in ids
    ensures PredecessorsFirst(order, links, order)
  {
    forall k | 0 <= k < |order|
      ensures After(order, links, order, k)
    {
      assert After(ids, links, order, k);
    }
  }

  /** Flattens a project and orders its nodes, flattens it again and plans its audio. When there are
      no feedback edges and no cycles, both executors can play the plan and agree on it, with any
      arithmetic and parameters, although the two flattenings may eliminate pins in different orders. */
  method PlanProject<S(!new)>(lib: Library, root: Graph, asAudio: GraphNode -> DspPlan.AudioNode<S>,
                              isAudio: string -> bool, blockSize: nat, sampleRate: nat,
                              ghost ops: Arithmetic<S>, ghost params: map<string, map<string, S>>)
    returns (r: ProjectPlan<S>)
    requires NestedMeaning.PlainLibrary(lib) && NestedMeaning.PlainGraph(root) && KeepsIds(asAudio)
    ensures r.Rejected? <==> Expand(lib, root, "", 0, []).diagnostics != []
    ensures r.Rejected? ==> r.diagnostics == Expand(lib, root, "", 0, []).diagnostics
    ensures r.Prepared? ==> FlattenedFrom(lib, root, r.ordered) && FlattenedFrom(lib, root, r.flat)
    ensures r.Prepared? && r.result.Planned? ==>
              && PlannedFrom(r.flat, asAudio, isAudio, r.result.plan)
              && r.result.plan.blockSize == blockSize && r.result.plan.sampleRate == sampleRate
    ensures r.Prepared? && r.result.Planned? && FeedbackFree(r.ordered) && Supported(r.flat, asAudio, isAudio) ==>
              DspRefinement.Playable(r.result.plan) && DspRefinement.PlaysAlike(ops, r.result.plan, params)
  {
    var planned := ExpandProjectGraph(lib, root);
    if planned.Rejected? {
      return ProjectPlan.Rejected(planned.diagnostics);
    }
    var ordered := planned.graph;
    IdsAreDistinct(lib, root);
    var order, _ := TopologicalOrderCurrent(ordered);
    var expanded := ExpandProjectGraph(lib, root);
    var flat := expanded.graph;
    FlattenedTwice(lib, root, ordered, flat);
    var graph, audioIds := AudioGraphOf(flat, asAudio), Keep(isAudio, order);
    SameElements(order, Ids(flat.nodes));
    AudioIdsExist(flat, order, asAudio, isAudio);
    var result := DspPlan.BuildPlan(graph, audioIds, blockSize, sampleRate);
    if result.Planned? && FeedbackFree(ordered) && Supported(flat, asAudio, isAudio) {
      PlanIsPlayable(ordered, flat, order, asAudio, isAudio, result.plan);
      DspRefinement.PlayablePlaysAlike(ops, result.plan, params);
    }
    r := Prepared(ordered, flat, result);
  }

  lemma AudioIdsExist<S>(flat: Graph, order: seq<string>, asAudio: GraphNode -> DspPlan.AudioNode<S>,
                         isAudio: string -> bool)
    requires KeepsIds(asAudio) && Distinct(Ids(flat.nodes)) && forall v :: v in order <==> v in Ids(flat.nodes)
    ensures
      var graph := AudioGraphOf(flat, asAudio);
      && (forall i :: 0 <= i < |Keep(isAudio, order)| ==> DspPlan.FindNode(graph.nodes, Keep(isAudio, order)[i]).Some?)
      && (forall i, j :: 0 <= i < j < |graph.nodes| ==> graph.nodes[i].id != graph.nodes[j].id)
  {
    var graph, ids := AudioGraphOf(flat, asAudio), Ids(flat.nodes);
    forall i | 0 <= i < |Keep(isAudio, order)|
      ensures DspPlan.FindNode(graph.nodes, Keep(isAudio, order)[i]).Some?
    {
      var id := Keep(isAudio, order)[i];
      assert id in Keep(isAudio, order);
      var k :| 0 <= k < |ids| && ids[k] == id;
      assert graph.nodes[k] in graph.nodes && graph.nodes[k].id == id;
    }
    forall i, j | 0 <= i < j < |graph.nodes|
      ensures graph.nodes[i].id != graph.nodes[j].id
    {
      assert ids[i] != ids[j];
    }
  }

  /** The plan carries a signal from one leaf port to another exactly when the nested project joins
      them by a chain of wires. */
  lemma PlanFollowsWires<S>(lib: Library, root: Graph, picks: seq<string>, flat: Graph,
                            asAudio: GraphNode -> DspPlan.AudioNode<S>,
                            ids: seq<string>, plan: DspPlan.Plan<S>, s: NestedMeaning.Place, t: NestedMeaning.Place)
    requires NestedMeaning.PlainLibrary(lib) && NestedMeaning.PlainGraph(root)
             && Expand(lib, root, "", 0, []).diagnostics == []
    requires CompleteFor(lib, root, picks) && flat.edges == FlatEdges(lib, root, picks)
    requires DspPlan.WellBuilt(AudioGraphOf(flat, asAudio), ids, plan)
    requires s.LeafPort? && t.LeafPort? && PlainPlace(s) && PlainPlace(t) && s != t
    requires DspPlan.IsSignalEdge(DspPlan.AudioEdge(Encode(s).port, Encode(t).port), AudioGraphOf(flat, asAudio))
    ensures DspPlan.HasEdge(plan.edges, DspPlan.AudioEdge(Encode(s).port, Encode(t).port)) <==>
            NestedMeaning.JoinedByWires(lib, root, s, t)
  {
    var graph, edge := AudioGraphOf(flat, asAudio), DspPlan.AudioEdge(Encode(s).port, Encode(t).port);
    FlatteningPreservesMeaning(lib, root, picks, s, t);
    assert edge in graph.edges <==> Contraction.Links(flat.edges, edge.source, edge.target);
    DspPlan.PlannedEdges(graph, plan.edges, plan.buffers, edge);
  }
}
