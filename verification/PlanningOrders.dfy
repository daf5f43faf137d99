/** The planning order of current projects, which ignores feedback edges and keeps nodes on cycles
    in document order. */
module CurrentOrder {
  import opened Basics
  import opened ExpansionEdges
  import opened Expansion
  import opened Cycles
  import opened Planning

  predicate IsFeedback(edge: EdgeSpec) {
    edge.attributes.feedback.Some? && edge.attributes.feedback.value.enabled
  }

  function Ids(nodes: seq<GraphNode>): (r: seq<string>)
    ensures |r| == |nodes| && forall k :: 0 <= k < |r| ==> r[k] == nodes[k].id
  {
    seq(|nodes|, k requires 0 <= k < |nodes| => nodes[k].id)
  }

  /** The links that planning follows: those of edges without feedback. */
  function ForwardLinks(edges: seq<EdgeSpec>): (r: seq<Link>)
    ensures forall u, v :: Link(u, v) in r <==>
              exists e :: e in edges && !IsFeedback(e) && e.source.nodeId == u && e.target.nodeId == v
  {
    if edges == [] then [] else
      var n := |edges| - 1;
      assert edges == edges[..n] + [edges[n]];
      ForwardLinks(edges[..n])
      + if IsFeedback(edges[n]) then [] else [Link(edges[n].source.nodeId, edges[n].target.nodeId)]
  }

  ghost predicate HasFeedback(edge: EdgeSpec) {
    match edge.attributes.feedback
    case Some(feedback) => feedback.enabled
    case None => false
  }

  ghost predicate LinkOf(edges: seq<EdgeSpec>, i: nat, link: Link) {
    i < |edges| && !HasFeedback(edges[i]) && link == Link(edges[i].source.nodeId, edges[i].target.nodeId)
  }

  /** The links stand for the edges at some positions, which are in order and are all the positions of
      edges without enabled feedback. */
  ghost predicate LinksAt(edges: seq<EdgeSpec>, links: seq<Link>, at: seq<nat>) {
    && |at| == |links| && (forall i, j :: 0 <= i < j < |at| ==> at[i] < at[j])
    && (forall k :: 0 <= k < |at| ==> LinkOf(edges, at[k], links[k]))
    && (forall i :: 0 <= i < |edges| && !HasFeedback(edges[i]) ==> i in at)
  }

  lemma LinkSkipped(edges: seq<EdgeSpec>, links: seq<Link>, at: seq<nat>)
    requires edges != [] && LinksAt(edges[..|edges| - 1], links, at) && HasFeedback(edges[|edges| - 1])
    ensures LinksAt(edges, links, at)
  {
    var init := edges[..|edges| - 1];
    forall k | 0 <= k < |at| ensures LinkOf(edges, at[k], links[k]) {
      assert LinkOf(init, at[k], links[k]);
    }
    forall i | 0 <= i < |edges| && !HasFeedback(edges[i]) ensures i in at {
      assert init[i] == edges[i];
    }
  }

  lemma LinkTaken(edges: seq<EdgeSpec>, links: seq<Link>, at: seq<nat>)
    requires edges != [] && LinksAt(edges[..|edges| - 1], links, at) && !HasFeedback(edges[|edges| - 1])
    ensures var n := |edges| - 1;
            LinksAt(edges, links + [Link(edges[n].source.nodeId, edges[n].target.nodeId)], at + [n])
  {
    var init, n := edges[..|edges| - 1], |edges| - 1;
    forall k | 0 <= k < |at| ensures LinkOf(edges, at[k], links[k]) && at[k] < n {
      assert LinkOf(init, at[k], links[k]);
    }
    forall i | 0 <= i < n && !HasFeedback(edges[i]) ensures i in at {
      assert init[i] == edges[i];
    }
  }

  /** Planning follows the edges without enabled feedback, one by one and in their order. */
  lemma {:induction false} LinksInOrder(edges: seq<EdgeSpec>) returns (at: seq<nat>)
    ensures LinksAt(edges, ForwardLinks(edges), at)
  {
    if edges == [] {
      at := [];
    } else {
      var n := |edges| - 1;
      at := LinksInOrder(edges[..n]);
      if HasFeedback(edges[n]) {
        LinkSkipped(edges, ForwardLinks(edges[..n]), at);
      } else {
        LinkTaken(edges, ForwardLinks(edges[..n]), at);
        at := at + [n];
      }
    }
  }

  function NotIn(taken: seq<string>): string -> bool {
    (v: string) => v !in taken
  }

  lemma Rearranged(ids: seq<string>, popped: seq<string>)
    requires Distinct(ids) && Distinct(popped) && forall v :: v in popped ==> v in ids
    ensures multiset(popped + Keep(NotIn(popped), ids)) == multiset(ids)
    ensures |popped| == |ids| ==> Keep(NotIn(popped), ids) == []
  {
    var rest := Keep(NotIn(popped), ids);
    DistinctKept(NotIn(popped), ids);
    forall i, j | 0 <= i < |popped| && 0 <= j < |rest| ensures popped[i] != rest[j] {
      assert rest[j] in rest;
    }
    DistinctJoin(popped, rest);
    FullSublist(popped, ids);
    FullSublist(popped + rest, ids);
    assert |rest| > 0 ==> rest[0] in rest;
  }

  /** The planning order: first, predecessors first and beginning with the nodes that have none, the
      nodes that no cycle of forward edges leads to; then all others, in document order. */
  method TopologicalOrderCurrent(graph: Graph) returns (order: seq<string>, ghost popped: seq<string>)
    requires Distinct(Ids(graph.nodes))
    ensures order == popped + Keep(NotIn(popped), Ids(graph.nodes))
    ensures multiset(order) == multiset(Ids(graph.nodes))
    ensures Distinct(popped) && PredecessorsFirst(Ids(graph.nodes), ForwardLinks(graph.edges), popped)
    ensures Sources(Ids(graph.nodes), ForwardLinks(graph.edges)) <= popped
    ensures InOrderOfFreeing(Ids(graph.nodes), ForwardLinks(graph.edges), popped, popped)
    ensures forall v :: v in popped <==>
              v in Ids(graph.nodes) && !AfterCycle(Ids(graph.nodes), ForwardLinks(graph.edges), v)
    ensures Acyclic(Ids(graph.nodes), ForwardLinks(graph.edges)) <==> |popped| == |graph.nodes|
    ensures Acyclic(Ids(graph.nodes), ForwardLinks(graph.edges)) ==>
              PredecessorsFirst(Ids(graph.nodes), ForwardLinks(graph.edges), order)
  {
    var ids := Ids(graph.nodes);
    var links := ForwardLinks(graph.edges);
    var ordered, _ := TakeAll(ids, links);
    popped := ordered;
    PrefixCompleteIffAcyclic(ids, links, popped);
    Rearranged(ids, popped);
    forall v ensures v in popped <==> v in ids && !AfterCycle(ids, links, v) {
      PrefixExactly(ids, links, popped, v);
    }
    if |ordered| == |ids| {
      assert popped + [] == popped;
      return ordered, popped;
    }
    order := ordered + Keep(NotIn(ordered), ids);
  }
}

/** Planning and cycle detection for projects of the older format. */
module LegacyOrder {
  import opened Basics
  import opened Cycles
  import opened Planning

  datatype OrderResult = Ordered(nodes: seq<string>) | CycleDetected(cyclic: set<string>)

  /** Takes nodes predecessors first; fails exactly when there is a cycle, naming the nodes that
      cycles lead to. */
  method TopologicalOrder(nodes: seq<string>, links: seq<Link>) returns (r: OrderResult)
    requires Distinct(nodes)
    ensures r.Ordered? <==> Acyclic(nodes, links)
    ensures r.Ordered? ==> multiset(r.nodes) == multiset(nodes) && PredecessorsFirst(nodes, links, r.nodes)
    ensures r.Ordered? ==>
              Sources(nodes, links) <= r.nodes && InOrderOfFreeing(nodes, links, r.nodes, r.nodes)
    ensures r.CycleDetected? ==> forall v :: v in r.cyclic <==> v in nodes && AfterCycle(nodes, links, v)
  {
    var ordered, indegree := TakeAll(nodes, links);
    PrefixCompleteIffAcyclic(nodes, links, ordered);
    if |ordered| == |nodes| {
      return Ordered(ordered);
    }
    forall v ensures v in ordered <==> v in nodes && !AfterCycle(nodes, links, v) {
      PrefixExactly(nodes, links, ordered, v);
    }
    r := CycleDetected(set v | v in indegree && indegree[v] > 0);
  }

  // ---- Depth-first search for a cycle ------------------------------------------------------------

  datatype VisitState = Unvisited | Visiting | Visited

  function Unseen(state: map<string, VisitState>): set<string> {
    set v | v in state && state[v].Unvisited?
  }

  /** Every link of the document, including those to and from nodes that do not exist. */
  function AllSuccessors(links: seq<Link>, u: string): (r: seq<string>)
    ensures forall v :: v in r <==> Link(u, v) in links
  {
    if links == [] then [] else
      var n := |links| - 1;
      assert links == links[..n] + [links[n]];
      AllSuccessors(links[..n], u) + if links[n].source == u then [links[n].target] else []
  }

  /** Every known successor of the k-th finished node finished before it. */
  ghost predicate FinishedAfter(links: seq<Link>, known: set<string>, finished: seq<string>, k: nat)
    requires k < |finished|
  {
    forall v :: v in known && Link(finished[k], v) in links ==> v in finished[..k]
  }

  ghost predicate FinishedInOrder(links: seq<Link>, known: set<string>, finished: seq<string>) {
    forall k {:trigger FinishedAfter(links, known, finished, k)} :: 0 <= k < |finished| ==>
      FinishedAfter(links, known, finished, k)
  }

  /** The nodes being visited are those on the stack, which is a walk; finished nodes lead only to
      nodes finished before them. */
  ghost predicate SearchState(nodes: seq<string>, links: seq<Link>, state: map<string, VisitState>,
                              stack: seq<string>, finished: seq<string>) {
    && state.Keys == Elements(nodes)
    && (stack != [] ==> Walk(nodes, links, stack))
    && (forall v :: v in state ==> (state[v].Visiting? <==> v in stack))
    && (forall v :: v in state ==> (state[v].Visited? <==> v in finished))
    && (forall v :: v in finished ==> v in state)
    && FinishedInOrder(links, Elements(nodes), finished)
  }

  /** A walk whose last node has occurred before. */
  ghost predicate ReturningWalk(nodes: seq<string>, links: seq<Link>, w: seq<string>) {
    && Walk(nodes, links, w)
    && exists i :: 0 <= i < |w| - 1 && w[i] == w[|w| - 1]
  }

  lemma ReturningWalkIsCycle(nodes: seq<string>, links: seq<Link>, w: seq<string>)
    requires ReturningWalk(nodes, links, w)
    ensures !Acyclic(nodes, links)
  {
    var i :| 0 <= i < |w| - 1 && w[i] == w[|w| - 1];
    SubWalk(nodes, links, w, i, |w|);
    assert Cycle(nodes, links, w[i..|w|]);
  }

  lemma PushOnWalk(nodes: seq<string>, links: seq<Link>, stack: seq<string>, v: string)
    requires v in nodes
    requires stack != [] ==> Walk(nodes, links, stack) && Link(stack[|stack| - 1], v) in links
    ensures Walk(nodes, links, stack + [v])
  {
  }

  lemma PopFromWalk(nodes: seq<string>, links: seq<Link>, stack: seq<string>)
    requires Walk(nodes, links, stack) && |stack| > 1
    ensures Walk(nodes, links, stack[..|stack| - 1])
  {
    SubWalk(nodes, links, stack, 0, |stack| - 1);
    assert stack[..|stack| - 1] == stack[0..|stack| - 1];
  }

  lemma Finish(links: seq<Link>, known: set<string>, finished: seq<string>, node: string)
    requires FinishedInOrder(links, known, finished)
    requires forall v :: v in known && Link(node, v) in links ==> v in finished
    ensures FinishedInOrder(links, known, finished + [node])
  {
    var all := finished + [node];
    forall k | 0 <= k < |all| ensures FinishedAfter(links, known, all, k) {
      if k < |finished| {
        assert FinishedAfter(links, known, finished, k);
        assert all[..k] == finished[..k];
      } else {
        assert all[..k] == finished;
      }
    }
  }

  lemma Enter(nodes: seq<string>, links: seq<Link>, state: map<string, VisitState>, stack: seq<string>,
              finished: seq<string>, node: string)
    requires SearchState(nodes, links, state, stack, finished) && node in nodes && state[node].Unvisited?
    requires stack != [] ==> Link(stack[|stack| - 1], node) in links
    ensures SearchState(nodes, links, state[node := Visiting], stack + [node], finished) && node !in stack
    ensures Unseen(state[node := Visiting]) <= Unseen(state) - {node} && node in Unseen(state)
  {
    PushOnWalk(nodes, links, stack, node);
  }

  lemma Leave(nodes: seq<string>, links: seq<Link>, state: map<string, VisitState>, stack: seq<string>,
              finished: seq<string>, node: string)
    requires SearchState(nodes, links, state, stack + [node], finished) && node in nodes && node !in stack
    requires forall v :: v in nodes && Link(node, v) in links ==> v in finished
    ensures SearchState(nodes, links, state[node := Visited], stack, finished + [node])
  {
    Finish(links, Elements(nodes), finished, node);
    if stack != [] {
      PopFromWalk(nodes, links, stack + [node]);
      assert (stack + [node])[..|stack|] == stack;
    }
  }

  /** Visits one node and, through it, everything not yet seen that it leads to. */
  method Visit(node: string, nodes: seq<string>, links: seq<Link>, adjacency: map<string, seq<string>>,
               state: map<string, VisitState>, stack: seq<string>, ghost finished: seq<string>)
    returns (found: bool, state': map<string, VisitState>, stack': seq<string>, ghost finished': seq<string>)
    requires node in nodes && SearchState(nodes, links, state, stack, finished)
    requires stack != [] ==> Link(stack[|stack| - 1], node) in links
    requires forall u :: Adjacent(adjacency, u) == AllSuccessors(links, u)
    ensures found ==> ReturningWalk(nodes, links, stack')
    ensures !found ==> stack' == stack && SearchState(nodes, links, state', stack, finished')
    ensures !found ==> node in finished' && finished <= finished' && Unseen(state') <= Unseen(state)
    decreases Unseen(state), 0
  {
    state', stack', finished' := state, stack, finished;
    match state[node] {
      case Visiting =>
        PushOnWalk(nodes, links, stack, node);
        var i :| 0 <= i < |stack| && stack[i] == node;
        stack' := stack + [node];
        assert stack'[i] == stack'[|stack'| - 1];
        found := true;
      case Visited =>
        found := false;
      case Unvisited =>
        Enter(nodes, links, state, stack, finished, node);
        state' := state[node := Visiting];
        stack' := stack + [node];
        found, state', stack', finished' :=
          VisitAll(Adjacent(adjacency, node), node, nodes, links, adjacency, state', stack', finished');
        if !found {
          Leave(nodes, links, state', stack, finished', node);
          finished' := finished' + [node];
          stack' := stack'[..|stack'| - 1];
          state' := state'[node := Visited];
        }
    }
  }

  /** Visits the successors of the node on top of the stack, one after the other. */
  method VisitAll(nexts: seq<string>, node: string, nodes: seq<string>, links: seq<Link>,
                  adjacency: map<string, seq<string>>,
                  state: map<string, VisitState>, stack: seq<string>, ghost finished: seq<string>)
    returns (found: bool, state': map<string, VisitState>, stack': seq<string>, ghost finished': seq<string>)
    requires SearchState(nodes, links, state, stack, finished) && stack != [] && stack[|stack| - 1] == node
    requires nexts == AllSuccessors(links, node)
    requires forall u :: Adjacent(adjacency, u) == AllSuccessors(links, u)
    ensures found ==> ReturningWalk(nodes, links, stack')
    ensures !found ==> stack' == stack && SearchState(nodes, links, state', stack, finished')
    ensures !found ==> finished <= finished' && Unseen(state') <= Unseen(state)
    ensures !found ==> forall v :: v in nodes && Link(node, v) in links ==> v in finished'
    decreases Unseen(state), 1
  {
    found, state', stack', finished' := false, state, stack, finished;
    var j := 0;
    while j < |nexts|
      invariant 0 <= j <= |nexts|
      invariant stack' == stack && SearchState(nodes, links, state', stack, finished')
      invariant finished <= finished' && Unseen(state') <= Unseen(state)
      invariant forall i :: 0 <= i < j && nexts[i] in nodes ==> nexts[i] in finished'
    {
      var next := nexts[j];
      assert next in nexts;
      if next in state' {
        assert next in Elements(nodes);
        found, state', stack', finished' := Visit(next, nodes, links, adjacency, state', stack', finished');
        if found {
          return;
        }
      }
      j := j + 1;
    }
    found := false;
  }

  /** A walk from a finished node ends at a node finished earlier. */
  lemma {:induction false} FinishedWalk(nodes: seq<string>, links: seq<Link>, finished: seq<string>, w: seq<string>,
                                        k: nat)
    returns (i: nat)
    requires FinishedInOrder(links, Elements(nodes), finished)
    requires Walk(nodes, links, w) && |w| > 1 && k < |finished| && finished[k] == w[0]
    ensures i < k && finished[i] == w[|w| - 1]
    decreases |w|
  {
    assert Link(w[0], w[0 + 1]) in links;
    assert FinishedAfter(links, Elements(nodes), finished, k);
    i :| 0 <= i < k && finished[i] == w[1];
    if |w| > 2 {
      SubWalk(nodes, links, w, 1, |w|);
      i := FinishedWalk(nodes, links, finished, w[1..|w|], i);
    }
  }

  lemma {:induction false} CycleUnfinished(nodes: seq<string>, links: seq<Link>, finished: seq<string>, c: seq<string>,
                                           k: nat)
    requires FinishedInOrder(links, Elements(nodes), finished)
    requires Cycle(nodes, links, c) && k < |finished|
    ensures finished[k] != c[0]
  {
    if finished[k] == c[0] {
      var i := FinishedWalk(nodes, links, finished, c, k);
      CycleUnfinished(nodes, links, finished, c, i);
    }
  }

  /** If every node finishes after the nodes it leads to, there is no cycle. */
  lemma AllFinishedIsAcyclic(nodes: seq<string>, links: seq<Link>, finished: seq<string>)
    requires FinishedInOrder(links, Elements(nodes), finished)
    requires forall v :: v in nodes ==> v in finished
    ensures Acyclic(nodes, links)
  {
    forall c ensures !Cycle(nodes, links, c) {
      if Cycle(nodes, links, c) {
        var k :| 0 <= k < |finished| && finished[k] == c[0];
        CycleUnfinished(nodes, links, finished, c, k);
      }
    }
  }

  datatype CycleReport = NoCycle | CycleFound(stack: seq<string>)

  /** Searches for a cycle depth first. A report is a walk that returns to one of its nodes. */
  method DetectCycle(nodes: seq<string>, links: seq<Link>) returns (r: CycleReport)
    ensures r.NoCycle? <==> Acyclic(nodes, links)
    ensures r.CycleFound? ==> ReturningWalk(nodes, links, r.stack)
  {
    var state := map v | v in nodes :: Unvisited;
    var adjacency := CollectLinks(links);
    ghost var finished := [];
    assert Elements(nodes) == state.Keys;
    var k := 0;
    while k < |nodes|
      invariant 0 <= k <= |nodes|
      invariant SearchState(nodes, links, state, [], finished)
      invariant forall i :: 0 <= i < k ==> nodes[i] in finished
    {
      var found, stack;
      found, state, stack, finished := Visit(nodes[k], nodes, links, adjacency, state, [], finished);
      if found {
        ReturningWalkIsCycle(nodes, links, stack);
        return CycleFound(stack);
      }
      k := k + 1;
    }
    AllFinishedIsAcyclic(nodes, links, finished);
    r := NoCycle;
  }

  method CollectLinks(links: seq<Link>) returns (adjacency: map<string, seq<string>>)
    ensures forall u :: Adjacent(adjacency, u) == AllSuccessors(links, u)
  {
    adjacency := map[];
    var k := 0;
    while k < |links|
      invariant 0 <= k <= |links|
      invariant forall u :: Adjacent(adjacency, u) == AllSuccessors(links[..k], u)
    {
      ghost var before := adjacency;
      adjacency := adjacency[links[k].source := Adjacent(adjacency, links[k].source) + [links[k].target]];
      assert links[..k + 1][..k] == links[..k];
      forall u ensures Adjacent(adjacency, u) == AllSuccessors(links[..k + 1], u) {
        assert Adjacent(before, u) == AllSuccessors(links[..k], u);
      }
      k := k + 1;
    }
    assert links[..k] == links;
  }

  // ---- Both together -----------------------------------------------------------------------------

  datatype PlanResult = Planned(order: seq<string>) | InvalidProject | PlanCycle

  /** Validates the project, which looks for cycles depth first, and then plans it. Planning never
      fails on a cycle that validation has missed. */
  method BuildExecutionPlan(nodes: seq<string>, links: seq<Link>, otherErrors: bool) returns (r: PlanResult)
    requires Distinct(nodes)
    ensures !r.PlanCycle?
    ensures r.InvalidProject? <==> otherErrors || !Acyclic(nodes, links)
    ensures r.Planned? ==> multiset(r.order) == multiset(nodes) && PredecessorsFirst(nodes, links, r.order)
  {
    var report := DetectCycle(nodes, links);
    if otherErrors || report.CycleFound? {
      return InvalidProject;
    }
    var ordered := TopologicalOrder(nodes, links);
    match ordered {
      case Ordered(order) => r := Planned(order);
      case CycleDetected(_) => r := PlanCycle;
    }
  }
}
