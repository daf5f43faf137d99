/** End to end: inlining and contraction together keep the meaning of a nested patch. */
module FlatMeaning {
  import opened Basics
  import opened ExpansionEdges
  import opened Namespacing
  import opened Expansion
  import opened NestedMeaning
  import opened Contraction
  import opened Flattening

  // ---- Registered pins -----------------------------------------------------------------------------

  ghost predicate ValuesIn(table: map<string, string>, pins: set<string>) {
    forall a :: a in table ==> table[a] in pins
  }

  ghost predicate Registered(x: NodeExpansion, pins: set<string>) {
    match x
    case Leaf(_) => true
    case Pin(pin) => pin in pins
    case Subpatch(inlets, outlets) => ValuesIn(inlets, pins) && ValuesIn(outlets, pins)
  }

  /** Every pin mentioned anywhere has been registered. */
  ghost predicate PinsRegistered(e: Expanded) {
    && ValuesIn(e.inlets, e.pins) && ValuesIn(e.outlets, e.pins)
    && (forall id :: id in e.expansions ==> Registered(e.expansions[id], e.pins))
    && BoundaryClosed(e.edges, e.pins)
  }

  lemma BoundaryRegistered(e: Expanded, node: GraphNode, namespace: string, kind: BoundaryKind)
    requires PinsRegistered(e)
    ensures PinsRegistered(AddBoundary(e, node, namespace, kind))
  {
  }

  lemma ChildRegistered(e: Expanded, node: GraphNode, child: Expanded)
    requires PinsRegistered(e) && PinsRegistered(child)
    ensures PinsRegistered(AddChild(e, node, child))
  {
  }

  lemma LeafRegistered(e: Expanded, node: GraphNode, namespace: string)
    requires PinsRegistered(e)
    ensures PinsRegistered(AddLeaf(e, node, namespace))
  {
  }

  lemma {:induction false} EdgesRegistered(e: Expanded, edges: seq<EdgeSpec>, namespace: string)
    requires PinsRegistered(e)
    ensures PinsRegistered(AddEdges(e, edges, namespace))
    decreases |edges|
  {
    if edges != [] {
      EdgesRegistered(e, edges[..|edges| - 1], namespace);
    }
  }

  lemma {:induction false} NodesRegistered(lib: Library, nodes: seq<GraphNode>, namespace: string, depth: nat,
                                           stack: seq<string>)
    requires depth <= MAX_DEPTH
    ensures PinsRegistered(ExpandNodes(lib, nodes, namespace, depth, stack))
    decreases MAX_DEPTH - depth, |nodes|
  {
    if nodes != [] {
      var n := |nodes| - 1;
      NodesRegistered(lib, nodes[..n], namespace, depth, stack);
      NodeRegistered(lib, ExpandNodes(lib, nodes[..n], namespace, depth, stack), nodes[n], namespace, depth, stack);
    }
  }

  lemma {:induction false} NodeRegistered(lib: Library, e: Expanded, node: GraphNode, namespace: string, depth: nat,
                                          stack: seq<string>)
    requires depth <= MAX_DEPTH && PinsRegistered(e)
    ensures PinsRegistered(AddNode(lib, e, node, namespace, depth, stack))
    decreases MAX_DEPTH - depth, 0
  {
    if IsInlet(node) {
      BoundaryRegistered(e, node, namespace, Inlet);
    } else if IsOutlet(node) {
      BoundaryRegistered(e, node, namespace, Outlet);
    } else if IsSubpatch(node) {
      match CheckReference(lib, node, namespace, depth, stack) {
        case Refused(d) =>
        case Accepted(patchRef) =>
          ExpandRegistered(lib, lib[patchRef], NamespacedId(namespace, node.id), depth + 1, stack + [patchRef]);
          ChildRegistered(e, node, ChildExpansion(lib, node, namespace, depth, stack));
      }
    } else {
      LeafRegistered(e, node, namespace);
    }
  }

  /** Every boundary endpoint that the expansion emits is a registered pin. */
  lemma {:induction false} ExpandRegistered(lib: Library, graph: Graph, namespace: string, depth: nat,
                                            stack: seq<string>)
    requires depth <= MAX_DEPTH
    ensures PinsRegistered(Expand(lib, graph, namespace, depth, stack))
    ensures BoundaryClosed(Expand(lib, graph, namespace, depth, stack).edges,
                           Expand(lib, graph, namespace, depth, stack).pins)
    decreases MAX_DEPTH - depth, |graph.nodes| + 1
  {
    NodesRegistered(lib, graph.nodes, namespace, depth, stack);
    EdgesRegistered(ExpandNodes(lib, graph.nodes, namespace, depth, stack), graph.edges, namespace);
  }

  // ---- Plain places ----------------------------------------------------------------------------------

  lemma {:induction false} GraphAtPlain(lib: Library, graph: Graph, q: seq<string>)
    requires PlainLibrary(lib) && PlainGraph(graph) && GraphAt(lib, graph, q).Some?
    ensures PlainPath(q) && PlainGraph(GraphAt(lib, graph, q).value)
    decreases |q|
  {
    if q != [] {
      var n := FindNode(graph.nodes, q[0]).value;
      var k :| 0 <= k < |graph.nodes| && graph.nodes[k] == n;
      GraphAtPlain(lib, Child(lib, graph, q[0]).value, q[1..]);
      assert q == [q[0]] + q[1..];
    }
  }

  lemma PlacePlain(lib: Library, graph: Graph, path: seq<string>, end: PortRef, side: BoundaryKind)
    requires PlainPath(path) && Plain(end.nodeId)
    ensures PlainPlace(PlaceOf(lib, graph, path, end, side))
  {
  }

  /** The two places that a wire of some instance joins, and the edge it is inlined to. */
  lemma WirePlaces(lib: Library, root: Graph, x: ExpansionEdge, q: seq<string>, wire: EdgeSpec)
    returns (a: Place, b: Place)
    requires PlainLibrary(lib) && PlainGraph(root) && InlinedFrom(lib, root, [], x, q, wire)
    ensures WireAt(lib, root, q, wire, a, b) && PlainPlace(a) && PlainPlace(b)
    ensures x.source == Encode(a) && x.target == Encode(b)
  {
    GraphAtPlain(lib, root, q);
    assert [] + q == q;
    var graph := GraphAt(lib, root, q).value;
    a := PlaceOf(lib, graph, q, wire.source, Outlet);
    b := PlaceOf(lib, graph, q, wire.target, Inlet);
    PlacePlain(lib, graph, q, wire.source, Outlet);
    PlacePlain(lib, graph, q, wire.target, Inlet);
  }

  lemma EdgeOfWire(lib: Library, root: Graph, a: Place, b: Place) returns (x: ExpansionEdge)
    requires Clean(lib, root, [], 0, []) && Wire(lib, root, a, b)
    ensures x in Expand(lib, root, "", 0, []).edges && x.source == Encode(a) && x.target == Encode(b)
  {
    var q, wire :| WireAt(lib, root, q, wire, a, b);
    assert [] + q == q;
    x := Instance(lib, GraphAt(lib, root, q).value, [] + q, wire);
    EdgesComplete(lib, root, [], 0, [], x, q, wire);
  }

  // ---- Walks of the expansion and chains of wires --------------------------------------------------

  lemma WalkTail(edges: seq<ExpansionEdge>, w: seq<nat>)
    requires IsWalk(edges, w) && |w| > 1
    ensures IsWalk(edges, w[1..]) && edges[w[0]].target == edges[w[1]].source && edges[w[0]].target.Boundary?
  {
  }

  lemma ChainFirst(lib: Library, root: Graph, a: Place, rest: seq<Place>)
    requires WireChain(lib, root, rest) && Wire(lib, root, a, rest[0]) && rest[0].BoundaryPin?
    ensures WireChain(lib, root, [a] + rest)
  {
  }

  lemma {:induction false} WalkToChain(lib: Library, root: Graph, w: seq<nat>) returns (places: seq<Place>)
    requires Clean(lib, root, [], 0, []) && IsWalk(Expand(lib, root, "", 0, []).edges, w)
    ensures WireChain(lib, root, places) && PlainPlace(places[0]) && PlainPlace(places[|places| - 1])
    ensures Encode(places[0]) == Expand(lib, root, "", 0, []).edges[w[0]].source
    ensures Encode(places[|places| - 1]) == Expand(lib, root, "", 0, []).edges[w[|w| - 1]].target
    decreases |w|
  {
    var edges := Expand(lib, root, "", 0, []).edges;
    var q, wire := EdgesSound(lib, root, [], 0, [], edges[w[0]]);
    var a, b := WirePlaces(lib, root, edges[w[0]], q, wire);
    assert Wire(lib, root, a, b);
    if |w| == 1 {
      places := [a, b];
    } else {
      WalkTail(edges, w);
      var rest := WalkToChain(lib, root, w[1..]);
      EncodeInjective(b, rest[0]);
      ChainFirst(lib, root, a, rest);
      places := [a] + rest;
    }
  }

  lemma ChainTail(lib: Library, root: Graph, places: seq<Place>)
    requires WireChain(lib, root, places) && |places| > 2
    ensures WireChain(lib, root, places[1..]) && places[1].BoundaryPin?
  {
  }

  ghost predicate HasEdge(edges: seq<ExpansionEdge>, a: Place, b: Place) {
    exists k :: 0 <= k < |edges| && edges[k].source == Encode(a) && edges[k].target == Encode(b)
  }

  /** Every wire has an edge. */
  ghost predicate HasWires(edges: seq<ExpansionEdge>, lib: Library, root: Graph) {
    forall a, b :: Wire(lib, root, a, b) ==> HasEdge(edges, a, b)
  }

  lemma ExpansionHasWires(lib: Library, root: Graph)
    requires Clean(lib, root, [], 0, [])
    ensures HasWires(Expand(lib, root, "", 0, []).edges, lib, root)
  {
    var edges := Expand(lib, root, "", 0, []).edges;
    forall a, b | Wire(lib, root, a, b)
      ensures HasEdge(edges, a, b)
    {
      var x := EdgeOfWire(lib, root, a, b);
      var k :| 0 <= k < |edges| && edges[k] == x;
    }
  }

  lemma {:induction false} ChainToWalk(edges: seq<ExpansionEdge>, lib: Library, root: Graph, places: seq<Place>)
    returns (w: seq<nat>)
    requires HasWires(edges, lib, root) && WireChain(lib, root, places)
    ensures WalkBetween(edges, w, Encode(places[0]), Encode(places[|places| - 1]))
    decreases |places|
  {
    assert Wire(lib, root, places[0], places[0 + 1]);
    assert HasEdge(edges, places[0], places[1]);
    var k :| 0 <= k < |edges| && edges[k].source == Encode(places[0]) && edges[k].target == Encode(places[1]);
    if |places| == 2 {
      w := [k];
    } else {
      ChainTail(lib, root, places);
      var rest := ChainToWalk(edges, lib, root, places[1..]);
      assert IsWalk(edges, [k]);
      WalkAppend(edges, [k], rest);
      w := [k] + rest;
    }
  }

  // ---- The main results ------------------------------------------------------------------------------

  /** The edges of the flat graph, for one order of pin elimination. */
  function FlatEdges(lib: Library, root: Graph, picks: seq<string>): seq<EdgeSpec> {
    Contracted(Expand(lib, root, "", 0, []).edges, picks)
  }

  ghost predicate CompleteFor(lib: Library, root: Graph, picks: seq<string>) {
    Complete(Expand(lib, root, "", 0, []).edges, Expand(lib, root, "", 0, []).pins, picks)
  }

  /** Flattening preserves meaning: two different leaf ports are linked in the flat graph exactly
      when a chain of wires through inlets and outlets joins them in the nested one. */
  lemma FlatteningPreservesMeaning(lib: Library, root: Graph, picks: seq<string>, s: Place, t: Place)
    requires PlainLibrary(lib) && PlainGraph(root) && Expand(lib, root, "", 0, []).diagnostics == []
    requires CompleteFor(lib, root, picks)
    requires s.LeafPort? && t.LeafPort? && PlainPlace(s) && PlainPlace(t) && s != t
    ensures Links(FlatEdges(lib, root, picks), Encode(s).port, Encode(t).port) <==> JoinedByWires(lib, root, s, t)
  {
    var e := Expand(lib, root, "", 0, []);
    ExpandRegistered(lib, root, "", 0, []);
    assert Encode(s).port != Encode(t).port by {
      if Encode(s).port == Encode(t).port { EncodeInjective(s, t); }
    }
    ContractionPreservesWiring(e.edges, e.pins, picks, Encode(s).port, Encode(t).port);
    if Wired(e.edges, Encode(s), Encode(t)) {
      var w :| WalkBetween(e.edges, w, Encode(s), Encode(t));
      var places := WalkToChain(lib, root, w);
      EncodeInjective(places[0], s);
      EncodeInjective(places[|places| - 1], t);
    }
    if JoinedByWires(lib, root, s, t) {
      var places :| WireChain(lib, root, places) && places[0] == s && places[|places| - 1] == t;
      ExpansionHasWires(lib, root);
      var w := ChainToWalk(e.edges, lib, root, places);
    }
  }

  /** A flat edge from a port to itself is always a wire that some patch draws directly. */
  lemma FlatLoops(lib: Library, root: Graph, picks: seq<string>, s: Place)
    requires PlainLibrary(lib) && PlainGraph(root) && Expand(lib, root, "", 0, []).diagnostics == []
    requires s.LeafPort? && PlainPlace(s)
    ensures Links(FlatEdges(lib, root, picks), Encode(s).port, Encode(s).port) <==> Wire(lib, root, s, s)
  {
    var e := Expand(lib, root, "", 0, []);
    DirectEdgesAndLoops(e.edges, picks, Encode(s).port);
    if k :| 0 <= k < |e.edges| && e.edges[k].source == Encode(s) && e.edges[k].target == Encode(s) {
      var q, wire := EdgesSound(lib, root, [], 0, [], e.edges[k]);
      var a, b := WirePlaces(lib, root, e.edges[k], q, wire);
      EncodeInjective(a, s);
      EncodeInjective(b, s);
    }
    if Wire(lib, root, s, s) {
      var x := EdgeOfWire(lib, root, s, s);
      var k :| 0 <= k < |e.edges| && e.edges[k] == x;
    }
  }

  /** The flat nodes are exactly the leaf nodes of all instances, each under the name of its path. */
  lemma FlatNodes(lib: Library, root: Graph, x: GraphNode)
    requires PlainLibrary(lib) && PlainGraph(root) && Expand(lib, root, "", 0, []).diagnostics == []
    ensures x in Expand(lib, root, "", 0, []).nodes <==>
            exists path, node :: LeafAt(lib, root, path, node) && x == node.(id := PathName(path + [node.id]))
    ensures x in Expand(lib, root, "", 0, []).nodes ==> IsLeaf(x)
  {
    if x in Expand(lib, root, "", 0, []).nodes {
      var q, node := NodesSound(lib, root, [], 0, [], x);
      assert [] + q == q;
    }
    forall path, node | LeafAt(lib, root, path, node) && x == node.(id := PathName(path + [node.id]))
      ensures x in Expand(lib, root, "", 0, []).nodes
    {
      assert [] + path == path;
      NodesComplete(lib, root, [], 0, [], x, path, node);
    }
  }

  // ---- Flat graphs -------------------------------------------------------------------------------------

  lemma LeafStays(lib: Library, e: Expanded, node: GraphNode)
    requires IsLeaf(node)
    ensures AddNode(lib, e, node, "", 0, []) ==
            e.(nodes := e.nodes + [node], expansions := e.expansions[node.id := Leaf(node.id)])
  {
    assert AddNode(lib, e, node, "", 0, []) == AddLeaf(e, node, "");
  }

  lemma {:induction false} LeavesStay(lib: Library, nodes: seq<GraphNode>)
    requires forall n :: n in nodes ==> IsLeaf(n)
    ensures var e := ExpandNodes(lib, nodes, "", 0, []);
            && e.nodes == nodes && e.edges == [] && e.pins == {} && e.diagnostics == []
            && forall id :: id in e.expansions ==> e.expansions[id] == Leaf(id)
    decreases |nodes|
  {
    if nodes != [] {
      var n := |nodes| - 1;
      assert nodes == nodes[..n] + [nodes[n]];
      LeavesStay(lib, nodes[..n]);
      LeafStays(lib, ExpandNodes(lib, nodes[..n], "", 0, []), nodes[n]);
    }
  }

  function Uncut(edge: EdgeSpec): ExpansionEdge {
    ExpansionEdge(edge, Node(edge.source), Node(edge.target))
  }

  lemma WireStays(edge: EdgeSpec, m: map<string, NodeExpansion>)
    requires forall id :: id in m ==> m[id] == Leaf(id)
    ensures Rewire(edge, "", m) == Uncut(edge) && Resolves(edge, "", m)
  {
  }

  lemma EdgesStay(e: Expanded, edges: seq<EdgeSpec>)
    requires e.edges == [] && e.diagnostics == [] && forall id :: id in e.expansions ==> e.expansions[id] == Leaf(id)
    ensures var e' := AddEdges(e, edges, "");
            && e'.nodes == e.nodes && e'.pins == e.pins && e'.diagnostics == [] && |e'.edges| == |edges|
            && forall k :: 0 <= k < |edges| ==> e'.edges[k] == Uncut(edges[k])
  {
    AddEdgesShape(e, edges, "");
    forall k | 0 <= k < |edges|
      ensures Rewire(edges[k], "", e.expansions) == Uncut(edges[k]) && Resolves(edges[k], "", e.expansions)
    {
      WireStays(edges[k], e.expansions);
    }
    assert e.edges + RewireAll(edges, "", e.expansions) == RewireAll(edges, "", e.expansions);
  }

  lemma WiresStay(lib: Library, graph: Graph)
    requires forall n :: n in graph.nodes ==> IsLeaf(n)
    ensures var e := Expand(lib, graph, "", 0, []);
            && e.nodes == graph.nodes && e.pins == {} && e.diagnostics == [] && |e.edges| == |graph.edges|
            && forall k :: 0 <= k < |graph.edges| ==> e.edges[k] == Uncut(graph.edges[k])
  {
    LeavesStay(lib, graph.nodes);
    EdgesStay(ExpandNodes(lib, graph.nodes, "", 0, []), graph.edges);
  }

  /** A graph without subpatches and boundaries is accepted, and flattening leaves it as it is. */
  lemma FlatGraphStays(lib: Library, graph: Graph, picks: seq<string>)
    requires (forall n :: n in graph.nodes ==> IsLeaf(n)) && CompleteFor(lib, graph, picks)
    ensures Expand(lib, graph, "", 0, []).diagnostics == []
    ensures Graph(Expand(lib, graph, "", 0, []).nodes, FlatEdges(lib, graph, picks)) == graph
  {
    WiresStay(lib, graph);
    assert picks == [];
    var traced := Start(Expand(lib, graph, "", 0, []).edges).traced;
    KeepAll(OnEdge(Real()), traced);
  }

  // ---- Distinct names ----------------------------------------------------------------------------------

  ghost predicate DistinctIds(nodes: seq<GraphNode>) {
    forall i, j :: 0 <= i < j < |nodes| ==> nodes[i].id != nodes[j].id
  }

  lemma LeafPlain(lib: Library, graph: Graph, path: seq<string>, id: string, q: seq<string>, node: GraphNode)
    returns (rest: seq<string>)
    requires PlainLibrary(lib) && PlainGraph(graph) && LeafAt(lib, graph, q, node) && Plain(id)
    ensures PlainPath([id] + rest) && path + [id] + q + [node.id] == path + ([id] + rest)
  {
    GraphAtPlain(lib, graph, q);
    var i :| 0 <= i < |GraphAt(lib, graph, q).value.nodes| && GraphAt(lib, graph, q).value.nodes[i] == node;
    rest := q + [node.id];
  }

  /** Where the nodes contributed by one node of a patch are: below that node. */
  lemma ContributedByChild(lib: Library, graph: Graph, path: seq<string>, depth: nat, stack: seq<string>, n: GraphNode,
                           x: GraphNode)
    returns (rest: seq<string>)
    requires depth <= MAX_DEPTH && Clean(lib, graph, path, depth, stack) && n in graph.nodes && Plain(n.id)
    requires IsNested(n) && x in Contribution(lib, n, PathName(path), depth, stack).nodes
    ensures PlainPath([n.id] + rest) && x.id == PathName(path + ([n.id] + rest))
  {
    var child, stack' := CleanChild(lib, graph, path, depth, stack, n);
    var q, node := NodesSound(lib, child, path + [n.id], depth + 1, stack', x);
    rest := LeafPlain(lib, child, path, n.id, q, node);
  }

  lemma ContributedBelow(lib: Library, graph: Graph, path: seq<string>, depth: nat, stack: seq<string>, n: GraphNode,
                         x: GraphNode)
    returns (rest: seq<string>)
    requires depth <= MAX_DEPTH && Clean(lib, graph, path, depth, stack) && n in graph.nodes && Plain(n.id)
    requires x in Contribution(lib, n, PathName(path), depth, stack).nodes
    ensures PlainPath([n.id] + rest) && x.id == PathName(path + ([n.id] + rest))
  {
    if IsNested(n) {
      rest := ContributedByChild(lib, graph, path, depth, stack, n, x);
    } else {
      OwnLeaf(lib, graph, path, depth, stack, n, x);
      rest := [];
      assert [n.id] + rest == [n.id] && path + [] == path;
    }
  }

  lemma DifferentNodesDifferentNames(lib: Library, graph: Graph, path: seq<string>, depth: nat, stack: seq<string>,
                                     n: GraphNode, x: GraphNode, n': GraphNode, x': GraphNode)
    requires depth <= MAX_DEPTH && Clean(lib, graph, path, depth, stack) && PlainPath(path)
    requires n in graph.nodes && x in Contribution(lib, n, PathName(path), depth, stack).nodes
    requires n' in graph.nodes && x' in Contribution(lib, n', PathName(path), depth, stack).nodes
    requires n.id != n'.id && Plain(n.id) && Plain(n'.id)
    ensures x.id != x'.id
  {
    var rest := ContributedBelow(lib, graph, path, depth, stack, n, x);
    var rest' := ContributedBelow(lib, graph, path, depth, stack, n', x');
    var p, p' := path + ([n.id] + rest), path + ([n'.id] + rest');
    assert p[|path|] == n.id && p'[|path|] == n'.id;
    if x.id == x'.id {
      PathNameInjective(p, p');
    }
  }

  lemma EarlierNodesDiffer(lib: Library, graph: Graph, path: seq<string>, depth: nat, stack: seq<string>, k: nat,
                           x: GraphNode, y: GraphNode)
    requires depth <= MAX_DEPTH && Clean(lib, graph, path, depth, stack) && PlainPath(path) && k < |graph.nodes|
    requires x in ExpandNodes(lib, graph.nodes[..k], PathName(path), depth, stack).nodes
    requires y in Contribution(lib, graph.nodes[k], PathName(path), depth, stack).nodes
    ensures x.id != y.id
  {
    var n := NodeCollectedFrom(lib, graph.nodes[..k], PathName(path), depth, stack, x);
    var a :| 0 <= a < k && graph.nodes[a] == n;
    DifferentNodesDifferentNames(lib, graph, path, depth, stack, n, x, graph.nodes[k], y);
  }

  lemma {:induction false} ContributedDistinct(lib: Library, graph: Graph, path: seq<string>, depth: nat,
                                               stack: seq<string>, k: nat)
    requires depth <= MAX_DEPTH && Clean(lib, graph, path, depth, stack) && PlainPath(path) && k <= |graph.nodes|
    ensures DistinctIds(ExpandNodes(lib, graph.nodes[..k], PathName(path), depth, stack).nodes)
    decreases MAX_DEPTH - depth, k
  {
    if k > 0 {
      var n := graph.nodes[k - 1];
      assert graph.nodes[..k][..k - 1] == graph.nodes[..k - 1];
      var before := ExpandNodes(lib, graph.nodes[..k - 1], PathName(path), depth, stack);
      var c := Contribution(lib, n, PathName(path), depth, stack);
      ContributedDistinct(lib, graph, path, depth, stack, k - 1);
      ContributionDistinct(lib, graph, path, depth, stack, n);
      forall i, j | 0 <= i < |before.nodes| && 0 <= j < |c.nodes| ensures before.nodes[i].id != c.nodes[j].id {
        EarlierNodesDiffer(lib, graph, path, depth, stack, k - 1, before.nodes[i], c.nodes[j]);
      }
      DistinctIdsAppend(before.nodes, c.nodes);
      AddNodeParts(lib, before, n, PathName(path), depth, stack);
    }
  }

  lemma {:induction false} ContributionDistinct(lib: Library, graph: Graph, path: seq<string>, depth: nat,
                                                stack: seq<string>, n: GraphNode)
    requires depth <= MAX_DEPTH && Clean(lib, graph, path, depth, stack) && PlainPath(path)
    requires n in graph.nodes && Plain(n.id)
    ensures DistinctIds(Contribution(lib, n, PathName(path), depth, stack).nodes)
    decreases MAX_DEPTH - depth, 0
  {
    if IsNested(n) {
      var child, stack' := CleanChild(lib, graph, path, depth, stack, n);
      FlatIdsDistinct(lib, child, path + [n.id], depth + 1, stack');
    }
  }

  lemma DistinctIdsAppend(a: seq<GraphNode>, b: seq<GraphNode>)
    requires DistinctIds(a) && DistinctIds(b)
    requires forall i, j :: 0 <= i < |a| && 0 <= j < |b| ==> a[i].id != b[j].id
    ensures DistinctIds(a + b)
  {
  }

  /** All nodes of the flat graph have different ids. */
  lemma {:induction false} FlatIdsDistinct(lib: Library, graph: Graph, path: seq<string>, depth: nat,
                                           stack: seq<string>)
    requires depth <= MAX_DEPTH && Clean(lib, graph, path, depth, stack) && PlainPath(path)
    ensures DistinctIds(Expand(lib, graph, PathName(path), depth, stack).nodes)
    decreases MAX_DEPTH - depth, |graph.nodes| + 1
  {
    ContributedDistinct(lib, graph, path, depth, stack, |graph.nodes|);
    assert graph.nodes[..|graph.nodes|] == graph.nodes;
    ExpandParts(lib, graph, PathName(path), depth, stack);
  }

  // ---- The whole pass ----------------------------------------------------------------------------------

  datatype ExpansionResult = Flat(graph: Graph) | Rejected(diagnostics: seq<Diagnostic>)

  /** Inlines all subpatches, and contracts the boundary pins unless something was reported. */
  method ExpandProjectGraph(lib: Library, root: Graph) returns (r: ExpansionResult)
    ensures r.Rejected? <==> Expand(lib, root, "", 0, []).diagnostics != []
    ensures r.Rejected? ==> r.diagnostics == Expand(lib, root, "", 0, []).diagnostics
    ensures r.Flat? ==>
              && r.graph.nodes == Expand(lib, root, "", 0, []).nodes
              && exists picks :: CompleteFor(lib, root, picks) && r.graph.edges == FlatEdges(lib, root, picks)
  {
    var e := ExpandGraph(lib, root, "", 0, []);
    if e.diagnostics != [] {
      return Rejected(e.diagnostics);
    }
    var edges := ContractBoundaryEdges(e.edges, e.pins);
    ghost var picks :| Complete(e.edges, e.pins, picks) && edges == Contracted(e.edges, picks);
    assert CompleteFor(lib, root, picks) && edges == FlatEdges(lib, root, picks);
    r := Flat(Graph(e.nodes, edges));
  }
}
