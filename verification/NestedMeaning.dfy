/** What a nested patch means on its own terms: instances are lists of node ids, and wires run
    between ports and boundary pins of instances. No names are built and nothing is inlined. */
module NestedMeaning {
  import opened Basics
  import opened ExpansionEdges
  import opened Namespacing
  import opened Expansion

  /** A port of a leaf node, or an inlet or outlet of a patch instance. */
  datatype Place =
    | LeafPort(path: seq<string>, portId: string)
    | BoundaryPin(instance: seq<string>, kind: BoundaryKind, key: string)

  /** The node with the given id; of several, the last. */
  function FindNode(nodes: seq<GraphNode>, id: string): (r: Option<GraphNode>)
    ensures r.Some? ==> r.value in nodes && r.value.id == id
    ensures r.None? ==> forall n :: n in nodes ==> n.id != id
  {
    if nodes == [] then None
    else if nodes[|nodes| - 1].id == id then Some(nodes[|nodes| - 1])
    else
      assert nodes == nodes[..|nodes| - 1] + [nodes[|nodes| - 1]];
      FindNode(nodes[..|nodes| - 1], id)
  }

  /** The patch that a subpatch node stands for. */
  function Child(lib: Library, graph: Graph, id: string): Option<Graph> {
    match FindNode(graph.nodes, id)
    case None => None
    case Some(node) =>
      if !IsNested(node) then None else
        match SubpatchRef(node)
        case None => None
        case Some(patchRef) => if patchRef in lib then Some(lib[patchRef]) else None
  }

  /** The patch instantiated at a list of subpatch node ids. */
  function GraphAt(lib: Library, graph: Graph, path: seq<string>): Option<Graph>
    decreases |path|
  {
    if path == [] then Some(graph) else
      match Child(lib, graph, path[0])
      case None => None
      case Some(child) => GraphAt(lib, child, path[1..])
  }

  predicate HasKind(node: GraphNode, kind: BoundaryKind) {
    if kind.Inlet? then IsInlet(node) else !IsInlet(node) && IsOutlet(node)
  }

  /** The boundary that each port name of a patch denotes. */
  function KeyAliases(nodes: seq<GraphNode>, kind: BoundaryKind): map<string, string> {
    if nodes == [] then map[] else
      var before := KeyAliases(nodes[..|nodes| - 1], kind);
      var node := nodes[|nodes| - 1];
      if HasKind(node, kind) then Register(before, BoundaryAliases(node), BoundaryKey(node)) else before
  }

  /** The place that one end of a wire denotes. On a subpatch node, wires leave by outlets and
      arrive at inlets. */
  function PlaceOf(lib: Library, graph: Graph, path: seq<string>, end: PortRef, side: BoundaryKind): Place {
    var leaf := LeafPort(path + [end.nodeId], end.portId);
    match FindNode(graph.nodes, end.nodeId)
    case None => leaf
    case Some(node) =>
      if IsInlet(node) then BoundaryPin(path, Inlet, BoundaryKey(node))
      else if IsOutlet(node) then BoundaryPin(path, Outlet, BoundaryKey(node))
      else
        match Child(lib, graph, end.nodeId)
        case None => leaf
        case Some(child) =>
          var names := KeyAliases(child.nodes, side);
          if end.portId in names then BoundaryPin(path + [end.nodeId], side, names[end.portId]) else leaf
  }

  /** A wire of the patch instantiated at `path` joins two places. */
  ghost predicate WireAt(lib: Library, root: Graph, path: seq<string>, wire: EdgeSpec, x: Place, y: Place) {
    && GraphAt(lib, root, path).Some?
    && wire in GraphAt(lib, root, path).value.edges
    && x == PlaceOf(lib, GraphAt(lib, root, path).value, path, wire.source, Outlet)
    && y == PlaceOf(lib, GraphAt(lib, root, path).value, path, wire.target, Inlet)
  }

  ghost predicate Wire(lib: Library, root: Graph, x: Place, y: Place) {
    exists path, wire :: WireAt(lib, root, path, wire, x, y)
  }

  /** A chain of wires that passes only through inlets and outlets. */
  ghost predicate WireChain(lib: Library, root: Graph, places: seq<Place>) {
    && |places| >= 2
    && (forall k :: 0 <= k < |places| - 1 ==> Wire(lib, root, places[k], places[k + 1]))
    && (forall k :: 0 < k < |places| - 1 ==> places[k].BoundaryPin?)
  }

  ghost predicate JoinedByWires(lib: Library, root: Graph, s: Place, t: Place) {
    exists places :: WireChain(lib, root, places) && places[0] == s && places[|places| - 1] == t
  }

  /** A leaf node of some instance. */
  ghost predicate LeafAt(lib: Library, root: Graph, path: seq<string>, node: GraphNode) {
    && GraphAt(lib, root, path).Some?
    && node in GraphAt(lib, root, path).value.nodes
    && IsLeaf(node)
  }

  /** Ids that are distinct within the patch and cannot be mistaken for namespaced ids. */
  ghost predicate PlainGraph(graph: Graph) {
    && (forall k :: 0 <= k < |graph.nodes| ==> Plain(graph.nodes[k].id))
    && (forall i, j :: 0 <= i < j < |graph.nodes| ==> graph.nodes[i].id != graph.nodes[j].id)
    && (forall wire :: wire in graph.edges ==> Plain(wire.source.nodeId) && Plain(wire.target.nodeId))
  }

  ghost predicate PlainLibrary(lib: Library) {
    forall patchRef :: patchRef in lib ==> PlainGraph(lib[patchRef])
  }

  // ---- Aliases ---------------------------------------------------------------------------------

  /** The nodes that claim a name for their boundary. */
  ghost predicate Claims(nodes: seq<GraphNode>, kind: BoundaryKind, name: string, key: string) {
    exists n :: n in nodes && HasKind(n, kind) && name in BoundaryAliases(n) && BoundaryKey(n) == key
  }

  lemma ClaimsInit(nodes: seq<GraphNode>, kind: BoundaryKind, name: string, key: string)
    requires |nodes| > 0
    ensures var last := nodes[|nodes| - 1];
            Claims(nodes, kind, name, key) <==>
            (Claims(nodes[..|nodes| - 1], kind, name, key) ||
             (HasKind(last, kind) && name in BoundaryAliases(last) && BoundaryKey(last) == key))
  {
    assert nodes == nodes[..|nodes| - 1] + [nodes[|nodes| - 1]];
  }

  /** A port name that denotes a boundary was claimed for it by some inlet or outlet. */
  lemma {:induction false} AliasIsClaimed(nodes: seq<GraphNode>, kind: BoundaryKind, name: string)
    requires name in KeyAliases(nodes, kind)
    ensures Claims(nodes, kind, name, KeyAliases(nodes, kind)[name])
    decreases |nodes|
  {
    var init, last := nodes[..|nodes| - 1], nodes[|nodes| - 1];
    ClaimsInit(nodes, kind, name, KeyAliases(nodes, kind)[name]);
    if !HasKind(last, kind) || name !in BoundaryAliases(last) {
      AliasIsClaimed(init, kind, name);
    }
  }

  /** A name claimed for one boundary only denotes that boundary. */
  lemma {:induction false} AliasResolves(nodes: seq<GraphNode>, kind: BoundaryKind, name: string, key: string)
    requires forall other :: Claims(nodes, kind, name, other) ==> other == key
    ensures name in KeyAliases(nodes, kind) <==> Claims(nodes, kind, name, key)
    ensures name in KeyAliases(nodes, kind) ==> KeyAliases(nodes, kind)[name] == key
    decreases |nodes|
  {
    if nodes == [] {
    } else {
      var init, last := nodes[..|nodes| - 1], nodes[|nodes| - 1];
      ClaimsInit(nodes, kind, name, key);
      forall other | Claims(init, kind, name, other) ensures other == key {
        ClaimsInit(nodes, kind, name, other);
      }
      if HasKind(last, kind) && name in BoundaryAliases(last) {
        ClaimsInit(nodes, kind, name, BoundaryKey(last));
      }
      AliasResolves(init, kind, name, key);
    }
  }

  /** The boundaries that a name is claimed for, in document order. */
  function Claimants(nodes: seq<GraphNode>, kind: BoundaryKind, name: string): seq<string> {
    if nodes == [] then [] else
      var n := |nodes| - 1;
      Claimants(nodes[..n], kind, name)
      + if ClaimsName(nodes[n], kind, name) then [BoundaryKey(nodes[n])] else []
  }

  /** How one more claim changes what a name denotes. */
  ghost predicate ClaimedNext(before: map<string, string>, after: map<string, string>, name: string, key: string) {
    if name in before && before[name] != key then name !in after else name in after && after[name] == key
  }

  predicate ClaimsName(node: GraphNode, kind: BoundaryKind, name: string) {
    HasKind(node, kind) && name in BoundaryAliases(node)
  }

  lemma NextClaim(nodes: seq<GraphNode>, kind: BoundaryKind, name: string)
    requires |nodes| > 0
    ensures
      var init, last := nodes[..|nodes| - 1], nodes[|nodes| - 1];
      if ClaimsName(last, kind, name)
      then Claimants(nodes, kind, name) == Claimants(init, kind, name) + [BoundaryKey(last)]
           && ClaimedNext(KeyAliases(init, kind), KeyAliases(nodes, kind), name, BoundaryKey(last))
      else Claimants(nodes, kind, name) == Claimants(init, kind, name)
           && (name in KeyAliases(nodes, kind) <==> name in KeyAliases(init, kind))
           && (name in KeyAliases(nodes, kind) ==> KeyAliases(nodes, kind)[name] == KeyAliases(init, kind)[name])
  {
  }

  /** The length of the last stretch of claims without two equal neighbours. */
  function LastStretch(claims: seq<string>): (r: nat)
    ensures r <= |claims| && (claims != [] ==> r > 0)
    ensures forall i :: |claims| - r < i < |claims| ==> claims[i] != claims[i - 1]
    ensures r < |claims| ==> claims[|claims| - r] == claims[|claims| - r - 1]
  {
    if |claims| <= 1 then |claims| else
      var n := |claims| - 1;
      if claims[n] == claims[n - 1] then 1 else LastStretch(claims[..n]) + 1
  }

  ghost predicate OddStretch(claims: seq<string>, names: map<string, string>, name: string) {
    && (name in names <==> LastStretch(claims) % 2 == 1)
    && (name in names ==> names[name] == claims[|claims| - 1])
  }

  lemma OneMoreClaim(claims: seq<string>, key: string, before: map<string, string>, after: map<string, string>,
                     name: string)
    requires OddStretch(claims, before, name) && ClaimedNext(before, after, name, key)
    ensures OddStretch(claims + [key], after, name)
  {
    var more := claims + [key];
    assert more[..|claims|] == claims;
    if claims != [] {
      assert more[|claims| - 1] == claims[|claims| - 1];
    }
  }

  /** A name denotes a boundary exactly when the last stretch of claims without two equal neighbours is
      odd, and then it is the boundary claimed last: a claim for another boundary than the one before
      withdraws the name or brings it back, and a repeated claim settles it. */
  lemma {:induction false} AliasByParity(nodes: seq<GraphNode>, kind: BoundaryKind, name: string)
    ensures OddStretch(Claimants(nodes, kind, name), KeyAliases(nodes, kind), name)
    decreases |nodes|
  {
    if nodes != [] {
      var init := nodes[..|nodes| - 1];
      NextClaim(nodes, kind, name);
      AliasByParity(init, kind, name);
      if ClaimsName(nodes[|nodes| - 1], kind, name) {
        OneMoreClaim(Claimants(init, kind, name), BoundaryKey(nodes[|nodes| - 1]), KeyAliases(init, kind),
                     KeyAliases(nodes, kind), name);
      }
    }
  }

  /** A name claimed for two boundaries denotes neither, but a third claimant revives it. */
  lemma ThirdClaimRevives(first: GraphNode, second: GraphNode, third: GraphNode, name: string)
    requires IsInlet(first) && IsInlet(second) && IsInlet(third)
    requires name in BoundaryAliases(first) && name in BoundaryAliases(second) && name in BoundaryAliases(third)
    requires BoundaryKey(first) != BoundaryKey(second)
    ensures name !in KeyAliases([first, second], Inlet)
    ensures name in KeyAliases([first, second, third], Inlet)
    ensures KeyAliases([first, second, third], Inlet)[name] == BoundaryKey(third)
  {
    var one, two, three := [first], [first, second], [first, second, third];
    assert one[..0] == [] && two[..1] == one && three[..2] == two;
    assert KeyAliases(one[..0], Inlet) == map[];
    NextClaim(one, Inlet, name);
    NextClaim(two, Inlet, name);
    NextClaim(three, Inlet, name);
  }
}
