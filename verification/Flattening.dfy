/** The flat graph has the meaning of the nested one. */
module Flattening {
  import opened Basics
  import opened ExpansionEdges
  import opened Namespacing
  import opened Expansion
  import opened NestedMeaning

  /** The endpoint by which the expansion names a place. */
  function Encode(place: Place): Endpoint {
    match place
    case LeafPort(path, portId) => Node(PortRef(PathName(path), portId))
    case BoundaryPin(instance, kind, key) => Boundary(PinName(PathName(instance), kind, key))
  }

  ghost predicate PlainPlace(place: Place) {
    match place
    case LeafPort(path, _) => PlainPath(path)
    case BoundaryPin(instance, _, _) => PlainPath(instance)
  }

  lemma EncodeInjective(x: Place, y: Place)
    requires PlainPlace(x) && PlainPlace(y) && Encode(x) == Encode(y)
    ensures x == y
  {
    match x {
      case LeafPort(path, _) =>
        PathNameInjective(path, y.path);
      case BoundaryPin(instance, kind, key) =>
        PinNameInjective(instance, kind, key, y.instance, y.kind, y.key);
    }
  }

  /** The inlined form of a wire of the patch instantiated at `path`. */
  function Instance(lib: Library, graph: Graph, path: seq<string>, wire: EdgeSpec): ExpansionEdge {
    ExpansionEdge(
      wire.(id := NamespacedId(PathName(path), wire.id)),
      Encode(PlaceOf(lib, graph, path, wire.source, Outlet)),
      Encode(PlaceOf(lib, graph, path, wire.target, Inlet)))
  }

  /** Every alias of a patch, with the pin it has under a namespace. */
  function NamePins(keys: map<string, string>, namespace: string, kind: BoundaryKind): map<string, string> {
    map a | a in keys :: PinName(namespace, kind, keys[a])
  }

  // ---- What one node contributes ----------------------------------------------------------------------

  predicate Accepts(lib: Library, node: GraphNode, namespace: string, depth: nat, stack: seq<string>) {
    CheckReference(lib, node, namespace, depth, stack).Accepted?
  }

  /** The expansion of the patch behind an accepted subpatch node. */
  function ChildExpansion(lib: Library, node: GraphNode, namespace: string, depth: nat, stack: seq<string>): Expanded
    requires depth <= MAX_DEPTH && Accepts(lib, node, namespace, depth, stack)
  {
    var patchRef := CheckReference(lib, node, namespace, depth, stack).patchRef;
    Expand(lib, lib[patchRef], NamespacedId(namespace, node.id), depth + 1, stack + [patchRef])
  }

  /** What a node contributes: nothing for a boundary, itself for a leaf, an expansion for a subpatch. */
  function Contribution(lib: Library, node: GraphNode, namespace: string, depth: nat, stack: seq<string>): Expanded
    requires depth <= MAX_DEPTH
  {
    if IsNested(node) then
      match CheckReference(lib, node, namespace, depth, stack)
      case Refused(d) => NOTHING.(diagnostics := [d])
      case Accepted(_) => ChildExpansion(lib, node, namespace, depth, stack)
    else if IsLeaf(node) then NOTHING.(nodes := [node.(id := NamespacedId(namespace, node.id))])
    else NOTHING
  }

  function Remembered(lib: Library, node: GraphNode, namespace: string, depth: nat, stack: seq<string>): NodeExpansion
    requires depth <= MAX_DEPTH
  {
    if IsInlet(node) then Pin(PinName(namespace, Inlet, BoundaryKey(node)))
    else if IsOutlet(node) then Pin(PinName(namespace, Outlet, BoundaryKey(node)))
    else if IsSubpatch(node) then
      var child := Contribution(lib, node, namespace, depth, stack);
      Subpatch(child.inlets, child.outlets)
    else Leaf(NamespacedId(namespace, node.id))
  }

  function Table(e: Expanded, kind: BoundaryKind): map<string, string> {
    if kind.Inlet? then e.inlets else e.outlets
  }

  function OwnPins(node: GraphNode, namespace: string): set<string> {
    if IsInlet(node) then {PinName(namespace, Inlet, BoundaryKey(node))}
    else if IsOutlet(node) then {PinName(namespace, Outlet, BoundaryKey(node))}
    else {}
  }

  /** The parts collected before, extended by those of a contribution. */
  ghost predicate Extends(e': Expanded, e: Expanded, c: Expanded, pins: set<string>) {
    && e'.nodes == e.nodes + c.nodes
    && e'.edges == e.edges + c.edges
    && e'.diagnostics == e.diagnostics + c.diagnostics
    && e'.pins == e.pins + c.pins + pins
  }

  lemma AddChildParts(e: Expanded, node: GraphNode, child: Expanded)
    ensures Extends(AddChild(e, node, child), e, child, {})
  {
  }

  lemma AddNestedParts(lib: Library, e: Expanded, node: GraphNode, namespace: string, depth: nat, stack: seq<string>)
    requires depth <= MAX_DEPTH && IsNested(node)
    ensures Extends(AddNode(lib, e, node, namespace, depth, stack), e,
                    Contribution(lib, node, namespace, depth, stack), {})
  {
    match CheckReference(lib, node, namespace, depth, stack) {
      case Refused(d) =>
      case Accepted(patchRef) =>
        AddChildParts(e, node, ChildExpansion(lib, node, namespace, depth, stack));
    }
  }

  lemma AddNodeParts(lib: Library, e: Expanded, node: GraphNode, namespace: string, depth: nat, stack: seq<string>)
    requires depth <= MAX_DEPTH
    ensures Extends(AddNode(lib, e, node, namespace, depth, stack), e,
                    Contribution(lib, node, namespace, depth, stack), OwnPins(node, namespace))
  {
    if IsNested(node) {
      AddNestedParts(lib, e, node, namespace, depth, stack);
    } else if IsLeaf(node) {
      assert AddNode(lib, e, node, namespace, depth, stack) == AddLeaf(e, node, namespace);
    } else {
      KindsDiffer(node);
    }
  }

  lemma AddNodeExpansions(lib: Library, e: Expanded, node: GraphNode, namespace: string, depth: nat, stack: seq<string>)
    requires depth <= MAX_DEPTH && (IsNested(node) ==> Accepts(lib, node, namespace, depth, stack))
    ensures AddNode(lib, e, node, namespace, depth, stack).expansions ==
            e.expansions[node.id := Remembered(lib, node, namespace, depth, stack)]
  {
    if IsNested(node) {
      assert AddNode(lib, e, node, namespace, depth, stack) ==
             AddChild(e, node, ChildExpansion(lib, node, namespace, depth, stack));
    }
  }

  lemma AddNodeTable(lib: Library, e: Expanded, node: GraphNode, namespace: string, depth: nat, stack: seq<string>,
                     kind: BoundaryKind)
    requires depth <= MAX_DEPTH
    ensures Table(AddNode(lib, e, node, namespace, depth, stack), kind) ==
            if HasKind(node, kind)
            then Register(Table(e, kind), BoundaryAliases(node), PinName(namespace, kind, BoundaryKey(node)))
            else Table(e, kind)
  {
    KindsDiffer(node);
  }

  lemma KindsDiffer(node: GraphNode)
    ensures !(IsInlet(node) && IsOutlet(node))
  {
    assert |INLET_KIND| != |OUTLET_KIND|;
  }

  // ---- The alias tables of an expansion --------------------------------------------------------------

  lemma PinNameKey(namespace: string, kind: BoundaryKind, a: string, b: string)
    ensures PinName(namespace, kind, a) == PinName(namespace, kind, b) <==> a == b
  {
    var p := NamespacePrefix(namespace) + "@" + KindName(kind) + "::";
    assert (p + a)[|p|..] == a && (p + b)[|p|..] == b;
    assert PinName(namespace, kind, a) == p + a && PinName(namespace, kind, b) == p + b;
  }

  lemma RegisterNamed(keys: map<string, string>, names: set<string>, key: string, namespace: string, kind: BoundaryKind)
    ensures Register(NamePins(keys, namespace, kind), names, PinName(namespace, kind, key))
         == NamePins(Register(keys, names, key), namespace, kind)
  {
    forall a | a in keys
      ensures PinName(namespace, kind, keys[a]) == PinName(namespace, kind, key) <==> keys[a] == key
    {
      PinNameKey(namespace, kind, keys[a], key);
    }
  }

  lemma {:induction false} AliasTable(lib: Library, nodes: seq<GraphNode>, namespace: string, depth: nat,
                                      stack: seq<string>, kind: BoundaryKind)
    requires depth <= MAX_DEPTH
    ensures Table(ExpandNodes(lib, nodes, namespace, depth, stack), kind) ==
            NamePins(KeyAliases(nodes, kind), namespace, kind)
    decreases |nodes|
  {
    if nodes != [] {
      var init, node := nodes[..|nodes| - 1], nodes[|nodes| - 1];
      AliasTable(lib, init, namespace, depth, stack, kind);
      AddNodeTable(lib, ExpandNodes(lib, init, namespace, depth, stack), node, namespace, depth, stack, kind);
      if HasKind(node, kind) {
        RegisterNamed(KeyAliases(init, kind), BoundaryAliases(node), BoundaryKey(node), namespace, kind);
      }
    }
  }

  // ---- The edges of one patch -------------------------------------------------------------------------

  /** The inlined form of one edge, as the table of node expansions resolves it. */
  function Rewire(edge: EdgeSpec, namespace: string, m: map<string, NodeExpansion>): ExpansionEdge {
    ExpansionEdge(edge.(id := NamespacedId(namespace, edge.id)),
                  ResolveSource(edge.source, namespace, m).0,
                  ResolveTarget(edge.target, namespace, m).0)
  }

  function RewireAll(edges: seq<EdgeSpec>, namespace: string, m: map<string, NodeExpansion>): (r: seq<ExpansionEdge>)
    ensures |r| == |edges| && forall k :: 0 <= k < |r| ==> r[k] == Rewire(edges[k], namespace, m)
  {
    seq(|edges|, k requires 0 <= k < |edges| => Rewire(edges[k], namespace, m))
  }

  predicate Resolves(edge: EdgeSpec, namespace: string, m: map<string, NodeExpansion>) {
    ResolveSource(edge.source, namespace, m).1 == [] && ResolveTarget(edge.target, namespace, m).1 == []
  }

  lemma {:induction false} AddEdgesShape(e: Expanded, edges: seq<EdgeSpec>, namespace: string)
    ensures AddEdges(e, edges, namespace).(edges := e.edges, diagnostics := e.diagnostics) == e
    ensures AddEdges(e, edges, namespace).edges == e.edges + RewireAll(edges, namespace, e.expansions)
    ensures AddEdges(e, edges, namespace).diagnostics == [] <==>
              e.diagnostics == [] && forall k :: 0 <= k < |edges| ==> Resolves(edges[k], namespace, e.expansions)
    decreases |edges|
  {
    if edges != [] {
      var n := |edges| - 1;
      AddEdgesShape(e, edges[..n], namespace);
      var before := AddEdges(e, edges[..n], namespace);
      assert before.expansions == e.expansions;
      assert forall k :: 0 <= k < n ==> edges[..n][k] == edges[k];
      assert RewireAll(edges, namespace, e.expansions)
          == RewireAll(edges[..n], namespace, e.expansions) + [Rewire(edges[n], namespace, e.expansions)];
    }
  }

  // ---- Expansion without diagnostics ---------------------------------------------------------------

  ghost predicate ChildFine(lib: Library, n: GraphNode, namespace: string, depth: nat, stack: seq<string>)
    requires depth <= MAX_DEPTH
  {
    Contribution(lib, n, namespace, depth, stack).diagnostics == []
  }

  /** Every subpatch node was accepted and its patch expanded without diagnostics. */
  lemma {:induction false} NodesFine(lib: Library, nodes: seq<GraphNode>, namespace: string, depth: nat,
                                     stack: seq<string>)
    requires depth <= MAX_DEPTH
    ensures ExpandNodes(lib, nodes, namespace, depth, stack).diagnostics == [] <==>
            forall n :: n in nodes ==> ChildFine(lib, n, namespace, depth, stack)
    decreases |nodes|
  {
    if nodes != [] {
      var n := |nodes| - 1;
      NodesFine(lib, nodes[..n], namespace, depth, stack);
      assert nodes == nodes[..n] + [nodes[n]];
      AddNodeParts(lib, ExpandNodes(lib, nodes[..n], namespace, depth, stack), nodes[n], namespace, depth, stack);
      assert (forall m :: m in nodes ==> ChildFine(lib, m, namespace, depth, stack)) <==>
             (forall m :: m in nodes[..n] ==> ChildFine(lib, m, namespace, depth, stack))
                 && ChildFine(lib, nodes[n], namespace, depth, stack);
    }
  }

  /** The edges collected are those contributed by the nodes of the patch. */
  lemma {:induction false} CollectedFrom(lib: Library, nodes: seq<GraphNode>, namespace: string, depth: nat,
                                         stack: seq<string>, x: ExpansionEdge)
    returns (n: GraphNode)
    requires depth <= MAX_DEPTH && x in ExpandNodes(lib, nodes, namespace, depth, stack).edges
    ensures n in nodes && x in Contribution(lib, n, namespace, depth, stack).edges
    decreases |nodes|
  {
    var k := |nodes| - 1;
    AddNodeParts(lib, ExpandNodes(lib, nodes[..k], namespace, depth, stack), nodes[k], namespace, depth, stack);
    n := nodes[k];
    if x !in Contribution(lib, n, namespace, depth, stack).edges {
      n := CollectedFrom(lib, nodes[..k], namespace, depth, stack, x);
    }
  }

  lemma {:induction false} CollectedHas(lib: Library, nodes: seq<GraphNode>, namespace: string, depth: nat,
                                        stack: seq<string>, n: GraphNode)
    requires depth <= MAX_DEPTH && n in nodes
    ensures Includes(ExpandNodes(lib, nodes, namespace, depth, stack), Contribution(lib, n, namespace, depth, stack))
    decreases |nodes|
  {
    var init, last := nodes[..|nodes| - 1], nodes[|nodes| - 1];
    if n in init {
      CollectedHas(lib, init, namespace, depth, stack, n);
    } else {
      assert n == last;
    }
    NodesInclude(lib, nodes, namespace, depth, stack, Contribution(lib, n, namespace, depth, stack));
  }

  lemma NodesInclude(lib: Library, nodes: seq<GraphNode>, namespace: string, depth: nat, stack: seq<string>,
                     small: Expanded)
    requires depth <= MAX_DEPTH && |nodes| > 0
    ensures Includes(ExpandNodes(lib, nodes[..|nodes| - 1], namespace, depth, stack), small)
            || small == Contribution(lib, nodes[|nodes| - 1], namespace, depth, stack) ==>
              Includes(ExpandNodes(lib, nodes, namespace, depth, stack), small)
  {
    AddNodeIncludes(lib, ExpandNodes(lib, nodes[..|nodes| - 1], namespace, depth, stack), nodes[|nodes| - 1],
                    namespace, depth, stack, small);
  }

  lemma AddNodeIncludes(lib: Library, e: Expanded, node: GraphNode, namespace: string, depth: nat, stack: seq<string>,
                        small: Expanded)
    requires depth <= MAX_DEPTH
    ensures Includes(e, small) || small == Contribution(lib, node, namespace, depth, stack) ==>
              Includes(AddNode(lib, e, node, namespace, depth, stack), small)
  {
    var c := Contribution(lib, node, namespace, depth, stack);
    AddNodeParts(lib, e, node, namespace, depth, stack);
    ExtendsIncludes(AddNode(lib, e, node, namespace, depth, stack), e, c, OwnPins(node, namespace), small);
  }

  ghost predicate Includes(big: Expanded, small: Expanded) {
    && (forall x :: x in small.edges ==> x in big.edges)
    && (forall x :: x in small.nodes ==> x in big.nodes)
    && small.pins <= big.pins
  }

  lemma ExtendsIncludes(e': Expanded, e: Expanded, c: Expanded, pins: set<string>, small: Expanded)
    requires Extends(e', e, c, pins)
    ensures Includes(e, small) || small == c ==> Includes(e', small)
  {
  }

  lemma {:induction false} NodeCollectedFrom(lib: Library, nodes: seq<GraphNode>, namespace: string, depth: nat,
                                             stack: seq<string>, x: GraphNode)
    returns (n: GraphNode)
    requires depth <= MAX_DEPTH && x in ExpandNodes(lib, nodes, namespace, depth, stack).nodes
    ensures n in nodes && x in Contribution(lib, n, namespace, depth, stack).nodes
    decreases |nodes|
  {
    var k := |nodes| - 1;
    AddNodeParts(lib, ExpandNodes(lib, nodes[..k], namespace, depth, stack), nodes[k], namespace, depth, stack);
    n := nodes[k];
    if x !in Contribution(lib, n, namespace, depth, stack).nodes {
      n := NodeCollectedFrom(lib, nodes[..k], namespace, depth, stack, x);
    }
  }

  /** What the expansion remembers of a node. */
  lemma {:induction false} ExpansionsOf(lib: Library, nodes: seq<GraphNode>, namespace: string, depth: nat,
                                        stack: seq<string>, id: string)
    requires depth <= MAX_DEPTH && forall n :: n in nodes ==> ChildFine(lib, n, namespace, depth, stack)
    ensures var m := ExpandNodes(lib, nodes, namespace, depth, stack).expansions;
            && (id in m <==> FindNode(nodes, id).Some?)
            && (id in m ==> m[id] == Remembered(lib, FindNode(nodes, id).value, namespace, depth, stack))
    decreases |nodes|
  {
    if nodes != [] {
      var k := |nodes| - 1;
      assert nodes == nodes[..k] + [nodes[k]];
      ExpansionsOf(lib, nodes[..k], namespace, depth, stack, id);
      assert ChildFine(lib, nodes[k], namespace, depth, stack);
      AddNodeExpansions(lib, ExpandNodes(lib, nodes[..k], namespace, depth, stack), nodes[k], namespace, depth, stack);
    }
  }

  // ---- One patch at a time ---------------------------------------------------------------------------

  /** Without diagnostics, every node and every wire of the patch was fine. */
  ghost predicate PatchFine(lib: Library, graph: Graph, namespace: string, depth: nat, stack: seq<string>)
    requires depth <= MAX_DEPTH
  {
    && (forall n :: n in graph.nodes ==> ChildFine(lib, n, namespace, depth, stack))
    && (forall k :: 0 <= k < |graph.edges| ==>
          Resolves(graph.edges[k], namespace, ExpandNodes(lib, graph.nodes, namespace, depth, stack).expansions))
  }

  lemma ExpandParts(lib: Library, graph: Graph, namespace: string, depth: nat, stack: seq<string>)
    requires depth <= MAX_DEPTH
    ensures var before := ExpandNodes(lib, graph.nodes, namespace, depth, stack);
            var e := Expand(lib, graph, namespace, depth, stack);
            && e.edges == before.edges + RewireAll(graph.edges, namespace, before.expansions)
            && e.nodes == before.nodes && e.pins == before.pins && e.inlets == before.inlets
            && e.outlets == before.outlets
    ensures Expand(lib, graph, namespace, depth, stack).diagnostics == [] <==>
            PatchFine(lib, graph, namespace, depth, stack)
  {
    AddEdgesShape(ExpandNodes(lib, graph.nodes, namespace, depth, stack), graph.edges, namespace);
    NodesFine(lib, graph.nodes, namespace, depth, stack);
  }

  lemma FindDistinct(nodes: seq<GraphNode>, n: GraphNode)
    requires n in nodes
    requires forall i, j :: 0 <= i < j < |nodes| ==> nodes[i].id != nodes[j].id
    ensures FindNode(nodes, n.id) == Some(n)
  {
    var found := FindNode(nodes, n.id).value;
    var i :| 0 <= i < |nodes| && nodes[i] == n;
    var j :| 0 <= j < |nodes| && nodes[j] == found;
  }

  lemma ExpandTable(lib: Library, graph: Graph, namespace: string, depth: nat, stack: seq<string>, kind: BoundaryKind)
    requires depth <= MAX_DEPTH
    ensures Table(Expand(lib, graph, namespace, depth, stack), kind) ==
            NamePins(KeyAliases(graph.nodes, kind), namespace, kind)
  {
    ExpandParts(lib, graph, namespace, depth, stack);
    AliasTable(lib, graph.nodes, namespace, depth, stack, kind);
  }

  /** An accepted subpatch node contributes the expansion of its patch. */
  lemma IntoChild(lib: Library, graph: Graph, path: seq<string>, depth: nat, stack: seq<string>, id: string)
    returns (child: Graph, stack': seq<string>)
    requires depth <= MAX_DEPTH && FindNode(graph.nodes, id).Some? && IsNested(FindNode(graph.nodes, id).value)
    requires ChildFine(lib, FindNode(graph.nodes, id).value, PathName(path), depth, stack)
    ensures depth + 1 <= MAX_DEPTH && Child(lib, graph, id) == Some(child)
    ensures exists patchRef :: patchRef in lib && lib[patchRef] == child
    ensures Contribution(lib, FindNode(graph.nodes, id).value, PathName(path), depth, stack) ==
            Expand(lib, child, PathName(path + [id]), depth + 1, stack')
  {
    var n := FindNode(graph.nodes, id).value;
    PathNameNext(path, id);
    var patchRef := CheckReference(lib, n, PathName(path), depth, stack).patchRef;
    child, stack' := lib[patchRef], stack + [patchRef];
  }

  /** The place denoted by a wire's end on a subpatch node. */
  lemma SubpatchEnd(lib: Library, graph: Graph, path: seq<string>, depth: nat, stack: seq<string>, end: PortRef,
                    kind: BoundaryKind)
    requires depth <= MAX_DEPTH
    requires FindNode(graph.nodes, end.nodeId).Some? && IsNested(FindNode(graph.nodes, end.nodeId).value)
    requires ChildFine(lib, FindNode(graph.nodes, end.nodeId).value, PathName(path), depth, stack)
    ensures var node := FindNode(graph.nodes, end.nodeId).value;
            var table := Table(Contribution(lib, node, PathName(path), depth, stack), kind);
            end.portId in table ==> Encode(PlaceOf(lib, graph, path, end, kind)) == Boundary(table[end.portId])
  {
    var child, stack' := IntoChild(lib, graph, path, depth, stack, end.nodeId);
    ExpandTable(lib, child, PathName(path + [end.nodeId]), depth + 1, stack', kind);
  }

  /** Without diagnostics, the expansion resolves each end of a wire to the place it denotes. */
  lemma EndPlaces(lib: Library, graph: Graph, path: seq<string>, depth: nat, stack: seq<string>, wire: EdgeSpec)
    requires depth <= MAX_DEPTH && forall n :: n in graph.nodes ==> ChildFine(lib, n, PathName(path), depth, stack)
    requires Resolves(wire, PathName(path), ExpandNodes(lib, graph.nodes, PathName(path), depth, stack).expansions)
    ensures Rewire(wire, PathName(path), ExpandNodes(lib, graph.nodes, PathName(path), depth, stack).expansions)
         == Instance(lib, graph, path, wire)
  {
    EndPlace(lib, graph, path, depth, stack, wire.source, Outlet);
    EndPlace(lib, graph, path, depth, stack, wire.target, Inlet);
  }

  function Resolve(end: PortRef, namespace: string, m: map<string, NodeExpansion>, kind: BoundaryKind)
    : (Endpoint, seq<Diagnostic>)
  {
    if kind.Outlet? then ResolveSource(end, namespace, m) else ResolveTarget(end, namespace, m)
  }

  lemma EndPlace(lib: Library, graph: Graph, path: seq<string>, depth: nat, stack: seq<string>, end: PortRef,
                 kind: BoundaryKind)
    requires depth <= MAX_DEPTH && forall n :: n in graph.nodes ==> ChildFine(lib, n, PathName(path), depth, stack)
    requires Resolve(end, PathName(path), ExpandNodes(lib, graph.nodes, PathName(path), depth, stack).expansions,
                     kind).1 == []
    ensures Resolve(end, PathName(path), ExpandNodes(lib, graph.nodes, PathName(path), depth, stack).expansions, kind).0
         == Encode(PlaceOf(lib, graph, path, end, kind))
  {
    ExpansionsOf(lib, graph.nodes, PathName(path), depth, stack, end.nodeId);
    PathNameNext(path, end.nodeId);
    var m := ExpandNodes(lib, graph.nodes, PathName(path), depth, stack).expansions;
    ResolvesBy(end, PathName(path), m, kind);
    var found := FindNode(graph.nodes, end.nodeId);
    if found.Some? && IsNested(found.value) {
      assert ChildFine(lib, found.value, PathName(path), depth, stack);
      SubpatchEnd(lib, graph, path, depth, stack, end, kind);
    }
  }

  /** How an end is resolved, without diagnostics. */
  lemma ResolvesBy(end: PortRef, namespace: string, m: map<string, NodeExpansion>, kind: BoundaryKind)
    requires Resolve(end, namespace, m, kind).1 == []
    ensures
      var r := Resolve(end, namespace, m, kind).0;
      if end.nodeId !in m then r == Node(PortRef(NamespacedId(namespace, end.nodeId), end.portId))
      else
        match m[end.nodeId]
        case Leaf(id) => r == Node(PortRef(id, end.portId))
        case Pin(pin) => r == Boundary(pin)
        case Subpatch(inlets, outlets) =>
          var table := if kind.Inlet? then inlets else outlets;
          end.portId in table && r == Boundary(table[end.portId])
  {
  }

  function Instances(lib: Library, graph: Graph, path: seq<string>): (r: seq<ExpansionEdge>)
    ensures |r| == |graph.edges| && forall k :: 0 <= k < |r| ==> r[k] == Instance(lib, graph, path, graph.edges[k])
  {
    seq(|graph.edges|, k requires 0 <= k < |graph.edges| => Instance(lib, graph, path, graph.edges[k]))
  }

  /** The edges of an expansion: those of the children, then the patch's own wires, inlined. */
  lemma OwnEdges(lib: Library, graph: Graph, path: seq<string>, depth: nat, stack: seq<string>)
    requires depth <= MAX_DEPTH && PatchFine(lib, graph, PathName(path), depth, stack)
    ensures Expand(lib, graph, PathName(path), depth, stack).edges ==
            ExpandNodes(lib, graph.nodes, PathName(path), depth, stack).edges + Instances(lib, graph, path)
  {
    var m := ExpandNodes(lib, graph.nodes, PathName(path), depth, stack).expansions;
    ExpandParts(lib, graph, PathName(path), depth, stack);
    forall k | 0 <= k < |graph.edges| ensures Rewire(graph.edges[k], PathName(path), m) ==
        Instance(lib, graph, path, graph.edges[k]) {
      EndPlaces(lib, graph, path, depth, stack, graph.edges[k]);
    }
    assert RewireAll(graph.edges, PathName(path), m) == Instances(lib, graph, path);
  }

  // ---- The whole expansion -------------------------------------------------------------------------

  ghost predicate Clean(lib: Library, graph: Graph, path: seq<string>, depth: nat, stack: seq<string>)
    requires depth <= MAX_DEPTH
  {
    && PlainLibrary(lib) && PlainGraph(graph)
    && Expand(lib, graph, PathName(path), depth, stack).diagnostics == []
  }

  lemma CleanParts(lib: Library, graph: Graph, path: seq<string>, depth: nat, stack: seq<string>)
    requires depth <= MAX_DEPTH && Clean(lib, graph, path, depth, stack)
    ensures PatchFine(lib, graph, PathName(path), depth, stack)
  {
    ExpandParts(lib, graph, PathName(path), depth, stack);
  }

  lemma CleanChild(lib: Library, graph: Graph, path: seq<string>, depth: nat, stack: seq<string>, n: GraphNode)
    returns (child: Graph, stack': seq<string>)
    requires depth <= MAX_DEPTH && Clean(lib, graph, path, depth, stack) && n in graph.nodes && IsNested(n)
    ensures depth + 1 <= MAX_DEPTH && Child(lib, graph, n.id) == Some(child)
    ensures Clean(lib, child, path + [n.id], depth + 1, stack')
    ensures Contribution(lib, n, PathName(path), depth, stack) ==
            Expand(lib, child, PathName(path + [n.id]), depth + 1, stack')
  {
    CleanParts(lib, graph, path, depth, stack);
    FindDistinct(graph.nodes, n);
    assert ChildFine(lib, n, PathName(path), depth, stack);
    child, stack' := IntoChild(lib, graph, path, depth, stack, n.id);
  }

  lemma StepInto(lib: Library, graph: Graph, path: seq<string>, id: string, child: Graph, q: seq<string>)
    requires Child(lib, graph, id) == Some(child)
    ensures GraphAt(lib, graph, [id] + q) == GraphAt(lib, child, q)
    ensures path + ([id] + q) == path + [id] + q
  {
    assert ([id] + q)[1..] == q;
  }

  /** The wire of some instance that an inlined edge comes from. */
  ghost predicate InlinedFrom(lib: Library, graph: Graph, path: seq<string>, x: ExpansionEdge, q: seq<string>,
                              wire: EdgeSpec) {
    && GraphAt(lib, graph, q).Some? && wire in GraphAt(lib, graph, q).value.edges
    && x == Instance(lib, GraphAt(lib, graph, q).value, path + q, wire)
  }

  lemma OwnEdgeFrom(lib: Library, graph: Graph, path: seq<string>, x: ExpansionEdge) returns (wire: EdgeSpec)
    requires x in Instances(lib, graph, path)
    ensures InlinedFrom(lib, graph, path, x, [], wire)
  {
    var k :| 0 <= k < |graph.edges| && Instances(lib, graph, path)[k] == x;
    wire := graph.edges[k];
    assert path + [] == path;
  }

  lemma OwnWire(lib: Library, graph: Graph, path: seq<string>, x: ExpansionEdge, wire: EdgeSpec)
    requires InlinedFrom(lib, graph, path, x, [], wire)
    ensures x in Instances(lib, graph, path)
  {
    assert path + [] == path;
    var k :| 0 <= k < |graph.edges| && graph.edges[k] == wire;
    assert x == Instances(lib, graph, path)[k];
  }

  lemma EdgesInside(lib: Library, graph: Graph, path: seq<string>, depth: nat, stack: seq<string>, x: ExpansionEdge)
    requires depth <= MAX_DEPTH && Clean(lib, graph, path, depth, stack)
    ensures x in Expand(lib, graph, PathName(path), depth, stack).edges <==>
            x in ExpandNodes(lib, graph.nodes, PathName(path), depth, stack).edges || x in Instances(lib, graph, path)
  {
    CleanParts(lib, graph, path, depth, stack);
    OwnEdges(lib, graph, path, depth, stack);
  }

  /** The edge is the inlined form of a wire of some instance. */
  ghost predicate Inlined(lib: Library, graph: Graph, path: seq<string>, x: ExpansionEdge) {
    exists q, wire :: InlinedFrom(lib, graph, path, x, q, wire)
  }

  lemma OwnIsInlined(lib: Library, graph: Graph, path: seq<string>, x: ExpansionEdge)
    requires x in Instances(lib, graph, path)
    ensures Inlined(lib, graph, path, x)
  {
    var wire := OwnEdgeFrom(lib, graph, path, x);
  }

  lemma ChildIsInlined(lib: Library, graph: Graph, path: seq<string>, id: string, child: Graph, x: ExpansionEdge)
    requires Child(lib, graph, id) == Some(child) && Inlined(lib, child, path + [id], x)
    ensures Inlined(lib, graph, path, x)
  {
    var q, wire :| InlinedFrom(lib, child, path + [id], x, q, wire);
    StepInto(lib, graph, path, id, child, q);
    assert InlinedFrom(lib, graph, path, x, [id] + q, wire);
  }

  /** An edge that is not the patch's own comes from one of its children. */
  lemma EdgeInChild(lib: Library, graph: Graph, path: seq<string>, depth: nat, stack: seq<string>, x: ExpansionEdge)
    returns (n: GraphNode, child: Graph, stack': seq<string>)
    requires depth <= MAX_DEPTH && Clean(lib, graph, path, depth, stack)
    requires x in ExpandNodes(lib, graph.nodes, PathName(path), depth, stack).edges
    ensures depth + 1 <= MAX_DEPTH && Child(lib, graph, n.id) == Some(child)
    ensures Clean(lib, child, path + [n.id], depth + 1, stack')
    ensures x in Expand(lib, child, PathName(path + [n.id]), depth + 1, stack').edges
  {
    n := CollectedFrom(lib, graph.nodes, PathName(path), depth, stack, x);
    child, stack' := CleanChild(lib, graph, path, depth, stack, n);
  }

  lemma {:induction false} CollectedAreInlined(lib: Library, graph: Graph, path: seq<string>, depth: nat,
                                               stack: seq<string>, x: ExpansionEdge)
    requires depth <= MAX_DEPTH && Clean(lib, graph, path, depth, stack)
    requires x in ExpandNodes(lib, graph.nodes, PathName(path), depth, stack).edges
    ensures Inlined(lib, graph, path, x)
    decreases MAX_DEPTH - depth, 0
  {
    var n, child, stack' := EdgeInChild(lib, graph, path, depth, stack, x);
    ExpandedAreInlined(lib, child, path + [n.id], depth + 1, stack', x);
    ChildIsInlined(lib, graph, path, n.id, child, x);
  }

  lemma {:induction false} ExpandedAreInlined(lib: Library, graph: Graph, path: seq<string>, depth: nat,
                                              stack: seq<string>, x: ExpansionEdge)
    requires depth <= MAX_DEPTH && Clean(lib, graph, path, depth, stack)
    requires x in Expand(lib, graph, PathName(path), depth, stack).edges
    ensures Inlined(lib, graph, path, x)
    decreases MAX_DEPTH - depth, 1
  {
    EdgesInside(lib, graph, path, depth, stack, x);
    if x in Instances(lib, graph, path) {
      OwnIsInlined(lib, graph, path, x);
    } else {
      CollectedAreInlined(lib, graph, path, depth, stack, x);
    }
  }

  /** Every edge of the expansion is the inlined form of a wire of some instance. */
  lemma EdgesSound(lib: Library, graph: Graph, path: seq<string>, depth: nat, stack: seq<string>, x: ExpansionEdge)
    returns (q: seq<string>, wire: EdgeSpec)
    requires depth <= MAX_DEPTH && Clean(lib, graph, path, depth, stack)
    requires x in Expand(lib, graph, PathName(path), depth, stack).edges
    ensures InlinedFrom(lib, graph, path, x, q, wire)
  {
    ExpandedAreInlined(lib, graph, path, depth, stack, x);
    q, wire :| InlinedFrom(lib, graph, path, x, q, wire);
  }

  /** The first step towards an instance further in. */
  lemma FirstStep(lib: Library, graph: Graph, path: seq<string>, q: seq<string>) returns (n: GraphNode)
    requires GraphAt(lib, graph, q).Some? && q != []
    ensures n in graph.nodes && IsNested(n) && n.id == q[0] && Child(lib, graph, n.id).Some?
    ensures GraphAt(lib, graph, q) == GraphAt(lib, Child(lib, graph, n.id).value, q[1..])
    ensures path + q == path + [n.id] + q[1..]
  {
    n := FindNode(graph.nodes, q[0]).value;
    assert q == [n.id] + q[1..];
  }

  /** A wire of an instance further in belongs to one of the patch's children. */
  lemma InlinedInChild(lib: Library, graph: Graph, path: seq<string>, depth: nat, stack: seq<string>,
                       x: ExpansionEdge, q: seq<string>, wire: EdgeSpec)
    returns (n: GraphNode, child: Graph, stack': seq<string>)
    requires depth <= MAX_DEPTH && Clean(lib, graph, path, depth, stack)
    requires InlinedFrom(lib, graph, path, x, q, wire) && q != []
    ensures n in graph.nodes && depth + 1 <= MAX_DEPTH && Clean(lib, child, path + [n.id], depth + 1, stack')
    ensures InlinedFrom(lib, child, path + [n.id], x, q[1..], wire)
    ensures Contribution(lib, n, PathName(path), depth, stack) ==
            Expand(lib, child, PathName(path + [n.id]), depth + 1, stack')
  {
    n := FirstStep(lib, graph, path, q);
    child, stack' := CleanChild(lib, graph, path, depth, stack, n);
  }

  /** Every wire of every instance has its inlined form in the expansion. */
  lemma {:induction false} EdgesComplete(lib: Library, graph: Graph, path: seq<string>, depth: nat, stack: seq<string>,
                                         x: ExpansionEdge, q: seq<string>, wire: EdgeSpec)
    requires depth <= MAX_DEPTH && Clean(lib, graph, path, depth, stack)
    requires InlinedFrom(lib, graph, path, x, q, wire)
    ensures x in Expand(lib, graph, PathName(path), depth, stack).edges
    decreases |q|
  {
    EdgesInside(lib, graph, path, depth, stack, x);
    if q == [] {
      OwnWire(lib, graph, path, x, wire);
    } else {
      var n, child, stack' := InlinedInChild(lib, graph, path, depth, stack, x, q, wire);
      EdgesComplete(lib, child, path + [n.id], depth + 1, stack', x, q[1..], wire);
      CollectedHas(lib, graph.nodes, PathName(path), depth, stack, n);
    }
  }

  ghost predicate RenamedFrom(lib: Library, graph: Graph, path: seq<string>, x: GraphNode, q: seq<string>,
                              node: GraphNode) {
    LeafAt(lib, graph, q, node) && x == node.(id := PathName(path + q + [node.id]))
  }

  lemma OwnLeaf(lib: Library, graph: Graph, path: seq<string>, depth: nat, stack: seq<string>, n: GraphNode,
                x: GraphNode)
    requires depth <= MAX_DEPTH && n in graph.nodes && !IsNested(n)
    ensures x in Contribution(lib, n, PathName(path), depth, stack).nodes <==> RenamedFrom(lib, graph, path, x, [], n)
  {
    PathNameNext(path, n.id);
    assert path + [] == path;
    assert GraphAt(lib, graph, []) == Some(graph);
  }

  lemma RenamedInChild(lib: Library, graph: Graph, path: seq<string>, id: string, child: Graph,
                       x: GraphNode, q: seq<string>, node: GraphNode)
    requires Child(lib, graph, id) == Some(child) && RenamedFrom(lib, child, path + [id], x, q, node)
    ensures RenamedFrom(lib, graph, path, x, [id] + q, node)
  {
    StepInto(lib, graph, path, id, child, q);
  }

  /** The nodes of the expansion are renamed leaf nodes of instances. */
  lemma {:induction false} NodesSound(lib: Library, graph: Graph, path: seq<string>, depth: nat, stack: seq<string>,
                                      x: GraphNode)
    returns (q: seq<string>, node: GraphNode)
    requires depth <= MAX_DEPTH && Clean(lib, graph, path, depth, stack)
    requires x in Expand(lib, graph, PathName(path), depth, stack).nodes
    ensures RenamedFrom(lib, graph, path, x, q, node)
    decreases MAX_DEPTH - depth
  {
    ExpandParts(lib, graph, PathName(path), depth, stack);
    var n := NodeCollectedFrom(lib, graph.nodes, PathName(path), depth, stack, x);
    if IsNested(n) {
      var child, stack' := CleanChild(lib, graph, path, depth, stack, n);
      var q', m := NodesSound(lib, child, path + [n.id], depth + 1, stack', x);
      q, node := [n.id] + q', m;
      RenamedInChild(lib, graph, path, n.id, child, x, q', m);
    } else {
      OwnLeaf(lib, graph, path, depth, stack, n, x);
      q, node := [], n;
    }
  }

  /** A leaf of an instance further in belongs to one of the patch's children. */
  lemma LeafInChild(lib: Library, graph: Graph, path: seq<string>, depth: nat, stack: seq<string>,
                    x: GraphNode, q: seq<string>, node: GraphNode)
    returns (n: GraphNode, child: Graph, stack': seq<string>)
    requires depth <= MAX_DEPTH && Clean(lib, graph, path, depth, stack)
    requires RenamedFrom(lib, graph, path, x, q, node) && q != []
    ensures n in graph.nodes && depth + 1 <= MAX_DEPTH && Clean(lib, child, path + [n.id], depth + 1, stack')
    ensures RenamedFrom(lib, child, path + [n.id], x, q[1..], node)
    ensures Contribution(lib, n, PathName(path), depth, stack) ==
            Expand(lib, child, PathName(path + [n.id]), depth + 1, stack')
  {
    n := FirstStep(lib, graph, path, q);
    child, stack' := CleanChild(lib, graph, path, depth, stack, n);
  }

  lemma {:induction false} NodesComplete(lib: Library, graph: Graph, path: seq<string>, depth: nat, stack: seq<string>,
                                         x: GraphNode, q: seq<string>, node: GraphNode)
    requires depth <= MAX_DEPTH && Clean(lib, graph, path, depth, stack)
    requires RenamedFrom(lib, graph, path, x, q, node)
    ensures x in Expand(lib, graph, PathName(path), depth, stack).nodes
    decreases |q|
  {
    ExpandParts(lib, graph, PathName(path), depth, stack);
    if q == [] {
      OwnLeaf(lib, graph, path, depth, stack, node, x);
      CollectedHas(lib, graph.nodes, PathName(path), depth, stack, node);
    } else {
      var n, child, stack' := LeafInChild(lib, graph, path, depth, stack, x, q, node);
      NodesComplete(lib, child, path + [n.id], depth + 1, stack', x, q[1..], node);
      CollectedHas(lib, graph.nodes, PathName(path), depth, stack, n);
    }
  }
}
