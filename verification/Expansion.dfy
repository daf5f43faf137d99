/** Inlining of subpatches: every subpatch node is replaced by the nodes and edges of the patch it
    refers to, and inlets and outlets become boundary pins. */
module Expansion {
  import opened Basics
  import opened ExpansionEdges
  import opened Namespacing

  const SUBPATCH_KIND := "object.core.subpatch"
  const SUBPATCH_SHORTHAND_KIND := "p"
  const INLET_KIND := "object.core.inlet"
  const OUTLET_KIND := "object.core.outlet"
  const PROJECT_PATCH_PREFIX := "object.project.patch."
  const MAX_DEPTH: nat := 16
  const NAME_PARAMS := ["portId", "port", "name", "id", "label"]
  const REFERENCE_PARAMS := ["patchRef", "patchId", "patch", "ref", "name", "id"]

  /** A JSON parameter: a string, a number (as printed), or anything else. */
  datatype Param = Text(text: string) | Number(printed: string) | Other

  /** `textReference` is the patch that the node's object text resolves to, if it does. */
  datatype GraphNode = GraphNode(
    id: string,
    kind: string,
    params: map<string, Param>,
    ports: seq<string>,
    textReference: Option<string>)

  datatype Graph = Graph(nodes: seq<GraphNode>, edges: seq<EdgeSpec>)

  type Library = map<string, Graph>

  datatype Diagnostic =
    | MissingRef(nodeId: string)
    | Recursion(nodeId: string, patchRef: string)
    | DepthExceeded(nodeId: string, patchRef: string)
    | MissingPatch(nodeId: string, patchRef: string)
    | MissingInlet(nodeId: string, portId: string)
    | MissingOutlet(nodeId: string, portId: string)

  datatype NodeExpansion =
    | Leaf(id: string)
    | Pin(pin: string)
    | Subpatch(inlets: map<string, string>, outlets: map<string, string>)

  /** What the expansion of a patch has accumulated. */
  datatype Expanded = Expanded(
    nodes: seq<GraphNode>,
    edges: seq<ExpansionEdge>,
    pins: set<string>,
    inlets: map<string, string>,
    outlets: map<string, string>,
    expansions: map<string, NodeExpansion>,
    diagnostics: seq<Diagnostic>)

  const NOTHING := Expanded([], [], {}, map[], map[], map[], [])

  // ---- Nodes ---------------------------------------------------------------------------------

  function StringParam(params: map<string, Param>, key: string): Option<string> {
    if key !in params then None else
      match params[key]
      case Text(text) => if text != "" then Some(text) else None
      case Number(printed) => Some(printed)
      case Other => None
  }

  /** The first of the given parameters that holds a usable string. */
  function FirstParam(params: map<string, Param>, keys: seq<string>): Option<string> {
    if keys == [] then None
    else Or(StringParam(params, keys[0]), FirstParam(params, keys[1..]))
  }

  predicate IsInlet(node: GraphNode) {
    node.kind == INLET_KIND
  }

  predicate IsOutlet(node: GraphNode) {
    node.kind == OUTLET_KIND
  }

  predicate IsSubpatch(node: GraphNode) {
    node.kind == SUBPATCH_KIND || node.kind == SUBPATCH_SHORTHAND_KIND || PROJECT_PATCH_PREFIX <= node.kind
  }

  predicate IsLeaf(node: GraphNode) {
    !IsInlet(node) && !IsOutlet(node) && !IsSubpatch(node)
  }

  /** Inlets and outlets are recognised before subpatches. */
  predicate IsNested(node: GraphNode) {
    !IsInlet(node) && !IsOutlet(node) && IsSubpatch(node)
  }

  function SubpatchRef(node: GraphNode): Option<string> {
    var byKind := if PROJECT_PATCH_PREFIX <= node.kind then Some(node.kind[|PROJECT_PATCH_PREFIX|..]) else None;
    Or(FirstParam(node.params, REFERENCE_PARAMS), Or(node.textReference, byKind))
  }

  function BoundaryKey(node: GraphNode): string {
    match FirstParam(node.params, NAME_PARAMS)
    case Some(key) => key
    case None => node.id
  }

  function BoundaryAliases(node: GraphNode): set<string> {
    {BoundaryKey(node), node.id}
    + (set key | key in NAME_PARAMS && StringParam(node.params, key).Some? :: StringParam(node.params, key).value)
    + if |node.ports| == 1 then {node.ports[0]} else {}
  }

  /** A new alias is added, and an alias that already means something else is dropped. */
  function Register(aliases: map<string, string>, names: set<string>, value: string): map<string, string> {
    map a | a in aliases.Keys + names && !(a in names && a in aliases && aliases[a] != value) ::
      if a in names then value else aliases[a]
  }

  /** Registering one more name touches that name alone. */
  lemma RegisterOne(aliases: map<string, string>, done: set<string>, alias: string, pin: string)
    requires alias !in done
    ensures
      var before := Register(aliases, done, pin);
      Register(aliases, done + {alias}, pin) ==
      if alias in before && before[alias] != pin then before - {alias} else before[alias := pin]
  {
  }

  // ---- References ------------------------------------------------------------------------------

  datatype Reference = Refused(diagnostic: Diagnostic) | Accepted(patchRef: string)

  function CheckReference(lib: Library, node: GraphNode, namespace: string, depth: nat, stack: seq<string>): Reference {
    var id := NamespacedId(namespace, node.id);
    match SubpatchRef(node)
    case None => Refused(MissingRef(id))
    case Some(patchRef) =>
      if patchRef in stack then Refused(Recursion(id, patchRef))
      else if depth + 1 > MAX_DEPTH then Refused(DepthExceeded(id, patchRef))
      else if patchRef !in lib then Refused(MissingPatch(id, patchRef))
      else Accepted(patchRef)
  }

  // ---- Expansion as a function -------------------------------------------------------------------

  function AddBoundary(e: Expanded, node: GraphNode, namespace: string, kind: BoundaryKind): Expanded {
    var pin := PinName(namespace, kind, BoundaryKey(node));
    var named := if kind.Inlet?
                 then e.(inlets := Register(e.inlets, BoundaryAliases(node), pin))
                 else e.(outlets := Register(e.outlets, BoundaryAliases(node), pin));
    named.(pins := e.pins + {pin}, expansions := e.expansions[node.id := Pin(pin)])
  }

  function AddChild(e: Expanded, node: GraphNode, child: Expanded): Expanded {
    e.(nodes := e.nodes + child.nodes,
       edges := e.edges + child.edges,
       pins := e.pins + child.pins,
       expansions := e.expansions[node.id := Subpatch(child.inlets, child.outlets)],
       diagnostics := e.diagnostics + child.diagnostics)
  }

  function AddLeaf(e: Expanded, node: GraphNode, namespace: string): Expanded {
    var id := NamespacedId(namespace, node.id);
    e.(nodes := e.nodes + [node.(id := id)], expansions := e.expansions[node.id := Leaf(id)])
  }

  function AddNode(lib: Library, e: Expanded, node: GraphNode, namespace: string, depth: nat,
                   stack: seq<string>): Expanded
    requires depth <= MAX_DEPTH
    decreases MAX_DEPTH - depth, 0
  {
    if IsInlet(node) then AddBoundary(e, node, namespace, Inlet)
    else if IsOutlet(node) then AddBoundary(e, node, namespace, Outlet)
    else if IsSubpatch(node) then
      match CheckReference(lib, node, namespace, depth, stack)
      case Refused(d) => e.(diagnostics := e.diagnostics + [d])
      case Accepted(patchRef) =>
        AddChild(e, node, Expand(lib, lib[patchRef], NamespacedId(namespace, node.id), depth + 1, stack + [patchRef]))
    else AddLeaf(e, node, namespace)
  }

  function ExpandNodes(lib: Library, nodes: seq<GraphNode>, namespace: string, depth: nat, stack: seq<string>): Expanded
    requires depth <= MAX_DEPTH
    decreases MAX_DEPTH - depth, |nodes| + 1
  {
    if nodes == [] then NOTHING else
      var n := |nodes| - 1;
      AddNode(lib, ExpandNodes(lib, nodes[..n], namespace, depth, stack), nodes[n], namespace, depth, stack)
  }

  function ResolveSource(e: PortRef, namespace: string, expansions: map<string, NodeExpansion>)
    : (Endpoint, seq<Diagnostic>)
  {
    var fallback := Node(PortRef(NamespacedId(namespace, e.nodeId), e.portId));
    if e.nodeId !in expansions then (fallback, []) else
      match expansions[e.nodeId]
      case Leaf(id) => (Node(PortRef(id, e.portId)), [])
      case Pin(pin) => (Boundary(pin), [])
      case Subpatch(_, outlets) =>
        if e.portId in outlets then (Boundary(outlets[e.portId]), [])
        else (fallback, [MissingOutlet(NamespacedId(namespace, e.nodeId), e.portId)])
  }

  function ResolveTarget(e: PortRef, namespace: string, expansions: map<string, NodeExpansion>)
    : (Endpoint, seq<Diagnostic>)
  {
    var fallback := Node(PortRef(NamespacedId(namespace, e.nodeId), e.portId));
    if e.nodeId !in expansions then (fallback, []) else
      match expansions[e.nodeId]
      case Leaf(id) => (Node(PortRef(id, e.portId)), [])
      case Pin(pin) => (Boundary(pin), [])
      case Subpatch(inlets, _) =>
        if e.portId in inlets then (Boundary(inlets[e.portId]), [])
        else (fallback, [MissingInlet(NamespacedId(namespace, e.nodeId), e.portId)])
  }

  function AddEdge(e: Expanded, edge: EdgeSpec, namespace: string): Expanded {
    var source := ResolveSource(edge.source, namespace, e.expansions);
    var target := ResolveTarget(edge.target, namespace, e.expansions);
    e.(edges := e.edges + [ExpansionEdge(edge.(id := NamespacedId(namespace, edge.id)), source.0, target.0)],
       diagnostics := e.diagnostics + source.1 + target.1)
  }

  function AddEdges(e: Expanded, edges: seq<EdgeSpec>, namespace: string): Expanded {
    if edges == [] then e
    else AddEdge(AddEdges(e, edges[..|edges| - 1], namespace), edges[|edges| - 1], namespace)
  }

  function Expand(lib: Library, graph: Graph, namespace: string, depth: nat, stack: seq<string>): Expanded
    requires depth <= MAX_DEPTH
    decreases MAX_DEPTH - depth, |graph.nodes| + 2
  {
    AddEdges(ExpandNodes(lib, graph.nodes, namespace, depth, stack), graph.edges, namespace)
  }

  // ---- Expansion as the program does it ------------------------------------------------------------

  /** Registers one inlet or outlet node, updating its alias table name by name. */
  method RegisterBoundaryNode(node: GraphNode, namespace: string, kind: BoundaryKind,
                              pins: set<string>, aliases: map<string, string>)
    returns (pin: string, pins': set<string>, aliases': map<string, string>)
    ensures pin == PinName(namespace, kind, BoundaryKey(node)) && pins' == pins + {pin}
    ensures aliases' == Register(aliases, BoundaryAliases(node), pin)
  {
    pin := PinName(namespace, kind, BoundaryKey(node));
    pins' := pins + {pin};
    aliases' := aliases;
    var names := BoundaryAliases(node);
    ghost var done: set<string> := {};
    while names != {}
      invariant done !! names && done + names == BoundaryAliases(node)
      invariant aliases' == Register(aliases, done, pin)
      decreases names
    {
      var alias :| alias in names;
      RegisterOne(aliases, done, alias, pin);
      if alias in aliases' && aliases'[alias] != pin {
        aliases' := aliases' - {alias};
      } else if alias !in aliases' {
        aliases' := aliases'[alias := pin];
      }
      names := names - {alias};
      done := done + {alias};
    }
    assert done == BoundaryAliases(node);
  }

  /** Expands one node into what has been accumulated so far. */
  method ExpandNode(lib: Library, e: Expanded, node: GraphNode, namespace: string, depth: nat, stack: seq<string>)
    returns (e': Expanded)
    requires depth <= MAX_DEPTH
    ensures e' == AddNode(lib, e, node, namespace, depth, stack)
    decreases MAX_DEPTH - depth, 0
  {
    e' := e;
    if IsInlet(node) {
      var pin, pins, inlets := RegisterBoundaryNode(node, namespace, Inlet, e.pins, e.inlets);
      e' := e.(pins := pins, inlets := inlets, expansions := e.expansions[node.id := Pin(pin)]);
    } else if IsOutlet(node) {
      var pin, pins, outlets := RegisterBoundaryNode(node, namespace, Outlet, e.pins, e.outlets);
      e' := e.(pins := pins, outlets := outlets, expansions := e.expansions[node.id := Pin(pin)]);
    } else if IsSubpatch(node) {
      match CheckReference(lib, node, namespace, depth, stack) {
        case Refused(d) =>
          e' := e.(diagnostics := e.diagnostics + [d]);
        case Accepted(patchRef) =>
          var child := ExpandGraph(lib, lib[patchRef], NamespacedId(namespace, node.id), depth + 1, stack + [patchRef]);
          e' := AddChild(e, node, child);
      }
    } else {
      e' := AddLeaf(e, node, namespace);
    }
  }

  /** Inlines the subpatches of one patch, visiting its nodes and then its edges in order. */
  method ExpandGraph(lib: Library, graph: Graph, namespace: string, depth: nat, stack: seq<string>)
    returns (e: Expanded)
    requires depth <= MAX_DEPTH
    ensures e == Expand(lib, graph, namespace, depth, stack)
    decreases MAX_DEPTH - depth, 1
  {
    e := NOTHING;
    var k := 0;
    while k < |graph.nodes|
      invariant 0 <= k <= |graph.nodes|
      invariant e == ExpandNodes(lib, graph.nodes[..k], namespace, depth, stack)
    {
      assert graph.nodes[..k + 1][..k] == graph.nodes[..k];
      e := ExpandNode(lib, e, graph.nodes[k], namespace, depth, stack);
      k := k + 1;
    }
    assert graph.nodes[..k] == graph.nodes;
    ghost var nodesOnly := e;
    k := 0;
    while k < |graph.edges|
      invariant 0 <= k <= |graph.edges|
      invariant e == AddEdges(nodesOnly, graph.edges[..k], namespace)
    {
      assert graph.edges[..k + 1][..k] == graph.edges[..k];
      e := AddEdge(e, graph.edges[k], namespace);
      k := k + 1;
    }
    assert graph.edges[..k] == graph.edges;
  }
}
