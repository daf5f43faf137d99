/** By which names the inlets and outlets of a patch can be wired, and so which projects are accepted. */
module BoundaryNames {
  import opened Basics
  import opened ExpansionEdges
  import opened Namespacing
  import opened Expansion
  import opened NestedMeaning
  import opened Flattening
  import opened References

  // ---- Names in parameters ----------------------------------------------------------------------------

  /** A parameter holds a text: a string that is not empty, or a number as it is printed. */
  ghost predicate Holds(params: map<string, Param>, key: string, text: string) {
    key in params && ((params[key] == Text(text) && text != "") || params[key] == Number(text))
  }

  ghost predicate HoldsNothing(params: map<string, Param>, key: string) {
    forall text :: !Holds(params, key, text)
  }

  /** The first of the parameters that holds a text holds this one. */
  ghost predicate FirstHolds(params: map<string, Param>, keys: seq<string>, text: string) {
    exists k ::
      0 <= k < |keys| && Holds(params, keys[k], text) && forall j :: 0 <= j < k ==> HoldsNothing(params, keys[j])
  }

  lemma ParamIsHeld(params: map<string, Param>, key: string)
    ensures StringParam(params, key).Some? ==> Holds(params, key, StringParam(params, key).value)
    ensures StringParam(params, key).None? ==> HoldsNothing(params, key)
    ensures forall text :: Holds(params, key, text) ==> StringParam(params, key) == Some(text)
  {
  }

  lemma {:induction false} FirstIsHeld(params: map<string, Param>, keys: seq<string>)
    ensures FirstParam(params, keys).Some? ==> FirstHolds(params, keys, FirstParam(params, keys).value)
    ensures FirstParam(params, keys).None? ==> forall k :: 0 <= k < |keys| ==> HoldsNothing(params, keys[k])
    decreases |keys|
  {
    if keys != [] {
      ParamIsHeld(params, keys[0]);
      var rest := keys[1..];
      FirstIsHeld(params, rest);
      if StringParam(params, keys[0]).None? && FirstParam(params, rest).Some? {
        var text := FirstParam(params, rest).value;
        var k :| 0 <= k < |rest| && Holds(params, rest[k], text)
                 && forall j :: 0 <= j < k ==> HoldsNothing(params, rest[j]);
        assert keys[k + 1] == rest[k];
        forall j | 0 <= j < k + 1 ensures HoldsNothing(params, keys[j]) {
          if j > 0 { assert keys[j] == rest[j - 1]; }
        }
      }
    }
  }

  // ---- The name of a reference ------------------------------------------------------------------------

  /** The patch that a subpatch node stands for: the first usable parameter, else what its object text
      resolves to, else what follows the prefix in its kind. */
  lemma ReferenceIsFirstName(node: GraphNode)
    ensures
      var keys := ["patchRef", "patchId", "patch", "ref", "name", "id"];
      if exists k :: 0 <= k < |keys| && !HoldsNothing(node.params, keys[k])
      then SubpatchRef(node).Some? && FirstHolds(node.params, keys, SubpatchRef(node).value)
      else if node.textReference.Some? then SubpatchRef(node) == node.textReference
      else if "object.project.patch." <= node.kind
      then SubpatchRef(node).Some? && node.kind == "object.project.patch." + SubpatchRef(node).value
      else SubpatchRef(node) == None
  {
    FirstIsHeld(node.params, ["patchRef", "patchId", "patch", "ref", "name", "id"]);
  }

  /** Which nodes stand for patches, inlets and outlets. */
  lemma KindsByName(node: GraphNode)
    ensures IsInlet(node) <==> node.kind == "object.core.inlet"
    ensures IsOutlet(node) <==> node.kind == "object.core.outlet"
    ensures IsNested(node) <==>
            node.kind == "object.core.subpatch" || node.kind == "p" || "object.project.patch." <= node.kind
  {
    assert |"object.core.inlet"| == 17 && |"object.core.outlet"| == 18 && |"object.core.subpatch"| == 20;
    assert "object.core.inlet"[7] == "object.core.outlet"[7] == 'c' && "object.project.patch."[7] == 'p';
  }

  /** Why a reference is refused, in the order in which it is checked. */
  lemma RefusedFor(lib: Library, node: GraphNode, namespace: string, depth: nat, stack: seq<string>)
    ensures
      var id := if namespace == "" then node.id else namespace + "::" + node.id;
      CheckReference(lib, node, namespace, depth, stack) ==
      if SubpatchRef(node).None? then Refused(MissingRef(id))
      else
        var r := SubpatchRef(node).value;
        if r in stack then Refused(Recursion(id, r))
        else if depth >= 16 then Refused(DepthExceeded(id, r))
        else if r !in lib then Refused(MissingPatch(id, r))
        else Accepted(r)
  {
  }

  /** How instances and their pins are named. */
  lemma PinsByName(namespace: string, kind: BoundaryKind, key: string)
    ensures
      var prefix := if namespace == "" then "" else namespace + "::";
      && NamespacedId(namespace, key) == prefix + key
      && PinName(namespace, kind, key) == prefix + (if kind.Inlet? then "@inlet::" else "@outlet::") + key
  {
  }

  // ---- The names of a boundary ------------------------------------------------------------------------

  /** The node can be wired by the name: it is its id, or one of its names, or that of its only port. */
  ghost predicate Answers(node: GraphNode, name: string) {
    || name == node.id
    || Holds(node.params, "portId", name) || Holds(node.params, "port", name) || Holds(node.params, "name", name)
    || Holds(node.params, "id", name) || Holds(node.params, "label", name)
    || node.ports == [name]
  }

  /** The key of a boundary is the first of its names, else its id. */
  lemma KeyIsFirstName(node: GraphNode)
    ensures
      var keys := ["portId", "port", "name", "id", "label"];
      if exists k :: 0 <= k < |keys| && !HoldsNothing(node.params, keys[k])
      then FirstHolds(node.params, keys, BoundaryKey(node))
      else BoundaryKey(node) == node.id
  {
    FirstIsHeld(node.params, ["portId", "port", "name", "id", "label"]);
  }

  lemma AliasesAreAnswers(node: GraphNode, name: string)
    ensures name in BoundaryAliases(node) <==> Answers(node, name)
  {
    var keys := ["portId", "port", "name", "id", "label"];
    assert NAME_PARAMS == keys;
    forall key ensures Holds(node.params, key, name) <==> StringParam(node.params, key) == Some(name) {
      ParamIsHeld(node.params, key);
    }
    FirstIsHeld(node.params, keys);
    assert keys[0] == "portId" && keys[1] == "port" && keys[2] == "name" && keys[3] == "id" && keys[4] == "label";
    if Answers(node, name) && name != node.id && node.ports != [name] {
      var key :| key in keys && Holds(node.params, key, name);
      assert StringParam(node.params, key).Some?;
    }
  }

  ghost predicate HasBoundaryKind(node: GraphNode, side: BoundaryKind) {
    node.kind == if side.Inlet? then "object.core.inlet" else "object.core.outlet"
  }

  lemma ClaimsByAnswer(node: GraphNode, side: BoundaryKind, name: string)
    ensures ClaimsName(node, side, name) <==> HasBoundaryKind(node, side) && Answers(node, name)
  {
    AliasesAreAnswers(node, name);
    KindsByName(node);
  }

  /** Of all inlets, or all outlets, of a patch only this one answers to the name. */
  ghost predicate OnlyAnswer(nodes: seq<GraphNode>, side: BoundaryKind, name: string, i: GraphNode) {
    && i in nodes && HasBoundaryKind(i, side) && Answers(i, name)
    && forall n :: n in nodes && HasBoundaryKind(n, side) && Answers(n, name) ==> n == i
  }

  ghost predicate NoAnswer(nodes: seq<GraphNode>, side: BoundaryKind, name: string) {
    forall n :: n in nodes && HasBoundaryKind(n, side) ==> !Answers(n, name)
  }

  lemma AnswersAreClaims(nodes: seq<GraphNode>, side: BoundaryKind, name: string, key: string)
    ensures Claims(nodes, side, name, key) <==>
            exists n :: n in nodes && HasBoundaryKind(n, side) && Answers(n, name) && BoundaryKey(n) == key
  {
    forall n | n in nodes ensures ClaimsName(n, side, name) <==> HasBoundaryKind(n, side) && Answers(n, name) {
      ClaimsByAnswer(n, side, name);
    }
    if Claims(nodes, side, name, key) {
      var n :| n in nodes && HasKind(n, side) && name in BoundaryAliases(n) && BoundaryKey(n) == key;
      assert ClaimsName(n, side, name);
    }
    if n :| n in nodes && HasBoundaryKind(n, side) && Answers(n, name) && BoundaryKey(n) == key {
      assert ClaimsName(n, side, name);
    }
  }

  /** A name that one boundary alone answers to denotes it, and a name that none answers to denotes none. */
  lemma NamesResolve(nodes: seq<GraphNode>, side: BoundaryKind, name: string)
    ensures forall i :: OnlyAnswer(nodes, side, name, i) ==>
              name in KeyAliases(nodes, side) && KeyAliases(nodes, side)[name] == BoundaryKey(i)
    ensures NoAnswer(nodes, side, name) ==> name !in KeyAliases(nodes, side)
  {
    forall i | OnlyAnswer(nodes, side, name, i)
      ensures name in KeyAliases(nodes, side) && KeyAliases(nodes, side)[name] == BoundaryKey(i)
    {
      forall key ensures Claims(nodes, side, name, key) <==> key == BoundaryKey(i) {
        AnswersAreClaims(nodes, side, name, key);
      }
      AliasResolves(nodes, side, name, BoundaryKey(i));
    }
    if NoAnswer(nodes, side, name) && name in KeyAliases(nodes, side) {
      AliasIsClaimed(nodes, side, name);
      AnswersAreClaims(nodes, side, name, KeyAliases(nodes, side)[name]);
    }
  }

  /** A wire to an instance by a name that one inlet alone answers to ends where the wires of that inlet
      begin inside; likewise for outlets. */
  lemma WireReachesBoundary(lib: Library, graph: Graph, path: seq<string>, id: string, child: Graph, name: string,
                            side: BoundaryKind, i: GraphNode, inner: string)
    requires Child(lib, graph, id) == Some(child) && PlainGraph(child) && OnlyAnswer(child.nodes, side, name, i)
    ensures
      var outside := PlaceOf(lib, graph, path, PortRef(id, name), side);
      && outside == PlaceOf(lib, child, path + [id], PortRef(i.id, inner), if side.Inlet? then Outlet else Inlet)
      && outside.BoundaryPin? && outside.instance == path + [id] && outside.kind == side
  {
    NamesResolve(child.nodes, side, name);
    FindDistinct(child.nodes, i);
    KindsByName(i);
  }

  // ---- What the expansion reports -----------------------------------------------------------------------

  ghost function MissingEnd(id: string, name: string, side: BoundaryKind): Diagnostic {
    if side.Inlet? then MissingInlet(id, name) else MissingOutlet(id, name)
  }

  /** No subpatch node of the patch was refused, and nothing was reported inside. */
  ghost predicate AllFine(lib: Library, graph: Graph, path: seq<string>, depth: nat, stack: seq<string>)
    requires depth <= MAX_DEPTH
  {
    forall m :: m in graph.nodes ==> ChildFine(lib, m, PathName(path), depth, stack)
  }

  ghost predicate InstanceOf(lib: Library, graph: Graph, n: GraphNode, child: Graph) {
    n in graph.nodes && IsNested(n) && Child(lib, graph, n.id) == Some(child)
  }

  /** An end on a subpatch node is looked up in the table of its side. */
  lemma LookUp(end: PortRef, namespace: string, m: map<string, NodeExpansion>, side: BoundaryKind)
    requires end.nodeId in m && m[end.nodeId].Subpatch?
    ensures
      var table := if side.Inlet? then m[end.nodeId].inlets else m[end.nodeId].outlets;
      Resolve(end, namespace, m, side) ==
      if end.portId in table then (Boundary(table[end.portId]), [])
      else (Node(PortRef(NamespacedId(namespace, end.nodeId), end.portId)),
            [MissingEnd(NamespacedId(namespace, end.nodeId), end.portId, side)])
  {
  }

  /** The names that an end of a wire on an instance may have, if it is on one. */
  ghost predicate Unnamed(e: Expanded, end: PortRef, side: BoundaryKind) {
    && end.nodeId in e.expansions && e.expansions[end.nodeId].Subpatch?
    && end.portId !in (if side.Inlet? then e.expansions[end.nodeId].inlets else e.expansions[end.nodeId].outlets)
  }

  /** A wire is added as it is; what is reported is first its missing outlet and then its missing inlet. */
  lemma EndsReported(e: Expanded, wire: EdgeSpec, namespace: string)
    ensures
      var after := AddEdge(e, wire, namespace);
      var outlet := MissingOutlet(NamespacedId(namespace, wire.source.nodeId), wire.source.portId);
      var inlet := MissingInlet(NamespacedId(namespace, wire.target.nodeId), wire.target.portId);
      && after.diagnostics == e.diagnostics + (if Unnamed(e, wire.source, Outlet) then [outlet] else [])
                                            + (if Unnamed(e, wire.target, Inlet) then [inlet] else [])
      && after.nodes == e.nodes && |after.edges| == |e.edges| + 1 && e.edges <= after.edges
  {
  }

  lemma ChildTables(lib: Library, child: Graph, path: seq<string>, depth: nat, stack: seq<string>)
    requires depth <= MAX_DEPTH
    ensures var e := Expand(lib, child, PathName(path), depth, stack);
            && e.inlets == NamePins(KeyAliases(child.nodes, Inlet), PathName(path), Inlet)
            && e.outlets == NamePins(KeyAliases(child.nodes, Outlet), PathName(path), Outlet)
  {
    ExpandTable(lib, child, PathName(path), depth, stack, Inlet);
    ExpandTable(lib, child, PathName(path), depth, stack, Outlet);
  }

  lemma InstanceRemembered(lib: Library, graph: Graph, path: seq<string>, depth: nat, stack: seq<string>, n: GraphNode)
    requires depth <= MAX_DEPTH && PlainGraph(graph) && n in graph.nodes && IsNested(n)
    requires AllFine(lib, graph, path, depth, stack)
    ensures
      var m := ExpandNodes(lib, graph.nodes, PathName(path), depth, stack).expansions;
      var c := Contribution(lib, n, PathName(path), depth, stack);
      n.id in m && m[n.id] == Subpatch(c.inlets, c.outlets)
  {
    FindDistinct(graph.nodes, n);
    ExpansionsOf(lib, graph.nodes, PathName(path), depth, stack, n.id);
  }

  /** The expansion remembers the usable names of an accepted subpatch node. */
  lemma InstanceTables(lib: Library, graph: Graph, path: seq<string>, depth: nat, stack: seq<string>, n: GraphNode,
                       child: Graph)
    requires depth <= MAX_DEPTH && PlainGraph(graph) && InstanceOf(lib, graph, n, child)
    requires AllFine(lib, graph, path, depth, stack)
    ensures
      var m := ExpandNodes(lib, graph.nodes, PathName(path), depth, stack).expansions;
      n.id in m && m[n.id] == Subpatch(NamePins(KeyAliases(child.nodes, Inlet), PathName(path + [n.id]), Inlet),
                                       NamePins(KeyAliases(child.nodes, Outlet), PathName(path + [n.id]), Outlet))
  {
    FindDistinct(graph.nodes, n);
    assert ChildFine(lib, n, PathName(path), depth, stack);
    var child', stack' := IntoChild(lib, graph, path, depth, stack, n.id);
    ChildTables(lib, child, path + [n.id], depth + 1, stack');
    InstanceRemembered(lib, graph, path, depth, stack, n);
  }

  /** How an end on an accepted subpatch node is resolved: exactly the usable names are found. */
  lemma EndOnInstance(lib: Library, graph: Graph, path: seq<string>, depth: nat, stack: seq<string>, n: GraphNode,
                      child: Graph, name: string, side: BoundaryKind)
    requires depth <= MAX_DEPTH && PlainGraph(graph) && InstanceOf(lib, graph, n, child)
    requires AllFine(lib, graph, path, depth, stack)
    ensures
      var m := ExpandNodes(lib, graph.nodes, PathName(path), depth, stack).expansions;
      var r := Resolve(PortRef(n.id, name), PathName(path), m, side);
      if name in KeyAliases(child.nodes, side)
      then r == (Boundary(PinName(PathName(path + [n.id]), side, KeyAliases(child.nodes, side)[name])), [])
      else r.1 == [MissingEnd(PathName(path + [n.id]), name, side)]
  {
    InstanceTables(lib, graph, path, depth, stack, n, child);
    LookUp(PortRef(n.id, name), PathName(path), ExpandNodes(lib, graph.nodes, PathName(path), depth, stack).expansions,
           side);
    PathNameNext(path, n.id);
  }

  /** The pin of an inlet or outlet node. */
  lemma PinOfNode(lib: Library, graph: Graph, path: seq<string>, depth: nat, stack: seq<string>, i: GraphNode,
                  side: BoundaryKind)
    requires depth <= MAX_DEPTH && PlainGraph(graph) && AllFine(lib, graph, path, depth, stack)
    requires i in graph.nodes && HasBoundaryKind(i, side)
    ensures
      var m := ExpandNodes(lib, graph.nodes, PathName(path), depth, stack).expansions;
      i.id in m && m[i.id] == Pin(PinName(PathName(path), side, BoundaryKey(i)))
  {
    FindDistinct(graph.nodes, i);
    ExpansionsOf(lib, graph.nodes, PathName(path), depth, stack, i.id);
    KindsByName(i);
  }

  /** A wire drawn to an instance by the name of one inlet alone, or from it by that of one outlet alone,
      yields no diagnostic and is inlined to the very pin at which the wires of that node are inlined. */
  lemma AnsweredWireIsInlined(lib: Library, graph: Graph, path: seq<string>, depth: nat, stack: seq<string>,
                              n: GraphNode, child: Graph, stack': seq<string>, name: string, side: BoundaryKind,
                              i: GraphNode)
    requires depth + 1 <= MAX_DEPTH && PlainGraph(graph) && PlainGraph(child) && InstanceOf(lib, graph, n, child)
    requires AllFine(lib, graph, path, depth, stack) && AllFine(lib, child, path + [n.id], depth + 1, stack')
    requires OnlyAnswer(child.nodes, side, name, i)
    ensures
      var outer := ExpandNodes(lib, graph.nodes, PathName(path), depth, stack).expansions;
      var inner := ExpandNodes(lib, child.nodes, PathName(path + [n.id]), depth + 1, stack').expansions;
      && i.id in inner && inner[i.id].Pin?
      && Resolve(PortRef(n.id, name), PathName(path), outer, side) == (Boundary(inner[i.id].pin), [])
  {
    NamesResolve(child.nodes, side, name);
    EndOnInstance(lib, graph, path, depth, stack, n, child, name, side);
    PinOfNode(lib, child, path + [n.id], depth + 1, stack', i, side);
  }

  /** A wire to or from an instance by a name that no inlet, or no outlet, answers to is reported. */
  lemma UnansweredWireIsReported(lib: Library, graph: Graph, path: seq<string>, depth: nat, stack: seq<string>,
                                 n: GraphNode, child: Graph, wire: EdgeSpec, side: BoundaryKind)
    requires depth <= MAX_DEPTH && PlainGraph(graph) && InstanceOf(lib, graph, n, child) && wire in graph.edges
    requires AllFine(lib, graph, path, depth, stack)
    requires (if side.Inlet? then wire.target else wire.source).nodeId == n.id
    requires NoAnswer(child.nodes, side, (if side.Inlet? then wire.target else wire.source).portId)
    ensures
      var end := if side.Inlet? then wire.target else wire.source;
      MissingEnd(PathName(path + [n.id]), end.portId, side)
      in Expand(lib, graph, PathName(path), depth, stack).diagnostics
  {
    var end := if side.Inlet? then wire.target else wire.source;
    NamesResolve(child.nodes, side, end.portId);
    EndOnInstance(lib, graph, path, depth, stack, n, child, end.portId, side);
    var e := ExpandNodes(lib, graph.nodes, PathName(path), depth, stack);
    var k :| 0 <= k < |graph.edges| && graph.edges[k] == wire;
    EndIsReported(e, graph.edges, PathName(path), k, side);
  }

  lemma {:induction false} EndIsReported(e: Expanded, edges: seq<EdgeSpec>, namespace: string, k: nat,
                                         side: BoundaryKind)
    requires k < |edges|
    ensures
      var end := if side.Inlet? then edges[k].target else edges[k].source;
      forall d :: d in Resolve(end, namespace, e.expansions, side).1 ==> d in AddEdges(e, edges, namespace).diagnostics
    decreases |edges|
  {
    var n := |edges| - 1;
    AddEdgesShape(e, edges[..n], namespace);
    if k < n {
      EndIsReported(e, edges[..n], namespace, k, side);
    }
  }

  // ---- Which projects are accepted --------------------------------------------------------------------------

  /** An end that is not on a subpatch node, or names one of its usable boundaries. */
  ghost predicate EndKnown(lib: Library, graph: Graph, end: PortRef, side: BoundaryKind) {
    forall n, child :: InstanceOf(lib, graph, n, child) && n.id == end.nodeId ==>
      end.portId in KeyAliases(child.nodes, side)
  }

  ghost predicate WiresKnown(lib: Library, graph: Graph) {
    forall wire :: wire in graph.edges ==>
      EndKnown(lib, graph, wire.source, Outlet) && EndKnown(lib, graph, wire.target, Inlet)
  }

  lemma NotInstance(lib: Library, graph: Graph, path: seq<string>, depth: nat, stack: seq<string>, end: PortRef,
                    side: BoundaryKind)
    requires depth <= MAX_DEPTH && AllFine(lib, graph, path, depth, stack)
    requires FindNode(graph.nodes, end.nodeId).Some? ==> !IsNested(FindNode(graph.nodes, end.nodeId).value)
    ensures var m := ExpandNodes(lib, graph.nodes, PathName(path), depth, stack).expansions;
            Resolve(end, PathName(path), m, side).1 == []
  {
    ExpansionsOf(lib, graph.nodes, PathName(path), depth, stack, end.nodeId);
  }

  lemma EndResolves(lib: Library, graph: Graph, path: seq<string>, depth: nat, stack: seq<string>, end: PortRef,
                    side: BoundaryKind)
    requires depth <= MAX_DEPTH && PlainGraph(graph) && AllFine(lib, graph, path, depth, stack)
    ensures var m := ExpandNodes(lib, graph.nodes, PathName(path), depth, stack).expansions;
            Resolve(end, PathName(path), m, side).1 == [] <==> EndKnown(lib, graph, end, side)
  {
    var found := FindNode(graph.nodes, end.nodeId);
    forall n | n in graph.nodes && n.id == end.nodeId ensures found == Some(n) {
      FindDistinct(graph.nodes, n);
    }
    if found.Some? && IsNested(found.value) {
      assert ChildFine(lib, found.value, PathName(path), depth, stack);
      var child, _ := IntoChild(lib, graph, path, depth, stack, end.nodeId);
      assert InstanceOf(lib, graph, found.value, child);
      EndOnInstance(lib, graph, path, depth, stack, found.value, child, end.portId, side);
    } else {
      NotInstance(lib, graph, path, depth, stack, end, side);
    }
  }

  /** A patch whose subpatches are fine is accepted exactly when its wires name usable boundaries. */
  lemma PatchAccepted(lib: Library, graph: Graph, path: seq<string>, depth: nat, stack: seq<string>)
    requires depth <= MAX_DEPTH && PlainGraph(graph)
    ensures Expand(lib, graph, PathName(path), depth, stack).diagnostics == [] <==>
            AllFine(lib, graph, path, depth, stack) && WiresKnown(lib, graph)
  {
    ExpandParts(lib, graph, PathName(path), depth, stack);
    if AllFine(lib, graph, path, depth, stack) {
      var m := ExpandNodes(lib, graph.nodes, PathName(path), depth, stack).expansions;
      forall wire | wire in graph.edges
        ensures Resolves(wire, PathName(path), m) <==>
                EndKnown(lib, graph, wire.source, Outlet) && EndKnown(lib, graph, wire.target, Inlet)
      {
        EndResolves(lib, graph, path, depth, stack, wire.source, Outlet);
        EndResolves(lib, graph, path, depth, stack, wire.target, Inlet);
      }
      EachInRange(lib, graph, PathName(path), m);
    }
  }

  lemma EachInRange(lib: Library, graph: Graph, namespace: string, m: map<string, NodeExpansion>)
    requires forall wire :: wire in graph.edges ==>
               (Resolves(wire, namespace, m) <==>
                EndKnown(lib, graph, wire.source, Outlet) && EndKnown(lib, graph, wire.target, Inlet))
    ensures (forall k :: 0 <= k < |graph.edges| ==> Resolves(graph.edges[k], namespace, m)) <==> WiresKnown(lib, graph)
  {
    if WiresKnown(lib, graph) {
      forall k | 0 <= k < |graph.edges| ensures Resolves(graph.edges[k], namespace, m) {
        assert graph.edges[k] in graph.edges;
      }
    }
    if forall k :: 0 <= k < |graph.edges| ==> Resolves(graph.edges[k], namespace, m) {
      forall wire | wire in graph.edges
        ensures EndKnown(lib, graph, wire.source, Outlet) && EndKnown(lib, graph, wire.target, Inlet)
      {
        var k :| 0 <= k < |graph.edges| && graph.edges[k] == wire;
      }
    }
  }

  /** Every wire of every instance names usable boundaries. */
  ghost predicate AllWiresKnown(lib: Library, graph: Graph) {
    forall q :: GraphAt(lib, graph, q).Some? ==> WiresKnown(lib, GraphAt(lib, graph, q).value)
  }

  lemma {:induction false} AcceptedFrom(lib: Library, graph: Graph, path: seq<string>, depth: nat, stack: seq<string>)
    requires depth <= MAX_DEPTH && PlainLibrary(lib) && PlainGraph(graph)
    requires NoReferenceDiagnostic(Expand(lib, graph, PathName(path), depth, stack).diagnostics)
    ensures Expand(lib, graph, PathName(path), depth, stack).diagnostics == [] <==> AllWiresKnown(lib, graph)
    decreases MAX_DEPTH - depth
  {
    PatchAccepted(lib, graph, path, depth, stack);
    EdgesReportNoReferences(ExpandNodes(lib, graph.nodes, PathName(path), depth, stack), graph.edges, PathName(path));
    NodesAccepted(lib, graph.nodes, PathName(path), depth, stack);
    if AllWiresKnown(lib, graph) {
      assert GraphAt(lib, graph, []) == Some(graph);
      forall n | n in graph.nodes ensures ChildFine(lib, n, PathName(path), depth, stack) {
        if IsNested(n) {
          NestedFine(lib, graph, path, depth, stack, n);
        }
      }
    }
    if Expand(lib, graph, PathName(path), depth, stack).diagnostics == [] {
      forall q | GraphAt(lib, graph, q).Some? ensures WiresKnown(lib, GraphAt(lib, graph, q).value) {
        if q != [] {
          InstanceWires(lib, graph, path, depth, stack, q);
        }
      }
    }
  }

  /** The patch behind an accepted subpatch node. */
  lemma AcceptedChild(lib: Library, graph: Graph, path: seq<string>, depth: nat, stack: seq<string>, n: GraphNode)
    returns (child: Graph, stack': seq<string>)
    requires depth <= MAX_DEPTH && PlainLibrary(lib) && PlainGraph(graph) && n in graph.nodes && IsNested(n)
    requires NodeAccepted(lib, n, PathName(path), depth, stack)
    ensures depth + 1 <= MAX_DEPTH && Child(lib, graph, n.id) == Some(child) && PlainGraph(child)
    ensures Contribution(lib, n, PathName(path), depth, stack) ==
            Expand(lib, child, PathName(path + [n.id]), depth + 1, stack')
    ensures NoReferenceDiagnostic(Expand(lib, child, PathName(path + [n.id]), depth + 1, stack').diagnostics)
  {
    FindDistinct(graph.nodes, n);
    PathNameNext(path, n.id);
    RefusalIsReported(lib, n, PathName(path), depth, stack);
    var patchRef := CheckReference(lib, n, PathName(path), depth, stack).patchRef;
    child, stack' := lib[patchRef], stack + [patchRef];
  }

  lemma RefusalIsReported(lib: Library, n: GraphNode, namespace: string, depth: nat, stack: seq<string>)
    requires depth <= MAX_DEPTH && IsNested(n)
    ensures CheckReference(lib, n, namespace, depth, stack).Refused? ==> !NodeAccepted(lib, n, namespace, depth, stack)
  {
    var r := CheckReference(lib, n, namespace, depth, stack);
    if r.Refused? {
      assert r.diagnostic in Contribution(lib, n, namespace, depth, stack).diagnostics;
    }
  }

  lemma {:induction false} NestedFine(lib: Library, graph: Graph, path: seq<string>, depth: nat, stack: seq<string>,
                                      n: GraphNode)
    requires depth <= MAX_DEPTH && PlainLibrary(lib) && PlainGraph(graph) && n in graph.nodes && IsNested(n)
    requires NodeAccepted(lib, n, PathName(path), depth, stack) && AllWiresKnown(lib, graph)
    ensures ChildFine(lib, n, PathName(path), depth, stack)
    decreases MAX_DEPTH - depth, 0
  {
    var child, stack' := AcceptedChild(lib, graph, path, depth, stack, n);
    forall q | GraphAt(lib, child, q).Some? ensures WiresKnown(lib, GraphAt(lib, child, q).value) {
      StepInto(lib, graph, path, n.id, child, q);
      assert GraphAt(lib, graph, [n.id] + q).Some?;
    }
    AcceptedFrom(lib, child, path + [n.id], depth + 1, stack');
  }

  lemma {:induction false} InstanceWires(lib: Library, graph: Graph, path: seq<string>, depth: nat, stack: seq<string>,
                                         q: seq<string>)
    requires depth <= MAX_DEPTH && Clean(lib, graph, path, depth, stack) && q != [] && GraphAt(lib, graph, q).Some?
    requires NoReferenceDiagnostic(Expand(lib, graph, PathName(path), depth, stack).diagnostics)
    ensures WiresKnown(lib, GraphAt(lib, graph, q).value)
    decreases MAX_DEPTH - depth, 0
  {
    var n := FindNode(graph.nodes, q[0]).value;
    var child, stack' := CleanChild(lib, graph, path, depth, stack, n);
    assert q == [n.id] + q[1..];
    StepInto(lib, graph, path, n.id, child, q[1..]);
    AcceptedFrom(lib, child, path + [n.id], depth + 1, stack');
  }

  /** A project is accepted exactly when its references are, and every wire of every instance names
      usable boundaries. */
  lemma ProjectAcceptedExactly(lib: Library, root: Graph)
    requires PlainLibrary(lib) && PlainGraph(root)
    ensures Expand(lib, root, "", 0, []).diagnostics == [] <==>
            NoReferenceDiagnostic(Expand(lib, root, "", 0, []).diagnostics) && AllWiresKnown(lib, root)
  {
    if NoReferenceDiagnostic(Expand(lib, root, "", 0, []).diagnostics) {
      AcceptedFrom(lib, root, [], 0, []);
    }
  }
}
