/** A project that wires a port to itself through a subpatch. The wiring is in the nested project, but
    flattening drops it. */
module SelfWiring {
  import opened Basics
  import opened ExpansionEdges
  import opened Namespacing
  import opened Expansion
  import opened NestedMeaning
  import opened Flattening
  import opened FlatMeaning
  import Contraction

  const PLAIN := Attributes(None, None, None, None, None, None, None, None)
  const A := GraphNode("a", "object.core.float", map[], [], None)
  const P := GraphNode("p", SUBPATCH_KIND, map["patchRef" := Param.Text("q")], [], None)
  const I := GraphNode("i", INLET_KIND, map[], [], None)
  const O := GraphNode("o", OUTLET_KIND, map[], [], None)

  const INTO := EdgeSpec("e1", PortRef("a", "x"), PortRef("p", "i"), PLAIN)
  const BACK := EdgeSpec("e2", PortRef("p", "o"), PortRef("a", "x"), PLAIN)
  const THROUGH := EdgeSpec("e3", PortRef("i", "out"), PortRef("o", "in"), PLAIN)

  /** The subpatch passes its inlet on to its outlet, and the project feeds it from `a` and back. */
  const PASS := Graph([I, O], [THROUGH])
  const LOOP := Graph([A, P], [INTO, BACK])
  const LIB: Library := map["q" := PASS]

  const PORT := LeafPort(["a"], "x")

  lemma Kinds()
    ensures IsLeaf(A) && IsNested(P) && IsInlet(I) && !IsInlet(O) && IsOutlet(O)
  {
    assert A.kind[12] == 'f' && INLET_KIND[12] == 'i' && |A.kind| != |OUTLET_KIND|;
    assert |A.kind| < |PROJECT_PATCH_PREFIX| && |P.kind| < |PROJECT_PATCH_PREFIX|;
    assert |INLET_KIND| != |OUTLET_KIND| && |SUBPATCH_KIND| != |INLET_KIND| && |SUBPATCH_KIND| != |OUTLET_KIND|;
  }

  lemma Names()
    ensures BoundaryKey(I) == "i" && BoundaryKey(O) == "o" && SubpatchRef(P) == Some("q")
  {
    NoNames(I, NAME_PARAMS);
    NoNames(O, NAME_PARAMS);
    assert FirstParam(P.params, REFERENCE_PARAMS) == Some("q");
  }

  lemma {:induction false} NoNames(n: GraphNode, keys: seq<string>)
    requires n.params == map[]
    ensures FirstParam(n.params, keys) == None
    decreases |keys|
  {
    if keys != [] {
      NoNames(n, keys[1..]);
    }
  }

  lemma Nodes()
    ensures FindNode(LOOP.nodes, "a") == Some(A) && FindNode(LOOP.nodes, "p") == Some(P)
    ensures FindNode(PASS.nodes, "i") == Some(I) && FindNode(PASS.nodes, "o") == Some(O)
    ensures Child(LIB, LOOP, "p") == Some(PASS)
  {
    assert "a"[0] != "p"[0] && "i"[0] != "o"[0];
    assert LOOP.nodes[..1] == [A] && PASS.nodes[..1] == [I];
    Kinds();
    Names();
  }

  lemma Aliases()
    ensures "i" in KeyAliases(PASS.nodes, Inlet) && KeyAliases(PASS.nodes, Inlet)["i"] == "i"
    ensures "o" in KeyAliases(PASS.nodes, Outlet) && KeyAliases(PASS.nodes, Outlet)["o"] == "o"
  {
    Kinds();
    Names();
    forall other | Claims(PASS.nodes, Inlet, "i", other)
      ensures other == "i"
    {
    }
    AliasResolves(PASS.nodes, Inlet, "i", "i");
    assert I in PASS.nodes && O in PASS.nodes;
    forall other | Claims(PASS.nodes, Outlet, "o", other)
      ensures other == "o"
    {
    }
    AliasResolves(PASS.nodes, Outlet, "o", "o");
  }

  // ---- The wires ---------------------------------------------------------------------------------------

  const IN_PIN := BoundaryPin(["p"], Inlet, "i")
  const OUT_PIN := BoundaryPin(["p"], Outlet, "o")

  lemma Wires()
    ensures Wire(LIB, LOOP, PORT, IN_PIN) && Wire(LIB, LOOP, IN_PIN, OUT_PIN) && Wire(LIB, LOOP, OUT_PIN, PORT)
  {
    Kinds();
    Names();
    Nodes();
    Aliases();
    assert GraphAt(LIB, LOOP, []) == Some(LOOP);
    assert ["p"][1..] == [];
    assert GraphAt(LIB, LOOP, ["p"]) == Some(PASS);
    assert [] + ["a"] == ["a"] && [] + ["p"] == ["p"];
    assert INTO in LOOP.edges && BACK in LOOP.edges && THROUGH in PASS.edges;
    assert WireAt(LIB, LOOP, [], INTO, PORT, IN_PIN);
    assert WireAt(LIB, LOOP, ["p"], THROUGH, IN_PIN, OUT_PIN);
    assert WireAt(LIB, LOOP, [], BACK, OUT_PIN, PORT);
  }

  lemma {:induction false} OnlyPatches(graph: Graph, path: seq<string>)
    requires graph == LOOP || graph == PASS
    requires GraphAt(LIB, graph, path).Some?
    ensures GraphAt(LIB, graph, path).value == LOOP || GraphAt(LIB, graph, path).value == PASS
    decreases |path|
  {
    if path != [] {
      OnlyPatches(Child(LIB, graph, path[0]).value, path[1..]);
    }
  }

  lemma NotDirect()
    ensures !Wire(LIB, LOOP, PORT, PORT)
  {
    forall path, wire
      ensures !WireAt(LIB, LOOP, path, wire, PORT, PORT)
    {
      if WireAt(LIB, LOOP, path, wire, PORT, PORT) {
        NotDirectAt(path, wire);
      }
    }
  }

  lemma NotDirectAt(path: seq<string>, wire: EdgeSpec)
    requires GraphAt(LIB, LOOP, path).Some? && wire in GraphAt(LIB, LOOP, path).value.edges
    ensures
      var graph := GraphAt(LIB, LOOP, path).value;
      PlaceOf(LIB, graph, path, wire.source, Outlet).BoundaryPin?
          || PlaceOf(LIB, graph, path, wire.target, Inlet).BoundaryPin?
  {
    OnlyPatches(LOOP, path);
    Kinds();
    Nodes();
    Aliases();
  }

  // ---- The expansion -----------------------------------------------------------------------------------

  lemma PassIsClean(namespace: string)
    ensures Expand(LIB, PASS, namespace, 1, ["q"]).diagnostics == []
  {
    Kinds();
    Nodes();
    var m := ExpandNodes(LIB, PASS.nodes, namespace, 1, ["q"]).expansions;
    forall n | n in PASS.nodes
      ensures ChildFine(LIB, n, namespace, 1, ["q"])
    {
      assert n == I || n == O;
    }
    ExpansionsOf(LIB, PASS.nodes, namespace, 1, ["q"], "i");
    ExpansionsOf(LIB, PASS.nodes, namespace, 1, ["q"], "o");
    assert m["i"].Pin? && m["o"].Pin?;
    assert Resolves(THROUGH, namespace, m);
    ExpandParts(LIB, PASS, namespace, 1, ["q"]);
  }

  lemma PassIsInlined()
    ensures var c := Contribution(LIB, P, "", 0, []);
            c.diagnostics == [] && "i" in c.inlets && "o" in c.outlets
  {
    Kinds();
    Names();
    Aliases();
    assert [] + ["q"] == ["q"];
    var namespace := NamespacedId("", "p");
    PassIsClean(namespace);
    ExpandTable(LIB, PASS, namespace, 1, ["q"], Inlet);
    ExpandTable(LIB, PASS, namespace, 1, ["q"], Outlet);
    assert Contribution(LIB, P, "", 0, []) == Expand(LIB, PASS, namespace, 1, ["q"]);
  }

  lemma LoopNodes()
    ensures forall n :: n in LOOP.nodes ==> ChildFine(LIB, n, "", 0, [])
  {
    Kinds();
    PassIsInlined();
    forall n | n in LOOP.nodes
      ensures ChildFine(LIB, n, "", 0, [])
    {
      assert n == A || n == P;
    }
  }

  lemma LoopEdges(m: map<string, NodeExpansion>, inlets: map<string, string>, outlets: map<string, string>, id: string)
    requires "a" in m && m["a"] == Leaf(id) && "p" in m && m["p"] == Subpatch(inlets, outlets)
    requires "i" in inlets && "o" in outlets
    ensures Resolves(INTO, "", m) && Resolves(BACK, "", m)
  {
  }

  lemma LoopIsFine()
    ensures PatchFine(LIB, LOOP, "", 0, [])
  {
    Kinds();
    Nodes();
    LoopNodes();
    PassIsInlined();
    ExpansionsOf(LIB, LOOP.nodes, "", 0, [], "a");
    ExpansionsOf(LIB, LOOP.nodes, "", 0, [], "p");
    var c := Contribution(LIB, P, "", 0, []);
    LoopEdges(ExpandNodes(LIB, LOOP.nodes, "", 0, []).expansions, c.inlets, c.outlets, NamespacedId("", "a"));
  }

  lemma LoopIsClean()
    ensures Expand(LIB, LOOP, "", 0, []).diagnostics == []
  {
    LoopIsFine();
    ExpandParts(LIB, LOOP, "", 0, []);
  }

  lemma LoopIsPlain()
    ensures PlainLibrary(LIB) && PlainGraph(LOOP) && PlainPlace(PORT)
  {
    assert "a"[0] != "p"[0] && "i"[0] != "o"[0];
  }

  lemma ThreeWires(lib: Library, root: Graph, a: Place, b: Place, c: Place, d: Place)
    requires Wire(lib, root, a, b) && Wire(lib, root, b, c) && Wire(lib, root, c, d) && b.BoundaryPin? && c.BoundaryPin?
    ensures JoinedByWires(lib, root, a, d)
  {
    var places := [a, b, c, d];
    forall k | 0 <= k < |places| - 1
      ensures Wire(lib, root, places[k], places[k + 1])
    {
      assert k == 0 || k == 1 || k == 2;
    }
    assert WireChain(lib, root, places) && places[0] == a && places[|places| - 1] == d;
  }

  lemma LoopIsWired()
    ensures JoinedByWires(LIB, LOOP, PORT, PORT)
  {
    Wires();
    ThreeWires(LIB, LOOP, PORT, IN_PIN, OUT_PIN, PORT);
  }

  /** The nested project joins the port to itself, without a wire that does so directly; the project is
      accepted; and whatever the order of elimination, the flat graph has no edge from the port to
      itself. */
  lemma SelfWiringIsDropped(picks: seq<string>)
    requires CompleteFor(LIB, LOOP, picks)
    ensures Expand(LIB, LOOP, "", 0, []).diagnostics == []
    ensures JoinedByWires(LIB, LOOP, PORT, PORT) && !Wire(LIB, LOOP, PORT, PORT)
    ensures !Contraction.Links(FlatEdges(LIB, LOOP, picks), Encode(PORT).port, Encode(PORT).port)
  {
    LoopIsClean();
    LoopIsPlain();
    LoopIsWired();
    NotDirect();
    FlatLoops(LIB, LOOP, picks, PORT);
  }
}
