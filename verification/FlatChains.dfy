/** Multiplicity and fields, end to end: the flat edges correspond one to one to the chains of wires of
    the nested graph, and carry the fields nearest the target end. */
module FlatChains {
  import opened Basics
  import opened ExpansionEdges
  import opened Namespacing
  import opened Expansion
  import opened NestedMeaning
  import opened Contraction
  import opened Flattening
  import opened FlatMeaning

  // ---- Wires of instances ----------------------------------------------------------------------------

  /** One wire of one instance, by its position in the patch. */
  datatype Occurrence = Occurrence(path: seq<string>, index: nat)

  ghost predicate Occurs(lib: Library, graph: Graph, o: Occurrence) {
    GraphAt(lib, graph, o.path).Some? && o.index < |GraphAt(lib, graph, o.path).value.edges|
  }

  ghost function WireOf(lib: Library, graph: Graph, o: Occurrence): EdgeSpec
    requires Occurs(lib, graph, o)
  {
    GraphAt(lib, graph, o.path).value.edges[o.index]
  }

  /** The place where the wire leaves. */
  ghost function From(lib: Library, root: Graph, o: Occurrence): Place
    requires Occurs(lib, root, o)
  {
    PlaceOf(lib, GraphAt(lib, root, o.path).value, o.path, WireOf(lib, root, o).source, Outlet)
  }

  /** The place where the wire arrives. */
  ghost function To(lib: Library, root: Graph, o: Occurrence): Place
    requires Occurs(lib, root, o)
  {
    PlaceOf(lib, GraphAt(lib, root, o.path).value, o.path, WireOf(lib, root, o).target, Inlet)
  }

  // ---- The expansion lists every wire once -------------------------------------------------------------

  ghost function Inlining(lib: Library, graph: Graph, path: seq<string>, o: Occurrence): ExpansionEdge
    requires Occurs(lib, graph, o)
  {
    Instance(lib, GraphAt(lib, graph, o.path).value, path + o.path, WireOf(lib, graph, o))
  }

  /** The edges are the inlined forms of the wires, one by one. */
  ghost predicate Lists(lib: Library, graph: Graph, path: seq<string>, edges: seq<ExpansionEdge>,
                        occ: seq<Occurrence>) {
    && |occ| == |edges|
    && forall k :: 0 <= k < |occ| ==> Occurs(lib, graph, occ[k]) && edges[k] == Inlining(lib, graph, path, occ[k])
  }

  lemma ListsAppend(lib: Library, graph: Graph, path: seq<string>, a: seq<ExpansionEdge>, b: seq<ExpansionEdge>,
                    occ: seq<Occurrence>, occ': seq<Occurrence>)
    requires Lists(lib, graph, path, a, occ) && Lists(lib, graph, path, b, occ')
    ensures Lists(lib, graph, path, a + b, occ + occ')
  {
  }

  lemma DistinctAppend<T(!new)>(a: seq<T>, b: seq<T>)
    requires Distinct(a) && Distinct(b) && forall x :: x in a ==> x !in b
    ensures Distinct(a + b)
  {
    var c := a + b;
    forall i, j | 0 <= i < j < |c| ensures c[i] != c[j] {
      if i < |a| <= j {
        assert c[i] in a && c[j] == b[j - |a|] && c[j] in b;
      }
    }
  }

  /** The wires of a child, seen from the patch around it. */
  ghost function Within(id: string, occ: seq<Occurrence>): (r: seq<Occurrence>)
    ensures |r| == |occ| && forall k :: 0 <= k < |r| ==> r[k] == Occurrence([id] + occ[k].path, occ[k].index)
  {
    seq(|occ|, k requires 0 <= k < |occ| => Occurrence([id] + occ[k].path, occ[k].index))
  }

  lemma OccursWithin(lib: Library, graph: Graph, path: seq<string>, id: string, child: Graph, o: Occurrence)
    requires Child(lib, graph, id) == Some(child)
    ensures var o' := Occurrence([id] + o.path, o.index);
            && (Occurs(lib, child, o) <==> Occurs(lib, graph, o'))
            && (Occurs(lib, child, o) ==> Inlining(lib, graph, path, o') == Inlining(lib, child, path + [id], o))
  {
    StepInto(lib, graph, path, id, child, o.path);
  }

  lemma WithinLists(lib: Library, graph: Graph, path: seq<string>, id: string, child: Graph,
                    edges: seq<ExpansionEdge>, occ: seq<Occurrence>)
    requires Child(lib, graph, id) == Some(child) && Lists(lib, child, path + [id], edges, occ)
    ensures Lists(lib, graph, path, edges, Within(id, occ))
  {
    forall k | 0 <= k < |occ|
      ensures Occurs(lib, graph, Within(id, occ)[k])
      ensures edges[k] == Inlining(lib, graph, path, Within(id, occ)[k])
    {
      OccursWithin(lib, graph, path, id, child, occ[k]);
    }
  }

  lemma WithinDistinct(id: string, occ: seq<Occurrence>)
    requires Distinct(occ)
    ensures Distinct(Within(id, occ))
  {
    var w := Within(id, occ);
    forall i, j | 0 <= i < j < |w| ensures w[i] != w[j] {
      assert w[i].path[1..] == occ[i].path && w[j].path[1..] == occ[j].path;
    }
  }

  /** The wire belongs to an instance under one of the first k nodes. */
  ghost predicate Under(graph: Graph, k: nat, o: Occurrence)
    requires k <= |graph.nodes|
  {
    o.path != [] && exists i :: 0 <= i < k && graph.nodes[i].id == o.path[0]
  }

  ghost predicate ListsUnder(lib: Library, graph: Graph, k: nat, occ: seq<Occurrence>)
    requires k <= |graph.nodes|
  {
    Distinct(occ) && forall o: Occurrence :: o in occ <==> Occurs(lib, graph, o) && Under(graph, k, o)
  }

  lemma NotInside(lib: Library, graph: Graph, n: GraphNode, o: Occurrence)
    requires PlainGraph(graph) && n in graph.nodes && !IsNested(n) && o.path != [] && o.path[0] == n.id
    ensures !Occurs(lib, graph, o)
  {
    FindDistinct(graph.nodes, n);
  }

  lemma UnderNext(graph: Graph, k: nat, o: Occurrence)
    requires k < |graph.nodes|
    ensures Under(graph, k + 1, o) <==> Under(graph, k, o) || (o.path != [] && o.path[0] == graph.nodes[k].id)
  {
  }

  lemma InWithin(lib: Library, graph: Graph, id: string, child: Graph, inner: seq<Occurrence>, o: Occurrence)
    requires Child(lib, graph, id) == Some(child) && forall x: Occurrence :: x in inner <==> Occurs(lib, child, x)
    ensures o in Within(id, inner) <==> Occurs(lib, graph, o) && o.path != [] && o.path[0] == id
  {
    var more := Within(id, inner);
    if o in more {
      var k :| 0 <= k < |more| && more[k] == o;
      assert inner[k] in inner;
      OccursWithin(lib, graph, [], id, child, inner[k]);
    }
    if Occurs(lib, graph, o) && o.path != [] && o.path[0] == id {
      var x := Occurrence(o.path[1..], o.index);
      assert o == Occurrence([id] + x.path, x.index);
      OccursWithin(lib, graph, [], id, child, x);
      var k :| 0 <= k < |inner| && inner[k] == x;
      assert more[k] == o;
    }
  }

  lemma WithinIsUnder(lib: Library, graph: Graph, k: nat, child: Graph, before: seq<Occurrence>,
                      inner: seq<Occurrence>)
    requires PlainGraph(graph) && k < |graph.nodes| && Child(lib, graph, graph.nodes[k].id) == Some(child)
    requires ListsUnder(lib, graph, k, before)
    requires Distinct(inner) && forall o: Occurrence :: o in inner <==> Occurs(lib, child, o)
    ensures ListsUnder(lib, graph, k + 1, before + Within(graph.nodes[k].id, inner))
  {
    var more := Within(graph.nodes[k].id, inner);
    WithinDistinct(graph.nodes[k].id, inner);
    forall o: Occurrence
      ensures o in more <==> Occurs(lib, graph, o) && o.path != [] && o.path[0] == graph.nodes[k].id
      ensures Under(graph, k + 1, o) <==> Under(graph, k, o) || (o.path != [] && o.path[0] == graph.nodes[k].id)
    {
      InWithin(lib, graph, graph.nodes[k].id, child, inner, o);
      UnderNext(graph, k, o);
    }
    DistinctAppend(before, more);
  }

  lemma NothingUnder(lib: Library, graph: Graph, k: nat, before: seq<Occurrence>)
    requires PlainGraph(graph) && k < |graph.nodes| && !IsNested(graph.nodes[k])
    requires ListsUnder(lib, graph, k, before)
    ensures ListsUnder(lib, graph, k + 1, before)
  {
    forall o: Occurrence | Occurs(lib, graph, o)
      ensures Under(graph, k + 1, o) <==> Under(graph, k, o)
    {
      UnderNext(graph, k, o);
      if o.path != [] && o.path[0] == graph.nodes[k].id {
        NotInside(lib, graph, graph.nodes[k], o);
      }
    }
    forall o: Occurrence | Under(graph, k, o) ensures Under(graph, k + 1, o) {
      UnderNext(graph, k, o);
    }
  }

  /** One more node adds its contribution to the edges collected. */
  lemma CollectNext(lib: Library, graph: Graph, path: seq<string>, depth: nat, stack: seq<string>, k: nat)
    requires depth <= MAX_DEPTH && k < |graph.nodes|
    ensures ExpandNodes(lib, graph.nodes[..k + 1], PathName(path), depth, stack).edges ==
            ExpandNodes(lib, graph.nodes[..k], PathName(path), depth, stack).edges
            + Contribution(lib, graph.nodes[k], PathName(path), depth, stack).edges
  {
    assert graph.nodes[..k + 1][..k] == graph.nodes[..k];
    AddNodeParts(lib, ExpandNodes(lib, graph.nodes[..k], PathName(path), depth, stack), graph.nodes[k], PathName(path),
                 depth, stack);
  }

  lemma CollectNested(lib: Library, graph: Graph, path: seq<string>, k: nat, child: Graph,
                      edges: seq<ExpansionEdge>, before: seq<Occurrence>,
                      more: seq<ExpansionEdge>, inner: seq<Occurrence>)
    requires k < |graph.nodes| && Child(lib, graph, graph.nodes[k].id) == Some(child) && PlainGraph(graph)
    requires Lists(lib, graph, path, edges, before) && ListsUnder(lib, graph, k, before)
    requires Lists(lib, child, path + [graph.nodes[k].id], more, inner)
    requires Distinct(inner) && forall o: Occurrence :: o in inner <==> Occurs(lib, child, o)
    ensures Lists(lib, graph, path, edges + more, before + Within(graph.nodes[k].id, inner))
    ensures ListsUnder(lib, graph, k + 1, before + Within(graph.nodes[k].id, inner))
  {
    WithinLists(lib, graph, path, graph.nodes[k].id, child, more, inner);
    WithinIsUnder(lib, graph, k, child, before, inner);
    ListsAppend(lib, graph, path, edges, more, before, Within(graph.nodes[k].id, inner));
  }

  lemma {:induction false} NextListed(lib: Library, graph: Graph, path: seq<string>, depth: nat, stack: seq<string>,
                                      k: nat, edges: seq<ExpansionEdge>, before: seq<Occurrence>)
    returns (occ: seq<Occurrence>)
    requires depth <= MAX_DEPTH && Clean(lib, graph, path, depth, stack)
    requires k < |graph.nodes| && Lists(lib, graph, path, edges, before) && ListsUnder(lib, graph, k, before)
    ensures Lists(lib, graph, path, edges + Contribution(lib, graph.nodes[k], PathName(path), depth, stack).edges, occ)
    ensures ListsUnder(lib, graph, k + 1, occ)
    decreases MAX_DEPTH - depth, k, 0
  {
    var n := graph.nodes[k];
    var more := Contribution(lib, n, PathName(path), depth, stack).edges;
    if IsNested(n) {
      var child, stack' := CleanChild(lib, graph, path, depth, stack, n);
      var inner := ExpansionListed(lib, child, path + [n.id], depth + 1, stack');
      CollectNested(lib, graph, path, k, child, edges, before, more, inner);
      occ := before + Within(n.id, inner);
    } else {
      NothingUnder(lib, graph, k, before);
      assert edges + more == edges;
      occ := before;
    }
  }

  /** The occurrences list what the first k nodes have contributed. */
  ghost predicate ListsFirst(lib: Library, graph: Graph, path: seq<string>, depth: nat, stack: seq<string>, k: nat,
                             occ: seq<Occurrence>)
    requires depth <= MAX_DEPTH && k <= |graph.nodes|
  {
    && Lists(lib, graph, path, ExpandNodes(lib, graph.nodes[..k], PathName(path), depth, stack).edges, occ)
    && ListsUnder(lib, graph, k, occ)
  }

  lemma {:induction false} OneMoreListed(lib: Library, graph: Graph, path: seq<string>, depth: nat, stack: seq<string>,
                                         k: nat, before: seq<Occurrence>)
    returns (occ: seq<Occurrence>)
    requires depth <= MAX_DEPTH && Clean(lib, graph, path, depth, stack) && k < |graph.nodes|
    requires ListsFirst(lib, graph, path, depth, stack, k, before)
    ensures ListsFirst(lib, graph, path, depth, stack, k + 1, occ)
    decreases MAX_DEPTH - depth, k, 1
  {
    var edges := ExpandNodes(lib, graph.nodes[..k], PathName(path), depth, stack).edges;
    occ := NextListed(lib, graph, path, depth, stack, k, edges, before);
    CollectNext(lib, graph, path, depth, stack, k);
  }

  lemma {:induction false} NodesListed(lib: Library, graph: Graph, path: seq<string>, depth: nat, stack: seq<string>,
                                       k: nat)
    returns (occ: seq<Occurrence>)
    requires depth <= MAX_DEPTH && Clean(lib, graph, path, depth, stack) && k <= |graph.nodes|
    ensures ListsFirst(lib, graph, path, depth, stack, k, occ)
    decreases MAX_DEPTH - depth, k, 2
  {
    if k == 0 {
      occ := [];
    } else {
      var j := k - 1;
      var before := NodesListed(lib, graph, path, depth, stack, j);
      occ := OneMoreListed(lib, graph, path, depth, stack, j, before);
    }
  }

  /** The edges of an expansion are the inlined wires of all instances, each exactly once. */
  lemma {:induction false} ExpansionListed(lib: Library, graph: Graph, path: seq<string>, depth: nat,
                                           stack: seq<string>)
    returns (occ: seq<Occurrence>)
    requires depth <= MAX_DEPTH && Clean(lib, graph, path, depth, stack)
    ensures Lists(lib, graph, path, Expand(lib, graph, PathName(path), depth, stack).edges, occ)
    ensures Distinct(occ) && forall o: Occurrence :: o in occ <==> Occurs(lib, graph, o)
    decreases MAX_DEPTH - depth, |graph.nodes| + 1
  {
    var inside := NodesListed(lib, graph, path, depth, stack, |graph.nodes|);
    assert graph.nodes[..|graph.nodes|] == graph.nodes;
    CleanParts(lib, graph, path, depth, stack);
    OwnEdges(lib, graph, path, depth, stack);
    var own := OwnListed(lib, graph, path);
    ListsAppend(lib, graph, path, ExpandNodes(lib, graph.nodes, PathName(path), depth, stack).edges,
                Instances(lib, graph, path), inside, own);
    DistinctAppend(inside, own);
    occ := inside + own;
    forall o: Occurrence | Occurs(lib, graph, o) ensures o in occ {
      if o.path != [] {
        StepsIntoNode(lib, graph, o);
      }
    }
  }

  lemma OwnListed(lib: Library, graph: Graph, path: seq<string>) returns (own: seq<Occurrence>)
    ensures Lists(lib, graph, path, Instances(lib, graph, path), own) && Distinct(own)
    ensures forall o: Occurrence :: o in own <==> o.path == [] && o.index < |graph.edges|
  {
    own := seq(|graph.edges|, k requires k >= 0 => Occurrence([], k));
    assert path + [] == path;
    forall o: Occurrence | o.path == [] && o.index < |graph.edges| ensures o in own {
      assert own[o.index] == o;
    }
  }

  lemma StepsIntoNode(lib: Library, graph: Graph, o: Occurrence)
    requires Occurs(lib, graph, o) && o.path != []
    ensures Under(graph, |graph.nodes|, o)
  {
    var n := FindNode(graph.nodes, o.path[0]).value;
    var i :| 0 <= i < |graph.nodes| && graph.nodes[i] == n;
  }

  // ---- Chains of wires -----------------------------------------------------------------------------------

  /** Wires that meet at inlets and outlets, one after the other. */
  ghost predicate Chain(lib: Library, root: Graph, c: seq<Occurrence>) {
    && |c| > 0
    && (forall k :: 0 <= k < |c| ==> Occurs(lib, root, c[k]))
    && (forall k :: 0 <= k < |c| - 1 ==>
          To(lib, root, c[k]) == From(lib, root, c[k + 1]) && To(lib, root, c[k]).BoundaryPin?)
  }

  ghost predicate ChainBetween(lib: Library, root: Graph, c: seq<Occurrence>, s: Place, t: Place) {
    Chain(lib, root, c) && From(lib, root, c[0]) == s && To(lib, root, c[|c| - 1]) == t
  }

  /** No chain leads from an inlet or outlet back to itself. */
  ghost predicate NoPinCycle(lib: Library, root: Graph) {
    forall c, p :: ChainBetween(lib, root, c, p, p) ==> p.LeafPort?
  }

  /** The last value present in a list. */
  function LastPresent<T>(values: seq<Option<T>>): Option<T> {
    if values == [] then None
    else if values[|values| - 1].Some? then values[|values| - 1]
    else LastPresent(values[..|values| - 1])
  }

  /** An optional field of the wires of a chain, in order. */
  ghost function FieldOf<T>(lib: Library, root: Graph, c: seq<Occurrence>, field: Attributes -> Option<T>)
    : (r: seq<Option<T>>)
    requires Chain(lib, root, c)
    ensures |r| == |c| && forall k :: 0 <= k < |c| ==> r[k] == field(WireOf(lib, root, c[k]).attributes)
  {
    seq(|c|, k requires 0 <= k < |c| => field(WireOf(lib, root, c[k]).attributes))
  }

  /** Every optional field is the one present nearest the target end of the chain. */
  ghost predicate CarriesFields(lib: Library, root: Graph, c: seq<Occurrence>, a: Attributes)
    requires Chain(lib, root, c)
  {
    && a.resolvedType == LastPresent(FieldOf(lib, root, c, (b: Attributes) => b.resolvedType))
    && a.order == LastPresent(FieldOf(lib, root, c, (b: Attributes) => b.order))
    && a.enabled == LastPresent(FieldOf(lib, root, c, (b: Attributes) => b.enabled))
    && a.adapter == LastPresent(FieldOf(lib, root, c, (b: Attributes) => b.adapter))
    && a.feedback == LastPresent(FieldOf(lib, root, c, (b: Attributes) => b.feedback))
    && a.styleOverride == LastPresent(FieldOf(lib, root, c, (b: Attributes) => b.styleOverride))
    && a.labelText == LastPresent(FieldOf(lib, root, c, (b: Attributes) => b.labelText))
    && a.description == LastPresent(FieldOf(lib, root, c, (b: Attributes) => b.description))
  }

  /** A flat edge stands for a chain between leaf ports: it joins the ports and carries the fields. */
  ghost predicate StandsFor(lib: Library, root: Graph, e: EdgeSpec, c: seq<Occurrence>) {
    && Chain(lib, root, c)
    && From(lib, root, c[0]).LeafPort? && To(lib, root, c[|c| - 1]).LeafPort?
    && Encode(From(lib, root, c[0])) == Node(e.source) && Encode(To(lib, root, c[|c| - 1])) == Node(e.target)
    && CarriesFields(lib, root, c, e.attributes)
  }

  // ---- Walks are chains ------------------------------------------------------------------------------------

  ghost predicate Listed(lib: Library, root: Graph, edges: seq<ExpansionEdge>, occ: seq<Occurrence>) {
    && Lists(lib, root, [], edges, occ) && Distinct(occ) && (forall o: Occurrence :: o in occ <==> Occurs(lib, root, o))
    && PlainLibrary(lib) && PlainGraph(root)
  }

  lemma OccurrencePlaces(lib: Library, root: Graph, o: Occurrence)
    requires PlainLibrary(lib) && PlainGraph(root) && Occurs(lib, root, o)
    ensures PlainPlace(From(lib, root, o)) && PlainPlace(To(lib, root, o))
  {
    var graph := GraphAt(lib, root, o.path).value;
    GraphAtPlain(lib, root, o.path);
    assert graph.edges[o.index] in graph.edges;
    PlacePlain(lib, graph, o.path, WireOf(lib, root, o).source, Outlet);
    PlacePlain(lib, graph, o.path, WireOf(lib, root, o).target, Inlet);
  }

  lemma EdgeEnds(lib: Library, root: Graph, edges: seq<ExpansionEdge>, occ: seq<Occurrence>, k: nat)
    requires Listed(lib, root, edges, occ) && k < |occ|
    ensures edges[k].source == Encode(From(lib, root, occ[k])) && edges[k].target == Encode(To(lib, root, occ[k]))
    ensures edges[k].edge.attributes == WireOf(lib, root, occ[k]).attributes
    ensures PlainPlace(From(lib, root, occ[k])) && PlainPlace(To(lib, root, occ[k]))
  {
    assert [] + occ[k].path == occ[k].path;
    OccurrencePlaces(lib, root, occ[k]);
  }

  ghost predicate Positions(occ: seq<Occurrence>, w: seq<nat>) {
    forall k :: 0 <= k < |w| ==> w[k] < |occ|
  }

  ghost function Along(occ: seq<Occurrence>, w: seq<nat>): (c: seq<Occurrence>)
    requires Positions(occ, w)
    ensures |c| == |w| && forall k :: 0 <= k < |w| ==> c[k] == occ[w[k]]
  {
    seq(|w|, k requires 0 <= k < |w| => occ[w[k]])
  }

  lemma WalkIsChain(lib: Library, root: Graph, edges: seq<ExpansionEdge>, occ: seq<Occurrence>, w: seq<nat>)
    requires Listed(lib, root, edges, occ) && IsWalk(edges, w)
    ensures var c := Along(occ, w);
            && Chain(lib, root, c)
            && edges[w[0]].source == Encode(From(lib, root, c[0]))
            && edges[w[|w| - 1]].target == Encode(To(lib, root, c[|c| - 1]))
            && PlainPlace(From(lib, root, c[0])) && PlainPlace(To(lib, root, c[|c| - 1]))
  {
    var c := Along(occ, w);
    forall k | 0 <= k < |c| - 1
      ensures To(lib, root, c[k]) == From(lib, root, c[k + 1]) && To(lib, root, c[k]).BoundaryPin?
    {
      EdgeEnds(lib, root, edges, occ, w[k]);
      EdgeEnds(lib, root, edges, occ, w[k + 1]);
      EncodeInjective(To(lib, root, c[k]), From(lib, root, c[k + 1]));
    }
    EdgeEnds(lib, root, edges, occ, w[0]);
    EdgeEnds(lib, root, edges, occ, w[|w| - 1]);
  }

  lemma ChainIsWalk(lib: Library, root: Graph, edges: seq<ExpansionEdge>, occ: seq<Occurrence>, c: seq<Occurrence>)
    returns (w: seq<nat>)
    requires Listed(lib, root, edges, occ) && Chain(lib, root, c)
    ensures WalkBetween(edges, w, Encode(From(lib, root, c[0])), Encode(To(lib, root, c[|c| - 1])))
    ensures Positions(occ, w) && Along(occ, w) == c
  {
    w := seq(|c|, k requires 0 <= k < |c| => Position(occ, c[k]));
    forall k | 0 <= k < |c|
      ensures w[k] < |occ| && occ[w[k]] == c[k]
      ensures edges[w[k]].source == Encode(From(lib, root, c[k])) && edges[w[k]].target == Encode(To(lib, root, c[k]))
    {
      EdgeEnds(lib, root, edges, occ, w[k]);
    }
    assert IsWalk(edges, w);
    assert Along(occ, w) == c;
  }

  ghost function Position(occ: seq<Occurrence>, o: Occurrence): (k: nat)
    requires o in occ
    ensures k < |occ| && occ[k] == o
  {
    var k :| 0 <= k < |occ| && occ[k] == o;
    k
  }

  /** Without cycles of inlets and outlets, the expansion has no cycles of pins. */
  lemma PinsAcyclic(lib: Library, root: Graph, edges: seq<ExpansionEdge>, occ: seq<Occurrence>)
    requires Listed(lib, root, edges, occ) && NoPinCycle(lib, root)
    ensures PinAcyclic(edges)
  {
    forall w, p | WalkBetween(edges, w, Boundary(p), Boundary(p))
      ensures false
    {
      WalkIsChain(lib, root, edges, occ, w);
      var c := Along(occ, w);
      var a, b := From(lib, root, c[0]), To(lib, root, c[|c| - 1]);
      EncodeInjective(a, b);
      assert ChainBetween(lib, root, c, a, a);
    }
  }

  // ---- Fields -----------------------------------------------------------------------------------------------

  lemma {:induction false} LastIsNearest<T(!new)>(values: seq<Option<T>>, r: Option<T>)
    requires match r
             case None => forall k :: 0 <= k < |values| ==> values[k] == None
             case Some(_) =>
               exists k :: 0 <= k < |values| && values[k] == r && forall j :: k < j < |values| ==> values[j] == None
    ensures LastPresent(values) == r
    decreases |values|
  {
    if values != [] && values[|values| - 1].None? {
      LastIsNearest(values[..|values| - 1], r);
    }
  }

  lemma NearestAlong<T(!new)>(lib: Library, root: Graph, edges: seq<ExpansionEdge>, occ: seq<Occurrence>, w: seq<nat>,
                              field: Attributes -> Option<T>, r: Option<T>)
    requires Listed(lib, root, edges, occ) && IsWalk(edges, w) && Chain(lib, root, Along(occ, w))
    requires Nearest(edges, w, field, r)
    ensures r == LastPresent(FieldOf(lib, root, Along(occ, w), field))
  {
    var values := FieldOf(lib, root, Along(occ, w), field);
    forall k | 0 <= k < |w| ensures values[k] == field(edges[w[k]].edge.attributes) {
      EdgeEnds(lib, root, edges, occ, w[k]);
    }
    LastIsNearest(values, r);
  }

  lemma FieldsAlong(lib: Library, root: Graph, edges: seq<ExpansionEdge>, occ: seq<Occurrence>, w: seq<nat>,
                    a: Attributes)
    requires Listed(lib, root, edges, occ) && IsWalk(edges, w) && Chain(lib, root, Along(occ, w))
    requires NearestFields(edges, w, a)
    ensures CarriesFields(lib, root, Along(occ, w), a)
  {
    NearestAlong(lib, root, edges, occ, w, (b: Attributes) => b.resolvedType, a.resolvedType);
    NearestAlong(lib, root, edges, occ, w, (b: Attributes) => b.order, a.order);
    NearestAlong(lib, root, edges, occ, w, (b: Attributes) => b.enabled, a.enabled);
    NearestAlong(lib, root, edges, occ, w, (b: Attributes) => b.adapter, a.adapter);
    NearestAlong(lib, root, edges, occ, w, (b: Attributes) => b.feedback, a.feedback);
    NearestAlong(lib, root, edges, occ, w, (b: Attributes) => b.styleOverride, a.styleOverride);
    NearestAlong(lib, root, edges, occ, w, (b: Attributes) => b.labelText, a.labelText);
    NearestAlong(lib, root, edges, occ, w, (b: Attributes) => b.description, a.description);
  }

  // ---- The main result --------------------------------------------------------------------------------------

  lemma WalkStands(lib: Library, root: Graph, edges: seq<ExpansionEdge>, occ: seq<Occurrence>, e: EdgeSpec, w: seq<nat>)
    requires Listed(lib, root, edges, occ) && WalkOf(edges, e, w)
    ensures StandsFor(lib, root, e, Along(occ, w))
  {
    WalkIsChain(lib, root, edges, occ, w);
    FieldsAlong(lib, root, edges, occ, w, e.attributes);
  }

  lemma AlongDistinct(occ: seq<Occurrence>, v: seq<nat>, w: seq<nat>)
    requires Distinct(occ) && Positions(occ, v) && Positions(occ, w)
    requires Along(occ, v) == Along(occ, w)
    ensures v == w
  {
    forall k | 0 <= k < |v| ensures v[k] == w[k] {
      assert Along(occ, v)[k] == Along(occ, w)[k];
    }
  }

  lemma RootListed(lib: Library, root: Graph) returns (occ: seq<Occurrence>)
    requires PlainLibrary(lib) && PlainGraph(root) && Expand(lib, root, "", 0, []).diagnostics == []
    ensures Listed(lib, root, Expand(lib, root, "", 0, []).edges, occ)
  {
    occ := ExpansionListed(lib, root, [], 0, []);
  }

  /** When inlets and outlets form no cycle, the flat edges correspond one to one to the chains of wires
      between leaf ports: each edge has a chain of its own, every chain between different ports has an
      edge, and the fields of an edge, its feedback flag among them, are those nearest the target end of
      its chain. */
  lemma FlatEdgesMatchChains(lib: Library, root: Graph, picks: seq<string>) returns (chains: seq<seq<Occurrence>>)
    requires PlainLibrary(lib) && PlainGraph(root) && Expand(lib, root, "", 0, []).diagnostics == []
    requires CompleteFor(lib, root, picks) && NoPinCycle(lib, root)
    ensures |chains| == |FlatEdges(lib, root, picks)| && Distinct(chains)
    ensures forall k :: 0 <= k < |chains| ==> StandsFor(lib, root, FlatEdges(lib, root, picks)[k], chains[k])
    ensures forall c, s, t :: ChainBetween(lib, root, c, s, t) && s.LeafPort? && t.LeafPort? && s != t ==> c in chains
  {
    var e := Expand(lib, root, "", 0, []);
    var occ := RootListed(lib, root);
    ExpandRegistered(lib, root, "", 0, []);
    PinsAcyclic(lib, root, e.edges, occ);
    var walks := WalksMatchResultEdges(e.edges, e.pins, picks);
    chains := ChainsOf(lib, root, e.edges, occ, FlatEdges(lib, root, picks), walks);
    forall c, s, t | ChainBetween(lib, root, c, s, t) && s.LeafPort? && t.LeafPort? && s != t
      ensures c in chains
    {
      var w := ChainIsWalk(lib, root, e.edges, occ, c);
      DifferentPorts(lib, root, c);
      assert w in walks;
      var k :| 0 <= k < |walks| && walks[k] == w;
      assert chains[k] == c;
    }
  }

  /** Even with cycles, every flat edge stands for some chain and carries its fields. */
  lemma FlatFieldsAreNearest(lib: Library, root: Graph, picks: seq<string>, e: EdgeSpec)
    requires PlainLibrary(lib) && PlainGraph(root) && Expand(lib, root, "", 0, []).diagnostics == []
    requires e in FlatEdges(lib, root, picks)
    ensures exists c :: StandsFor(lib, root, e, c)
  {
    var edges := Expand(lib, root, "", 0, []).edges;
    var occ := RootListed(lib, root);
    ResultFieldsAreNearest(edges, picks, e);
    var w :| WalkOf(edges, e, w);
    WalkStands(lib, root, edges, occ, e, w);
  }

  lemma DifferentPorts(lib: Library, root: Graph, c: seq<Occurrence>)
    requires PlainLibrary(lib) && PlainGraph(root) && Chain(lib, root, c)
    requires From(lib, root, c[0]) != To(lib, root, c[|c| - 1])
    ensures Encode(From(lib, root, c[0])) != Encode(To(lib, root, c[|c| - 1]))
  {
    OccurrencePlaces(lib, root, c[0]);
    OccurrencePlaces(lib, root, c[|c| - 1]);
    if Encode(From(lib, root, c[0])) == Encode(To(lib, root, c[|c| - 1])) {
      EncodeInjective(From(lib, root, c[0]), To(lib, root, c[|c| - 1]));
    }
  }

  lemma ChainsOf(lib: Library, root: Graph, edges: seq<ExpansionEdge>, occ: seq<Occurrence>, flat: seq<EdgeSpec>,
                 walks: seq<seq<nat>>)
    returns (chains: seq<seq<Occurrence>>)
    requires Listed(lib, root, edges, occ) && |walks| == |flat| && Distinct(walks)
    requires forall k :: 0 <= k < |walks| ==> WalkOf(edges, flat[k], walks[k]) && Positions(occ, walks[k])
    ensures |chains| == |flat| && Distinct(chains)
    ensures forall k :: 0 <= k < |chains| ==> StandsFor(lib, root, flat[k], chains[k])
    ensures forall k :: 0 <= k < |chains| ==> chains[k] == Along(occ, walks[k])
  {
    chains := seq(|walks|, k requires 0 <= k < |walks| => Along(occ, walks[k]));
    forall k | 0 <= k < |walks| ensures StandsFor(lib, root, flat[k], chains[k]) {
      WalkStands(lib, root, edges, occ, flat[k], walks[k]);
    }
    forall i, j | 0 <= i < j < |walks| ensures chains[i] != chains[j] {
      if chains[i] == chains[j] {
        AlongDistinct(occ, walks[i], walks[j]);
      }
    }
  }
}
