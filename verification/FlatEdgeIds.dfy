/** The ids of the flat edges are different from each other. */
module FlatEdgeIds {
  import opened Basics
  import opened ExpansionEdges
  import opened Namespacing
  import opened Expansion
  import opened NestedMeaning
  import opened Flattening
  import opened FlatMeaning
  import opened FlatChains
  import opened MergedEdges

  /** The wires of the patch have different plain ids, none of which ends like the id of a merged edge. */
  ghost predicate PlainWires(graph: Graph) {
    && (forall w :: w in graph.edges ==> Plain(w.id) && !EndsLikeMerged(w.id))
    && (forall i, j :: 0 <= i < j < |graph.edges| ==> graph.edges[i].id != graph.edges[j].id)
  }

  ghost predicate EndsLikeMerged(id: string) {
    exists n :: Numbered(id, n)
  }

  ghost predicate PlainWiring(lib: Library) {
    forall patchRef :: patchRef in lib ==> PlainWires(lib[patchRef])
  }

  lemma {:induction false} WiresAt(lib: Library, graph: Graph, q: seq<string>)
    requires PlainWiring(lib) && PlainWires(graph) && GraphAt(lib, graph, q).Some?
    ensures PlainWires(GraphAt(lib, graph, q).value)
    decreases |q|
  {
    if q != [] {
      WiresAt(lib, Child(lib, graph, q[0]).value, q[1..]);
    }
  }

  /** Ending like a merged edge is a matter of the last part of a namespaced id. */
  lemma NamespaceEnds(namespace: string, id: string, n: nat)
    requires Plain(id) && Numbered(NamespacedId(namespace, id), n)
    ensures Numbered(id, n)
  {
    var whole := NamespacedId(namespace, id);
    var prefix: string :| whole == prefix + "__" + Decimal(n);
    NumberHasNoColon(n);
    LastPart(namespace, id);
    var tail := "__" + Decimal(n);
    assert whole == prefix + tail;
    if namespace != "" {
      TailFits(whole, prefix, tail, id);
      assert id == prefix[|whole| - |id|..] + tail;
      assert id == prefix[|whole| - |id|..] + "__" + Decimal(n);
    }
  }

  /** A tail without colons that ends a text belongs to what follows the last colon. */
  lemma TailFits(whole: string, prefix: string, tail: string, id: string)
    requires whole == prefix + tail && |id| < |whole| && whole[|whole| - |id| - 1] == ':'
    requires ':' !in tail
    requires whole[|whole| - |id|..] == id
    ensures |tail| <= |id| && id == prefix[|whole| - |id|..] + tail
  {
    assert forall k :: |prefix| <= k < |whole| ==> whole[k] == tail[k - |prefix|];
    assert |tail| <= |id|;
  }

  lemma NumberHasNoColon(n: nat)
    ensures ':' !in "__" + Decimal(n)
  {
    ParseDecimal(n);
  }

  lemma WireIdsDiffer(lib: Library, root: Graph, o: Occurrence, p: Occurrence)
    requires PlainLibrary(lib) && PlainGraph(root) && PlainWiring(lib) && PlainWires(root)
    requires Occurs(lib, root, o) && Occurs(lib, root, p) && o != p
    ensures Inlining(lib, root, [], o).edge.id != Inlining(lib, root, [], p).edge.id
  {
    GraphAtPlain(lib, root, o.path);
    GraphAtPlain(lib, root, p.path);
    WiresAt(lib, root, o.path);
    WiresAt(lib, root, p.path);
    assert [] + o.path == o.path && [] + p.path == p.path;
    var a, b := WireOf(lib, root, o), WireOf(lib, root, p);
    if NamespacedId(PathName(o.path), a.id) == NamespacedId(PathName(p.path), b.id) {
      LastPartUnique(PathName(o.path), a.id, PathName(p.path), b.id);
      PathNameInjective(o.path, p.path);
    }
  }

  lemma WireIdIsPlain(lib: Library, root: Graph, o: Occurrence, n: nat)
    requires PlainLibrary(lib) && PlainGraph(root) && PlainWiring(lib) && PlainWires(root) && Occurs(lib, root, o)
    ensures !Numbered(Inlining(lib, root, [], o).edge.id, n)
  {
    WiresAt(lib, root, o.path);
    assert [] + o.path == o.path;
    var w := WireOf(lib, root, o);
    if Numbered(NamespacedId(PathName(o.path), w.id), n) {
      NamespaceEnds(PathName(o.path), w.id, n);
      assert EndsLikeMerged(w.id);
    }
  }

  /** If the wires of every patch have different plain ids, none of which ends like the id of a merged
      edge, then the flat edges have different ids, whatever the order of elimination. */
  lemma FlatEdgeIdsDistinct(lib: Library, root: Graph, picks: seq<string>, i: nat, j: nat)
    requires PlainLibrary(lib) && PlainGraph(root) && PlainWiring(lib) && PlainWires(root)
    requires Expand(lib, root, "", 0, []).diagnostics == []
    requires i < j < |FlatEdges(lib, root, picks)|
    ensures FlatEdges(lib, root, picks)[i].id != FlatEdges(lib, root, picks)[j].id
  {
    var edges := Expand(lib, root, "", 0, []).edges;
    var occ := ExpansionListed(lib, root, [], 0, []);
    forall a, b | 0 <= a < b < |edges| ensures edges[a].edge.id != edges[b].edge.id {
      WireIdsDiffer(lib, root, occ[a], occ[b]);
    }
    forall a, n: nat | 0 <= a < |edges| ensures !Numbered(edges[a].edge.id, n) {
      WireIdIsPlain(lib, root, occ[a], n);
    }
    MergedIdsDistinct(edges, picks, i, j);
  }
}
