/** Which nested patches the expansion accepts, in terms of chains of patch references. */
module References {
  import opened Basics
  import opened ExpansionEdges
  import opened Expansion
  import opened Namespacing
  import opened Flattening

  predicate IsReferenceDiagnostic(d: Diagnostic) {
    d.MissingRef? || d.Recursion? || d.DepthExceeded? || d.MissingPatch?
  }

  ghost predicate NoReferenceDiagnostic(ds: seq<Diagnostic>) {
    forall d :: d in ds ==> !IsReferenceDiagnostic(d)
  }

  /** Some subpatch node of the patch refers to `patchRef`. */
  ghost predicate RefersTo(graph: Graph, patchRef: string) {
    exists n :: n in graph.nodes && IsNested(n) && SubpatchRef(n) == Some(patchRef)
  }

  /** Every subpatch node of the patch names the patch it stands for. */
  ghost predicate AllNamed(graph: Graph) {
    forall n :: n in graph.nodes && IsNested(n) ==> SubpatchRef(n).Some?
  }

  /** A nesting chain: each patch, from the first on, is referred to by the one before. */
  ghost predicate ReferenceChain(lib: Library, graph: Graph, refs: seq<string>)
    decreases |refs|
  {
    refs == [] ||
    (&& RefersTo(graph, refs[0])
     && (|refs| > 1 ==> refs[0] in lib && ReferenceChain(lib, lib[refs[0]], refs[1..])))
  }

  /** What the expansion demands of one chain, below patches already entered: all of its patches
      exist and name their references, none occurs twice, and it is not nested too deeply. */
  ghost predicate ChainAccepted(lib: Library, stack: seq<string>, refs: seq<string>) {
    && refs != []
    && refs[|refs| - 1] in lib && AllNamed(lib[refs[|refs| - 1]])
    && Distinct(stack + refs)
    && |stack| + |refs| <= MAX_DEPTH
  }

  ghost predicate Acceptable(lib: Library, graph: Graph, stack: seq<string>) {
    && AllNamed(graph)
    && forall refs :: refs != [] && ReferenceChain(lib, graph, refs) ==> ChainAccepted(lib, stack, refs)
  }

  /** A subpatch node is accepted and nothing is reported below it. */
  ghost predicate NodeAccepted(lib: Library, n: GraphNode, namespace: string, depth: nat, stack: seq<string>)
    requires depth <= MAX_DEPTH
  {
    NoReferenceDiagnostic(Contribution(lib, n, namespace, depth, stack).diagnostics)
  }

  lemma NoReferenceAppend(a: seq<Diagnostic>, b: seq<Diagnostic>)
    ensures NoReferenceDiagnostic(a + b) <==> NoReferenceDiagnostic(a) && NoReferenceDiagnostic(b)
  {
    assert forall d :: d in a + b <==> d in a || d in b;
  }

  lemma {:induction false} NodesAccepted(lib: Library, nodes: seq<GraphNode>, namespace: string, depth: nat,
                                         stack: seq<string>)
    requires depth <= MAX_DEPTH
    ensures NoReferenceDiagnostic(ExpandNodes(lib, nodes, namespace, depth, stack).diagnostics) <==>
            forall n :: n in nodes ==> NodeAccepted(lib, n, namespace, depth, stack)
    decreases |nodes|
  {
    if nodes != [] {
      var k := |nodes| - 1;
      assert nodes == nodes[..k] + [nodes[k]];
      NodesAccepted(lib, nodes[..k], namespace, depth, stack);
      var before := ExpandNodes(lib, nodes[..k], namespace, depth, stack);
      AddNodeParts(lib, before, nodes[k], namespace, depth, stack);
      NoReferenceAppend(before.diagnostics, Contribution(lib, nodes[k], namespace, depth, stack).diagnostics);
      assert (forall m :: m in nodes ==> NodeAccepted(lib, m, namespace, depth, stack)) <==>
             (forall m :: m in nodes[..k] ==> NodeAccepted(lib, m, namespace, depth, stack))
             && NodeAccepted(lib, nodes[k], namespace, depth, stack);
    }
  }

  lemma {:induction false} EdgesReportNoReferences(e: Expanded, edges: seq<EdgeSpec>, namespace: string)
    ensures NoReferenceDiagnostic(AddEdges(e, edges, namespace).diagnostics) <==> NoReferenceDiagnostic(e.diagnostics)
    decreases |edges|
  {
    if edges != [] {
      var n := |edges| - 1;
      EdgesReportNoReferences(e, edges[..n], namespace);
      var before := AddEdges(e, edges[..n], namespace);
      var s := ResolveSource(edges[n].source, namespace, before.expansions).1;
      var t := ResolveTarget(edges[n].target, namespace, before.expansions).1;
      NoReferenceAppend(before.diagnostics + s, t);
      NoReferenceAppend(before.diagnostics, s);
    }
  }

  lemma DistinctNext(stack: seq<string>, refs: seq<string>)
    requires refs != []
    ensures stack + refs == stack + [refs[0]] + refs[1..]
    ensures Distinct(stack + refs) ==> refs[0] !in stack && Distinct(stack + [refs[0]])
  {
    assert refs == [refs[0]] + refs[1..];
    var all := stack + refs;
    if Distinct(all) {
      forall i | 0 <= i < |stack| ensures stack[i] != refs[0] {
        assert all[i] == stack[i] && all[|stack|] == refs[0];
      }
      forall i, j | 0 <= i < j < |stack| + 1 ensures (stack + [refs[0]])[i] != (stack + [refs[0]])[j] {
        assert all[i] == (stack + [refs[0]])[i] && all[j] == (stack + [refs[0]])[j];
      }
    }
  }

  lemma ChainNext(lib: Library, stack: seq<string>, refs: seq<string>)
    requires |refs| > 1
    ensures ChainAccepted(lib, stack, refs) <==> ChainAccepted(lib, stack + [refs[0]], refs[1..])
  {
    DistinctNext(stack, refs);
  }

  lemma OneLink(lib: Library, graph: Graph, patchRef: string)
    requires RefersTo(graph, patchRef)
    ensures ReferenceChain(lib, graph, [patchRef])
  {
  }

  lemma MoreLinks(lib: Library, graph: Graph, patchRef: string, refs: seq<string>)
    requires RefersTo(graph, patchRef) && patchRef in lib && refs != [] && ReferenceChain(lib, lib[patchRef], refs)
    ensures ReferenceChain(lib, graph, [patchRef] + refs)
  {
    assert ([patchRef] + refs)[1..] == refs;
  }

  /** One subpatch node is accepted exactly when its reference may be entered and its patch is acceptable there. */
  lemma NodeCheck(lib: Library, n: GraphNode, namespace: string, depth: nat, stack: seq<string>)
    requires depth <= MAX_DEPTH && |stack| == depth && IsNested(n)
    ensures var r := SubpatchRef(n);
            NodeAccepted(lib, n, namespace, depth, stack) <==>
              && r.Some? && r.value !in stack && depth + 1 <= MAX_DEPTH && r.value in lib
              && NoReferenceDiagnostic(
                   Expand(lib, lib[r.value], NamespacedId(namespace, n.id), depth + 1, stack + [r.value]).diagnostics)
  {
    match CheckReference(lib, n, namespace, depth, stack) {
      case Refused(d) =>
        assert IsReferenceDiagnostic(d);
        assert Contribution(lib, n, namespace, depth, stack).diagnostics == [d];
        assert d in Contribution(lib, n, namespace, depth, stack).diagnostics;
      case Accepted(patchRef) =>
    }
  }

  lemma PlainNodeAccepted(lib: Library, n: GraphNode, namespace: string, depth: nat, stack: seq<string>)
    requires depth <= MAX_DEPTH && !IsNested(n)
    ensures NodeAccepted(lib, n, namespace, depth, stack)
  {
  }

  /** Below patches already entered, nothing is reported about references exactly when every chain is acceptable. */
  lemma {:induction false} ReferencesChecked(lib: Library, graph: Graph, namespace: string, depth: nat,
                                             stack: seq<string>)
    requires depth <= MAX_DEPTH && |stack| == depth && Distinct(stack)
    ensures NoReferenceDiagnostic(Expand(lib, graph, namespace, depth, stack).diagnostics) <==>
            Acceptable(lib, graph, stack)
    decreases MAX_DEPTH - depth
  {
    EdgesReportNoReferences(ExpandNodes(lib, graph.nodes, namespace, depth, stack), graph.edges, namespace);
    NodesAccepted(lib, graph.nodes, namespace, depth, stack);
    if forall n :: n in graph.nodes ==> NodeAccepted(lib, n, namespace, depth, stack) {
      forall n | n in graph.nodes && IsNested(n) ensures SubpatchRef(n).Some? {
        NodeCheck(lib, n, namespace, depth, stack);
      }
      forall refs | refs != [] && ReferenceChain(lib, graph, refs) ensures ChainAccepted(lib, stack, refs) {
        AcceptedChain(lib, graph, namespace, depth, stack, refs);
      }
    }
    if Acceptable(lib, graph, stack) {
      forall n | n in graph.nodes ensures NodeAccepted(lib, n, namespace, depth, stack) {
        if IsNested(n) {
          AcceptableNode(lib, graph, namespace, depth, stack, n);
        } else {
          PlainNodeAccepted(lib, n, namespace, depth, stack);
        }
      }
    }
  }

  lemma {:induction false} AcceptedChain(lib: Library, graph: Graph, namespace: string, depth: nat, stack: seq<string>,
                                         refs: seq<string>)
    requires depth <= MAX_DEPTH && |stack| == depth && Distinct(stack)
    requires forall n :: n in graph.nodes ==> NodeAccepted(lib, n, namespace, depth, stack)
    requires refs != [] && ReferenceChain(lib, graph, refs)
    ensures ChainAccepted(lib, stack, refs)
    decreases MAX_DEPTH - depth, 0
  {
    var n :| n in graph.nodes && IsNested(n) && SubpatchRef(n) == Some(refs[0]);
    NodeCheck(lib, n, namespace, depth, stack);
    assert Distinct(stack + [refs[0]]);
    ReferencesChecked(lib, lib[refs[0]], NamespacedId(namespace, n.id), depth + 1, stack + [refs[0]]);
    if |refs| == 1 {
      assert refs == [refs[0]];
    } else {
      ChainNext(lib, stack, refs);
    }
  }

  lemma {:induction false} AcceptableNode(lib: Library, graph: Graph, namespace: string, depth: nat,
                                          stack: seq<string>, n: GraphNode)
    requires depth <= MAX_DEPTH && |stack| == depth && Distinct(stack) && Acceptable(lib, graph, stack)
    requires n in graph.nodes && IsNested(n)
    ensures NodeAccepted(lib, n, namespace, depth, stack)
    decreases MAX_DEPTH - depth, 0
  {
    var patchRef := SubpatchRef(n).value;
    OneLink(lib, graph, patchRef);
    assert ChainAccepted(lib, stack, [patchRef]);
    DistinctNext(stack, [patchRef]);
    forall refs | refs != [] && ReferenceChain(lib, lib[patchRef], refs)
      ensures ChainAccepted(lib, stack + [patchRef], refs)
    {
      MoreLinks(lib, graph, patchRef, refs);
      ChainNext(lib, stack, [patchRef] + refs);
      assert ([patchRef] + refs)[1..] == refs;
    }
    ReferencesChecked(lib, lib[patchRef], NamespacedId(namespace, n.id), depth + 1, stack + [patchRef]);
    NodeCheck(lib, n, namespace, depth, stack);
  }

  /** A chain from the root ends at an existing patch that names its references, repeats no patch
      and has at most sixteen links. */
  ghost predicate ChainFine(lib: Library, refs: seq<string>)
    requires refs != []
  {
    && refs[|refs| - 1] in lib && AllNamed(lib[refs[|refs| - 1]])
    && Distinct(refs) && |refs| <= 16
  }

  lemma ChainFromRoot(lib: Library, refs: seq<string>)
    requires refs != []
    ensures ChainAccepted(lib, [], refs) <==> ChainFine(lib, refs)
  {
    assert [] + refs == refs;
  }

  /** The expansion reports nothing about references exactly when every subpatch node reachable from
      the root names an existing patch, no nesting chain repeats a patch, and none is longer than
      sixteen. */
  lemma ReferencesAcceptedExactly(lib: Library, root: Graph)
    ensures NoReferenceDiagnostic(Expand(lib, root, "", 0, []).diagnostics) <==>
            AllNamed(root) && forall refs :: refs != [] && ReferenceChain(lib, root, refs) ==> ChainFine(lib, refs)
  {
    ReferencesChecked(lib, root, "", 0, []);
    forall refs | refs != [] && ReferenceChain(lib, root, refs)
      ensures ChainAccepted(lib, [], refs) <==> ChainFine(lib, refs)
    {
      ChainFromRoot(lib, refs);
    }
  }
}
