/** Links between nodes, walks and cycles, and what an order of removal says about them. */
module Cycles {
  import opened Basics

  datatype Link = Link(source: string, target: string)

  /** A non-empty list of known nodes in which each is linked to the next. */
  ghost predicate Walk(nodes: seq<string>, links: seq<Link>, w: seq<string>) {
    && |w| > 0
    && (forall k :: 0 <= k < |w| ==> w[k] in nodes)
    && (forall k :: 0 <= k < |w| - 1 ==> Link(w[k], w[k + 1]) in links)
  }

  ghost predicate Cycle(nodes: seq<string>, links: seq<Link>, c: seq<string>) {
    Walk(nodes, links, c) && |c| > 1 && c[0] == c[|c| - 1]
  }

  ghost predicate Acyclic(nodes: seq<string>, links: seq<Link>) {
    forall c :: !Cycle(nodes, links, c)
  }

  /** The node can be reached from a node on a cycle. */
  ghost predicate AfterCycle(nodes: seq<string>, links: seq<Link>, v: string) {
    exists c, w :: Cycle(nodes, links, c) && Walk(nodes, links, w) && w[0] == c[0] && w[|w| - 1] == v
  }

  /** Every known predecessor of the k-th listed node is listed before it. */
  ghost predicate After(nodes: seq<string>, links: seq<Link>, ordered: seq<string>, k: nat)
    requires k < |ordered|
  {
    forall u :: u in nodes && Link(u, ordered[k]) in links ==> u in ordered[..k]
  }

  ghost predicate PredecessorsFirst(nodes: seq<string>, links: seq<Link>, ordered: seq<string>) {
    forall k {:trigger After(nodes, links, ordered, k)} :: 0 <= k < |ordered| ==> After(nodes, links, ordered, k)
  }

  ghost predicate Blocked(nodes: seq<string>, links: seq<Link>, ordered: seq<string>, v: string) {
    exists u :: u in nodes && u !in ordered && Link(u, v) in links
  }

  /** A list of distinct nodes, predecessors first, that cannot be extended: every node left out has
      a predecessor that is left out. */
  ghost predicate MaximalPrefix(nodes: seq<string>, links: seq<Link>, ordered: seq<string>) {
    && Distinct(ordered)
    && (forall u :: u in ordered ==> u in nodes)
    && PredecessorsFirst(nodes, links, ordered)
    && forall v {:trigger Blocked(nodes, links, ordered, v)} ::
         v in nodes && v !in ordered ==> Blocked(nodes, links, ordered, v)
  }

  lemma SubWalk(nodes: seq<string>, links: seq<Link>, w: seq<string>, i: nat, j: nat)
    requires Walk(nodes, links, w) && i < j <= |w|
    ensures Walk(nodes, links, w[i..j])
  {
  }

  /** A walk that ends at a listed node comes from earlier in the list. */
  lemma {:induction false} WalkIntoList(nodes: seq<string>, links: seq<Link>, ordered: seq<string>, w: seq<string>,
                                        k: nat)
    returns (i: nat)
    requires PredecessorsFirst(nodes, links, ordered)
    requires Walk(nodes, links, w) && k < |ordered| && w[|w| - 1] == ordered[k]
    ensures i <= k && ordered[i] == w[0] && (|w| > 1 ==> i < k)
    decreases |w|
  {
    if |w| == 1 {
      i := k;
    } else {
      var n := |w| - 1;
      assert Link(w[n - 1], w[n - 1 + 1]) in links;
      assert After(nodes, links, ordered, k);
      var j :| 0 <= j < k && ordered[j] == w[n - 1];
      SubWalk(nodes, links, w, 0, n);
      assert w[..n] == w[0..n];
      i := WalkIntoList(nodes, links, ordered, w[..n], j);
    }
  }

  lemma NotListed(nodes: seq<string>, links: seq<Link>, ordered: seq<string>, c: seq<string>)
    requires Distinct(ordered) && PredecessorsFirst(nodes, links, ordered) && Cycle(nodes, links, c)
    ensures c[0] !in ordered
  {
    if k :| 0 <= k < |ordered| && ordered[k] == c[0] {
      var i := WalkIntoList(nodes, links, ordered, c, k);
      assert false;
    }
  }

  /** From a node left out, walks through nodes left out lead back as far as one likes. */
  lemma {:induction false} WalkBack(nodes: seq<string>, links: seq<Link>, ordered: seq<string>, v: string, n: nat)
    returns (w: seq<string>)
    requires MaximalPrefix(nodes, links, ordered) && v in nodes && v !in ordered
    ensures Walk(nodes, links, w) && |w| == n + 1 && w[n] == v && w[0] !in ordered
  {
    if n == 0 {
      w := [v];
    } else {
      var rest := WalkBack(nodes, links, ordered, v, n - 1);
      assert Blocked(nodes, links, ordered, rest[0]);
      var u :| u in nodes && u !in ordered && Link(u, rest[0]) in links;
      w := [u] + rest;
      forall k | 0 <= k < |w| - 1 ensures Link(w[k], w[k + 1]) in links {
        if k > 0 { assert w[k] == rest[k - 1] && w[k + 1] == rest[k - 1 + 1]; }
      }
    }
  }

  /** The end of a walk that passes a node twice comes after a cycle. */
  lemma RepeatIsCycle(nodes: seq<string>, links: seq<Link>, w: seq<string>, i: nat, j: nat)
    requires Walk(nodes, links, w) && i < j < |w| && w[i] == w[j]
    ensures AfterCycle(nodes, links, w[|w| - 1])
  {
    var c, rest := w[i..j + 1], w[i..|w|];
    SubWalk(nodes, links, w, i, j + 1);
    SubWalk(nodes, links, w, i, |w|);
    assert c[0] == w[i] && c[|c| - 1] == w[j];
    assert Cycle(nodes, links, c);
    assert rest[0] == c[0] && rest[|rest| - 1] == w[|w| - 1];
  }

  lemma LeftOutIsAfterCycle(nodes: seq<string>, links: seq<Link>, ordered: seq<string>, v: string)
    requires MaximalPrefix(nodes, links, ordered) && v in nodes && v !in ordered
    ensures AfterCycle(nodes, links, v)
  {
    var known := set u | u in nodes;
    var w := WalkBack(nodes, links, ordered, v, |known|);
    assert !Distinct(w) by {
      if Distinct(w) { DistinctBound(w, known); }
    }
    var i, j :| 0 <= i < j < |w| && w[i] == w[j];
    RepeatIsCycle(nodes, links, w, i, j);
  }

  /** Removing nodes without predecessors removes exactly the nodes that no cycle leads to. */
  lemma PrefixExactly(nodes: seq<string>, links: seq<Link>, ordered: seq<string>, v: string)
    requires MaximalPrefix(nodes, links, ordered)
    ensures v in ordered <==> v in nodes && !AfterCycle(nodes, links, v)
  {
    if v in ordered && AfterCycle(nodes, links, v) {
      var c, w :| Cycle(nodes, links, c) && Walk(nodes, links, w) && w[0] == c[0] && w[|w| - 1] == v;
      NotListed(nodes, links, ordered, c);
      var k :| 0 <= k < |ordered| && ordered[k] == v;
      var i := WalkIntoList(nodes, links, ordered, w, k);
      assert false;
    }
    if v in nodes && v !in ordered {
      LeftOutIsAfterCycle(nodes, links, ordered, v);
    }
  }

  /** Nothing is left out exactly when there is no cycle. */
  lemma PrefixCompleteIffAcyclic(nodes: seq<string>, links: seq<Link>, ordered: seq<string>)
    requires MaximalPrefix(nodes, links, ordered) && Distinct(nodes)
    ensures |ordered| == |nodes| <==> Acyclic(nodes, links)
    ensures |ordered| == |nodes| ==> multiset(ordered) == multiset(nodes)
  {
    FullSublist(ordered, nodes);
    if |ordered| == |nodes| {
      forall c ensures !Cycle(nodes, links, c) {
        if Cycle(nodes, links, c) {
          NotListed(nodes, links, ordered, c);
        }
      }
    } else {
      var v :| v in nodes && v !in ordered;
      LeftOutIsAfterCycle(nodes, links, ordered, v);
    }
  }
}
