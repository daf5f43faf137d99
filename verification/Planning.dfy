/** The planning orders of both project formats: repeatedly take a node whose predecessors have all
    been taken. */
module Planning {
  import opened Basics
  import opened Cycles

  /** The known nodes that a node links to, once for each link. */
  function Successors(links: seq<Link>, nodes: seq<string>, u: string): seq<string> {
    if links == [] then [] else
      var n := |links| - 1;
      var last := links[n];
      Successors(links[..n], nodes, u)
      + if last.source == u && last.source in nodes && last.target in nodes then [last.target] else []
  }

  /** The number of links into a node from known nodes that have not been taken. */
  function Waiting(links: seq<Link>, nodes: seq<string>, taken: set<string>, v: string): nat {
    if links == [] then 0 else
      var n := |links| - 1;
      var last := links[n];
      Waiting(links[..n], nodes, taken, v)
      + if last.target == v && last.source in nodes && last.target in nodes && last.source !in taken then 1 else 0
  }

  lemma {:induction false} WaitingAfterTaking(links: seq<Link>, nodes: seq<string>, taken: set<string>, u: string,
                                              v: string)
    requires u !in taken
    ensures Waiting(links, nodes, taken, v)
         == Waiting(links, nodes, taken + {u}, v) + multiset(Successors(links, nodes, u))[v]
  {
    if links != [] {
      WaitingAfterTaking(links[..|links| - 1], nodes, taken, u, v);
    }
  }

  lemma {:induction false} NothingWaiting(links: seq<Link>, nodes: seq<string>, taken: set<string>, v: string)
    requires v in nodes
    ensures Waiting(links, nodes, taken, v) == 0 <==>
            forall u :: u in nodes && Link(u, v) in links ==> u in taken
  {
    if links != [] {
      var n := |links| - 1;
      NothingWaiting(links[..n], nodes, taken, v);
      assert links == links[..n] + [links[n]];
    }
  }

  function Adjacent(adjacency: map<string, seq<string>>, u: string): seq<string> {
    if u in adjacency then adjacency[u] else []
  }

  predicate Known(link: Link, nodes: seq<string>) {
    link.source in nodes && link.target in nodes
  }

  lemma NextLink(links: seq<Link>, k: nat, nodes: seq<string>)
    requires k < |links|
    ensures forall u :: Successors(links[..k + 1], nodes, u) ==
              if Known(links[k], nodes) && links[k].source == u
              then Successors(links[..k], nodes, u) + [links[k].target] else Successors(links[..k], nodes, u)
    ensures forall v :: Waiting(links[..k + 1], nodes, {}, v) ==
              Waiting(links[..k], nodes, {}, v) + if Known(links[k], nodes) && links[k].target == v then 1 else 0
  {
    assert links[..k + 1][..k] == links[..k];
  }

  ghost predicate Counted(indegree: map<string, nat>, nodes: seq<string>, links: seq<Link>) {
    indegree.Keys == Elements(nodes) && forall v :: v in nodes ==> indegree[v] == Waiting(links, nodes, {}, v)
  }

  ghost predicate Collected(adjacency: map<string, seq<string>>, nodes: seq<string>, links: seq<Link>) {
    forall u :: Adjacent(adjacency, u) == Successors(links, nodes, u)
  }

  lemma CountNext(links: seq<Link>, k: nat, nodes: seq<string>, indegree: map<string, nat>)
    requires k < |links| && Counted(indegree, nodes, links[..k])
    ensures var link := links[k];
            if Known(link, nodes)
            then link.target in indegree
                 && Counted(indegree[link.target := indegree[link.target] + 1], nodes, links[..k + 1])
            else Counted(indegree, nodes, links[..k + 1])
  {
    NextLink(links, k, nodes);
  }

  lemma CollectNext(links: seq<Link>, k: nat, nodes: seq<string>, adjacency: map<string, seq<string>>)
    requires k < |links| && Collected(adjacency, nodes, links[..k])
    ensures var link := links[k];
            if Known(link, nodes)
            then Collected(adjacency[link.source := Adjacent(adjacency, link.source) + [link.target]], nodes,
                           links[..k + 1])
            else Collected(adjacency, nodes, links[..k + 1])
  {
    NextLink(links, k, nodes);
    var link := links[k];
    var after :=
      if Known(link, nodes) then adjacency[link.source := Adjacent(adjacency, link.source) + [link.target]]
      else adjacency;
    forall u
      ensures Adjacent(after, u) == Successors(links[..k + 1], nodes, u)
    {
      assert Adjacent(adjacency, u) == Successors(links[..k], nodes, u);
    }
  }

  /** Counts the incoming links of every node and collects the outgoing ones. */
  method CountLinks(nodes: seq<string>, links: seq<Link>)
    returns (indegree: map<string, nat>, adjacency: map<string, seq<string>>)
    ensures Counted(indegree, nodes, links) && Collected(adjacency, nodes, links)
  {
    indegree := map n | n in nodes :: 0;
    adjacency := map[];
    var k := 0;
    while k < |links|
      invariant 0 <= k <= |links|
      invariant Counted(indegree, nodes, links[..k]) && Collected(adjacency, nodes, links[..k])
    {
      var link := links[k];
      CountNext(links, k, nodes, indegree);
      CollectNext(links, k, nodes, adjacency);
      assert Known(link, nodes) <==> link.source in indegree.Keys && link.target in indegree.Keys;
      if link.source in indegree && link.target in indegree {
        adjacency := adjacency[link.source := Adjacent(adjacency, link.source) + [link.target]];
        indegree := indegree[link.target := indegree[link.target] + 1];
      }
      k := k + 1;
    }
    assert links[..k] == links;
  }

  lemma CountOneMore(nexts: seq<string>, j: nat)
    requires j < |nexts|
    ensures nexts[..j + 1] == nexts[..j] + [nexts[j]]
    ensures multiset(nexts[..j + 1]) == multiset(nexts[..j]) + multiset{nexts[j]}
    ensures forall v :: multiset(nexts[..j + 1])[v] <= multiset(nexts)[v]
  {
    assert nexts == nexts[..j + 1] + nexts[j + 1..];
    assert nexts[..j + 1] == nexts[..j] + [nexts[j]];
    assert multiset(nexts) == multiset(nexts[..j + 1]) + multiset(nexts[j + 1..]);
  }

  /** Where a string occurs last. */
  ghost predicate LastAt(s: seq<string>, v: string, k: nat) {
    k < |s| && s[k] == v && v !in s[k + 1..]
  }

  /** The last occurrence of one string comes before that of another. */
  ghost predicate LastBefore(s: seq<string>, v: string, w: string) {
    exists i: nat, j: nat :: i < j && LastAt(s, v, i) && LastAt(s, w, j)
  }

  ghost predicate OrderedByLast(freed: seq<string>, nexts: seq<string>) {
    forall i, j :: 0 <= i < j < |freed| ==> LastBefore(nexts, freed[i], freed[j])
  }

  /** A string counted out by a position has its last occurrence before it. */
  lemma LastSeen(nexts: seq<string>, j: nat, v: string)
    requires j < |nexts| && nexts[j] == v && multiset(nexts[..j + 1])[v] == multiset(nexts)[v]
    ensures LastAt(nexts, v, j)
  {
    assert nexts == nexts[..j + 1] + nexts[j + 1..];
    assert multiset(nexts)[v] == multiset(nexts[..j + 1])[v] + multiset(nexts[j + 1..])[v];
  }

  /** Every freed string has its last occurrence before a position. */
  ghost predicate FreedBefore(freed: seq<string>, nexts: seq<string>, j: nat) {
    forall v :: v in freed ==> exists i: nat :: i < j && LastAt(nexts, v, i)
  }

  /** What has been freed by the first j strings. */
  ghost predicate FreedSoFar(freed: seq<string>, nexts: seq<string>, j: nat) {
    OrderedByLast(freed, nexts) && FreedBefore(freed, nexts, j)
  }

  lemma FreedStays(freed: seq<string>, nexts: seq<string>, j: nat)
    requires FreedSoFar(freed, nexts, j)
    ensures FreedSoFar(freed, nexts, j + 1)
  {
    forall v | v in freed ensures exists i: nat :: i < j + 1 && LastAt(nexts, v, i) {
      var i: nat :| i < j && LastAt(nexts, v, i);
    }
  }

  lemma FreedInOrder(freed: seq<string>, nexts: seq<string>, j: nat)
    requires FreedSoFar(freed, nexts, j)
    requires j < |nexts| && multiset(nexts[..j + 1])[nexts[j]] == multiset(nexts)[nexts[j]]
    ensures FreedSoFar(freed + [nexts[j]], nexts, j + 1)
  {
    LastSeen(nexts, j, nexts[j]);
    var more := freed + [nexts[j]];
    forall i, k | 0 <= i < k < |more| ensures LastBefore(nexts, more[i], more[k]) {
      if k < |freed| {
        assert LastBefore(nexts, freed[i], freed[k]);
      } else {
        assert freed[i] in freed;
        var l: nat :| l < j && LastAt(nexts, freed[i], l);
      }
    }
    forall v | v in more ensures exists i: nat :: i < j + 1 && LastAt(nexts, v, i) {
      if v in freed {
        var i: nat :| i < j && LastAt(nexts, v, i);
      }
    }
  }

  /** Takes one node: every link from it stops waiting, and nodes that wait no more are queued, in the
      order of the last links to them. */
  method Release(nexts: seq<string>, indegree: map<string, nat>)
    returns (indegree': map<string, nat>, freed: seq<string>)
    requires forall v :: v in nexts ==> v in indegree && multiset(nexts)[v] <= indegree[v]
    ensures indegree'.Keys == indegree.Keys
    ensures forall v :: v in indegree ==> indegree'[v] + multiset(nexts)[v] == indegree[v]
    ensures Distinct(freed)
    ensures forall v :: v in freed <==> v in nexts && indegree'[v] == 0
    ensures OrderedByLast(freed, nexts)
  {
    indegree', freed := indegree, [];
    var j := 0;
    while j < |nexts|
      invariant 0 <= j <= |nexts|
      invariant indegree'.Keys == indegree.Keys
      invariant forall v :: v in indegree ==> multiset(nexts[..j])[v] <= multiset(nexts)[v]
      invariant forall v :: v in indegree ==> indegree'[v] + multiset(nexts[..j])[v] == indegree[v]
      invariant Distinct(freed)
      invariant forall v :: v in freed <==> v in nexts[..j] && v in indegree && indegree'[v] == 0
      invariant FreedSoFar(freed, nexts, j)
    {
      var next := nexts[j];
      CountOneMore(nexts, j);
      FreedStays(freed, nexts, j);
      indegree' := indegree'[next := indegree'[next] - 1];
      if indegree'[next] == 0 {
        FreedInOrder(freed, nexts, j);
        freed := freed + [next];
      }
      j := j + 1;
    }
    assert nexts[..j] == nexts;
  }

  // ---- Taking nodes one by one ---------------------------------------------------------------------

  ghost predicate TakenState(nodes: seq<string>, links: seq<Link>, ordered: seq<string>, queue: seq<string>,
                             indegree: map<string, nat>) {
    && Distinct(ordered + queue)
    && (forall u :: u in ordered + queue ==> u in nodes)
    && PredecessorsFirst(nodes, links, ordered)
    && indegree.Keys == Elements(nodes)
    && (forall v :: v in nodes ==> indegree[v] == Waiting(links, nodes, Elements(ordered), v))
    && (forall v :: v in nodes ==> (v in ordered + queue <==> indegree[v] == 0))
  }

  /** Nothing waits for a queued node, so it may be taken next. */
  lemma TakeNext(nodes: seq<string>, links: seq<Link>, ordered: seq<string>, queue: seq<string>,
                 indegree: map<string, nat>)
    requires TakenState(nodes, links, ordered, queue, indegree) && queue != []
    ensures queue[0] !in ordered && queue[0] in nodes
    ensures PredecessorsFirst(nodes, links, ordered + [queue[0]])
    ensures |ordered| < |Elements(nodes)|
  {
    var u := queue[0];
    var all := ordered + queue;
    assert all[|ordered|] == u;
    assert u in all;
    forall k | 0 <= k < |ordered| ensures ordered[k] != u {
      assert all[k] == ordered[k];
    }
    NothingWaiting(links, nodes, Elements(ordered), u);
    var longer := ordered + [u];
    forall k | 0 <= k < |longer| ensures After(nodes, links, longer, k) {
      if k < |ordered| {
        assert After(nodes, links, ordered, k);
        assert longer[..k] == ordered[..k];
      } else {
        assert longer[..k] == ordered;
      }
    }
    DistinctBound(all, Elements(nodes));
  }

  lemma CountsAfterRelease(nodes: seq<string>, links: seq<Link>, ordered: seq<string>, u: string,
                           indegree: map<string, nat>, indegree': map<string, nat>)
    requires u !in ordered && indegree.Keys == Elements(nodes)
    requires forall v :: v in nodes ==> indegree[v] == Waiting(links, nodes, Elements(ordered), v)
    requires indegree'.Keys == indegree.Keys
    requires forall v :: v in indegree ==> indegree'[v] + multiset(Successors(links, nodes, u))[v] == indegree[v]
    ensures forall v :: v in nodes ==> indegree'[v] == Waiting(links, nodes, Elements(ordered + [u]), v)
  {
    assert Elements(ordered + [u]) == Elements(ordered) + {u};
    forall v | v in nodes ensures indegree'[v] == Waiting(links, nodes, Elements(ordered + [u]), v) {
      WaitingAfterTaking(links, nodes, Elements(ordered), u, v);
    }
  }

  lemma Requeue(ordered: seq<string>, queue: seq<string>, freed: seq<string>)
    requires queue != []
    ensures ordered + [queue[0]] + (queue[1..] + freed) == ordered + queue + freed
  {
    assert queue == [queue[0]] + queue[1..];
  }

  lemma AfterRelease(nodes: seq<string>, links: seq<Link>, ordered: seq<string>, queue: seq<string>,
                     indegree: map<string, nat>, indegree': map<string, nat>, freed: seq<string>)
    requires TakenState(nodes, links, ordered, queue, indegree) && queue != []
    requires indegree'.Keys == indegree.Keys
    requires forall v :: v in indegree ==> indegree'[v] + multiset(Successors(links, nodes, queue[0]))[v] == indegree[v]
    requires Distinct(freed)
    requires forall v :: v in freed <==> v in Successors(links, nodes, queue[0]) && v in nodes && indegree'[v] == 0
    ensures TakenState(nodes, links, ordered + [queue[0]], queue[1..] + freed, indegree')
  {
    var u := queue[0];
    var ordered', queue' := ordered + [u], queue[1..] + freed;
    TakeNext(nodes, links, ordered, queue, indegree);
    Requeue(ordered, queue, freed);
    CountsAfterRelease(nodes, links, ordered, u, indegree, indegree');
    FreedAreNew(nodes, ordered + queue, indegree, indegree', Successors(links, nodes, u), freed);
  }

  lemma FreedAreNew(nodes: seq<string>, before: seq<string>, indegree: map<string, nat>, indegree': map<string, nat>,
                    nexts: seq<string>, freed: seq<string>)
    requires indegree.Keys == Elements(nodes) && indegree'.Keys == indegree.Keys
    requires Distinct(before) && (forall u :: u in before ==> u in nodes)
    requires forall v :: v in nodes ==> (v in before <==> indegree[v] == 0)
    requires forall v :: v in indegree ==> indegree'[v] + multiset(nexts)[v] == indegree[v]
    requires Distinct(freed) && forall v :: v in freed <==> v in nexts && v in nodes && indegree'[v] == 0
    ensures Distinct(before + freed) && (forall u :: u in before + freed ==> u in nodes)
    ensures forall v :: v in nodes ==> (v in before + freed <==> indegree'[v] == 0)
  {
    forall i, j | 0 <= i < |before| && 0 <= j < |freed| ensures before[i] != freed[j] {
      assert before[i] in before && indegree[before[i]] == 0;
      assert freed[j] in freed && multiset(nexts)[freed[j]] > 0;
    }
    DistinctJoin(before, freed);
    assert forall v :: v in before + freed <==> v in before || v in freed;
    forall v | v in nodes ensures v in before + freed <==> indegree'[v] == 0 {
      if v !in nexts { assert multiset(nexts)[v] == 0; }
    }
  }

  lemma DistinctJoin(a: seq<string>, b: seq<string>)
    requires Distinct(a) && Distinct(b)
    requires forall i, j :: 0 <= i < |a| && 0 <= j < |b| ==> a[i] != b[j]
    ensures Distinct(a + b)
  {
  }

  lemma FirstQueue(nodes: seq<string>, links: seq<Link>, queue: seq<string>, indegree: map<string, nat>)
    requires Distinct(nodes) && Counted(indegree, nodes, links)
    requires Distinct(queue) && forall v :: v in queue <==> v in nodes && indegree[v] == 0
    ensures TakenState(nodes, links, [], queue, indegree)
  {
    assert [] + queue == queue;
    assert Elements<string>([]) == {};
  }

  lemma NothingLeft(nodes: seq<string>, links: seq<Link>, ordered: seq<string>, indegree: map<string, nat>)
    requires TakenState(nodes, links, ordered, [], indegree)
    ensures MaximalPrefix(nodes, links, ordered)
  {
    assert ordered + [] == ordered;
    forall v | v in nodes && v !in ordered ensures Blocked(nodes, links, ordered, v) {
      NothingWaiting(links, nodes, Elements(ordered), v);
    }
  }

  lemma {:induction false} DistinctKept(p: string -> bool, s: seq<string>)
    requires Distinct(s)
    ensures Distinct(Keep(p, s))
  {
    if s != [] {
      var n := |s| - 1;
      DistinctKept(p, s[..n]);
      assert forall x :: x in Keep(p, s[..n]) ==> x in s[..n];
      DistinctJoin(Keep(p, s[..n]), if p(s[n]) then [s[n]] else []);
    }
  }

  ghost predicate HasPredecessor(nodes: seq<string>, links: seq<Link>, v: string) {
    exists u :: u in nodes && Link(u, v) in links
  }

  ghost function IsSource(nodes: seq<string>, links: seq<Link>): string -> bool {
    (v: string) => !HasPredecessor(nodes, links, v)
  }

  /** The nodes that no known node is linked to, in their order. */
  ghost function Sources(nodes: seq<string>, links: seq<Link>): seq<string> {
    Keep(IsSource(nodes, links), nodes)
  }

  function CountsZero(indegree: map<string, nat>): string -> bool {
    (v: string) => v in indegree && indegree[v] == 0
  }

  lemma {:induction false} KeepSame(p: string -> bool, q: string -> bool, s: seq<string>)
    requires forall v :: v in s ==> p(v) == q(v)
    ensures Keep(p, s) == Keep(q, s)
    decreases |s|
  {
    if s != [] {
      KeepSame(p, q, s[..|s| - 1]);
    }
  }

  lemma SourcesHaveNoLinks(nodes: seq<string>, links: seq<Link>, indegree: map<string, nat>)
    requires Counted(indegree, nodes, links)
    ensures Keep(CountsZero(indegree), nodes) == Sources(nodes, links)
  {
    forall v | v in nodes
      ensures v in indegree && (indegree[v] == 0 <==> !HasPredecessor(nodes, links, v))
    {
      NothingWaiting(links, nodes, {}, v);
    }
    KeepSame(CountsZero(indegree), IsSource(nodes, links), nodes);
  }

  lemma StillFirst(first: seq<string>, ordered: seq<string>, queue: seq<string>, freed: seq<string>)
    requires queue != [] && first <= ordered + queue
    ensures first <= ordered + [queue[0]] + (queue[1..] + freed)
  {
    Requeue(ordered, queue, freed);
  }

  /** The number of taken nodes up to and including the last one that links to a node. */
  function LastPredecessor(links: seq<Link>, ordered: seq<string>, v: string): (r: nat)
    ensures r <= |ordered| && (r > 0 ==> Link(ordered[r - 1], v) in links)
    ensures forall k :: r <= k < |ordered| ==> Link(ordered[k], v) !in links
  {
    if ordered == [] then 0 else
      var n := |ordered| - 1;
      if Link(ordered[n], v) in links then n + 1 else LastPredecessor(links, ordered[..n], v)
  }

  /** The first node became free before the second: its last predecessor was taken earlier, or it was the
      same one and the last link from it to the first node is listed earlier. Nodes without predecessors
      are free from the start. */
  ghost predicate FreedEarlier(nodes: seq<string>, links: seq<Link>, ordered: seq<string>, v: string, w: string) {
    var a, b := LastPredecessor(links, ordered, v), LastPredecessor(links, ordered, w);
    a < b || (a == b && (a > 0 ==> LastBefore(Successors(links, nodes, ordered[a - 1]), v, w)))
  }

  /** Of any two nodes in the list, the one that became free earlier comes first. */
  ghost predicate InOrderOfFreeing(nodes: seq<string>, links: seq<Link>, ordered: seq<string>, all: seq<string>) {
    forall i, j :: 0 <= i < j < |all| ==> FreedEarlier(nodes, links, ordered, all[i], all[j])
  }

  /** Nodes that do not wait are not freed later than they were. */
  lemma FreeingStays(nodes: seq<string>, links: seq<Link>, ordered: seq<string>, u: string, v: string, w: string)
    requires FreedEarlier(nodes, links, ordered, v, w)
    requires Link(u, v) !in links && Link(u, w) !in links
    ensures FreedEarlier(nodes, links, ordered + [u], v, w)
    ensures LastPredecessor(links, ordered + [u], v) == LastPredecessor(links, ordered, v)
  {
    assert (ordered + [u])[..|ordered|] == ordered;
  }

  lemma NotWaiting(nodes: seq<string>, links: seq<Link>, ordered: seq<string>, queue: seq<string>,
                   indegree: map<string, nat>, v: string)
    requires TakenState(nodes, links, ordered, queue, indegree) && queue != [] && v in ordered + queue
    ensures Link(queue[0], v) !in links
  {
    TakeNext(nodes, links, ordered, queue, indegree);
    NothingWaiting(links, nodes, Elements(ordered), v);
  }

  lemma FreedLinked(nodes: seq<string>, links: seq<Link>, ordered: seq<string>, u: string, v: string)
    requires v in Successors(links, nodes, u)
    ensures LastPredecessor(links, ordered + [u], v) == |ordered| + 1
  {
    SuccessorsKnown(links, nodes, u);
  }

  lemma FreedLast(nodes: seq<string>, links: seq<Link>, ordered: seq<string>, queue: seq<string>,
                  indegree: map<string, nat>, freed: seq<string>, v: string, w: string)
    requires TakenState(nodes, links, ordered, queue, indegree) && queue != [] && v in ordered + queue
    requires w in Successors(links, nodes, queue[0])
    ensures FreedEarlier(nodes, links, ordered + [queue[0]], v, w)
  {
    var u := queue[0];
    NotWaiting(nodes, links, ordered, queue, indegree, v);
    FreedLinked(nodes, links, ordered, u, w);
    assert (ordered + [u])[..|ordered|] == ordered;
  }

  lemma OrderAfterRelease(nodes: seq<string>, links: seq<Link>, ordered: seq<string>, queue: seq<string>,
                          indegree: map<string, nat>, freed: seq<string>)
    requires TakenState(nodes, links, ordered, queue, indegree) && queue != []
    requires InOrderOfFreeing(nodes, links, ordered, ordered + queue)
    requires OrderedByLast(freed, Successors(links, nodes, queue[0]))
    requires forall v :: v in freed ==> v in Successors(links, nodes, queue[0])
    ensures InOrderOfFreeing(nodes, links, ordered + [queue[0]], ordered + [queue[0]] + (queue[1..] + freed))
  {
    var u, all := queue[0], ordered + queue;
    Requeue(ordered, queue, freed);
    var more := all + freed;
    forall i, j | 0 <= i < j < |more| ensures FreedEarlier(nodes, links, ordered + [u], more[i], more[j]) {
      if j < |all| {
        assert FreedEarlier(nodes, links, ordered, all[i], all[j]);
        NotWaiting(nodes, links, ordered, queue, indegree, all[i]);
        NotWaiting(nodes, links, ordered, queue, indegree, all[j]);
        FreeingStays(nodes, links, ordered, u, all[i], all[j]);
      } else if i < |all| {
        FreedLast(nodes, links, ordered, queue, indegree, freed, all[i], more[j]);
      } else {
        FreedLinked(nodes, links, ordered, u, more[i]);
        FreedLinked(nodes, links, ordered, u, more[j]);
        assert LastBefore(Successors(links, nodes, u), freed[i - |all|], freed[j - |all|]);
      }
    }
  }

  lemma SourcesAreFree(nodes: seq<string>, links: seq<Link>, queue: seq<string>)
    ensures InOrderOfFreeing(nodes, links, [], [] + queue)
  {
  }

  /** Takes nodes in breadth-first order until no node is free of waiting links. The nodes without
      predecessors come first, in their order, and the others in the order in which they became free. */
  method TakeAll(nodes: seq<string>, links: seq<Link>) returns (ordered: seq<string>, indegree: map<string, nat>)
    requires Distinct(nodes)
    ensures MaximalPrefix(nodes, links, ordered) && Sources(nodes, links) <= ordered
    ensures InOrderOfFreeing(nodes, links, ordered, ordered)
    ensures indegree.Keys == Elements(nodes) && forall v :: v in nodes ==> (indegree[v] == 0 <==> v in ordered)
  {
    var adjacency;
    indegree, adjacency := CountLinks(nodes, links);
    var queue := Keep(CountsZero(indegree), nodes);
    DistinctKept(CountsZero(indegree), nodes);
    ghost var first := Sources(nodes, links);
    SourcesHaveNoLinks(nodes, links, indegree);
    ordered := [];
    FirstQueue(nodes, links, queue, indegree);
    SourcesAreFree(nodes, links, queue);
    while queue != []
      invariant TakenState(nodes, links, ordered, queue, indegree)
      invariant first <= ordered + queue && InOrderOfFreeing(nodes, links, ordered, ordered + queue)
      decreases |Elements(nodes)| - |ordered|
    {
      var u := queue[0];
      TakeNext(nodes, links, ordered, queue, indegree);
      SuccessorsWait(nodes, links, ordered, u, indegree);
      var indegree', freed := Release(Adjacent(adjacency, u), indegree);
      AfterRelease(nodes, links, ordered, queue, indegree, indegree', freed);
      StillFirst(first, ordered, queue, freed);
      OrderAfterRelease(nodes, links, ordered, queue, indegree, freed);
      ordered := ordered + [u];
      queue := queue[1..] + freed;
      indegree := indegree';
    }
    NothingLeft(nodes, links, ordered, indegree);
    assert ordered + [] == ordered;
  }

  lemma SuccessorsWait(nodes: seq<string>, links: seq<Link>, ordered: seq<string>, u: string,
                       indegree: map<string, nat>)
    requires u !in ordered && indegree.Keys == Elements(nodes)
    requires forall v :: v in nodes ==> indegree[v] == Waiting(links, nodes, Elements(ordered), v)
    ensures forall v :: v in Successors(links, nodes, u) ==>
              v in indegree && multiset(Successors(links, nodes, u))[v] <= indegree[v]
  {
    SuccessorsKnown(links, nodes, u);
    forall v | v in Successors(links, nodes, u) ensures multiset(Successors(links, nodes, u))[v] <= indegree[v] {
      WaitingAfterTaking(links, nodes, Elements(ordered), u, v);
    }
  }

  lemma {:induction false} SuccessorsKnown(links: seq<Link>, nodes: seq<string>, u: string)
    ensures forall v :: v in Successors(links, nodes, u) <==> u in nodes && v in nodes && Link(u, v) in links
  {
    if links != [] {
      var n := |links| - 1;
      SuccessorsKnown(links[..n], nodes, u);
      assert links == links[..n] + [links[n]];
    }
  }
}
