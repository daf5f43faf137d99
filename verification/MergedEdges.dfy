/** The edges that a round of pin elimination makes: which, in which order, and under which ids. */
module MergedEdges {
  import opened Basics
  import opened ExpansionEdges
  import opened Contraction

  // ---- Order -------------------------------------------------------------------------------------------

  /** The kept elements stand at these positions, which are in order and are all that satisfy the predicate. */
  ghost predicate KeptAt<T(!new)>(p: T -> bool, s: seq<T>, kept: seq<T>, at: seq<nat>) {
    && |at| == |kept| && (forall i, j :: 0 <= i < j < |at| ==> at[i] < at[j])
    && (forall k :: 0 <= k < |at| ==> at[k] < |s| && kept[k] == s[at[k]] && p(kept[k]))
    && (forall i :: 0 <= i < |s| && p(s[i]) ==> i in at)
  }

  lemma OneMoreKept<T(!new)>(p: T -> bool, s: seq<T>, kept: seq<T>, at: seq<nat>)
    requires s != [] && KeptAt(p, s[..|s| - 1], kept, at)
    ensures p(s[|s| - 1]) ==> KeptAt(p, s, kept + [s[|s| - 1]], at + [|s| - 1])
    ensures !p(s[|s| - 1]) ==> KeptAt(p, s, kept, at)
  {
    var init := s[..|s| - 1];
    forall i | 0 <= i < |init| && p(s[i]) ensures i in at {
      assert init[i] == s[i];
    }
    forall k | 0 <= k < |at| ensures at[k] < |init| && kept[k] == s[at[k]] {
      assert init[at[k]] == s[at[k]];
    }
  }

  lemma {:induction false} KeepPositions<T(!new)>(p: T -> bool, s: seq<T>) returns (at: seq<nat>)
    ensures KeptAt(p, s, Keep(p, s), at)
  {
    if s == [] {
      at := [];
    } else {
      var n := |s| - 1;
      at := KeepPositions(p, s[..n]);
      OneMoreKept(p, s, Keep(p, s[..n]), at);
      at := if p(s[n]) then at + [n] else at;
    }
  }

  /** Positions of an edge into the pin and of an edge out of it. */
  type Pair = (nat, nat)

  predicate PairBefore(p: Pair, q: Pair) {
    p.0 < q.0 || (p.0 == q.0 && p.1 < q.1)
  }

  /** The edge joins an edge into the pin with one out of it, under the given number. */
  ghost predicate IsJoin(first: ExpansionEdge, second: ExpansionEdge, pin: string, number: nat, e: ExpansionEdge) {
    && e.source == first.source && e.target == second.target
    && e.edge.id == first.edge.id + "__" + Fragment(pin) + "__" + Decimal(number)
    && e.edge.source == second.edge.source && e.edge.target == second.edge.target
  }

  /** The joins stand for pairs of edges, in order and numbered from `merged` on. */
  ghost predicate JoinsOf(incoming: seq<Traced>, outgoing: seq<Traced>, pin: string, merged: nat, joins: seq<Traced>,
                          pairs: seq<Pair>) {
    && |pairs| == |joins|
    && (forall i, j :: 0 <= i < j < |pairs| ==> PairBefore(pairs[i], pairs[j]))
    && (forall k :: 0 <= k < |pairs| ==> JoinsPair(incoming, outgoing, pin, merged + k + 1, joins[k], pairs[k]))
  }

  ghost predicate JoinsPair(incoming: seq<Traced>, outgoing: seq<Traced>, pin: string, number: nat, t: Traced,
                            pair: Pair) {
    && pair.0 < |incoming| && pair.1 < |outgoing|
    && incoming[pair.0].edge.source != outgoing[pair.1].edge.target
    && IsJoin(incoming[pair.0].edge, outgoing[pair.1].edge, pin, number, t.edge)
    && t.trail == incoming[pair.0].trail + outgoing[pair.1].trail
  }

  /** No pair of edges that does not make a loop is missing. */
  ghost predicate AllPairs(incoming: seq<Traced>, outgoing: seq<Traced>, pairs: seq<Pair>) {
    forall i, j :: 0 <= i < |incoming| && 0 <= j < |outgoing| && incoming[i].edge.source != outgoing[j].edge.target ==>
      (i, j) in pairs
  }

  lemma {:induction false} RowInOrder(incoming: seq<Traced>, i: nat, outgoing: seq<Traced>, m: nat, pin: string,
                                      merged: nat)
    returns (pairs: seq<Pair>)
    requires i < |incoming| && m <= |outgoing|
    ensures JoinsOf(incoming, outgoing, pin, merged, JoinOne(incoming[i], outgoing[..m], pin, merged), pairs)
    ensures forall p :: p in pairs ==> p.0 == i && p.1 < m
    ensures forall j :: 0 <= j < m && incoming[i].edge.source != outgoing[j].edge.target ==> (i, j) in pairs
  {
    if m == 0 {
      pairs := [];
    } else {
      var n := m - 1;
      assert outgoing[..m][..n] == outgoing[..n];
      pairs := RowInOrder(incoming, i, outgoing, n, pin, merged);
      if incoming[i].edge.source != outgoing[n].edge.target {
        var before := JoinOne(incoming[i], outgoing[..n], pin, merged);
        var last := Merge(incoming[i], outgoing[n], pin, merged + |before| + 1);
        assert JoinsPair(incoming, outgoing, pin, merged + |before| + 1, last, (i, n));
        pairs := pairs + [(i, n)];
      }
    }
  }

  lemma RowsAppend(incoming: seq<Traced>, outgoing: seq<Traced>, pin: string, merged: nat, before: seq<Traced>,
                   row: seq<Traced>, p: seq<Pair>, q: seq<Pair>)
    requires JoinsOf(incoming, outgoing, pin, merged, before, p)
    requires JoinsOf(incoming, outgoing, pin, merged + |before|, row, q)
    requires forall x, y :: x in p && y in q ==> PairBefore(x, y)
    ensures JoinsOf(incoming, outgoing, pin, merged, before + row, p + q)
  {
    forall k | 0 <= k < |p + q|
      ensures JoinsPair(incoming, outgoing, pin, merged + k + 1, (before + row)[k], (p + q)[k])
    {
      if k < |p| {
        assert JoinsPair(incoming, outgoing, pin, merged + k + 1, before[k], p[k]);
      } else {
        assert JoinsPair(incoming, outgoing, pin, merged + |before| + (k - |p|) + 1, row[k - |p|], q[k - |p|]);
      }
    }
  }

  lemma {:induction false} RowsInOrder(incoming: seq<Traced>, m: nat, outgoing: seq<Traced>, pin: string, merged: nat)
    returns (pairs: seq<Pair>)
    requires m <= |incoming|
    ensures JoinsOf(incoming, outgoing, pin, merged, JoinAll(incoming[..m], outgoing, pin, merged), pairs)
    ensures forall p :: p in pairs ==> p.0 < m
    ensures AllPairs(incoming[..m], outgoing, pairs)
  {
    if m == 0 {
      pairs := [];
    } else {
      var n := m - 1;
      assert incoming[..m][..n] == incoming[..n];
      var before := JoinAll(incoming[..n], outgoing, pin, merged);
      var above := RowsInOrder(incoming, n, outgoing, pin, merged);
      var row := RowInOrder(incoming, n, outgoing, |outgoing|, pin, merged + |before|);
      assert outgoing[..|outgoing|] == outgoing;
      RowsAppend(incoming, outgoing, pin, merged, before, JoinOne(incoming[n], outgoing, pin, merged + |before|),
                 above, row);
      pairs := above + row;
    }
  }

  ghost predicate Entering(t: Traced, pin: string) {
    t.edge.target == Boundary(pin)
  }

  ghost predicate Leaving(t: Traced, pin: string) {
    t.edge.source == Boundary(pin)
  }

  /** The edges that a round leaves alone, at these positions. */
  ghost predicate Untouched(traced: seq<Traced>, pin: string, left: seq<Traced>, kept: seq<nat>) {
    && |kept| == |left| && (forall i, j :: 0 <= i < j < |kept| ==> kept[i] < kept[j])
    && (forall k :: 0 <= k < |kept| ==> kept[k] < |traced| && left[k] == traced[kept[k]])
    && (forall i :: 0 <= i < |traced| ==>
          (i in kept <==> !Entering(traced[i], pin) && !Leaving(traced[i], pin)))
  }

  /** The joins of a round, at these pairs of positions. */
  ghost predicate JoinedPairs(traced: seq<Traced>, pin: string, merged: nat, joins: seq<Traced>, pairs: seq<Pair>) {
    && JoinsOf(traced, traced, pin, merged, joins, pairs)
    && forall i, j :: 0 <= i < |traced| && 0 <= j < |traced| ==>
         ((i, j) in pairs <==> Entering(traced[i], pin) && Leaving(traced[j], pin)
                               && traced[i].edge.source != traced[j].edge.target)
  }

  lemma LeftAlone(traced: seq<Traced>, pin: string) returns (kept: seq<nat>)
    ensures Untouched(traced, pin, Avoiding(traced, pin), kept)
  {
    kept := KeepPositions(OnEdge(Avoids(pin)), traced);
  }

  /** Pairs of positions among the selected edges, as positions among all edges. */
  function Lift(pairs: seq<Pair>, into: seq<nat>, out: seq<nat>): (r: seq<Pair>)
    requires forall k :: 0 <= k < |pairs| ==> pairs[k].0 < |into| && pairs[k].1 < |out|
    ensures |r| == |pairs| && forall k :: 0 <= k < |r| ==> r[k] == (into[pairs[k].0], out[pairs[k].1])
  {
    seq(|pairs|, k requires 0 <= k < |pairs| => (into[pairs[k].0], out[pairs[k].1]))
  }

  lemma LiftedInOrder(traced: seq<Traced>, pin: string, merged: nat, incoming: seq<Traced>, outgoing: seq<Traced>,
                      joins: seq<Traced>, pairs: seq<Pair>, into: seq<nat>, out: seq<nat>)
    requires KeptAt(OnEdge(Enters(pin)), traced, incoming, into) && KeptAt(OnEdge(Leaves(pin)), traced, outgoing, out)
    requires JoinsOf(incoming, outgoing, pin, merged, joins, pairs)
    ensures forall k :: 0 <= k < |pairs| ==> pairs[k].0 < |into| && pairs[k].1 < |out|
    ensures JoinsOf(traced, traced, pin, merged, joins, Lift(pairs, into, out))
  {
    forall k | 0 <= k < |pairs| ensures pairs[k].0 < |into| && pairs[k].1 < |out| {
      assert JoinsPair(incoming, outgoing, pin, merged + k + 1, joins[k], pairs[k]);
    }
    var lifted := Lift(pairs, into, out);
    forall i, j | 0 <= i < j < |lifted| ensures PairBefore(lifted[i], lifted[j]) {
      assert PairBefore(pairs[i], pairs[j]);
    }
    forall k | 0 <= k < |lifted| ensures JoinsPair(traced, traced, pin, merged + k + 1, joins[k], lifted[k]) {
      assert JoinsPair(incoming, outgoing, pin, merged + k + 1, joins[k], pairs[k]);
    }
  }

  lemma LiftedComplete(traced: seq<Traced>, pin: string, incoming: seq<Traced>, outgoing: seq<Traced>,
                       pairs: seq<Pair>, into: seq<nat>, out: seq<nat>, i: nat, j: nat)
    requires KeptAt(OnEdge(Enters(pin)), traced, incoming, into) && KeptAt(OnEdge(Leaves(pin)), traced, outgoing, out)
    requires forall k :: 0 <= k < |pairs| ==> pairs[k].0 < |into| && pairs[k].1 < |out|
                                              && incoming[pairs[k].0].edge.source != outgoing[pairs[k].1].edge.target
    requires AllPairs(incoming, outgoing, pairs) && i < |traced| && j < |traced|
    ensures (i, j) in Lift(pairs, into, out) <==> Entering(traced[i], pin) && Leaving(traced[j], pin)
                                                  && traced[i].edge.source != traced[j].edge.target
  {
    var lifted := Lift(pairs, into, out);
    if (i, j) in lifted {
      var k :| 0 <= k < |lifted| && lifted[k] == (i, j);
      assert OnEdge(Enters(pin))(incoming[pairs[k].0]) && OnEdge(Leaves(pin))(outgoing[pairs[k].1]);
    }
    if Entering(traced[i], pin) && Leaving(traced[j], pin) && traced[i].edge.source != traced[j].edge.target {
      assert OnEdge(Enters(pin))(traced[i]) && OnEdge(Leaves(pin))(traced[j]);
      var a :| 0 <= a < |into| && into[a] == i;
      var b :| 0 <= b < |out| && out[b] == j;
      assert (a, b) in pairs;
      var k :| 0 <= k < |pairs| && pairs[k] == (a, b);
      assert lifted[k] == (i, j);
    }
  }

  lemma JoinedInOrder(traced: seq<Traced>, pin: string, merged: nat) returns (pairs: seq<Pair>)
    ensures JoinedPairs(traced, pin, merged, JoinAll(Into(traced, pin), OutOf(traced, pin), pin, merged), pairs)
  {
    var incoming, outgoing := Into(traced, pin), OutOf(traced, pin);
    var into := KeepPositions(OnEdge(Enters(pin)), traced);
    var out := KeepPositions(OnEdge(Leaves(pin)), traced);
    var within := RowsInOrder(incoming, |incoming|, outgoing, pin, merged);
    assert incoming[..|incoming|] == incoming;
    var joins := JoinAll(incoming, outgoing, pin, merged);
    LiftedInOrder(traced, pin, merged, incoming, outgoing, joins, within, into, out);
    forall k | 0 <= k < |within|
      ensures incoming[within[k].0].edge.source != outgoing[within[k].1].edge.target
    {
      assert JoinsPair(incoming, outgoing, pin, merged + k + 1, joins[k], within[k]);
    }
    pairs := Lift(within, into, out);
    forall i, j | 0 <= i < |traced| && 0 <= j < |traced|
      ensures (i, j) in pairs <==> Entering(traced[i], pin) && Leaving(traced[j], pin)
                                   && traced[i].edge.source != traced[j].edge.target
    {
      LiftedComplete(traced, pin, incoming, outgoing, within, into, out, i, j);
    }
  }

  /** A round leaves the edges that do not touch the pin as they are and in their order, and then lists
      the joins of every edge into the pin with every edge out of it that does not make a loop, ordered
      by the first and then by the second edge, and numbered on. */
  lemma RoundInOrder(s: State, pin: string) returns (kept: seq<nat>, pairs: seq<Pair>)
    ensures
      var r := Eliminate(s, pin);
      && |r.traced| == |kept| + |pairs| && r.merged == s.merged + |pairs|
      && Untouched(s.traced, pin, r.traced[..|kept|], kept)
      && JoinedPairs(s.traced, pin, s.merged, r.traced[|kept|..], pairs)
  {
    kept := LeftAlone(s.traced, pin);
    pairs := JoinedInOrder(s.traced, pin, s.merged);
    var joins := JoinAll(Into(s.traced, pin), OutOf(s.traced, pin), pin, s.merged);
    var r := Eliminate(s, pin);
    assert r.traced[..|kept|] == Avoiding(s.traced, pin) && r.traced[|kept|..] == joins;
  }

  // ---- Ids -----------------------------------------------------------------------------------------------

  /** The id ends with the number that merged edges are given. */
  ghost predicate Numbered(id: string, n: nat) {
    exists prefix: string :: id == prefix + "__" + Decimal(n)
  }

  /** The last underscore of a numbered id stands before its number. */
  lemma NumberAtEnd(prefix: string, n: nat)
    ensures
      var id, size := prefix + "__" + Decimal(n), |Decimal(n)|;
      && id[|id| - size..] == Decimal(n) && id[|id| - size - 1] == '_'
      && forall i :: |id| - size <= i < |id| ==> id[i] != '_'
  {
    ParseDecimal(n);
  }

  lemma NumberedOnce(id: string, m: nat, n: nat)
    requires Numbered(id, m) && Numbered(id, n)
    ensures m == n
  {
    var p: string :| id == p + "__" + Decimal(m);
    var q: string :| id == q + "__" + Decimal(n);
    NumberAtEnd(p, m);
    NumberAtEnd(q, n);
    ParseDecimal(m);
    ParseDecimal(n);
    assert |Decimal(m)| == |Decimal(n)|;
  }

  /** An edge is an input edge, or it has one of the numbers handed out. */
  ghost predicate HasSerial(edges: seq<ExpansionEdge>, merged: nat, t: Traced, serial: nat) {
    if serial == 0 then |t.trail| == 1 && t.trail[0] < |edges| && t.edge.edge.id == edges[t.trail[0]].edge.id
    else serial <= merged && Numbered(t.edge.edge.id, serial)
  }

  /** No number is given twice, and no input edge occurs twice. */
  ghost predicate Serials(edges: seq<ExpansionEdge>, s: State, serials: seq<nat>) {
    && |serials| == |s.traced|
    && (forall k :: 0 <= k < |serials| ==> HasSerial(edges, s.merged, s.traced[k], serials[k]))
    && (forall i, j :: 0 <= i < j < |serials| && serials[i] == serials[j] ==>
          serials[i] == 0 && s.traced[i].trail != s.traced[j].trail)
  }

  /** The numbers after a round: those of the edges left alone, and the next ones. */
  function NextSerials(serials: seq<nat>, kept: seq<nat>, merged: nat, joined: nat): (r: seq<nat>)
    requires forall k :: 0 <= k < |kept| ==> kept[k] < |serials|
    ensures |r| == |kept| + joined && forall k :: 0 <= k < |kept| ==> r[k] == serials[kept[k]]
    ensures forall k :: |kept| <= k < |r| ==> r[k] == merged + (k - |kept|) + 1
  {
    seq(|kept| + joined, k requires 0 <= k => if k < |kept| then serials[kept[k]] else merged + (k - |kept|) + 1)
  }

  lemma JoinIsNumbered(traced: seq<Traced>, pin: string, number: nat, t: Traced, pair: Pair)
    requires JoinsPair(traced, traced, pin, number, t, pair)
    ensures Numbered(t.edge.edge.id, number)
  {
    var first := traced[pair.0].edge;
    assert t.edge.edge.id == (first.edge.id + "__" + Fragment(pin)) + "__" + Decimal(number);
  }

  lemma KeptSerial(edges: seq<ExpansionEdge>, s: State, serials: seq<nat>, pin: string, left: seq<Traced>,
                   kept: seq<nat>, merged: nat, k: nat)
    requires Serials(edges, s, serials) && Untouched(s.traced, pin, left, kept) && k < |kept| && s.merged <= merged
    ensures HasSerial(edges, merged, left[k], serials[kept[k]])
  {
    assert HasSerial(edges, s.merged, s.traced[kept[k]], serials[kept[k]]);
  }

  lemma JoinedSerial(edges: seq<ExpansionEdge>, s: State, pin: string, joins: seq<Traced>, pairs: seq<Pair>, k: nat)
    requires JoinedPairs(s.traced, pin, s.merged, joins, pairs) && k < |pairs|
    ensures HasSerial(edges, s.merged + |pairs|, joins[k], s.merged + k + 1)
  {
    JoinIsNumbered(s.traced, pin, s.merged + k + 1, joins[k], pairs[k]);
  }

  lemma SerialsCombined(edges: seq<ExpansionEdge>, serials: seq<nat>, before: nat, after: nat, left: seq<Traced>,
                        kept: seq<nat>, joins: seq<Traced>)
    requires |kept| == |left| && forall k :: 0 <= k < |kept| ==> kept[k] < |serials|
    requires forall k :: 0 <= k < |left| ==> HasSerial(edges, after, left[k], serials[kept[k]])
    requires forall k :: 0 <= k < |joins| ==> HasSerial(edges, after, joins[k], before + k + 1)
    ensures var next, all := NextSerials(serials, kept, before, |joins|), left + joins;
            forall k :: 0 <= k < |next| ==> HasSerial(edges, after, all[k], next[k])
  {
  }

  lemma SerialsNext(edges: seq<ExpansionEdge>, s: State, serials: seq<nat>, pin: string) returns (next: seq<nat>)
    requires Serials(edges, s, serials)
    ensures Serials(edges, Eliminate(s, pin), next)
  {
    var kept, pairs := RoundInOrder(s, pin);
    var left, joins := Eliminate(s, pin).traced[..|kept|], Eliminate(s, pin).traced[|kept|..];
    next := SerialsOfRound(edges, s, serials, pin, left, kept, joins, pairs);
    assert Eliminate(s, pin) == State(left + joins, s.merged + |pairs|);
  }

  lemma SerialsOfRound(edges: seq<ExpansionEdge>, s: State, serials: seq<nat>, pin: string, left: seq<Traced>,
                       kept: seq<nat>, joins: seq<Traced>, pairs: seq<Pair>)
    returns (next: seq<nat>)
    requires Serials(edges, s, serials)
    requires Untouched(s.traced, pin, left, kept) && JoinedPairs(s.traced, pin, s.merged, joins, pairs)
    ensures Serials(edges, State(left + joins, s.merged + |pairs|), next)
  {
    var after := s.merged + |pairs|;
    forall k | 0 <= k < |left| ensures HasSerial(edges, after, left[k], serials[kept[k]]) {
      KeptSerial(edges, s, serials, pin, left, kept, after, k);
    }
    forall k | 0 <= k < |joins| ensures HasSerial(edges, after, joins[k], s.merged + k + 1) {
      JoinedSerial(edges, s, pin, joins, pairs, k);
    }
    next := NextSerials(serials, kept, s.merged, |joins|);
    SerialsCombined(edges, serials, s.merged, after, left, kept, joins);
    SerialsDiffer(edges, s, serials, kept, next, State(left + joins, after), |joins|);
  }

  lemma SerialsDiffer(edges: seq<ExpansionEdge>, s: State, serials: seq<nat>, kept: seq<nat>, next: seq<nat>, r: State,
                      joined: nat)
    requires Serials(edges, s, serials) && |r.traced| == |kept| + joined && r.merged == s.merged + joined
    requires forall i, j :: 0 <= i < j < |kept| ==> kept[i] < kept[j]
    requires forall k :: 0 <= k < |kept| ==> kept[k] < |s.traced| && r.traced[k] == s.traced[kept[k]]
    requires next == NextSerials(serials, kept, s.merged, joined)
    ensures forall i, j :: 0 <= i < j < |next| && next[i] == next[j] ==>
              next[i] == 0 && r.traced[i].trail != r.traced[j].trail
  {
    forall i, j | 0 <= i < j < |next| && next[i] == next[j]
      ensures next[i] == 0 && r.traced[i].trail != r.traced[j].trail
    {
      if i < |kept| {
        assert HasSerial(edges, s.merged, s.traced[kept[i]], serials[kept[i]]);
      }
    }
  }

  lemma {:induction false} RunSerials(edges: seq<ExpansionEdge>, picks: seq<string>) returns (serials: seq<nat>)
    ensures Serials(edges, Run(Start(edges), picks), serials)
  {
    if picks == [] {
      serials := seq(|edges|, _ => 0);
      var s := Start(edges);
      assert forall k :: 0 <= k < |edges| ==> s.traced[k] == Traced(edges[k], [k]);
      forall i, j | 0 <= i < j < |serials| ensures s.traced[i].trail != s.traced[j].trail {
        assert s.traced[i].trail[0] == i && s.traced[j].trail[0] == j;
      }
    } else {
      var n := |picks| - 1;
      var before := RunSerials(edges, picks[..n]);
      serials := SerialsNext(edges, Run(Start(edges), picks[..n]), before, picks[n]);
    }
  }

  lemma IdsDiffer(edges: seq<ExpansionEdge>, s: State, serials: seq<nat>, a: nat, b: nat)
    requires Serials(edges, s, serials) && a < b < |s.traced|
    requires forall i, j :: 0 <= i < j < |edges| ==> edges[i].edge.id != edges[j].edge.id
    requires forall i, n :: 0 <= i < |edges| ==> !Numbered(edges[i].edge.id, n)
    ensures s.traced[a].edge.edge.id != s.traced[b].edge.edge.id
  {
    var t, u := s.traced[a], s.traced[b];
    assert HasSerial(edges, s.merged, t, serials[a]) && HasSerial(edges, s.merged, u, serials[b]);
    if serials[a] > 0 && serials[b] > 0 && t.edge.edge.id == u.edge.edge.id {
      NumberedOnce(t.edge.edge.id, serials[a], serials[b]);
    }
    if serials[a] == 0 && serials[b] == 0 {
      assert t.trail == [t.trail[0]] && u.trail == [u.trail[0]];
    }
  }

  /** If the edges have different ids, none of which ends like the id of a merged edge, then so have the
      edges of every result. */
  lemma MergedIdsDistinct(edges: seq<ExpansionEdge>, picks: seq<string>, i: nat, j: nat)
    requires forall i, j :: 0 <= i < j < |edges| ==> edges[i].edge.id != edges[j].edge.id
    requires forall i, n :: 0 <= i < |edges| ==> !Numbered(edges[i].edge.id, n)
    requires i < j < |Contracted(edges, picks)|
    ensures Contracted(edges, picks)[i].id != Contracted(edges, picks)[j].id
  {
    var s := Run(Start(edges), picks);
    var serials := RunSerials(edges, picks);
    var at := KeepPositions(OnEdge(Real()), s.traced);
    IdsDiffer(edges, s, serials, at[i], at[j]);
  }
}
