/** The edges produced while subpatches are being inlined. An endpoint is either a real port or a
    boundary pin that stands for an inlet or an outlet. */
module ExpansionEdges {
  import opened Basics

  datatype PortRef = PortRef(nodeId: string, portId: string)

  datatype Feedback = Feedback(enabled: bool, policy: string)

  /** The optional fields of an edge. Adapter and style are opaque payloads. */
  datatype Attributes = Attributes(
    resolvedType: Option<string>,
    order: Option<nat>,
    enabled: Option<bool>,
    adapter: Option<string>,
    feedback: Option<Feedback>,
    styleOverride: Option<string>,
    labelText: Option<string>,
    description: Option<string>)

  datatype EdgeSpec = EdgeSpec(id: string, source: PortRef, target: PortRef, attributes: Attributes)

  datatype Endpoint = Node(port: PortRef) | Boundary(pin: string)

  datatype ExpansionEdge = ExpansionEdge(edge: EdgeSpec, source: Endpoint, target: Endpoint)

  /** A walk is a list of edge positions in which consecutive edges meet at a boundary pin. */
  ghost predicate IsWalk(edges: seq<ExpansionEdge>, w: seq<nat>) {
    && |w| > 0
    && (forall k :: 0 <= k < |w| ==> w[k] < |edges|)
    && (forall k :: 0 <= k < |w| - 1 ==>
          edges[w[k]].target == edges[w[k + 1]].source && edges[w[k]].target.Boundary?)
  }

  ghost predicate WalkBetween(edges: seq<ExpansionEdge>, w: seq<nat>, s: Endpoint, t: Endpoint) {
    IsWalk(edges, w) && edges[w[0]].source == s && edges[w[|w| - 1]].target == t
  }

  /** Two endpoints are wired together when a walk leads from one to the other. */
  ghost predicate Wired(edges: seq<ExpansionEdge>, s: Endpoint, t: Endpoint) {
    exists w :: WalkBetween(edges, w, s, t)
  }

  /** Every boundary endpoint is one of the registered pins. */
  ghost predicate BoundaryClosed(edges: seq<ExpansionEdge>, pins: set<string>) {
    forall k :: 0 <= k < |edges| ==>
      && (edges[k].source.Boundary? ==> edges[k].source.pin in pins)
      && (edges[k].target.Boundary? ==> edges[k].target.pin in pins)
  }

  /** No walk leads from a boundary pin back to itself. */
  ghost predicate PinAcyclic(edges: seq<ExpansionEdge>) {
    forall w, p :: WalkBetween(edges, w, Boundary(p), Boundary(p)) ==> false
  }

  /** The fields of the merged edge: the target-side edge wins, the source-side edge fills gaps. */
  function Inherit(targetSide: Attributes, sourceSide: Attributes): Attributes {
    Attributes(
      Or(targetSide.resolvedType, sourceSide.resolvedType),
      Or(targetSide.order, sourceSide.order),
      Or(targetSide.enabled, sourceSide.enabled),
      Or(targetSide.adapter, sourceSide.adapter),
      Or(targetSide.feedback, sourceSide.feedback),
      Or(targetSide.styleOverride, sourceSide.styleOverride),
      Or(targetSide.labelText, sourceSide.labelText),
      Or(targetSide.description, sourceSide.description))
  }

  /** The value of one optional field nearest to the target end of a walk. */
  ghost predicate Nearest<T(!new)>(edges: seq<ExpansionEdge>, w: seq<nat>,
                                   field: Attributes -> Option<T>, r: Option<T>)
    requires IsWalk(edges, w)
  {
    match r
    case None => forall k :: 0 <= k < |w| ==> field(edges[w[k]].edge.attributes) == None
    case Some(_) =>
      exists k :: 0 <= k < |w| && field(edges[w[k]].edge.attributes) == r
                  && forall j :: k < j < |w| ==> field(edges[w[j]].edge.attributes) == None
  }

  /** Each of the eight optional fields is the defined value nearest the target end of the walk. */
  ghost predicate NearestFields(edges: seq<ExpansionEdge>, w: seq<nat>, a: Attributes)
    requires IsWalk(edges, w)
  {
    && Nearest(edges, w, (b: Attributes) => b.resolvedType, a.resolvedType)
    && Nearest(edges, w, (b: Attributes) => b.order, a.order)
    && Nearest(edges, w, (b: Attributes) => b.enabled, a.enabled)
    && Nearest(edges, w, (b: Attributes) => b.adapter, a.adapter)
    && Nearest(edges, w, (b: Attributes) => b.feedback, a.feedback)
    && Nearest(edges, w, (b: Attributes) => b.styleOverride, a.styleOverride)
    && Nearest(edges, w, (b: Attributes) => b.labelText, a.labelText)
    && Nearest(edges, w, (b: Attributes) => b.description, a.description)
  }

  lemma WalkAppend(edges: seq<ExpansionEdge>, v: seq<nat>, w: seq<nat>)
    requires IsWalk(edges, v) && IsWalk(edges, w)
    requires edges[v[|v| - 1]].target == edges[w[0]].source
    requires edges[w[0]].source.Boundary?
    ensures WalkBetween(edges, v + w, edges[v[0]].source, edges[w[|w| - 1]].target)
  {
  }

  lemma NearestAppend<T(!new)>(edges: seq<ExpansionEdge>, v: seq<nat>, w: seq<nat>,
                               field: Attributes -> Option<T>, near: Option<T>, far: Option<T>)
    requires IsWalk(edges, v) && IsWalk(edges, w) && IsWalk(edges, v + w)
    requires Nearest(edges, v, field, far) && Nearest(edges, w, field, near)
    ensures Nearest(edges, v + w, field, Or(near, far))
  {
    var u := v + w;
    if near.Some? {
      var k :| 0 <= k < |w| && field(edges[w[k]].edge.attributes) == near
               && forall j :: k < j < |w| ==> field(edges[w[j]].edge.attributes) == None;
      assert u[|v| + k] == w[k];
      forall j | |v| + k < j < |u| ensures field(edges[u[j]].edge.attributes) == None {
        assert u[j] == w[j - |v|];
      }
    } else {
      forall j | |v| <= j < |u| ensures field(edges[u[j]].edge.attributes) == None {
        assert u[j] == w[j - |v|];
      }
      if far.Some? {
        var k :| 0 <= k < |v| && field(edges[v[k]].edge.attributes) == far
                 && forall j :: k < j < |v| ==> field(edges[v[j]].edge.attributes) == None;
        assert u[k] == v[k];
        forall j | k < j < |u| ensures field(edges[u[j]].edge.attributes) == None {
          if j < |v| { assert u[j] == v[j]; }
        }
      } else {
        forall j | 0 <= j < |u| ensures field(edges[u[j]].edge.attributes) == None {
          if j < |v| { assert u[j] == v[j]; }
        }
      }
    }
  }

  /** Appending walks and filling the target side's gaps from the source side go together. */
  lemma NearestFieldsAppend(edges: seq<ExpansionEdge>, v: seq<nat>, w: seq<nat>, far: Attributes, near: Attributes)
    requires IsWalk(edges, v) && IsWalk(edges, w) && IsWalk(edges, v + w)
    requires NearestFields(edges, v, far) && NearestFields(edges, w, near)
    ensures NearestFields(edges, v + w, Inherit(near, far))
  {
    NearestAppend(edges, v, w, (b: Attributes) => b.resolvedType, near.resolvedType, far.resolvedType);
    NearestAppend(edges, v, w, (b: Attributes) => b.order, near.order, far.order);
    NearestAppend(edges, v, w, (b: Attributes) => b.enabled, near.enabled, far.enabled);
    NearestAppend(edges, v, w, (b: Attributes) => b.adapter, near.adapter, far.adapter);
    NearestAppend(edges, v, w, (b: Attributes) => b.feedback, near.feedback, far.feedback);
    NearestAppend(edges, v, w, (b: Attributes) => b.styleOverride, near.styleOverride, far.styleOverride);
    NearestAppend(edges, v, w, (b: Attributes) => b.labelText, near.labelText, far.labelText);
    NearestAppend(edges, v, w, (b: Attributes) => b.description, near.description, far.description);
  }
}

/** The elimination of boundary pins, as a function of the pin chosen at each round. An edge is
    carried together with the positions of the input edges it was merged from. */
module Contraction {
  import opened Basics
  import opened ExpansionEdges

  datatype Traced = Traced(edge: ExpansionEdge, trail: seq<nat>)

  /** The edges left, and the number of merged edges made so far. */
  datatype State = State(traced: seq<Traced>, merged: nat)

  function Edges(traced: seq<Traced>): (r: seq<ExpansionEdge>)
    ensures |r| == |traced| && forall k :: 0 <= k < |r| ==> r[k] == traced[k].edge
  {
    seq(|traced|, k requires 0 <= k < |traced| => traced[k].edge)
  }

  function Start(edges: seq<ExpansionEdge>): (r: State)
    ensures |r.traced| == |edges|
    ensures forall k :: 0 <= k < |edges| ==> r.traced[k] == Traced(edges[k], [k])
  {
    State(seq(|edges|, k requires 0 <= k < |edges| => Traced(edges[k], [k])), 0)
  }

  predicate Touches(edge: ExpansionEdge, pin: string) {
    edge.source == Boundary(pin) || edge.target == Boundary(pin)
  }

  predicate HasIncoming(edges: seq<ExpansionEdge>, pin: string) {
    exists k :: 0 <= k < |edges| && edges[k].target == Boundary(pin)
  }

  predicate HasOutgoing(edges: seq<ExpansionEdge>, pin: string) {
    exists k :: 0 <= k < |edges| && edges[k].source == Boundary(pin)
  }

  /** A pin that still has edges on both sides. */
  predicate Live(edges: seq<ExpansionEdge>, pin: string) {
    HasIncoming(edges, pin) && HasOutgoing(edges, pin)
  }

  function Enters(pin: string): ExpansionEdge -> bool {
    (e: ExpansionEdge) => e.target == Boundary(pin)
  }

  function Leaves(pin: string): ExpansionEdge -> bool {
    (e: ExpansionEdge) => e.source == Boundary(pin)
  }

  function Avoids(pin: string): ExpansionEdge -> bool {
    (e: ExpansionEdge) => !Touches(e, pin)
  }

  function OnEdge(p: ExpansionEdge -> bool): Traced -> bool {
    (t: Traced) => p(t.edge)
  }

  function Into(traced: seq<Traced>, pin: string): seq<Traced> {
    Keep(OnEdge(Enters(pin)), traced)
  }

  function OutOf(traced: seq<Traced>, pin: string): seq<Traced> {
    Keep(OnEdge(Leaves(pin)), traced)
  }

  function Avoiding(traced: seq<Traced>, pin: string): seq<Traced> {
    Keep(OnEdge(Avoids(pin)), traced)
  }

  /** The pin's name without the characters that names are composed with. */
  function Fragment(pin: string): (r: string)
    ensures |r| == |pin|
    ensures forall k :: 0 <= k < |r| ==> if pin[k] in ":@/\\ " then r[k] == '_' else r[k] == pin[k]
  {
    seq(|pin|, k requires 0 <= k < |pin| =>
      if pin[k] == ':' || pin[k] == '@' || pin[k] == '/' || pin[k] == '\\' || pin[k] == ' ' then '_' else pin[k])
  }

  function MergeEdges(first: ExpansionEdge, second: ExpansionEdge, pin: string, index: nat): ExpansionEdge {
    var id := first.edge.id + "__" + Fragment(pin) + "__" + Decimal(index);
    ExpansionEdge(
      second.edge.(id := id, attributes := Inherit(second.edge.attributes, first.edge.attributes)),
      first.source,
      second.target)
  }

  function Merge(first: Traced, second: Traced, pin: string, index: nat): Traced {
    Traced(MergeEdges(first.edge, second.edge, pin, index), first.trail + second.trail)
  }

  /** One incoming edge joined with every outgoing edge, except where that would make a loop. */
  function JoinOne(first: Traced, outgoing: seq<Traced>, pin: string, merged: nat): seq<Traced> {
    if outgoing == [] then [] else
      var n := |outgoing| - 1;
      var before := JoinOne(first, outgoing[..n], pin, merged);
      if first.edge.source == outgoing[n].edge.target then before
      else before + [Merge(first, outgoing[n], pin, merged + |before| + 1)]
  }

  function JoinAll(incoming: seq<Traced>, outgoing: seq<Traced>, pin: string, merged: nat): seq<Traced> {
    if incoming == [] then [] else
      var n := |incoming| - 1;
      var before := JoinAll(incoming[..n], outgoing, pin, merged);
      before + JoinOne(incoming[n], outgoing, pin, merged + |before|)
  }

  /** One round of the elimination. */
  function Eliminate(s: State, pin: string): State {
    var joined := JoinAll(Into(s.traced, pin), OutOf(s.traced, pin), pin, s.merged);
    State(Avoiding(s.traced, pin) + joined, s.merged + |joined|)
  }

  /** The state after eliminating the given pins in order. */
  function Run(s: State, picks: seq<string>): State {
    if picks == [] then s else Eliminate(Run(s, picks[..|picks| - 1]), picks[|picks| - 1])
  }

  /** Each pin was registered and live when it was picked. */
  ghost predicate Legal(s: State, pins: set<string>, picks: seq<string>) {
    picks == [] ||
    (var n := |picks| - 1;
     && Legal(s, pins, picks[..n])
     && picks[n] in pins
     && Live(Edges(Run(s, picks[..n]).traced), picks[n]))
  }

  /** A legal choice of pins after which no registered pin is live. */
  ghost predicate Complete(edges: seq<ExpansionEdge>, pins: set<string>, picks: seq<string>) {
    && Legal(Start(edges), pins, picks)
    && forall pin :: pin in pins ==> !Live(Edges(Run(Start(edges), picks).traced), pin)
  }

  predicate IsReal(edge: ExpansionEdge) {
    edge.source.Node? && edge.target.Node?
  }

  function Real(): ExpansionEdge -> bool {
    (e: ExpansionEdge) => IsReal(e)
  }

  function RealTraces(traced: seq<Traced>): seq<Traced> {
    Keep(OnEdge(Real()), traced)
  }

  function RealEdge(edge: ExpansionEdge): EdgeSpec
    requires edge.source.Node? && edge.target.Node?
  {
    edge.edge.(source := edge.source.port, target := edge.target.port)
  }

  /** The result of the contraction for one choice of pins: the edges between real ports. */
  function Contracted(edges: seq<ExpansionEdge>, picks: seq<string>): (r: seq<EdgeSpec>)
    ensures var kept := RealTraces(Run(Start(edges), picks).traced);
            |r| == |kept| && forall k :: 0 <= k < |r| ==>
              kept[k].edge.source.Node? && kept[k].edge.target.Node? && r[k] == RealEdge(kept[k].edge)
  {
    var kept := RealTraces(Run(Start(edges), picks).traced);
    assert forall k :: 0 <= k < |kept| ==> kept[k] in kept;
    seq(|kept|, k requires 0 <= k < |kept| => RealEdge(kept[k].edge))
  }

  // ---- What one round contains -------------------------------------------------------------

  lemma {:induction false} JoinOneFrom(first: Traced, outgoing: seq<Traced>, pin: string, merged: nat, t: Traced)
    returns (second: Traced, index: nat)
    requires t in JoinOne(first, outgoing, pin, merged)
    ensures second in outgoing && first.edge.source != second.edge.target
    ensures t == Merge(first, second, pin, index)
  {
    var n := |outgoing| - 1;
    var before := JoinOne(first, outgoing[..n], pin, merged);
    if t in before {
      second, index := JoinOneFrom(first, outgoing[..n], pin, merged, t);
    } else {
      second, index := outgoing[n], merged + |before| + 1;
    }
  }

  lemma {:induction false} JoinAllFrom(incoming: seq<Traced>, outgoing: seq<Traced>, pin: string, merged: nat,
                                       t: Traced)
    returns (first: Traced, second: Traced, index: nat)
    requires t in JoinAll(incoming, outgoing, pin, merged)
    ensures first in incoming && second in outgoing && first.edge.source != second.edge.target
    ensures t == Merge(first, second, pin, index)
  {
    var n := |incoming| - 1;
    var before := JoinAll(incoming[..n], outgoing, pin, merged);
    if t in before {
      first, second, index := JoinAllFrom(incoming[..n], outgoing, pin, merged, t);
    } else {
      first := incoming[n];
      second, index := JoinOneFrom(first, outgoing, pin, merged + |before|, t);
    }
  }

  /** Every edge after a round was there before and avoids the pin, or joins two edges at it. */
  lemma AfterRound(s: State, pin: string, t: Traced)
    returns (first: Traced, second: Traced, index: nat)
    requires t in Eliminate(s, pin).traced
    ensures (t in s.traced && !Touches(t.edge, pin)) ||
            (&& first in s.traced && second in s.traced
             && first.edge.target == Boundary(pin) && second.edge.source == Boundary(pin)
             && first.edge.source != second.edge.target
             && t == Merge(first, second, pin, index))
  {
    if t in Avoiding(s.traced, pin) {
      first, second, index := t, t, 0;
    } else {
      first, second, index := JoinAllFrom(Into(s.traced, pin), OutOf(s.traced, pin), pin, s.merged, t);
    }
  }

  lemma {:induction false} JoinOneHas(first: Traced, outgoing: seq<Traced>, pin: string, merged: nat, second: Traced)
    returns (index: nat)
    requires second in outgoing && first.edge.source != second.edge.target
    ensures Merge(first, second, pin, index) in JoinOne(first, outgoing, pin, merged)
  {
    var n := |outgoing| - 1;
    if second in outgoing[..n] {
      index := JoinOneHas(first, outgoing[..n], pin, merged, second);
    } else {
      assert outgoing == outgoing[..n] + [outgoing[n]];
      index := merged + |JoinOne(first, outgoing[..n], pin, merged)| + 1;
    }
  }

  lemma {:induction false} JoinAllHas(incoming: seq<Traced>, outgoing: seq<Traced>, pin: string, merged: nat,
                                      first: Traced, second: Traced)
    returns (index: nat)
    requires first in incoming && second in outgoing && first.edge.source != second.edge.target
    ensures Merge(first, second, pin, index) in JoinAll(incoming, outgoing, pin, merged)
  {
    var n := |incoming| - 1;
    if first in incoming[..n] {
      index := JoinAllHas(incoming[..n], outgoing, pin, merged, first, second);
    } else {
      assert incoming == incoming[..n] + [incoming[n]];
      index := JoinOneHas(first, outgoing, pin, merged + |JoinAll(incoming[..n], outgoing, pin, merged)|, second);
    }
  }

  // ---- Every edge kept during the run stands for a walk of the input ----------------------------

  /** The edge runs between the ends of its trail, and carries the trail's nearest fields. */
  ghost predicate Justified(edges: seq<ExpansionEdge>, t: Traced) {
    && WalkBetween(edges, t.trail, t.edge.source, t.edge.target)
    && NearestFields(edges, t.trail, t.edge.edge.attributes)
  }

  lemma SingleEdgeFields(edges: seq<ExpansionEdge>, k: nat)
    requires k < |edges|
    ensures NearestFields(edges, [k], edges[k].edge.attributes)
  {
    SingleEdgeField(edges, k, (b: Attributes) => b.resolvedType);
    SingleEdgeField(edges, k, (b: Attributes) => b.order);
    SingleEdgeField(edges, k, (b: Attributes) => b.enabled);
    SingleEdgeField(edges, k, (b: Attributes) => b.adapter);
    SingleEdgeField(edges, k, (b: Attributes) => b.feedback);
    SingleEdgeField(edges, k, (b: Attributes) => b.styleOverride);
    SingleEdgeField(edges, k, (b: Attributes) => b.labelText);
    SingleEdgeField(edges, k, (b: Attributes) => b.description);
  }

  lemma SingleEdgeField<T(!new)>(edges: seq<ExpansionEdge>, k: nat, field: Attributes -> Option<T>)
    requires k < |edges|
    ensures Nearest(edges, [k], field, field(edges[k].edge.attributes))
  {
    var w := [k];
    assert field(edges[w[0]].edge.attributes) == field(edges[k].edge.attributes);
  }

  lemma {:induction false} RunJustified(edges: seq<ExpansionEdge>, picks: seq<string>, t: Traced)
    requires t in Run(Start(edges), picks).traced
    ensures Justified(edges, t)
    decreases |picks|
  {
    if picks == [] {
      var k :| 0 <= k < |edges| && t == Start(edges).traced[k];
      SingleEdgeFields(edges, k);
    } else {
      var n := |picks| - 1;
      var s := Run(Start(edges), picks[..n]);
      var first, second, index := AfterRound(s, picks[n], t);
      if t in s.traced {
        RunJustified(edges, picks[..n], t);
      } else {
        RunJustified(edges, picks[..n], first);
        RunJustified(edges, picks[..n], second);
        WalkAppend(edges, first.trail, second.trail);
        NearestFieldsAppend(edges, first.trail, second.trail,
                            first.edge.edge.attributes, second.edge.edge.attributes);
      }
    }
  }

  // ---- Nothing between two different ends is lost -------------------------------------------------

  /** A walk over the edges of an intermediate state. */
  ghost predicate Chain(traced: seq<Traced>, es: seq<Traced>) {
    && |es| > 0
    && (forall k :: 0 <= k < |es| ==> es[k] in traced)
    && (forall k :: 0 <= k < |es| - 1 ==> es[k].edge.target == es[k + 1].edge.source && es[k].edge.target.Boundary?)
  }

  function From(es: seq<Traced>): Endpoint
    requires |es| > 0
  {
    es[0].edge.source
  }

  function To(es: seq<Traced>): Endpoint
    requires |es| > 0
  {
    es[|es| - 1].edge.target
  }

  function Trail(es: seq<Traced>): seq<nat> {
    if es == [] then [] else es[0].trail + Trail(es[1..])
  }

  /** No stretch of the chain ends where it began. */
  ghost predicate Straight(es: seq<Traced>) {
    forall a, b :: 0 <= a <= b < |es| ==> es[a].edge.source != es[b].edge.target
  }

  lemma ChainRest(traced: seq<Traced>, es: seq<Traced>)
    requires Chain(traced, es) && |es| > 1
    ensures Chain(traced, es[1..]) && From(es[1..]) == es[0].edge.target && To(es[1..]) == To(es)
    ensures Straight(es) ==> Straight(es[1..])
  {
  }

  lemma ChainCons(traced: seq<Traced>, t: Traced, es: seq<Traced>)
    requires t in traced && Chain(traced, es)
    requires t.edge.target == From(es) && t.edge.target.Boundary?
    ensures Chain(traced, [t] + es) && From([t] + es) == t.edge.source && To([t] + es) == To(es)
    ensures Trail([t] + es) == t.trail + Trail(es)
  {
  }

  lemma ChainOne(traced: seq<Traced>, t: Traced)
    requires t in traced
    ensures Chain(traced, [t]) && Trail([t]) == t.trail
  {
    assert [t][1..] == [];
    assert Trail([t]) == t.trail + [];
  }

  /** A chain between ends other than the eliminated pin survives the round, unless its two ends
      coincide. A straight chain survives with its whole trail. */
  lemma {:induction false} ChainSurvives(s: State, pin: string, es: seq<Traced>) returns (es': seq<Traced>)
    requires Chain(s.traced, es)
    requires From(es) != Boundary(pin) && To(es) != Boundary(pin)
    ensures From(es) == To(es) ||
            (Chain(Eliminate(s, pin).traced, es') && From(es') == From(es) && To(es') == To(es))
    ensures Straight(es) ==> From(es) != To(es) && Trail(es') == Trail(es)
    decreases |es|
  {
    var after := Eliminate(s, pin).traced;
    var e := es[0];
    if e.edge.target != Boundary(pin) {
      assert e in after;
      ChainOne(after, e);
      if |es| == 1 {
        assert es == [e];
        es' := [e];
      } else {
        ChainRest(s.traced, es);
        var rest := ChainSurvives(s, pin, es[1..]);
        if From(es[1..]) == To(es) {
          es' := [e];
        } else {
          ChainCons(after, e, rest);
          es' := [e] + rest;
        }
      }
    } else {
      es' := ChainSurvivesThroughPin(s, pin, es);
    }
  }

  lemma ChainRestTwo(traced: seq<Traced>, es: seq<Traced>)
    requires Chain(traced, es) && |es| > 2
    ensures Chain(traced, es[2..]) && From(es[2..]) == es[1].edge.target && To(es[2..]) == To(es)
    ensures From(es[2..]).Boundary?
    ensures Straight(es) ==> Straight(es[2..])
  {
    assert es[1..][1..] == es[2..];
    ChainRest(traced, es);
    ChainRest(traced, es[1..]);
  }

  lemma TrailTwo(es: seq<Traced>)
    requires |es| >= 2
    ensures Trail(es) == es[0].trail + es[1].trail + Trail(es[2..])
  {
    assert es[1..][1..] == es[2..];
    assert Trail(es[1..]) == es[1].trail + Trail(es[2..]);
    assert es[0].trail + (es[1].trail + Trail(es[2..])) == es[0].trail + es[1].trail + Trail(es[2..]);
  }

  /** The two edges meeting at the pin are replaced by the edge merged from them. */
  lemma JoinedChain(s: State, pin: string, e: Traced, f: Traced, tail: seq<Traced>, rest: seq<Traced>)
    returns (es': seq<Traced>)
    requires e in s.traced && f in s.traced
    requires e.edge.target == Boundary(pin) == f.edge.source && e.edge.source != f.edge.target
    requires |tail| > 0 ==> f.edge.target == From(tail) && f.edge.target.Boundary?
    requires |tail| > 0 && From(tail) != To(tail) ==>
               Chain(Eliminate(s, pin).traced, rest) && From(rest) == From(tail) && To(rest) == To(tail)
    ensures Chain(Eliminate(s, pin).traced, es') && From(es') == e.edge.source
    ensures To(es') == if |tail| > 0 then To(tail) else f.edge.target
    ensures |tail| > 0 && From(tail) != To(tail) && Trail(rest) == Trail(tail) ==>
              Trail(es') == e.trail + f.trail + Trail(tail)
    ensures |tail| == 0 ==> Trail(es') == e.trail + f.trail
  {
    var index := JoinAllHas(Into(s.traced, pin), OutOf(s.traced, pin), pin, s.merged, e, f);
    var m := Merge(e, f, pin, index);
    assert m in Eliminate(s, pin).traced;
    ChainOne(Eliminate(s, pin).traced, m);
    es' := [m];
    if |tail| > 0 && From(tail) != To(tail) {
      ChainCons(Eliminate(s, pin).traced, m, rest);
      es' := [m] + rest;
    }
  }

  lemma {:induction false} ChainSurvivesThroughPin(s: State, pin: string, es: seq<Traced>) returns (es': seq<Traced>)
    requires Chain(s.traced, es)
    requires From(es) != Boundary(pin) && To(es) != Boundary(pin) && es[0].edge.target == Boundary(pin)
    ensures From(es) == To(es) ||
            (Chain(Eliminate(s, pin).traced, es') && From(es') == From(es) && To(es') == To(es))
    ensures Straight(es) ==> From(es) != To(es) && Trail(es') == Trail(es)
    decreases |es|, 0
  {
    var e, f, tail := es[0], es[1], es[2..];
    TrailTwo(es);
    if |es| > 2 {
      ChainRestTwo(s.traced, es);
    }
    if f.edge.target == Boundary(pin) {
      // A loop at the pin adds nothing to the chain.
      assert !Straight(es) by { assert es[1].edge.source == es[1].edge.target; }
      ChainCons(s.traced, e, tail);
      es' := ChainSurvivesThroughPin(s, pin, [e] + tail);
    } else if e.edge.source == f.edge.target {
      assert !Straight(es) by { assert es[0].edge.source == es[1].edge.target; }
      es' := es;
      if |es| > 2 {
        es' := ChainSurvives(s, pin, tail);
      }
    } else {
      assert Straight(es) ==> es[0].edge.source != es[|es| - 1].edge.target;
      var rest := tail;
      if |es| > 2 {
        rest := ChainSurvives(s, pin, tail);
      }
      es' := JoinedChain(s, pin, e, f, tail, rest);
    }
  }

  lemma {:induction false} ChainWalk(edges: seq<ExpansionEdge>, picks: seq<string>, es: seq<Traced>)
    requires Chain(Run(Start(edges), picks).traced, es)
    ensures WalkBetween(edges, Trail(es), From(es), To(es))
    decreases |es|
  {
    var traced := Run(Start(edges), picks).traced;
    RunJustified(edges, picks, es[0]);
    if |es| == 1 {
      ChainOne(traced, es[0]);
      assert es == [es[0]];
    } else {
      ChainRest(traced, es);
      ChainWalk(edges, picks, es[1..]);
      WalkAppend(edges, es[0].trail, Trail(es[1..]));
    }
  }

  /** Without cycles of pins, a chain between two different ports never ends where it began. */
  lemma ChainStraight(edges: seq<ExpansionEdge>, picks: seq<string>, es: seq<Traced>)
    requires PinAcyclic(edges) && Chain(Run(Start(edges), picks).traced, es)
    requires From(es).Node? && To(es).Node? && From(es) != To(es)
    ensures Straight(es)
  {
    forall a, b | 0 <= a <= b < |es| ensures es[a].edge.source != es[b].edge.target {
      ChainEnds(Run(Start(edges), picks).traced, es, a, b);
      ChainPart(Run(Start(edges), picks).traced, es, a, b);
      ChainWalk(edges, picks, es[a..b + 1]);
      if es[a].edge.source.Boundary? {
        assert From(es[a..b + 1]) == Boundary(es[a].edge.source.pin);
      }
    }
  }

  /** A part of a chain that ends where it begins is the whole chain or runs from pin to pin. */
  lemma ChainEnds(traced: seq<Traced>, es: seq<Traced>, a: nat, b: nat)
    requires Chain(traced, es) && a <= b < |es|
    ensures a > 0 ==> es[a].edge.source.Boundary?
    ensures b < |es| - 1 ==> es[b].edge.target.Boundary?
  {
    if a > 0 {
      assert es[a - 1].edge.target == es[a - 1 + 1].edge.source;
    }
  }

  lemma ChainPart(traced: seq<Traced>, es: seq<Traced>, a: nat, b: nat)
    requires Chain(traced, es) && a <= b < |es|
    ensures Chain(traced, es[a..b + 1])
    ensures From(es[a..b + 1]) == es[a].edge.source && To(es[a..b + 1]) == es[b].edge.target
  {
    var part := es[a..b + 1];
    forall k | 0 <= k < |part| - 1
      ensures part[k].edge.target == part[k + 1].edge.source && part[k].edge.target.Boundary?
    {
      assert part[k] == es[a + k] && part[k + 1] == es[a + k + 1];
    }
  }

  lemma {:induction false} StartChain(edges: seq<ExpansionEdge>, w: seq<nat>) returns (es: seq<Traced>)
    requires IsWalk(edges, w)
    ensures Chain(Start(edges).traced, es) && Trail(es) == w
    ensures From(es) == edges[w[0]].source && To(es) == edges[w[|w| - 1]].target
    decreases |w|
  {
    var traced := Start(edges).traced;
    var first := traced[w[0]];
    ChainOne(traced, first);
    es := [first];
    if |w| == 1 {
      assert w == [w[0]];
    } else {
      forall k | 0 <= k < |w[1..]| - 1
        ensures edges[w[1..][k]].target == edges[w[1..][k + 1]].source && edges[w[1..][k]].target.Boundary?
      {
        assert w[1..][k] == w[k + 1] && w[1..][k + 1] == w[k + 2];
      }
      var rest := StartChain(edges, w[1..]);
      assert edges[w[0]].target == edges[w[0 + 1]].source;
      ChainCons(traced, first, rest);
      es := [first] + rest;
      assert w == [w[0]] + w[1..];
    }
  }

  /** A walk of the input between two different ports is still a chain after any run, with all of
      its edges when no pins form a cycle. */
  lemma {:induction false} WalkSurvives(edges: seq<ExpansionEdge>, picks: seq<string>, w: seq<nat>)
    returns (es: seq<Traced>)
    requires IsWalk(edges, w) && edges[w[0]].source.Node? && edges[w[|w| - 1]].target.Node?
    requires edges[w[0]].source != edges[w[|w| - 1]].target
    ensures Chain(Run(Start(edges), picks).traced, es)
    ensures From(es) == edges[w[0]].source && To(es) == edges[w[|w| - 1]].target
    ensures PinAcyclic(edges) ==> Trail(es) == w
    decreases |picks|
  {
    if picks == [] {
      es := StartChain(edges, w);
    } else {
      var n := |picks| - 1;
      var before := WalkSurvives(edges, picks[..n], w);
      if PinAcyclic(edges) {
        ChainStraight(edges, picks[..n], before);
      }
      es := ChainSurvives(Run(Start(edges), picks[..n]), picks[n], before);
    }
  }

  lemma LivePin(traced: seq<Traced>, a: Traced, b: Traced, pin: string)
    requires a in traced && b in traced && a.edge.target == Boundary(pin) && b.edge.source == Boundary(pin)
    ensures Live(Edges(traced), pin)
  {
    var i :| 0 <= i < |traced| && traced[i] == a;
    var j :| 0 <= j < |traced| && traced[j] == b;
    assert Edges(traced)[i].target == Boundary(pin) && Edges(traced)[j].source == Boundary(pin);
  }

  /** Once no registered pin is live, every chain between real ports is a single edge. */
  lemma CompleteChain(edges: seq<ExpansionEdge>, pins: set<string>, picks: seq<string>, es: seq<Traced>)
    requires BoundaryClosed(edges, pins) && Complete(edges, pins, picks)
    requires Chain(Run(Start(edges), picks).traced, es)
    ensures |es| == 1
  {
    var traced := Run(Start(edges), picks).traced;
    if |es| > 1 {
      var a, b := es[0], es[0 + 1];
      assert a.edge.target == b.edge.source && a.edge.target.Boundary?;
      RunJustified(edges, picks, a);
      assert a.edge.target.pin in pins;
      LivePin(traced, a, b, a.edge.target.pin);
    }
  }

  // ---- The main results ----------------------------------------------------------------------------

  ghost predicate Links(result: seq<EdgeSpec>, s: PortRef, t: PortRef) {
    exists e :: e in result && e.source == s && e.target == t
  }

  lemma ResultEdge(edges: seq<ExpansionEdge>, picks: seq<string>, e: EdgeSpec) returns (t: Traced)
    requires e in Contracted(edges, picks)
    ensures t in Run(Start(edges), picks).traced && Justified(edges, t)
    ensures t.edge.source == Node(e.source) && t.edge.target == Node(e.target)
    ensures e.attributes == t.edge.edge.attributes
  {
    var k :| 0 <= k < |Contracted(edges, picks)| && Contracted(edges, picks)[k] == e;
    t := RealTraces(Run(Start(edges), picks).traced)[k];
    assert t in RealTraces(Run(Start(edges), picks).traced);
    RunJustified(edges, picks, t);
  }

  lemma EdgeInResult(edges: seq<ExpansionEdge>, picks: seq<string>, t: Traced)
    requires t in Run(Start(edges), picks).traced && t.edge.source.Node? && t.edge.target.Node?
    ensures RealEdge(t.edge) in Contracted(edges, picks)
  {
    var k :| 0 <= k < |RealTraces(Run(Start(edges), picks).traced)|
        && RealTraces(Run(Start(edges), picks).traced)[k] == t;
    assert Contracted(edges, picks)[k] == RealEdge(t.edge);
  }

  /** Contraction preserves wiring: whatever pins are picked, two different ports are linked in the
      result exactly when a walk through boundary pins wires them in the input. */
  lemma ContractionPreservesWiring(edges: seq<ExpansionEdge>, pins: set<string>, picks: seq<string>,
                                   s: PortRef, t: PortRef)
    requires BoundaryClosed(edges, pins) && Complete(edges, pins, picks) && s != t
    ensures Links(Contracted(edges, picks), s, t) <==> Wired(edges, Node(s), Node(t))
  {
    if Links(Contracted(edges, picks), s, t) {
      var e :| e in Contracted(edges, picks) && e.source == s && e.target == t;
      var r := ResultEdge(edges, picks, e);
      assert WalkBetween(edges, r.trail, Node(s), Node(t));
    }
    if Wired(edges, Node(s), Node(t)) {
      var w :| WalkBetween(edges, w, Node(s), Node(t));
      var es := WalkSurvives(edges, picks, w);
      CompleteChain(edges, pins, picks, es);
      EdgeInResult(edges, picks, es[0]);
    }
  }

  lemma {:induction false} LoopsAreInputLoops(edges: seq<ExpansionEdge>, picks: seq<string>, t: Traced)
    requires t in Run(Start(edges), picks).traced && t.edge.source == t.edge.target
    ensures exists k :: 0 <= k < |edges| && edges[k] == t.edge
    decreases |picks|
  {
    if picks != [] {
      var n := |picks| - 1;
      var _, _, _ := AfterRound(Run(Start(edges), picks[..n]), picks[n], t);
      LoopsAreInputLoops(edges, picks[..n], t);
    }
  }

  lemma {:induction false} RealEdgeStays(edges: seq<ExpansionEdge>, picks: seq<string>, k: nat)
    requires k < |edges| && edges[k].source.Node? && edges[k].target.Node?
    ensures Traced(edges[k], [k]) in Run(Start(edges), picks).traced
    decreases |picks|
  {
    if picks == [] {
      assert Start(edges).traced[k] == Traced(edges[k], [k]);
    } else {
      var n := |picks| - 1;
      RealEdgeStays(edges, picks[..n], k);
      assert Traced(edges[k], [k]) in Avoiding(Run(Start(edges), picks[..n]).traced, picks[n]);
    }
  }

  /** An edge between real ports passes through unchanged, and a result edge from a port to itself
      is always such an input edge: feedback through pins only is dropped. */
  lemma DirectEdgesAndLoops(edges: seq<ExpansionEdge>, picks: seq<string>, s: PortRef)
    ensures forall k :: 0 <= k < |edges| && edges[k].source.Node? && edges[k].target.Node? ==>
              RealEdge(edges[k]) in Contracted(edges, picks)
    ensures Links(Contracted(edges, picks), s, s) <==>
              exists k :: 0 <= k < |edges| && edges[k].source == Node(s) && edges[k].target == Node(s)
  {
    forall k | 0 <= k < |edges| && edges[k].source.Node? && edges[k].target.Node?
      ensures RealEdge(edges[k]) in Contracted(edges, picks)
    {
      RealEdgeStays(edges, picks, k);
      EdgeInResult(edges, picks, Traced(edges[k], [k]));
    }
    if Links(Contracted(edges, picks), s, s) {
      var e :| e in Contracted(edges, picks) && e.source == s && e.target == s;
      var t := ResultEdge(edges, picks, e);
      LoopsAreInputLoops(edges, picks, t);
    }
    if k :| 0 <= k < |edges| && edges[k].source == Node(s) && edges[k].target == Node(s) {
      assert RealEdge(edges[k]) in Contracted(edges, picks);
    }
  }

  /** The linked pairs of ports do not depend on the order in which pins are eliminated. */
  lemma OrderIrrelevant(edges: seq<ExpansionEdge>, pins: set<string>, picks: seq<string>, picks': seq<string>,
                        s: PortRef, t: PortRef)
    requires BoundaryClosed(edges, pins) && Complete(edges, pins, picks) && Complete(edges, pins, picks')
    ensures Links(Contracted(edges, picks), s, t) <==> Links(Contracted(edges, picks'), s, t)
  {
    if s == t {
      DirectEdgesAndLoops(edges, picks, s);
      DirectEdgesAndLoops(edges, picks', s);
    } else {
      ContractionPreservesWiring(edges, pins, picks, s, t);
      ContractionPreservesWiring(edges, pins, picks', s, t);
    }
  }

  // ---- Walks and result edges correspond one to one --------------------------------------------------

  function Gone(picks: seq<string>): set<string> {
    if picks == [] then {} else Gone(picks[..|picks| - 1]) + {picks[|picks| - 1]}
  }

  /** The trail passes only through eliminated pins, and the edge ends at none of them. */
  ghost predicate Settled(edges: seq<ExpansionEdge>, t: Traced, gone: set<string>) {
    && WalkBetween(edges, t.trail, t.edge.source, t.edge.target)
    && (t.edge.source.Boundary? ==> t.edge.source.pin !in gone)
    && (t.edge.target.Boundary? ==> t.edge.target.pin !in gone)
    && forall k :: 0 <= k < |t.trail| - 1 ==> edges[t.trail[k]].target.Boundary? && edges[t.trail[k]].target.pin in gone
  }

  ghost predicate AllSettled(edges: seq<ExpansionEdge>, traced: seq<Traced>, gone: set<string>) {
    forall t :: t in traced ==> Settled(edges, t, gone)
  }

  ghost predicate DistinctTrails(traced: seq<Traced>) {
    forall i, j :: 0 <= i < j < |traced| ==> traced[i].trail != traced[j].trail
  }

  /** No trail is a prefix of another. */
  ghost predicate PrefixFree(traced: seq<Traced>) {
    forall i, j :: 0 <= i < |traced| && 0 <= j < |traced| && i != j ==> !(traced[i].trail <= traced[j].trail)
  }

  lemma {:induction false} DistinctKeep(p: Traced -> bool, traced: seq<Traced>)
    requires DistinctTrails(traced)
    ensures DistinctTrails(Keep(p, traced))
  {
    if traced != [] {
      var n := |traced| - 1;
      DistinctKeep(p, traced[..n]);
      DistinctLast(traced, Keep(p, traced[..n]));
    }
  }

  lemma DistinctLast(traced: seq<Traced>, part: seq<Traced>)
    requires DistinctTrails(traced) && |traced| > 0 && DistinctTrails(part)
    requires forall t :: t in part ==> t in traced[..|traced| - 1]
    ensures DistinctTrails(part + [traced[|traced| - 1]])
  {
    forall i | 0 <= i < |part| ensures part[i].trail != traced[|traced| - 1].trail {
      assert part[i] in part;
      var k :| 0 <= k < |traced| - 1 && traced[k] == part[i];
    }
  }

  lemma CancelLeft<T>(a: seq<T>, b: seq<T>, c: seq<T>)
    ensures a + b == a + c ==> b == c
  {
    assert b == (a + b)[|a|..];
    assert c == (a + c)[|a|..];
  }

  lemma SameStart<T>(a: seq<T>, b: seq<T>, c: seq<T>, d: seq<T>)
    ensures a + b == c + d ==> a <= c || c <= a
  {
    if |a| <= |c| {
      assert a == (a + b)[..|a|];
      assert c[..|a|] == (c + d)[..|a|];
    } else {
      assert c == (c + d)[..|c|];
      assert a[..|c|] == (a + b)[..|c|];
    }
  }

  lemma {:induction false} DistinctJoinOne(first: Traced, outgoing: seq<Traced>, pin: string, merged: nat)
    requires DistinctTrails(outgoing)
    ensures DistinctTrails(JoinOne(first, outgoing, pin, merged))
  {
    if outgoing != [] {
      var n := |outgoing| - 1;
      var before := JoinOne(first, outgoing[..n], pin, merged);
      DistinctJoinOne(first, outgoing[..n], pin, merged);
      forall i | 0 <= i < |before| ensures before[i].trail != first.trail + outgoing[n].trail {
        var second, index := JoinOneFrom(first, outgoing[..n], pin, merged, before[i]);
        var k :| 0 <= k < n && outgoing[k] == second;
        CancelLeft(first.trail, second.trail, outgoing[n].trail);
      }
    }
  }

  lemma JoinsDiffer(incoming: seq<Traced>, n: nat, outgoing: seq<Traced>, pin: string, merged: nat, merged': nat,
                    t: Traced, t': Traced)
    requires n < |incoming| && PrefixFree(incoming)
    requires t in JoinAll(incoming[..n], outgoing, pin, merged) && t' in JoinOne(incoming[n], outgoing, pin, merged')
    ensures t.trail != t'.trail
  {
    var a, b, _ := JoinAllFrom(incoming[..n], outgoing, pin, merged, t);
    var c, _ := JoinOneFrom(incoming[n], outgoing, pin, merged', t');
    var k :| 0 <= k < n && incoming[k] == a;
    SameStart(a.trail, b.trail, incoming[n].trail, c.trail);
  }

  lemma JoinsDistinct(incoming: seq<Traced>, n: nat, outgoing: seq<Traced>, pin: string, merged: nat, merged': nat)
    requires n < |incoming| && PrefixFree(incoming)
    requires DistinctTrails(JoinAll(incoming[..n], outgoing, pin, merged))
    requires DistinctTrails(JoinOne(incoming[n], outgoing, pin, merged'))
    ensures DistinctTrails(JoinAll(incoming[..n], outgoing, pin, merged) + JoinOne(incoming[n], outgoing, pin, merged'))
  {
    var before := JoinAll(incoming[..n], outgoing, pin, merged);
    var last := JoinOne(incoming[n], outgoing, pin, merged');
    forall i, j | 0 <= i < |before| && 0 <= j < |last| ensures before[i].trail != last[j].trail {
      JoinsDiffer(incoming, n, outgoing, pin, merged, merged', before[i], last[j]);
    }
    DistinctConcat(before, last);
  }

  lemma {:induction false} DistinctJoinAll(incoming: seq<Traced>, n: nat, outgoing: seq<Traced>, pin: string,
                                           merged: nat)
    requires n <= |incoming| && PrefixFree(incoming) && DistinctTrails(outgoing)
    ensures DistinctTrails(JoinAll(incoming[..n], outgoing, pin, merged))
    decreases n
  {
    if n > 0 {
      assert incoming[..n][..n - 1] == incoming[..n - 1];
      var before := JoinAll(incoming[..n - 1], outgoing, pin, merged);
      DistinctJoinAll(incoming, n - 1, outgoing, pin, merged);
      DistinctJoinOne(incoming[n - 1], outgoing, pin, merged + |before|);
      JoinsDistinct(incoming, n - 1, outgoing, pin, merged, merged + |before|);
    }
  }

  lemma DistinctConcat(a: seq<Traced>, b: seq<Traced>)
    requires DistinctTrails(a) && DistinctTrails(b)
    requires forall i, j :: 0 <= i < |a| && 0 <= j < |b| ==> a[i].trail != b[j].trail
    ensures DistinctTrails(a + b)
  {
  }

  /** A trail that arrives at a pin not yet eliminated is no prefix of another one. */
  lemma ArrivalsPrefixFree(edges: seq<ExpansionEdge>, traced: seq<Traced>, gone: set<string>, pin: string)
    requires AllSettled(edges, traced, gone) && pin !in gone
    requires DistinctTrails(traced)
    ensures PrefixFree(Into(traced, pin))
  {
    var incoming := Into(traced, pin);
    DistinctKeep(OnEdge(Enters(pin)), traced);
    forall i, j | 0 <= i < |incoming| && 0 <= j < |incoming| && i != j
      ensures !(incoming[i].trail <= incoming[j].trail)
    {
      var a, b := incoming[i], incoming[j];
      assert a in incoming && b in incoming;
      assert Settled(edges, a, gone) && Settled(edges, b, gone);
      NoPrefix(edges, a, b, gone, pin);
    }
  }

  lemma NoPrefix(edges: seq<ExpansionEdge>, a: Traced, b: Traced, gone: set<string>, pin: string)
    requires Settled(edges, a, gone) && Settled(edges, b, gone) && pin !in gone
    requires a.edge.target == Boundary(pin) && a.trail != b.trail
    ensures !(a.trail <= b.trail)
  {
    var k := |a.trail| - 1;
    assert edges[a.trail[k]].target == Boundary(pin);
    assert k < |b.trail| - 1 ==> edges[b.trail[k]].target.pin in gone;
  }

  lemma {:induction false} RunSettled(edges: seq<ExpansionEdge>, pins: set<string>, picks: seq<string>)
    requires PinAcyclic(edges) && Legal(Start(edges), pins, picks)
    ensures AllSettled(edges, Run(Start(edges), picks).traced, Gone(picks))
    ensures DistinctTrails(Run(Start(edges), picks).traced)
    decreases |picks|
  {
    if picks == [] {
      forall t | t in Start(edges).traced ensures Settled(edges, t, {}) {
        var k :| 0 <= k < |edges| && Start(edges).traced[k] == t;
      }
      StartDistinct(edges);
    } else {
      var n := |picks| - 1;
      RunSettled(edges, pins, picks[..n]);
      var s := Run(Start(edges), picks[..n]);
      var k :| 0 <= k < |s.traced| && Edges(s.traced)[k].target == Boundary(picks[n]);
      assert s.traced[k] in s.traced;
      assert Settled(edges, s.traced[k], Gone(picks[..n]));
      RoundSettled(edges, s, Gone(picks[..n]), picks[n]);
      RoundDistinct(edges, s, Gone(picks[..n]), picks[n]);
    }
  }

  lemma StartDistinct(edges: seq<ExpansionEdge>)
    ensures DistinctTrails(Start(edges).traced)
  {
    forall i, j | 0 <= i < j < |edges| ensures Start(edges).traced[i].trail != Start(edges).traced[j].trail {
      assert [i][0] != [j][0];
    }
  }

  lemma RoundSettled(edges: seq<ExpansionEdge>, s: State, gone: set<string>, pin: string)
    requires PinAcyclic(edges) && AllSettled(edges, s.traced, gone)
    ensures AllSettled(edges, Eliminate(s, pin).traced, gone + {pin})
  {
    forall t | t in Eliminate(s, pin).traced ensures Settled(edges, t, gone + {pin}) {
      var first, second, index := AfterRound(s, pin, t);
      if t in s.traced && !Touches(t.edge, pin) {
        assert Settled(edges, t, gone);
      } else {
        assert Settled(edges, first, gone) && Settled(edges, second, gone);
        MergedSettled(edges, gone, pin, first, second, index);
      }
    }
  }

  lemma RoundDistinct(edges: seq<ExpansionEdge>, s: State, gone: set<string>, pin: string)
    requires AllSettled(edges, s.traced, gone) && pin !in gone
    requires DistinctTrails(s.traced)
    ensures DistinctTrails(Eliminate(s, pin).traced)
  {
    DistinctKeep(OnEdge(Avoids(pin)), s.traced);
    ArrivalsPrefixFree(edges, s.traced, gone, pin);
    DistinctKeep(OnEdge(Leaves(pin)), s.traced);
    var kept := Avoiding(s.traced, pin);
    var joined := JoinAll(Into(s.traced, pin), OutOf(s.traced, pin), pin, s.merged);
    DistinctJoinAll(Into(s.traced, pin), |Into(s.traced, pin)|, OutOf(s.traced, pin), pin, s.merged);
    assert Into(s.traced, pin)[..|Into(s.traced, pin)|] == Into(s.traced, pin);
    forall i, j | 0 <= i < |kept| && 0 <= j < |joined| ensures kept[i].trail != joined[j].trail {
      var first, second, index := JoinAllFrom(Into(s.traced, pin), OutOf(s.traced, pin), pin, s.merged, joined[j]);
      assert kept[i] in kept;
      assert Settled(edges, kept[i], gone) && Settled(edges, first, gone) && Settled(edges, second, gone);
      PassesThrough(edges, kept[i], first, second, gone, pin);
    }
    DistinctConcat(kept, joined);
  }

  lemma PassesThrough(edges: seq<ExpansionEdge>, t: Traced, first: Traced, second: Traced, gone: set<string>,
                      pin: string)
    requires Settled(edges, t, gone) && Settled(edges, first, gone) && Settled(edges, second, gone) && pin !in gone
    requires first.edge.target == Boundary(pin)
    ensures t.trail != first.trail + second.trail
  {
    var at := |first.trail| - 1;
    assert (first.trail + second.trail)[at] == first.trail[at];
    assert at < |t.trail| - 1 ==> edges[t.trail[at]].target.pin in gone;
  }

  lemma MergedSettled(edges: seq<ExpansionEdge>, gone: set<string>, pin: string, first: Traced, second: Traced,
                      index: nat)
    requires PinAcyclic(edges) && Settled(edges, first, gone) && Settled(edges, second, gone)
    requires first.edge.target == Boundary(pin) && second.edge.source == Boundary(pin)
    ensures Settled(edges, Merge(first, second, pin, index), gone + {pin})
  {
  }

  ghost predicate WalkOf(edges: seq<ExpansionEdge>, e: EdgeSpec, w: seq<nat>) {
    WalkBetween(edges, w, Node(e.source), Node(e.target)) && NearestFields(edges, w, e.attributes)
  }

  /** When no pins form a cycle, the result edges between different ports correspond one to one to
      the walks of the input: each edge has its own walk, and every walk has an edge. The fields of
      an edge are those nearest the target end of its walk. */
  lemma WalksMatchResultEdges(edges: seq<ExpansionEdge>, pins: set<string>, picks: seq<string>)
    returns (walks: seq<seq<nat>>)
    requires PinAcyclic(edges) && BoundaryClosed(edges, pins) && Complete(edges, pins, picks)
    ensures |walks| == |Contracted(edges, picks)| && Distinct(walks)
    ensures forall k :: 0 <= k < |walks| ==> WalkOf(edges, Contracted(edges, picks)[k], walks[k])
    ensures forall w, s, t :: s != t && WalkBetween(edges, w, Node(s), Node(t)) ==> w in walks
  {
    var traced := Run(Start(edges), picks).traced;
    var kept := RealTraces(traced);
    walks := seq(|kept|, k requires 0 <= k < |kept| => kept[k].trail);
    RunSettled(edges, pins, picks);
    DistinctKeep(OnEdge(Real()), traced);
    forall k | 0 <= k < |kept| ensures WalkOf(edges, Contracted(edges, picks)[k], walks[k]) {
      assert kept[k] in kept;
      RunJustified(edges, picks, kept[k]);
    }
    forall w, s, t | s != t && WalkBetween(edges, w, Node(s), Node(t)) ensures w in walks {
      var k := WalkKept(edges, pins, picks, w);
      assert walks[k] == w;
    }
  }

  lemma WalkKept(edges: seq<ExpansionEdge>, pins: set<string>, picks: seq<string>, w: seq<nat>) returns (k: nat)
    requires PinAcyclic(edges) && BoundaryClosed(edges, pins) && Complete(edges, pins, picks)
    requires IsWalk(edges, w) && edges[w[0]].source.Node? && edges[w[|w| - 1]].target.Node?
    requires edges[w[0]].source != edges[w[|w| - 1]].target
    ensures k < |RealTraces(Run(Start(edges), picks).traced)|
            && RealTraces(Run(Start(edges), picks).traced)[k].trail == w
  {
    var es := WalkSurvives(edges, picks, w);
    CompleteChain(edges, pins, picks, es);
    ChainOne(Run(Start(edges), picks).traced, es[0]);
    assert es == [es[0]];
    k :| 0 <= k < |RealTraces(Run(Start(edges), picks).traced)|
        && RealTraces(Run(Start(edges), picks).traced)[k] == es[0];
  }

  /** Even with cycles of pins, every result edge stands for some walk and carries its fields. */
  lemma ResultFieldsAreNearest(edges: seq<ExpansionEdge>, picks: seq<string>, e: EdgeSpec)
    requires e in Contracted(edges, picks)
    ensures exists w :: WalkOf(edges, e, w)
  {
    var t := ResultEdge(edges, picks, e);
    assert WalkOf(edges, e, t.trail);
  }

  // ---- Termination -----------------------------------------------------------------------------

  function LoopedPins(edges: seq<ExpansionEdge>, pins: set<string>): set<string> {
    set p | p in pins && exists k ::
          0 <= k < |edges| && edges[k].source == Boundary(p) && edges[k].target == Boundary(p)
  }

  function LivePins(edges: seq<ExpansionEdge>, pins: set<string>): set<string> {
    set p | p in pins && Live(edges, p)
  }

  /** Pins with a loop count twice: once to drop the loop and once to go away. */
  function Work(edges: seq<ExpansionEdge>, pins: set<string>): nat {
    |LoopedPins(edges, pins)| + |LivePins(edges, pins)|
  }

  lemma EdgeBefore(s: State, pin: string, e: ExpansionEdge) returns (first: ExpansionEdge, second: ExpansionEdge)
    requires e in Edges(Eliminate(s, pin).traced)
    ensures first in Edges(s.traced) && second in Edges(s.traced)
    ensures e.source == first.source && e.target == second.target
    ensures e.source == e.target ==> e == first && !Touches(e, pin)
    ensures Touches(e, pin) ==> exists f :: f in Edges(s.traced) && f.source == f.target == Boundary(pin)
  {
    var after := Eliminate(s, pin).traced;
    var k :| 0 <= k < |after| && after[k].edge == e;
    var a, b, index := AfterRound(s, pin, after[k]);
    if after[k] in s.traced && !Touches(e, pin) {
      first, second := e, e;
      TracedEdge(s.traced, after[k]);
    } else {
      first, second := a.edge, b.edge;
      TracedEdge(s.traced, a);
      TracedEdge(s.traced, b);
    }
  }

  lemma TracedEdge(traced: seq<Traced>, t: Traced)
    requires t in traced
    ensures t.edge in Edges(traced)
  {
    var k :| 0 <= k < |traced| && traced[k] == t;
    assert Edges(traced)[k] == t.edge;
  }

  /** A round never makes a loop at a pin, and never gives a pin back a side it had lost. */
  lemma RoundShrinks(s: State, pins: set<string>, pin: string)
    ensures LoopedPins(Edges(Eliminate(s, pin).traced), pins) <= LoopedPins(Edges(s.traced), pins) - {pin}
    ensures LivePins(Edges(Eliminate(s, pin).traced), pins) <= LivePins(Edges(s.traced), pins)
    ensures pin !in LoopedPins(Edges(s.traced), pins) && pin in pins ==>
              pin !in LivePins(Edges(Eliminate(s, pin).traced), pins)
  {
    var before, after := Edges(s.traced), Edges(Eliminate(s, pin).traced);
    forall p | p in LoopedPins(after, pins) ensures p in LoopedPins(before, pins) - {pin} {
      var k :| 0 <= k < |after| && after[k].source == Boundary(p) && after[k].target == Boundary(p);
      var first, second := EdgeBefore(s, pin, after[k]);
    }
    forall p | p in LivePins(after, pins)
      ensures p in LivePins(before, pins) && (p == pin ==> pin in LoopedPins(before, pins))
    {
      var i :| 0 <= i < |after| && after[i].target == Boundary(p);
      var j :| 0 <= j < |after| && after[j].source == Boundary(p);
      var _, second := EdgeBefore(s, pin, after[i]);
      var first, _ := EdgeBefore(s, pin, after[j]);
    }
  }

  /** Each round of the elimination leaves less work, so it always ends. */
  lemma RoundReducesWork(s: State, pins: set<string>, pin: string)
    requires pin in pins && Live(Edges(s.traced), pin)
    ensures Work(Edges(Eliminate(s, pin).traced), pins) < Work(Edges(s.traced), pins)
  {
    var before, after := Edges(s.traced), Edges(Eliminate(s, pin).traced);
    RoundShrinks(s, pins, pin);
    SubsetSize(LoopedPins(after, pins), LoopedPins(before, pins));
    SubsetSize(LivePins(after, pins), LivePins(before, pins));
    assert pin in LivePins(before, pins);
  }

  /** A run eliminates a looped pin at most twice and any other pin at most once, in total. */
  lemma {:induction false} RunBounded(edges: seq<ExpansionEdge>, pins: set<string>, picks: seq<string>)
    requires Legal(Start(edges), pins, picks)
    ensures |picks| + Work(Edges(Run(Start(edges), picks).traced), pins) <= Work(edges, pins)
    decreases |picks|
  {
    if picks == [] {
      assert Edges(Start(edges).traced) == edges;
    } else {
      var n := |picks| - 1;
      RunBounded(edges, pins, picks[..n]);
      RoundReducesWork(Run(Start(edges), picks[..n]), pins, picks[n]);
    }
  }

  // ---- The contraction itself --------------------------------------------------------------------

  lemma {:induction false} KeepEdges(p: ExpansionEdge -> bool, traced: seq<Traced>)
    ensures Edges(Keep(OnEdge(p), traced)) == Keep(p, Edges(traced))
  {
    if traced != [] {
      var n := |traced| - 1;
      KeepEdges(p, traced[..n]);
      assert Edges(traced)[..n] == Edges(traced[..n]);
    }
  }

  lemma EdgesAppend(a: seq<Traced>, b: seq<Traced>)
    ensures Edges(a + b) == Edges(a) + Edges(b)
  {
  }

  /** Joins one incoming edge with every outgoing edge. */
  method JoinOneEdge(first: ExpansionEdge, outgoing: seq<ExpansionEdge>, pin: string, merged: nat,
                     ghost arriving: Traced, ghost leaving: seq<Traced>)
    returns (joined: seq<ExpansionEdge>)
    requires first == arriving.edge && outgoing == Edges(leaving)
    ensures joined == Edges(JoinOne(arriving, leaving, pin, merged))
  {
    joined := [];
    var j := 0;
    while j < |outgoing|
      invariant 0 <= j <= |outgoing|
      invariant joined == Edges(JoinOne(arriving, leaving[..j], pin, merged))
    {
      assert leaving[..j + 1][..j] == leaving[..j];
      if first.source != outgoing[j].target {
        joined := joined + [MergeEdges(first, outgoing[j], pin, merged + |joined| + 1)];
      }
      j := j + 1;
    }
    assert leaving[..j] == leaving;
  }

  lemma JoinAllStep(arriving: seq<Traced>, i: nat, leaving: seq<Traced>, pin: string, merged: nat)
    requires i < |arriving|
    ensures var before := JoinAll(arriving[..i], leaving, pin, merged);
            JoinAll(arriving[..i + 1], leaving, pin, merged) ==
                before + JoinOne(arriving[i], leaving, pin, merged + |before|)
  {
    assert arriving[..i + 1][..i] == arriving[..i];
  }

  /** The joins of the first edges into the pin. */
  ghost predicate JoinedFirst(arriving: seq<Traced>, i: nat, leaving: seq<Traced>, pin: string, merged: nat,
                              traced: seq<Traced>) {
    i <= |arriving| && traced == JoinAll(arriving[..i], leaving, pin, merged)
  }

  lemma JoinAllNext(arriving: seq<Traced>, i: nat, leaving: seq<Traced>, pin: string, merged: nat, traced: seq<Traced>)
    returns (next: seq<Traced>)
    requires i < |arriving| && JoinedFirst(arriving, i, leaving, pin, merged, traced)
    ensures next == JoinOne(arriving[i], leaving, pin, merged + |traced|)
    ensures JoinedFirst(arriving, i + 1, leaving, pin, merged, traced + next)
    ensures Edges(traced + next) == Edges(traced) + Edges(next) && |Edges(traced)| == |traced|
  {
    next := JoinOne(arriving[i], leaving, pin, merged + |traced|);
    JoinAllStep(arriving, i, leaving, pin, merged);
    EdgesAppend(traced, next);
  }

  /** Joins every incoming edge with every outgoing edge. */
  method JoinEdges(incoming: seq<ExpansionEdge>, outgoing: seq<ExpansionEdge>, pin: string, merged: nat,
                   ghost arriving: seq<Traced>, ghost leaving: seq<Traced>)
    returns (joined: seq<ExpansionEdge>)
    requires incoming == Edges(arriving) && outgoing == Edges(leaving)
    ensures joined == Edges(JoinAll(arriving, leaving, pin, merged))
  {
    joined := [];
    ghost var traced: seq<Traced> := [];
    var i := 0;
    while i < |incoming|
      invariant 0 <= i <= |incoming|
      invariant joined == Edges(traced) && JoinedFirst(arriving, i, leaving, pin, merged, traced)
    {
      ghost var next := JoinAllNext(arriving, i, leaving, pin, merged, traced);
      var more := JoinOneEdge(incoming[i], outgoing, pin, merged + |joined|, arriving[i], leaving);
      joined := joined + more;
      traced := traced + next;
      i := i + 1;
    }
    assert arriving[..i] == arriving;
  }

  /** Joins the edges at one pin in place of the edges that touch it. */
  method EliminatePin(edges: seq<ExpansionEdge>, pin: string, merged: nat, ghost s: State)
    returns (retained: seq<ExpansionEdge>, index: nat)
    requires edges == Edges(s.traced) && merged == s.merged
    ensures retained == Edges(Eliminate(s, pin).traced) && index == Eliminate(s, pin).merged
  {
    ghost var arriving, leaving := Into(s.traced, pin), OutOf(s.traced, pin);
    KeepEdges(Enters(pin), s.traced);
    KeepEdges(Leaves(pin), s.traced);
    KeepEdges(Avoids(pin), s.traced);
    EdgesAppend(Avoiding(s.traced, pin), JoinAll(arriving, leaving, pin, merged));
    var incoming := Keep(Enters(pin), edges);
    var outgoing := Keep(Leaves(pin), edges);
    var joined := JoinEdges(incoming, outgoing, pin, merged, arriving, leaving);
    retained := Keep(Avoids(pin), edges) + joined;
    index := merged + |joined|;
  }

  lemma LegalNext(s: State, pins: set<string>, picks: seq<string>, pin: string)
    requires Legal(s, pins, picks) && pin in pins && Live(Edges(Run(s, picks).traced), pin)
    ensures Legal(s, pins, picks + [pin]) && Run(s, picks + [pin]) == Eliminate(Run(s, picks), pin)
  {
    assert (picks + [pin])[..|picks|] == picks;
  }

  /** Eliminates live pins, in any order, until none is left, then keeps the edges between ports. */
  method ContractBoundaryEdges(input: seq<ExpansionEdge>, pins: set<string>) returns (result: seq<EdgeSpec>)
    ensures exists picks :: Complete(input, pins, picks) && result == Contracted(input, picks)
  {
    var edges, merged := input, 0;
    ghost var picks := [];
    assert edges == Edges(Start(input).traced);
    while exists pin :: pin in pins && Live(edges, pin)
      invariant Legal(Start(input), pins, picks)
      invariant edges == Edges(Run(Start(input), picks).traced) && merged == Run(Start(input), picks).merged
      decreases Work(edges, pins)
    {
      var pin :| pin in pins && Live(edges, pin);
      ghost var s := Run(Start(input), picks);
      RoundReducesWork(s, pins, pin);
      LegalNext(Start(input), pins, picks, pin);
      edges, merged := EliminatePin(edges, pin, merged, s);
      picks := picks + [pin];
    }
    assert Complete(input, pins, picks);
    var kept := Keep(Real(), edges);
    KeepEdges(Real(), Run(Start(input), picks).traced);
    assert forall k :: 0 <= k < |kept| ==> kept[k] in kept;
    result := seq(|kept|, k requires 0 <= k < |kept| => RealEdge(kept[k]));
    assert result == Contracted(input, picks);
  }
}
