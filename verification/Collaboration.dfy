/** The collaboration event log: a bounded store, replay with gap markers, and the live stream. */
module Collaboration {
  import opened Basics

  datatype Gap = Gap(expected: nat, actual: nat)

  /** An event as clients see it. A gap event repeats the payload of the earliest stored event. */
  datatype Event = Event(sequence: nat, payload: string, replayed: bool, gap: Option<Gap>)

  // ---- Specification -------------------------------------------------------------------------------

  /** The newest events that fit the limit. */
  function Newest(events: seq<Event>, limit: nat): (r: seq<Event>)
    ensures |r| == if |events| > limit then limit else |events|
  {
    if |events| > limit then events[|events| - limit..] else events
  }

  /** The stored events after a cursor, marked as replayed. */
  function ReplayedAfter(store: seq<Event>, after: nat): seq<Event> {
    if store == [] then [] else
      var n := |store| - 1;
      ReplayedAfter(store[..n], after) + if store[n].sequence > after then [store[n].(replayed := true)] else []
  }

  function GapEvent(first: Event, after: nat): Event {
    Event(after + 1, first.payload, true, Some(Gap(after + 1, first.sequence)))
  }

  function Replay(store: seq<Event>, after: Option<nat>): seq<Event> {
    match after
    case None => store
    case Some(a) =>
      var events := ReplayedAfter(store, a);
      if store != [] && a + 1 < store[0].sequence then [GapEvent(store[0], a)] + events else events
  }

  function HighWater(store: seq<Event>, nextSequence: nat): nat {
    if store != [] then store[|store| - 1].sequence
    else if nextSequence == 0 then 0 else nextSequence - 1
  }

  /** What the live stream yields: an event, or the number of events a slow receiver has missed. */
  datatype Received = Live(event: Event) | Lagged(skipped: nat)

  /** The gap event of a receiver that has missed some events; the earliest stored event stands for
      the one it goes on with. */
  function LagGap(store: seq<Event>, skipped: nat): Option<Event> {
    if store == [] then None else
      var actual := if store[0].sequence > 2 then store[0].sequence else 2;
      var missed := if skipped > 1 then skipped else 1;
      var expected := if actual > missed then actual - missed else 1;
      Some(Event(expected, store[0].payload, true, Some(Gap(expected, actual))))
  }

  /** What a client is sent for an item of the live stream. */
  function PassedOn(item: Received, store: seq<Event>, highWater: nat): Option<Event> {
    match item
    case Live(event) => if event.sequence <= highWater then None else Some(event)
    case Lagged(skipped) => LagGap(store, skipped)
  }

  /** What a client is sent for a run of live events. */
  function SentLive(events: seq<Event>, store: seq<Event>, highWater: nat): seq<Event> {
    if events == [] then [] else
      var n := |events| - 1;
      var sent := PassedOn(Live(events[n]), store, highWater);
      SentLive(events[..n], store, highWater) + if sent.Some? then [sent.value] else []
  }

  /** Events numbered from one without holes, as they were published. */
  ghost predicate Consecutive(history: seq<Event>) {
    forall i :: 0 <= i < |history| ==>
      history[i].sequence == i + 1 && !history[i].replayed && history[i].gap == None
  }

  lemma NewestPush(history: seq<Event>, limit: nat, event: Event)
    ensures Newest(Newest(history, limit) + [event], limit) == Newest(history + [event], limit)
  {
  }

  // ---- The log ---------------------------------------------------------------------------------------

  class CollaborationLog {
    var store: seq<Event>
    var nextSequence: nat
    var sent: seq<Event>
    const replayLimit: nat

    /** The broadcast channel needs room for at least one event. */
    constructor (replayLimit: nat)
      requires replayLimit >= 1
      ensures store == [] && sent == [] && nextSequence == 1 && this.replayLimit == replayLimit
      ensures UpToDate([])
    {
      this.replayLimit := replayLimit;
      store, nextSequence, sent := [], 1, [];
    }

    /** The log after the given events were published, each with the number reserved for it. */
    ghost predicate UpToDate(history: seq<Event>)
      reads this
    {
      && replayLimit >= 1 && Consecutive(history)
      && store == Newest(history, replayLimit) && nextSequence == |history| + 1 && sent == history
    }

    method ReserveSequence() returns (current: nat)
      modifies this`nextSequence
      ensures current == old(nextSequence) && nextSequence == old(nextSequence) + 1
    {
      current := nextSequence;
      nextSequence := nextSequence + 1;
    }

    method CurrentSequence() returns (current: nat)
      ensures current == if nextSequence == 0 then 0 else nextSequence - 1
    {
      current := if nextSequence == 0 then 0 else nextSequence - 1;
    }

    method Publish(event: Event)
      modifies this`store, this`sent
      ensures store == Newest(old(store) + [event], replayLimit) && sent == old(sent) + [event]
    {
      store := store + [event];
      ghost var full := store;
      while |store| > replayLimit
        invariant |full| >= |store| && store == full[|full| - |store|..]
        invariant |store| >= replayLimit || store == full
        invariant sent == old(sent)
      {
        store := store[1..];
      }
      sent := sent + [event];
    }

    /** Reserves a number and publishes under it, as one operation. */
    method PublishNext(payload: string, ghost history: seq<Event>) returns (event: Event)
      requires UpToDate(history)
      modifies this
      ensures event == Event(|history| + 1, payload, false, None)
      ensures UpToDate(history + [event])
    {
      var sequence := ReserveSequence();
      event := Event(sequence, payload, false, None);
      NewestPush(history, replayLimit, event);
      Publish(event);
    }

    /** What a reconnecting client is sent first, and the number up to which it is complete. */
    method CaptureReplay(after: Option<nat>) returns (events: seq<Event>, highWater: nat)
      ensures events == Replay(store, after) && highWater == HighWater(store, nextSequence)
    {
      if store == [] {
        highWater := CurrentSequence();
      } else {
        highWater := store[|store| - 1].sequence;
      }
      if after.None? {
        return store, highWater;
      }
      events := [];
      var k := 0;
      while k < |store|
        invariant 0 <= k <= |store|
        invariant events == ReplayedAfter(store[..k], after.value)
      {
        assert store[..k + 1][..k] == store[..k];
        if store[k].sequence > after.value {
          events := events + [store[k].(replayed := true)];
        }
        k := k + 1;
      }
      assert store[..k] == store;
      if store != [] && after.value + 1 < store[0].sequence {
        events := [GapEvent(store[0], after.value)] + events;
      }
    }

    method StreamLagGapEvent(skipped: nat) returns (event: Option<Event>)
      ensures event == LagGap(store, skipped)
    {
      if store == [] {
        return None;
      }
      var actual := if store[0].sequence > 2 then store[0].sequence else 2;
      var missed := if skipped > 1 then skipped else 1;
      var expected := if actual - missed > 1 then actual - missed else 1;
      event := Some(Event(expected, store[0].payload, true, Some(Gap(expected, actual))));
    }

    method FilterLive(item: Received, highWater: nat) returns (event: Option<Event>)
      ensures event == PassedOn(item, store, highWater)
    {
      match item {
        case Live(e) =>
          event := if e.sequence <= highWater then None else Some(e);
        case Lagged(skipped) =>
          event := StreamLagGapEvent(skipped);
      }
    }
  }

  // ---- Nothing is lost silently ------------------------------------------------------------------------

  /** The events are the published ones with the numbers from `first` to the end of the history. */
  ghost predicate ReplaysFrom(events: seq<Event>, history: seq<Event>, first: nat) {
    && 1 <= first <= |history| + 1 && |events| == |history| + 1 - first
    && forall i :: 0 <= i < |events| ==> events[i] == history[first - 1 + i].(replayed := true)
  }

  lemma {:induction false} ReplayedSuffix(history: seq<Event>, lo: nat, hi: nat, after: nat)
    requires Consecutive(history) && lo <= hi <= |history|
    ensures var events := ReplayedAfter(history[lo..hi], after);
            var first := if after > lo then after else lo;
            && |events| == (if first <= hi then hi - first else 0)
            && forall i :: 0 <= i < |events| ==> events[i] == history[first + i].(replayed := true)
    decreases hi
  {
    if hi > lo {
      assert history[lo..hi][..hi - lo - 1] == history[lo..hi - 1];
      ReplayedSuffix(history, lo, hi - 1, after);
    }
  }

  /** The number of the earliest event a log still holds. */
  function Earliest(published: nat, limit: nat): nat {
    if published > limit then published - limit + 1 else 1
  }

  /** A gap event for the number expected next, then everything from the earliest stored event on. */
  ghost predicate GapThenStore(replay: seq<Event>, history: seq<Event>, after: nat, earliest: nat) {
    && 1 <= earliest <= |history| && |replay| > 0
    && replay[0] == Event(after + 1, history[earliest - 1].payload, true, Some(Gap(after + 1, earliest)))
    && ReplaysFrom(replay[1..], history, earliest)
  }

  lemma StoreIsSuffix(history: seq<Event>, limit: nat)
    ensures var first := Earliest(|history|, limit) - 1;
            limit >= 1 ==> first <= |history| && Newest(history, limit) == history[first..|history|]
  {
  }

  lemma ReplayCovered(history: seq<Event>, store: seq<Event>, lo: nat, after: nat)
    requires Consecutive(history) && lo <= |history| && store == history[lo..|history|] && lo <= after <= |history|
    ensures ReplaysFrom(Replay(store, Some(after)), history, after + 1)
  {
    ReplayedSuffix(history, lo, |history|, after);
    assert store != [] ==> store[0] == history[lo];
  }

  lemma ReplayWithGap(history: seq<Event>, store: seq<Event>, lo: nat, after: nat)
    requires Consecutive(history) && lo < |history| && store == history[lo..|history|] && after < lo
    ensures GapThenStore(Replay(store, Some(after)), history, after, lo + 1)
  {
    ReplayedSuffix(history, lo, |history|, after);
    assert store[0] == history[lo];
    var events := ReplayedAfter(store, after);
    assert ReplaysFrom(events, history, lo + 1);
    assert ([GapEvent(store[0], after)] + events)[1..] == events;
  }

  /** Replay after a cursor is either exactly the missing events, or a marker of the gap followed by
      everything that is stored. */
  lemma ReplayAfterCursor(history: seq<Event>, limit: nat, after: nat)
    requires Consecutive(history) && limit >= 1
    ensures after > |history| ==> Replay(Newest(history, limit), Some(after)) == []
    ensures Earliest(|history|, limit) <= after + 1 <= |history| + 1 ==>
              ReplaysFrom(Replay(Newest(history, limit), Some(after)), history, after + 1)
    ensures after + 1 < Earliest(|history|, limit) ==>
              GapThenStore(Replay(Newest(history, limit), Some(after)), history, after, Earliest(|history|, limit))
  {
    var first := Earliest(|history|, limit) - 1;
    var store := Newest(history, limit);
    StoreIsSuffix(history, limit);
    if after < first {
      ReplayWithGap(history, store, first, after);
    } else if after <= |history| {
      ReplayCovered(history, store, first, after);
    } else {
      NothingAfter(history, store, first, after);
    }
  }

  lemma NothingAfter(history: seq<Event>, store: seq<Event>, lo: nat, after: nat)
    requires Consecutive(history) && lo <= |history| && store == history[lo..|history|] && after > |history|
    ensures Replay(store, Some(after)) == []
  {
    ReplayedSuffix(history, lo, |history|, after);
    assert store != [] ==> store[0] == history[lo];
  }

  lemma {:induction false} LiveAppend(a: seq<Event>, b: seq<Event>, store: seq<Event>, highWater: nat)
    ensures SentLive(a + b, store, highWater) == SentLive(a, store, highWater) + SentLive(b, store, highWater)
    decreases |b|
  {
    if b == [] {
      assert a + b == a;
    } else {
      var n := |b| - 1;
      LiveAppend(a, b[..n], store, highWater);
      assert (a + b)[..|a + b| - 1] == a + b[..n];
    }
  }

  lemma {:induction false} LiveAll(events: seq<Event>, store: seq<Event>, highWater: nat)
    requires forall i :: 0 <= i < |events| ==> events[i].sequence > highWater
    ensures SentLive(events, store, highWater) == events
    decreases |events|
  {
    if events != [] {
      LiveAll(events[..|events| - 1], store, highWater);
    }
  }

  lemma {:induction false} LiveNone(events: seq<Event>, store: seq<Event>, highWater: nat)
    requires forall i :: 0 <= i < |events| ==> events[i].sequence <= highWater
    ensures SentLive(events, store, highWater) == []
    decreases |events|
  {
    if events != [] {
      LiveNone(events[..|events| - 1], store, highWater);
    }
  }

  lemma LiveParts(history: seq<Event>, lo: nat, first: nat, store: seq<Event>, highWater: nat)
    requires lo <= first <= |history|
    requires forall i :: lo <= i < first ==> history[i].sequence <= highWater
    requires forall i :: first <= i < |history| ==> history[i].sequence > highWater
    ensures SentLive(history[lo..], store, highWater) == history[first..]
  {
    var early, late := history[lo..first], history[first..];
    assert history[lo..] == early + late;
    LiveAppend(early, late, store, highWater);
    LiveNone(early, store, highWater);
    LiveAll(late, store, highWater);
  }

  lemma LiveSuffix(history: seq<Event>, lo: nat, store: seq<Event>, highWater: nat)
    requires Consecutive(history) && lo <= |history| && highWater <= |history|
    ensures SentLive(history[lo..], store, highWater) == history[if highWater > lo then highWater else lo..]
  {
    LiveParts(history, lo, if highWater > lo then highWater else lo, store, highWater);
  }

  /** What a client is sent: the replay captured after `captured` events, then what is passed on of the
      live events published once `subscribed` events had been. */
  function ClientStream(history: seq<Event>, limit: nat, after: Option<nat>, captured: nat, subscribed: nat): seq<Event>
    requires captured <= |history| && subscribed <= |history|
  {
    var store := Newest(history[..captured], limit);
    Replay(store, after) + SentLive(history[subscribed..], Newest(history, limit), HighWater(store, captured + 1))
  }

  /** The events of the history from number `first` on, each once and in order; those that had been
      published when the replay was captured are marked as replayed. */
  ghost predicate HoldsHistory(events: seq<Event>, history: seq<Event>, first: nat, captured: nat) {
    && 1 <= first && |events| == (if first <= |history| then |history| - first + 1 else 0)
    && forall i :: 0 <= i < |events| ==> events[i] == history[first - 1 + i].(replayed := first + i <= captured)
  }

  lemma CapturedHighWater(history: seq<Event>, limit: nat, captured: nat)
    requires Consecutive(history) && limit >= 1 && captured <= |history|
    ensures HighWater(Newest(history[..captured], limit), captured + 1) == captured
  {
  }

  /** The live part of a stream: nothing that was captured is sent again. */
  lemma StreamParts(history: seq<Event>, limit: nat, after: Option<nat>, captured: nat, subscribed: nat)
    requires Consecutive(history) && limit >= 1 && captured <= |history| && subscribed <= |history|
    ensures ClientStream(history, limit, after, captured, subscribed)
         == Replay(Newest(history[..captured], limit), after)
            + history[if captured > subscribed then captured else subscribed..]
  {
    CapturedHighWater(history, limit, captured);
    LiveSuffix(history, subscribed, Newest(history, limit), captured);
  }

  /** A replayed part of the history followed by the rest of it. */
  lemma ReplayThenLive(replay: seq<Event>, history: seq<Event>, first: nat, captured: nat, subscribed: nat)
    requires Consecutive(history) && captured <= |history| && subscribed <= |history|
    requires ReplaysFrom(replay, history[..captured], first)
    ensures var live := history[if captured > subscribed then captured else subscribed..];
            HoldsHistory(replay + live, history, first, captured) <==> subscribed <= captured
  {
    var live := history[if captured > subscribed then captured else subscribed..];
    var stream := replay + live;
    if subscribed <= captured {
      forall i | 0 <= i < |stream| ensures stream[i] == history[first - 1 + i].(replayed := first + i <= captured) {
        if i < |replay| {
          assert stream[i] == replay[i];
        } else {
          assert stream[i] == history[captured..][i - |replay|];
        }
      }
    }
  }

  lemma StreamOfReplay(history: seq<Event>, limit: nat, after: Option<nat>, captured: nat, subscribed: nat, first: nat)
    requires Consecutive(history) && limit >= 1 && captured <= |history| && subscribed <= |history|
    requires ReplaysFrom(Replay(Newest(history[..captured], limit), after), history[..captured], first)
    ensures HoldsHistory(ClientStream(history, limit, after, captured, subscribed), history, first, captured)
            <==> subscribed <= captured
  {
    StreamParts(history, limit, after, captured, subscribed);
    ReplayThenLive(Replay(Newest(history[..captured], limit), after), history, first, captured, subscribed);
  }

  /** A client whose cursor is still covered is sent every later event of the history exactly once and
      in order, exactly when nothing was published between capturing the replay and subscribing. */
  lemma StreamCompleteExactly(history: seq<Event>, limit: nat, after: nat, captured: nat, subscribed: nat)
    requires Consecutive(history) && limit >= 1 && captured <= |history| && subscribed <= |history|
    requires Earliest(captured, limit) <= after + 1 <= captured + 1
    ensures HoldsHistory(ClientStream(history, limit, Some(after), captured, subscribed), history, after + 1, captured)
            <==> subscribed <= captured
  {
    assert ReplaysFrom(Replay(Newest(history[..captured], limit), Some(after)), history[..captured], after + 1) by {
      assert Consecutive(history[..captured]);
      ReplayAfterCursor(history[..captured], limit, after);
    }
    StreamOfReplay(history, limit, Some(after), captured, subscribed, after + 1);
  }

  /** A client whose cursor is no longer covered is told so by a gap event; then it is sent every
      event of the history from the earliest stored one on, exactly when it subscribed in time. */
  lemma StreamAfterGap(history: seq<Event>, limit: nat, after: nat, captured: nat, subscribed: nat)
    requires Consecutive(history) && limit >= 1 && captured <= |history| && subscribed <= |history|
    requires after + 1 < Earliest(captured, limit)
    ensures var stream := ClientStream(history, limit, Some(after), captured, subscribed);
            var earliest := Earliest(captured, limit);
            && |stream| > 0
            && stream[0] == Event(after + 1, history[earliest - 1].payload, true, Some(Gap(after + 1, earliest)))
            && (HoldsHistory(stream[1..], history, earliest, captured) <==> subscribed <= captured)
  {
    var replay := Replay(Newest(history[..captured], limit), Some(after));
    var live := history[if captured > subscribed then captured else subscribed..];
    assert ClientStream(history, limit, Some(after), captured, subscribed) == replay + live by {
      StreamParts(history, limit, Some(after), captured, subscribed);
    }
    assert GapThenStore(replay, history[..captured], after, Earliest(captured, limit)) by {
      assert Consecutive(history[..captured]);
      ReplayAfterCursor(history[..captured], limit, after);
    }
    ReplayThenLive(replay[1..], history, Earliest(captured, limit), captured, subscribed);
    FirstOf(replay, live);
  }

  lemma FirstOf(a: seq<Event>, b: seq<Event>)
    requires a != []
    ensures (a + b)[0] == a[0] && (a + b)[1..] == a[1..] + b
  {
  }

  /** A client without a cursor is sent the stored events as they were published and all later ones,
      exactly when it subscribed in time. */
  lemma StreamWithoutCursor(history: seq<Event>, limit: nat, captured: nat, subscribed: nat)
    requires Consecutive(history) && limit >= 1 && captured <= |history| && subscribed <= |history|
    ensures ClientStream(history, limit, None, captured, subscribed) == history[Earliest(captured, limit) - 1..]
            <==> subscribed <= captured
  {
    var first := Earliest(captured, limit) - 1;
    var live := history[if captured > subscribed then captured else subscribed..];
    assert ClientStream(history, limit, None, captured, subscribed) == history[first..captured] + live by {
      StreamParts(history, limit, None, captured, subscribed);
      StoreIsSuffix(history[..captured], limit);
      assert history[..captured][first..captured] == history[first..captured];
    }
    StoreThenLive(history, first, captured, subscribed);
  }

  lemma StoreThenLive(history: seq<Event>, first: nat, captured: nat, subscribed: nat)
    requires first <= captured <= |history| && subscribed <= |history|
    ensures var live := history[if captured > subscribed then captured else subscribed..];
            history[first..captured] + live == history[first..] <==> subscribed <= captured
  {
    assert history[first..captured] + history[captured..] == history[first..];
    if subscribed > captured {
      assert |history[first..captured] + history[subscribed..]| < |history[first..]|;
    }
  }

  /** A client ahead of the log, whose cursor comes from elsewhere, is sent everything published after
      the capture, whether below its cursor or not, exactly when it subscribed in time. */
  lemma StreamAheadOfLog(history: seq<Event>, limit: nat, after: nat, captured: nat, subscribed: nat)
    requires Consecutive(history) && limit >= 1 && captured <= |history| && subscribed <= |history|
    requires after > captured
    ensures ClientStream(history, limit, Some(after), captured, subscribed) == history[captured..]
            <==> subscribed <= captured
  {
    StreamParts(history, limit, Some(after), captured, subscribed);
    assert Consecutive(history[..captured]);
    ReplayAfterCursor(history[..captured], limit, after);
  }

  // ---- Slow receivers ----------------------------------------------------------------------------------

  /** The gap event of a store that is not empty: as many numbers before the earliest stored one as were
      skipped, at least one, where numbers start from one and the receiver goes on with the second at
      the earliest. */
  lemma LagGapNumbers(store: seq<Event>, skipped: nat)
    ensures LagGap(store, skipped).Some? <==> store != []
    ensures store != [] ==>
              var gap := LagGap(store, skipped).value.gap;
              && gap.Some? && gap.value.actual >= 2 && gap.value.actual >= store[0].sequence
              && (gap.value.actual == 2 || gap.value.actual == store[0].sequence)
              && 1 <= gap.value.expected < gap.value.actual
              && (gap.value.expected + (if skipped == 0 then 1 else skipped) == gap.value.actual
                  || (gap.value.expected == 1 && gap.value.actual <= skipped))
  {
  }

  /** A receiver that expects the event `next`, misses some and goes on with the event `resumed` is told
      so by one gap event. The gap event names these two exactly when the earliest event stored at that
      moment is the one the receiver goes on with. */
  lemma LagGapExactly(history: seq<Event>, limit: nat, stored: nat, next: nat, resumed: nat)
    requires Consecutive(history) && limit >= 1 && 1 <= stored <= |history| && 1 <= next < resumed
    ensures var gap := LagGap(Newest(history[..stored], limit), resumed - next);
            var earliest := Earliest(stored, limit);
            && gap.Some? && gap.value.gap.Some? && gap.value.replayed
            && gap.value.payload == history[earliest - 1].payload
            && gap.value.sequence == gap.value.gap.value.expected
            && (gap.value.gap == Some(Gap(next, resumed)) <==>
                (resumed == earliest || (earliest == 1 && resumed == 2)))
  {
    StoreIsSuffix(history[..stored], limit);
    assert Newest(history[..stored], limit)[0] == history[Earliest(stored, limit) - 1];
  }

  /** When the channel retains as many events as the store, a receiver that has lagged goes on with the
      earliest event that was stored when it was polled. The gap event is then right exactly when
      nothing has been published since. */
  lemma LagGapWhileIdle(history: seq<Event>, limit: nat, polled: nat, stored: nat, next: nat)
    requires Consecutive(history) && limit >= 1 && 1 <= next < Earliest(polled, limit)
    requires polled <= stored <= |history|
    ensures var resumed := Earliest(polled, limit);
            var gap := LagGap(Newest(history[..stored], limit), resumed - next);
            gap.Some? && (gap.value.gap == Some(Gap(next, resumed)) <==> stored == polled)
  {
    LagGapExactly(history, limit, stored, next, Earliest(polled, limit));
  }
}
