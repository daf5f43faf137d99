/** The sound of a whole project: what the flattened graph means is what callbacks deliver. */
module ProjectSound {
  import opened Basics
  import opened ExpansionEdges
  import opened Expansion
  import opened CurrentOrder
  import opened DspPlan
  import opened DspBlocks
  import opened DspRefinement
  import opened AudioMeaning
  import opened RealtimeMeaning
  import opened Playback
  import Planning

  lemma AudioIdsDistinct<S(!new)>(flat: Graph, asAudio: GraphNode -> AudioNode<S>)
    requires KeepsIds(asAudio) && Distinct(Ids(flat.nodes))
    ensures DistinctIds(AudioGraphOf(flat, asAudio))
  {
    var graph, ids := AudioGraphOf(flat, asAudio), Ids(flat.nodes);
    forall i, j | 0 <= i < j < |graph.nodes| ensures graph.nodes[i].id != graph.nodes[j].id {
      assert ids[i] != ids[j];
    }
  }

  /** If the audio nodes cover all signals, every node that can sound is planned. */
  lemma CoveredSoundersPlanned<S(!new)>(graph: AudioGraph<S>, ids: seq<string>)
    requires CoversSignals(graph, ids)
    ensures SoundersPlanned(graph, ids)
  {
    forall n, i: nat | n in graph.nodes && IsRendering(n.kind) && FirstOutput(n.ports, i) ensures n.id in ids {
      assert n.ports[i] in n.ports;
    }
  }

  /** A playable plan of a flattened project is one that the executors are shown to play. */
  lemma ProjectIsPlayable<S(!new)>(flat: Graph, asAudio: GraphNode -> AudioNode<S>, isAudio: string -> bool,
                                   plan: Plan<S>)
    returns (ids: seq<string>)
    requires KeepsIds(asAudio) && Distinct(Ids(flat.nodes))
    requires PlannedFrom(flat, asAudio, isAudio, plan) && Playable(plan) && plan.blockSize > 0
    ensures PlayableFrom(AudioGraphOf(flat, asAudio), ids, plan) && CoversSignals(AudioGraphOf(flat, asAudio), ids)
  {
    var graph := AudioGraphOf(flat, asAudio);
    var order :| multiset(order) == multiset(Ids(flat.nodes)) && WellBuilt(graph, Keep(isAudio, order), plan)
                 && CoversSignals(graph, Keep(isAudio, order));
    ids := Keep(isAudio, order);
    AudioIdsDistinct(flat, asAudio);
    SameElements(order, Ids(flat.nodes));
    Planning.DistinctKept(isAudio, order);
    CoveredSoundersPlanned(graph, ids);
  }

  /** The project has a sound, given by the equations on its flattened graph. */
  lemma ProjectHasSound<S(!new)>(ops: Arithmetic<S>, flat: Graph, asAudio: GraphNode -> AudioNode<S>,
                                 isAudio: string -> bool, plan: Plan<S>)
    returns (sound: (string, nat) -> S)
    requires KeepsIds(asAudio) && Distinct(Ids(flat.nodes))
    requires PlannedFrom(flat, asAudio, isAudio, plan) && Playable(plan) && plan.blockSize > 0
    ensures IsSound(ops, AudioGraphOf(flat, asAudio), plan.sampleRate, sound)
  {
    var graph := AudioGraphOf(flat, asAudio);
    var ids := ProjectIsPlayable(flat, asAudio, isAudio, plan);
    PlanInOrder(graph, ids, plan);
    sound := SoundExists(ops, graph, ids, plan.sampleRate);
  }

  /** Every callback delivers it: on the first two channels, what reaches the inputs `left` and `right` of
      the output node, from the frame on at which the blocks rendered before end. */
  lemma ProjectIsHeard<S(!new)>(ops: Arithmetic<S>, flat: Graph, asAudio: GraphNode -> AudioNode<S>,
                                isAudio: string -> bool, plan: Plan<S>, sound: (string, nat) -> S, o: nat, b: nat,
                                first: nat, channels: nat, length: nat)
    requires KeepsIds(asAudio) && Distinct(Ids(flat.nodes))
    requires PlannedFrom(flat, asAudio, isAudio, plan) && Playable(plan) && plan.blockSize > 0
    requires IsSound(ops, AudioGraphOf(flat, asAudio), plan.sampleRate, sound)
    requires o < |plan.nodes| && first == b * plan.blockSize && channels > 0
    ensures
      var graph := AudioGraphOf(flat, asAudio);
      OutputIsHeard(ops, graph, sound, plan.nodes[o].nodeId, first, channels,
                    CallbackOutput(ops, plan, ParamsById(graph.nodes), o, b, channels, length))
  {
    var ids := ProjectIsPlayable(flat, asAudio, isAudio, plan);
    CallbackIsHeard(ops, AudioGraphOf(flat, asAudio), ids, plan, sound, o, b, first, channels, length);
  }
}
