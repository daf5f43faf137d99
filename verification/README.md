# Verified models of the runtime core

Dafny models of the parts of the runtime where a mistake is hardest to see, with proofs about them:

- **Flattening** (`Expansion`, `Contraction`, `MergedEdges`, `Namespacing`, `NestedMeaning`, `BoundaryNames`,
  `Flattening`, `FlatMeaning`, `FlatChains`, `FlatEdgeIds`, `References`, `SelfWiring`): nested subpatches are inlined,
  inlets and outlets become boundary pins, and the pins are eliminated one at a time in an arbitrary order.
  `NestedMeaning` says, without looking at the flattened result, what the wires of a nested graph join, and
  `BoundaryNames` by which names they join it; the main theorems say that flattening keeps exactly that, and how often,
  with which fields and under which ids.
- **Planning orders** (`Cycles`, `Planning`, `CurrentOrder`, `LegacyOrder`): both Kahn orders and the three-colour
  search, measured against walks and cycles of the graph.
- **Audio** (`DspPlan`, `DspBlocks`, `DspOffline`, `DspRealtime`, `DspRefinement`, `DspFeedback`, `FeedbackExample`,
  `AudioMeaning`, `OfflineMeaning`, `RealtimeMeaning`, `CallbackGaps`): buffer allocation, the offline executor with
  fresh buffers, the realtime executor that updates its buffers, its scratch block and its phases in place, and when
  exactly the second computes what the first does. `AudioMeaning` says by equations on the graph alone what every node
  sounds like at every frame; the other modules of that name prove that this is what the report, the snapshots and the
  channels of a callback hold. `Playback` and `ProjectSound` join flattening, ordering, planning and playing.
- **Control** (`ControlText`, `ControlTextLaws`, `ControlValues`, `ControlLaws`, `ControlPropagation`, `ControlEvents`,
  `ControlLimits`, `ControlMachine`): the text form of messages, conversion to stored values, and the event machine with
  its worklist, channels, staged updates and safety limit. The two modules of laws say what a text means, word by word,
  and what each kind of node stores and answers, event by event, without the functions that compute it.
- **Collaboration** (`Calendar`, `Timestamps`, `TimestampForms`, `Collaboration`): the day count, the reading and
  comparison of timestamps, and the bounded replay log with its live stream.

Samples and floating-point numbers are values of an arbitrary type with arbitrary operations, so nothing here
depends on rounding. Maps and sets that the program iterates in hash order are iterated by arbitrary choice.
Every method that changes state is tied to a function of the old state, and the theorems are about that function.

## Findings

- `src/project_current.rs:666-676`: a boundary name claimed by two inlets is withdrawn, but a third claim brings
  it back for the third inlet (`NestedMeaning.ThirdClaimRevives`). A name is usable exactly when the last stretch of
  claims without two equal neighbours has odd length, and then it means the last one
  (`NestedMeaning.AliasByParity`).
- `src/project_current.rs:468-480`: a wiring that leads from a port through boundary pins back to the same port
  disappears in the flat graph (`SelfWiring.SelfWiringIsDropped`, for a port wired to itself through a patch that
  passes its inlet on). A flat edge from a port to itself exists exactly when a patch draws it directly
  (`FlatMeaning.FlatLoops`).
- `src/server.rs:591-596`: the replay is captured before the live stream is subscribed to. A client gets every
  event exactly when nothing is published in between, whether its cursor is covered, too old or ahead of the log, or it
  has none (`Collaboration.StreamCompleteExactly`, `StreamAfterGap`, `StreamAheadOfLog`, `StreamWithoutCursor`).
- `src/collaboration.rs:249-280`: the gap event of a lagging receiver is computed from the store as it is when the
  event is made. With a channel that retains as many events as the store, it names the missed events exactly
  when nothing was published since the receiver was polled (`Collaboration.LagGapWhileIdle`).
- `src/control_state.rs:294-299`: the safety limit counts deliveries, which multiply where paths branch and meet, so
  it also rejects events in graphs without cycles: in a chain of four diamonds or more, every event at the first node
  (`ControlLimits.DiamondsAreCutOff`). No event is cut off where the deliveries counted along edges and channels stay
  within the limit (`ControlLimits.EventNotCutOff`), and among bang nodes the count is exact
  (`ControlLimits.CutOffExactly`).
- `src/dsp.rs:826-910` and `src/dsp.rs:502-581`: where a product comes before the node that feeds it, the realtime
  executor hears the previous block and the offline executor hears zeros. The planning order ignores feedback edges,
  so such plans arise and are accepted (`FeedbackExample.PlanSquare`). With arithmetic that loses nothing, the
  executors agree exactly when no product hears a later node or itself, except for a signal of zeros
  (`DspFeedback.AgreesExactly`).
- `src/dsp.rs:487-500`: a callback always starts with a new block, so the rest of a block of which the last callback
  needed only a part is never played. After a callback of some frames the sound goes on where it stopped if their number
  is a multiple of the block size; where no two frames sound the same, only then (`CallbackGaps.GoesOnExactly`). For an
  oscillator on the first channel and any other number, the next callback skips frames (`CallbackGaps.PlanOscillator`).
- `src/collaboration.rs:402-416`: offsets are ignored, a fraction of one or two digits is read as zero, and digits
  after the third are dropped. Which forms of timestamps are compared rightly is
  `TimestampForms.FormsCompareExactly`; inputs that fail are `TimestampForms.OneDigitIsLost` and
  `TimestampForms.OffsetIsLost`. An expiry time is compared rightly with the present exactly in universal time with
  no digits or three (`TimestampForms.ExpiryExactly`).

## Model

| member | source | states |
|---|---|---|
| Contraction.ContractBoundaryEdges | src/project_current.rs:440-490 | the loop that eliminates live pins, picked arbitrarily, ends and returns the edges of a complete legal run of eliminations |
| Contraction.ContractionPreservesWiring | src/project_current.rs:440-490 | for every order of elimination, two different ports are joined in the result exactly when the input has a walk between them through pins |
| Contraction.DirectEdgesAndLoops | src/project_current.rs:468-480 | for every order, edges between ports survive as they are, and a result edge from a port to itself exists exactly when it was an input edge |
| Contraction.OrderIrrelevant | src/project_current.rs:446-484 | any two complete runs join the same pairs of ports |
| Contraction.WalksMatchResultEdges | src/project_current.rs:446-484 | when pins form no cycle, result edges between different ports correspond one to one to input walks, so parallel paths are kept apart |
| Contraction.ResultFieldsAreNearest | src/project_current.rs:509-552 | every optional field of a result edge is the defined value nearest the target end of its walk, whatever the order |
| Contraction.AfterRound | src/project_current.rs:462-484 | an edge after a round either was there and avoids the pin or joins one edge into the pin with one out of it, never into a loop |
| Contraction.RoundShrinks | src/project_current.rs:446-484 | a round lets no dead pin become live, creates no self-loop, and clears the pin's self-loop or makes it dead |
| Contraction.RoundReducesWork | src/project_current.rs:446-484 | looped pins plus live pins decrease in every round, although the number of edges may grow |
| Contraction.RunBounded | src/project_current.rs:446-484 | no legal run has more rounds than the input has looped pins and live pins together |
| Contraction.EliminatePin | src/project_current.rs:447-484 | one round replaces the edges at a pin by their joins and keeps all others in order |
| MergedEdges.RoundInOrder | src/project_current.rs:454-484 | a round keeps the edges that do not touch the pin in their order and then lists the joins of every edge into the pin with every edge out of it that makes no loop, ordered by the first and then the second edge and numbered on in their ids |
| MergedEdges.MergedIdsDistinct | src/project_current.rs:509-521 | if the input edges have different ids, none of which ends like the id of a merged edge, so have the edges of every result |
| Contraction.JoinOneEdge | src/project_current.rs:466-480 | an incoming edge is joined with each outgoing edge in turn, skipping joins that would make a loop |
| Namespacing.PathNameInjective | src/project_current.rs:764-770 | instance paths of plain ids have different names |
| Namespacing.PinNameInjective | src/project_current.rs:653-660 | a pin's name determines its instance, whether it is an inlet or outlet, and its key |
| BoundaryNames.KeyIsFirstName | src/project_current.rs:696-701 | the key of an inlet or outlet is the first usable one of its parameters `portId`, `port`, `name`, `id` and `label`, else its id |
| BoundaryNames.AliasesAreAnswers | src/project_current.rs:681-694 | a boundary is named by its id, by each usable one of these parameters, and by its only port, and by nothing else |
| BoundaryNames.ReferenceIsFirstName | src/project_current.rs:703-713 | a subpatch node refers to its first usable parameter, else to what its object text names, else to the rest of its kind after the prefix |
| BoundaryNames.RefusedFor | src/project_current.rs:323-384 | a reference is refused, in this order, because it is missing, recursive, deeper than sixteen or unknown |
| BoundaryNames.NamesResolve | src/project_current.rs:647-694 | a name that one inlet alone answers to denotes that inlet, and a name that none answers to denotes none |
| BoundaryNames.WireReachesBoundary | src/project_current.rs:567-645 | a wire to an instance by such a name ends where the wires of that inlet begin inside |
| BoundaryNames.AnsweredWireIsInlined | src/project_current.rs:567-645 | the expansion inlines such a wire to the pin of that inlet and reports nothing for it |
| BoundaryNames.UnansweredWireIsReported | src/project_current.rs:577-601 | a wire by a name that no inlet answers to is reported under the name of the instance and the port |
| BoundaryNames.EndsReported | src/project_current.rs:419-433 | a wire reports first its missing outlet and then its missing inlet |
| BoundaryNames.ProjectAcceptedExactly | src/project_current.rs:157-183 | with plain and distinct ids, a project is accepted exactly when no reference is refused and every wire on an instance uses a name that its patch knows |
| Expansion.RegisterBoundaryNode | src/project_current.rs:647-679 | the pin is recorded, and the alias table becomes the table in which conflicting names are withdrawn, independent of the order of names |
| Expansion.ExpandNode | src/project_current.rs:305-417 | one node of a patch adds a pin, a nested expansion, a diagnostic or a renamed node |
| Expansion.ExpandGraph | src/project_current.rs:288-438 | the loops over nodes and edges build the expansion, recursing into patches with the stack as depth |
| NestedMeaning.AliasIsClaimed | src/project_current.rs:662-677 | a usable boundary name was claimed for the boundary it denotes |
| NestedMeaning.AliasResolves | src/project_current.rs:662-677 | a name claimed for one boundary only denotes it |
| NestedMeaning.AliasByParity | src/project_current.rs:666-676 | for all claims, a name is usable exactly when the last stretch of claims without two equal neighbours is odd, and then denotes the boundary claimed last |
| NestedMeaning.ThirdClaimRevives | src/project_current.rs:666-676 | two claims withdraw a name and a third revives it |
| Flattening.AliasTable | src/project_current.rs:647-701 | the inlet and outlet tables of an expansion name the pins of the patch's own aliases |
| Flattening.EncodeInjective | src/project_current.rs:764-778 | different places of the nested graph have different endpoints |
| Flattening.EdgesSound | src/project_current.rs:419-438 | every edge of the expansion is a wire of some instance, with its ends at the places they denote |
| Flattening.EdgesComplete | src/project_current.rs:419-438 | every wire of every instance is in the expansion |
| Flattening.NodesSound | src/project_current.rs:405-417 | every node of the expansion is a renamed leaf node of some instance |
| Flattening.NodesComplete | src/project_current.rs:405-417 | every leaf node of every instance is in the expansion |
| FlatMeaning.ExpandRegistered | src/project_current.rs:567-679 | every boundary endpoint of the expansion is a registered pin, and every table entry names one |
| FlatMeaning.FlatteningPreservesMeaning | src/project_current.rs:157-183 | two different leaf ports are joined by a flat edge exactly when a chain of wires through inlets and outlets joins them in the nested graph |
| FlatMeaning.FlatLoops | src/project_current.rs:157-183 | a flat edge from a port to itself exists exactly when some patch draws it directly |
| FlatChains.ExpansionListed | src/project_current.rs:405-438 | the edges of an expansion are the inlined wires of all instances, each exactly once |
| FlatChains.FlatEdgesMatchChains | src/project_current.rs:440-552 | when inlets and outlets form no cycle, the flat edges correspond one to one to the chains of wires between leaf ports, and each optional field, the feedback flag among them, is the one nearest the target end of the chain |
| FlatChains.FlatFieldsAreNearest | src/project_current.rs:509-552 | even with such cycles, every flat edge stands for a chain of wires and carries its fields |
| FlatMeaning.FlatGraphStays | src/project_current.rs:157-183 | a graph without subpatches, inlets and outlets is accepted and stays as it is |
| SelfWiring.SelfWiringIsDropped | src/project_current.rs:468-480 | in an accepted project, a port that the wires join to itself through a patch has no flat edge to itself, whatever the order of elimination |
| FlatMeaning.FlatNodes | src/project_current.rs:157-183 | the flat nodes are exactly the leaf nodes of all instances, none of them a subpatch, inlet or outlet |
| FlatEdgeIds.FlatEdgeIdsDistinct | src/project_current.rs:419-521 | with plain, distinct edge ids in every patch, none of which ends like the id of a merged edge, all flat edges have different ids |
| FlatMeaning.FlatIdsDistinct | src/project_current.rs:405-417 | with plain, distinct ids in every patch, all flat ids are distinct |
| FlatMeaning.ExpandProjectGraph | src/project_current.rs:157-183 | the project is rejected exactly when something was reported, else its edges are the contracted ones of a complete run |
| References.ReferencesChecked | src/project_current.rs:323-404 | at every depth, with a stack of distinct patches, no reference diagnostic arises exactly when the reachable references are acceptable |
| References.ReferencesAcceptedExactly | src/project_current.rs:323-404 | no reference diagnostic arises exactly when every reachable subpatch names an existing patch, no chain repeats a patch, and none exceeds sixteen |
| Cycles.PrefixExactly | src/project_current.rs:1286-1340 | a maximal list of nodes with predecessors first holds exactly the nodes that no cycle leads to |
| Cycles.PrefixCompleteIffAcyclic | src/planner.rs:179-232 | such a list holds all nodes exactly when there is no cycle |
| Planning.TakeAll | src/planner.rs:204-231 | the queue with its indegree counts takes out a maximal list of distinct nodes, predecessors first: first the nodes without predecessors in their order, then the others in the order in which they became free, which is that of their last predecessors and then of the last links from these |
| Planning.CountLinks | src/planner.rs:183-202 | counting gives each known node the number of its incoming links and lists its successors with multiplicity |
| Planning.Release | src/planner.rs:212-221 | taking a node lowers its successors' counts and enqueues exactly those that reach zero, in the order of the last links to them |
| CurrentOrder.LinksInOrder | src/project_current.rs:1295-1308 | planning follows the edges without enabled feedback, one by one and in their order |
| CurrentOrder.TopologicalOrderCurrent | src/project_current.rs:1286-1340 | the order rearranges the nodes; its first part is exactly the nodes that no cycle of non-feedback edges leads to, predecessors first, begins with the nodes without predecessors and goes on in the order in which nodes become free; the rest keep document order; without such a cycle all of it is topological |
| LegacyOrder.TopologicalOrder | src/planner.rs:179-232 | an order is returned exactly when the links among known nodes are acyclic, and then it is a topological rearrangement, in the order in which nodes become free |
| LegacyOrder.Visit | src/project.rs:299-324 | the recursive search finishes the node with all it leads to and restores the stack, or leaves on the stack a walk that returns to one of its nodes |
| LegacyOrder.DetectCycle | src/project.rs:268-297 | nothing is reported exactly when the links are acyclic; a reported list is a walk whose last node occurs earlier |
| LegacyOrder.BuildExecutionPlan | src/planner.rs:92-146 | after validation has found no cycle, the planner never fails with a cycle |
| DspPlan.NoAliasing | src/dsp.rs:668-690 | different output ports never share a buffer |
| DspPlan.SourceHasBuffer | src/dsp.rs:692-713 | the lookup of a producer's buffer cannot fail once signal ports outside the audio group are rejected |
| DspPlan.AllocateNode | src/dsp.rs:668-690 | each signal output of a node gets, in order, a new buffer with the next number that records its producer; earlier buffers stay |
| DspPlan.PlanEdges | src/dsp.rs:692-713 | the planned edges are the signal edges in their order and as often as they occur, each with the buffer of its source port |
| DspPlan.BuildPlan | src/dsp.rs:645-739 | the check of signal ports refuses a graph exactly when a node outside the audio group has one, and names the first such port; otherwise each node of the plan, in order, reads its signal edges and writes the buffers of its outputs, its control inputs are its inputs without signal, in order, each with the source of the first edge into it, and the buffers are those of all signal outputs, numbered in order |
| DspPlan.PlannedEdges | src/dsp.rs:692-713 | an edge is planned exactly when it is a signal edge of the graph |
| DspPlan.InputStandsForEdge | src/dsp.rs:1390-1399 | an input of a planned node stands for a signal edge into that port, and its buffer is that of the edge's source |
| DspBlocks.ControlValueFromParams | src/dsp.rs:994-1021 | the realtime lookup of a control value agrees with the offline one |
| DspOffline.RunOffline | src/dsp.rs:782-910 | zero blocks and unknown kinds are refused exactly, an unknown kind with the first node of such a kind; otherwise block k of the report holds the buffers after k + 1 blocks |
| DspOffline.RenderBlock | src/dsp.rs:842-892 | one block renders the nodes in order, or names the first node of a kind it does not know |
| AudioMeaning.SignalEdgesAreWires | src/dsp.rs:1442-1471 | an edge carries a signal exactly when the first port of the named ones is a signal output at its source and a signal input at its target |
| AudioMeaning.InputHears | src/dsp.rs:980-992 | what a planned node reads through an input is, for any sound of the nodes, what the first wire of the graph into that input carries: the node that writes the buffer, or silence |
| AudioMeaning.FrequencyIsHeard | src/dsp.rs:925-926 | the frequency looked up by both executors is the value of the node at the other end of the first edge into the oscillator's control port, else its own parameter, else the default |
| AudioMeaning.SoundExists | src/dsp.rs:912-946 | if every sound is rendered before it is heard, the equations of the graph have a solution |
| AudioMeaning.SoundIsUnique | src/dsp.rs:912-946 | and only one |
| OfflineMeaning.ReportIsSound | src/dsp.rs:826-910 | sample i of block b of a reported buffer is the sound of its port at frame b times the block size plus i, and zero for a port that does not sound |
| OfflineMeaning.SnapshotsAreHeard | src/dsp.rs:948-963 | the report has one snapshot for each block and snapshot node, in order, with what is heard through its input at the first frame of the block |
| RealtimeMeaning.ChannelPlaysBuffer | src/dsp.rs:549-581 | the first channels of frame f play sample f mod B of block f div B of the buffer of the output node's first input `left` or `right`; without such an input, and on other channels, there is silence |
| RealtimeMeaning.ChannelPlaysOfflineBlock | src/dsp.rs:549-566 | if no product hears a later node or itself, except for a signal of zeros, that is the sample of the offline block |
| RealtimeMeaning.CallbackIsHeard | src/dsp.rs:487-500 | with producers first, every cell of a callback's output holds the sound that reaches the output node's input of its channel, at the frame counted from the end of the blocks rendered before |
| CallbackGaps.GoesOnExactly | src/dsp.rs:487-500 | the next callback goes on where the last one stopped if the number of its frames is a multiple of the block size, and, where no two frames sound the same, only then |
| CallbackGaps.PlanOscillator | src/dsp.rs:487-500 | for an oscillator on the first channel, planned by the program's method and accepted by the executor, it does so exactly for multiples of the block size |
| DspRealtime.NewExecutor | src/dsp.rs:367-477 | an executor is refused exactly, and in this order, for zero channels, a number of outputs other than one, which is named, or an unknown kind, of which the first is named |
| DspRealtime.Executor.constructor | src/dsp.rs:440-477 | a new executor has the nodes of the plan, zeroed buffers and zero phases |
| DspRealtime.Executor.RenderOsc | src/dsp.rs:521-531 | the oscillator fills the scratch block, advances its phase and stores the block in its buffer |
| DspRealtime.Executor.RenderMul | src/dsp.rs:533-541 | the product of the two input buffers is stored, with zero for a missing input |
| DspRealtime.Executor.ProcessBlock | src/dsp.rs:502-513 | one block takes the in-place state to the state after one more block |
| DspRealtime.Executor.CopyOutputFrames | src/dsp.rs:549-566 | the frames of a block go to the first two channels of their frames; everything else is left alone |
| DspRealtime.Executor.ProcessInterleavedOutput | src/dsp.rs:487-500 | exactly as many blocks as cover the frames are rendered; frame f is sample f mod B of block f div B; other channels and an incomplete last frame are zero |
| DspRealtime.SplitCallback | src/dsp.rs:487-500 | splitting a callback after whole blocks changes no sample and no number of blocks |
| DspRealtime.RtBlocksAdd | src/dsp.rs:502-513 | rendering blocks in two portions is rendering them in one |
| DspRefinement.RealtimeRefinesOffline | src/dsp.rs:395-581 | when no product hears a later node or itself, except for a signal of zeros, after any number of blocks every realtime buffer and phase equals the offline one, although realtime buffers are never cleared |
| DspRefinement.NodeKeepsAgreement | src/dsp.rs:912-946 | rendering one node on both sides keeps them in agreement on all buffers that no later node writes |
| DspRefinement.TopologicalPlanIsReady | src/dsp.rs:645-739 | a plan in topological order has every producer before its consumers |
| DspRefinement.ProducersFirstIsReady | src/dsp.rs:395-581 | with every producer before its consumers, no product hears a later node or itself |
| DspFeedback.AgreesExactly | src/dsp.rs:826-910 | when products determine their operands and neither they nor oscillators yield zero, the executors agree after every number of blocks, and already after two, exactly when no product hears a later node or itself, except for a signal of zeros |
| DspFeedback.TermsAreLossless | src/dsp.rs:521-541 | formal terms are such arithmetic, so the condition is not empty |
| DspFeedback.LateInput | src/dsp.rs:502-513 | in the second block, a product that hears a later node or itself hears that node's first block in real time and zero offline |
| DspFeedback.DifferentProductsStay | src/dsp.rs:533-541 | for any arithmetic, the executors differ after two blocks when the first product that hears a later node or itself multiplies to different results |
| FeedbackExample.SquareOrder | src/project_current.rs:1286-1340 | any order that the planning order may give for the example, in which both inputs of a product are fed by feedback edges, has the product before the signal that feeds it |
| FeedbackExample.PlanSquare | src/dsp.rs:590-604 | flattened, ordered and planned by the program's methods, the example gives a plan built from its own nodes and edges in that order, which the realtime executor accepts, and the executors differ after two blocks unless the square of the signal equals that of zero |
| ProjectSound.ProjectHasSound | src/dsp.rs:590-604 | a flattened project without feedback edges and cycles, planned by that method, has a sound |
| ProjectSound.ProjectIsHeard | src/dsp.rs:487-604 | and every callback of an executor for its plan delivers it |
| Playback.PlanProject | src/dsp.rs:590-604 | the project is rejected exactly when flattening reports something; it is flattened once for the order and once for the plan; without feedback edges and cycles the plan has every producer first, and after every number of blocks the two executors agree on it |
| Playback.FlattenedTwice | src/dsp.rs:597-600 | two flattenings of a project, with pins eliminated in any orders, have the same nodes and join the same ports |
| Playback.PlanFollowsWires | src/dsp.rs:692-713 | the plan of a flattened project carries a signal between two leaf ports exactly when the nested wires join them |
| ControlText.ParseMessageAtoms | src/control_value.rs:301-324 | the index-driven loop collects the atoms of the token list, four floats after `color` as one |
| ControlText.TypedRoundTrip | src/control_value.rs:228-299 | a printed message with one value parses back to itself, if a string is trimmed and floats print as a word that parses back |
| ControlText.UntypedRoundTrip | src/control_value.rs:228-299 | a printed message with an untyped selector and int, bool, plain string, color and such float atoms parses back to itself |
| ControlTextLaws.WordsAreTokens | src/control_value.rs:305 | a text has exactly one list of words with space around and between them, and these are its tokens |
| ControlTextLaws.WholeNumbers | src/control_value.rs:326-336 | a text is read as a whole number exactly when it is an optional sign and digits, with the value of the digits by their places |
| ControlTextLaws.ScalarIsRead | src/control_value.rs:326-336 | a word stands for a truth value in letters of either case, else for a whole number of 64 bits, else for a float |
| ControlTextLaws.ColorIsRead | src/control_value.rs:383-394 | four words are a color exactly when all are floats, which are red, green, blue and alpha in this order |
| ControlTextLaws.ValuesAreRead | src/control_value.rs:301-324 | a list of words is read from the left: `color` and four floats are one value, any other word is one, and one that stands for nothing else stands for itself |
| ControlTextLaws.TextIsRead | src/control_value.rs:228-349 | what a text that is not blank means, from its selector and the words after it: the value that a typed selector announces, or a list |
| ControlTextLaws.BlankIsRead | src/control_value.rs:229-235 | a blank text is an empty symbol |
| ControlTextLaws.ValuesPrint | src/control_value.rs:413-430 | how values print: whole numbers as numerals, truth values as switches, colors as `color` and their components in order |
| ControlTextLaws.MessagesPrint | src/control_value.rs:280-299 | a message prints as its selector and atoms separated by single spaces, where a color announced by its selector does not repeat it |
| ControlLaws.ConversionStores | src/conversion.rs:3-62 | what is stored of an atom: a finite number quantised or clamped to the representation of the stored value, or a color converted to it |
| ControlLaws.TruthIsStored | src/control_state.rs:743-774 | a stored truth value takes the one that a message's selector or first atom stands for, and no other message |
| ControlLaws.HotStoresAndAnswers | src/control_state.rs:225-248 | an event at `in` of a float, int, uint or color node, other than a bang, is accepted exactly when its first atom can be stored; it stores that in the node's type and, unless it is a `set`, emits exactly the stored value, once |
| ControlLaws.BangRepeats | src/control_state.rs:225-248 | a bang that follows emits the same message and changes nothing |
| ControlLaws.ColdStoresSilently | src/control_state.rs:249-272 | at `cold` the value is stored in the same way and nothing is emitted; bangs and `set` are rejected |
| ControlLaws.SetStoresSilently | src/control_state.rs:232-248 | `set` at `in` stores and emits nothing |
| ControlLaws.OperatorCombines | src/control_state.rs:402-479 | after `right` y, an event `in` x stores and emits what the operator makes of x and y, zero for division by zero and roots of negative numbers |
| ControlLaws.RightStoresSilently | src/control_state.rs:451-473 | at `right` an operator stores the number and emits nothing; bangs, `set` and messages without a number are rejected |
| ControlLaws.BangOnOperator | src/control_state.rs:410-421 | a bang at an operator emits its last result |
| ControlLaws.MessageAnswers | src/control_state.rs:202-213 | a message node is set silently, and emits its text, read as a message, on everything else |
| ControlLaws.CommentTakesSet | src/control_state.rs:214-224 | comments and panels take `set` alone, silently |
| ControlLaws.Rejected | src/control_state.rs:146-278 | events at unknown nodes, nodes without control, and ports that are no inputs are rejected |
| ControlLaws.InitialState | src/control_state.rs:93-111 | which value each kind of node starts with, from its parameters |
| ControlLaws.PublishReaches | src/control_state.rs:332-400 | an emission of a node with a send name is kept under name and kind of data and reaches, in order, exactly the other nodes with that receive name that take the kind |
| ControlLaws.DeliveredInOrder | src/control_state.rs:280-330 | an emission causes first what its channel causes and then, edge by edge, the events of the nodes it is wired to |
| ControlText.TokensOfJoin | src/control_value.rs:280-336 | words joined by spaces split back into the same words |
| ControlEvents.DirectReadsItsNode | src/control_state.rs:146-278 | the outcome of a direct event depends on its node's entries alone |
| ControlEvents.BroadcastIsSimultaneous | src/control_state.rs:355-400 | a broadcast gives each receiver what it would get as the only one, from the state before the broadcast; a rejecting receiver leaves all others alone |
| ControlPropagation.PropagationDeliversOnce | src/control_state.rs:280-330 | a successful propagation delivers everything that waited or was emitted exactly once, within the limit |
| ControlPropagation.NewestFirst | src/control_state.rs:285-327 | propagation is depth first: all consequences of newer emissions are delivered before older emissions |
| ControlPropagation.LimitOnlyCutsOff | src/control_state.rs:294-299 | the safety limit never changes the effect of a propagation it lets finish |
| ControlPropagation.PropagationPreserves | src/control_state.rs:280-330 | what every single delivery keeps, every propagation keeps |
| ControlPropagation.CheapIsNotCutOff | src/control_state.rs:285-299 | for any count of deliveries that falls with each delivery, a propagation whose count is within the limit has the same outcome with any larger limit |
| ControlPropagation.CostlyIsCutOff | src/control_state.rs:285-299 | if the count falls by no more than one, a propagation whose count exceeds the limit fails |
| ControlEvents.EventDeliversOnce | src/control_state.rs:128-144 | an accepted event delivers each emission exactly once and emits at most max(2 * edges, 32) |
| ControlLimits.EventNotCutOff | src/control_state.rs:280-330 | an event is not cut off if the deliveries that it can cause along edges and channels, within one generation more than the limit, are within the limit |
| ControlLimits.CutOffExactly | src/control_state.rs:280-330 | among bang nodes, an event is accepted exactly when these deliveries are within the limit, also in graphs with cycles |
| ControlLimits.DiamondsAreCutOff | src/control_state.rs:294-299 | in a chain of four diamonds or more, which has no cycle, every event at the first node is rejected |
| ControlEvents.InitialIsSound | src/control_state.rs:93-111 | the initial state has a value exactly for the nodes with a default |
| ControlEvents.EveryRunIsSound | src/control_state.rs:93-400 | in every run, exactly those nodes keep a value of their default's variant, representation and colour space, and every channel holds a message of its kind |
| ControlMachine.ControlState.FromGraph | src/control_state.rs:93-111 | the two passes over the nodes build the initial state |
| ControlMachine.ControlState.ApplyEventDirect | src/control_state.rs:146-278 | the direct effect happens as a whole; a rejected event changes nothing |
| ControlMachine.ControlState.ApplyOperatorEvent | src/control_state.rs:402-479 | the operator branch, with the same guarantee |
| ControlMachine.ControlState.ApplyReceiveNameUpdates | src/control_state.rs:355-400 | the loop over the nodes has the effect of the broadcast |
| ControlMachine.ControlState.PublishObjectChannel | src/control_state.rs:332-353 | the message is stored under its kind and channel name, then broadcast |
| ControlMachine.ControlState.PropagateEmissions | src/control_state.rs:280-330 | the worklist loop has the effect of the depth-first propagation, or fails |
| ControlMachine.ControlState.ApplyEvent | src/control_state.rs:128-144 | the staged event replaces the state when all of it succeeds and leaves it alone otherwise |
| Calendar.ClosedFormCountsDays | src/collaboration.rs:418-429 | the closed form equals counting the days of all years and months from 1970-01-01, in both directions |
| Calendar.EpochAndNextDay | src/collaboration.rs:418-429 | 1970-01-01 is day 0 and the next day adds one |
| Calendar.DayCountOrdersDates | src/collaboration.rs:418-429 | one date has the larger day count exactly when it is later |
| Timestamps.TextIsRead | src/collaboration.rs:395-416 | a date-time text with any fraction and offset is read as the milliseconds of its fields, with the three digits after the point or zero, and not at all before 1970 |
| Timestamps.SecondsOrder | src/collaboration.rs:414-415 | counted seconds order moments as the calendar does |
| TimestampForms.ReadExactly | src/collaboration.rs:402-416 | a text is read as its time in milliseconds, rounded down, exactly in universal time, from 1970 on, with no digits after the point, at least three, or only zeros |
| TimestampForms.FormsCompareExactly | src/collaboration.rs:385-393 | for any two forms (number of digits, offset), all timestamps from 1970 on compare as their times do exactly when the offsets are the same and the left form has no digits, or three and the right one neither one nor two |
| TimestampForms.OneDigitIsLost | src/collaboration.rs:409-412 | at any second, nine tenths are later than one tenth but do not compare so with one digit each |
| TimestampForms.OffsetIsLost | src/collaboration.rs:402-416 | a time of day is later in universal time than nine hours to the east but does not compare so |
| TimestampForms.TimestampsCompareByCalendar | src/collaboration.rs:385-393 | timestamps of one form compare as their times do in all years, before 1970 by their characters, exactly when they have no digits after the point or three |
| TimestampForms.ExpiryReadsMillis | src/collaboration.rs:343-344 | an expiry text is after the present, written as `unix-ms:` and a number, exactly when the milliseconds read from it are more than that number |
| TimestampForms.ExpiryExactly | src/collaboration.rs:343-344 | all expiry texts of a form are compared rightly with every present time, in all years, exactly in universal time with no digits after the point or three |
| Collaboration.NewestPush | src/collaboration.rs:309-321 | pushing an event and dropping the oldest keeps the newest events, up to the limit |
| Collaboration.CollaborationLog.ReserveSequence | src/collaboration.rs:62-70 | each reservation returns the next number |
| Collaboration.CollaborationLog.Publish | src/collaboration.rs:309-321 | the store gains the event and loses the oldest ones beyond the limit |
| Collaboration.CollaborationLog.PublishNext | src/collaboration.rs:137-153 | reserving and publishing in one step keeps the store the newest part of the consecutive history |
| Collaboration.CollaborationLog.CaptureReplay | src/collaboration.rs:203-247 | the captured replay and high-water mark are those of the store |
| Collaboration.ReplayAfterCursor | src/collaboration.rs:203-247 | replay gives exactly the missing events, or one gap event with the expected and earliest numbers and then the whole store |
| Collaboration.StreamCompleteExactly | src/server.rs:585-600 | a client whose cursor is covered gets each later event of the history itself, once and in order, exactly when nothing was published between capture and subscription |
| Collaboration.StreamAfterGap | src/server.rs:585-600 | a client whose cursor is not covered is told by one gap event with the expected and earliest numbers, and then gets each event of the history from the earliest stored one on exactly when nothing was published in between |
| Collaboration.StreamWithoutCursor | src/server.rs:585-600 | a client without a cursor gets the stored and all later events exactly when nothing was published in between |
| Collaboration.StreamAheadOfLog | src/server.rs:585-600 | a client whose cursor is ahead of the log gets everything published after the capture, also below its cursor, exactly when nothing was published in between |
| Collaboration.CollaborationLog.FilterLive | src/collaboration.rs:439-452 | an item of the live stream is dropped below the high-water mark, passed on, or turned into a gap event |
| Collaboration.CollaborationLog.StreamLagGapEvent | src/collaboration.rs:249-280 | the gap event of a receiver that has missed some events, and none for an empty store |
| Collaboration.LagGapNumbers | src/collaboration.rs:249-280 | the gap event expects as many numbers before the earliest stored one as were skipped, at least one, and not less than the first |
| Collaboration.LagGapExactly | src/collaboration.rs:249-280 | the gap event names the event expected and the one the receiver goes on with exactly when the latter is the earliest one stored |
| Collaboration.LagGapWhileIdle | src/collaboration.rs:249-280 | with a channel that retains as many events as the store, it does so exactly when nothing was published since the receiver was polled |

## Left out

- Input and output, HTTP and event-stream serving, audio and MIDI devices, rendering, and the text of diagnostics.
- The contracts crate is not part of this model: object-text parsing is the field `textReference` of a node, and graph analysis and validation of node snapshots are not modelled.
- Floating-point semantics: the operations are parameters, so finiteness, rounding and exactness of conversion are not claimed.
- Playback.PlanProject: node ids must be plain (not empty, without `:` and `@`) and distinct in each graph; how a node of the flat document becomes a node of the audio graph is a parameter.
- FlatMeaning.FlatteningPreservesMeaning: assumes the same plain and distinct ids, since other ids can make namespaced names collide.
- FlatEdgeIds.FlatEdgeIdsDistinct: edge ids that end with two underscores and a number can equal the id of a merged edge, and are excluded.
- DspRefinement.RealtimeRefinesOffline: snapshot nodes exist only offline and output nodes only in real time, so these are not compared.
- DspFeedback.AgreesExactly: the condition is necessary for arithmetic that loses nothing, such as formal terms; with numbers a late node can be inaudible, for example when another factor is zero.
- DspRealtime.NewExecutor: assumes a positive block size, which the plan options are checked for before (`src/dsp.rs:760-769`).
- DspPlan.BuildPlan: the refusal of edges between clock domains without a bridge (`src/dsp.rs:664`) is not modelled.
- Clock domains, partitions, bridges and endpoints of audio plans, and the groups of execution plans other than the order of nodes.
- Node kinds of the control model are an enumeration, a channel key is a pair of kind and name instead of a joined text, and node parameters are given by how they read as texts, numbers and colours.
- ControlMachine.ControlState.PropagateEmissions: takes the specification of one delivery as a ghost argument; emissions are collected one delivery at a time.
- ControlText.TypedRoundTrip: only print then parse; how floats print and parse is a parameter, so that they parse back is assumed of each float in the message.
- OfflineMeaning.ReportIsSound: for a port with one buffer; of several output ports of a node with the same name, only the last one's buffer is wired.
- ProjectSound.ProjectIsHeard: for projects without feedback edges and cycles; what is heard otherwise is DspFeedback.
- TimestampForms.FormsCompareExactly: four-digit years and seconds at most 59; the letters `t` and `z` and a space in place of `T` are not modelled; times before 1970 are compared for texts of the same form only.
- TimestampForms.ExpiryReadsMillis: the present is at most the largest `u128`.
- Collaboration.StreamCompleteExactly: a receiver that keeps up; what a lagging one is told is LagGapExactly, and the broadcast channel itself, whose size and polling decide who lags, is not part of this model.
- ControlLimits.EventNotCutOff: a bound for graphs of all kinds of nodes; it is exact for bang nodes, since others may not emit.
- FlatChains.FlatEdgesMatchChains: with a cycle of inlets and outlets there are infinitely many chains, and no such correspondence.
- Presence, selection, idempotency records and edge ids of the collaboration log.
- Interleavings inside a method that holds a lock: each such method is one step.
