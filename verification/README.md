# Verified model of the VirtMCU coordinators

VirtMCU runs many emulated microcontrollers in lockstep. Time is cut into quanta; a
coordinator collects a DONE from every node, sorts the messages of the quantum, delivers them
and starts the next quantum. The project's central promise is that the result is bit-identical
whatever the host does in between. This project models the code that has to keep that promise
and proves it, together with the other parts of the repository whose correctness is not plain
from reading them.

| file | models |
|---|---|
| `Ordering.dfy`, `Messages.dfy`, `CanonicalOrder.dfy` | sorting, admission control, the two message records and their comparisons, the documented delivery order |
| `BarrierSpec.dfy` | what a quantum's slot and batch are, as a function of the accepted calls alone |
| `TwoSlot.dfy`, `TwoSlotBarrier.dfy` | the deterministic coordinator's barrier: state machine and class |
| `QuantaMap.dfy`, `QuantaMapBarrier.dfy` | the Zenoh coordinator's barrier: state machine and class |
| `Refinement.dfy` | when the two barriers agree |
| `EventLoop.dfy`, `Output.dfy`, `Scheduling.dfy`, `Conservation.dfy`, `Coordinator.dfy` | the main loop: state machine, what it sends and when, independence of scheduling, conservation of messages, class |
| `Topology.dfy` | link permission and routing |
| `BatchCodec.dfy`, `BatchLayout.dfy` | the wire format: encoder, decoder, round trip, and byte positions |
| `Obstacles.dfy`, `SpatialGrid.dfy` | the segment/box test and the spatial index of the radio model |
| `TimeAuthority.dfy` | overshoot compensation of the virtual clocks |
| `Coverage.dfy`, `Resd.dfy` | coverage counting, sensor interpolation |
| `Collections.dfy`, `Integers.dfy` | helpers on sequences, sets and integers |

Every `submit_done` runs under one mutex, so a concurrent run is a sequence of calls, and
"every interleaving" is "every sequence". A barrier is modelled twice: as a state machine on
sets and multisets, about which whole-run theorems are proved, and as a class with the fields
the source updates, whose methods are proved to take exactly the steps of the state machine.
Everything about sorting is stated for an arbitrary total order, because the two coordinators
use different ones; `CompareIsTotal` and `CompareNamedIsTotal` supply them.

## What was found

- The documentation promises delivery by (time, source, sequence number). The code compares
  the destination before the sequence number. `SortedIsDocumentedIffNoneCrossed` gives the exact
  condition, `CrossedExample` a batch that violates the promise. The model follows the code.
- The two-slot barrier stops for good if a call closes a quantum while every node has already
  reported the next one (`WedgedIffMet`, `WedgedForever`, `WedgeExample`). It cannot happen when
  every node reports its quanta in increasing order (`NeverWedged`).
- With increasing reports but a skipped quantum, the last report of a quantum need not release
  it (`GapExample`). It does if and only if every earlier quantum is complete
  (`ReleasesIffReached`), which holds always without gaps (`LastReportReleases`). Once every node
  has reported the next quantum over an incomplete current one, nothing is released any more
  (`FullLookaheadStalls`).
- Distinct reports to the map barrier are accepted in full in every order exactly as long as no
  reachable quantum has more reporters than the configured number of nodes
  (`AlwaysAcceptedIffFits`). One reporter too many in the first incomplete quantum stops it for
  good (`OverfullIff`, `OverfullForever`, `OverfullExample`).
- A frame and a DONE of the same node arrive on different channels. Their order matters exactly
  when the frame is due within the DONE's limit (`FrameAndDoneCommute`). Other reorderings
  of frames among themselves, past DONEs and between nodes stay unseen (`ReorderingUnseen`).
- The slab test treats a coordinate difference below the floating-point epsilon as none. It
  decides every box correctly, and alike from both ends, if and only if the segment has no such
  sliver (`ExactIffNoSliver`, `SymmetricIffNoSliver`, `SliverExample`).
- For a path loss that never decreases, the recipients found through the radio grid are those of
  a full scan, for all positions and all obstacles that do not amplify, if and only if nothing is
  audible beyond 500 m (`GridAgreesIffCutOff`, `MissedExample`).
- The two barriers part exactly when a call closes a quantum on a full lookahead; from then on the
  map barrier is ahead (`RefinesIffNoneMet`).
- A broadcast in an explicit topology ignores the drop list, so it agrees with unicasts if and
  only if none of the sender's links was cut last (`MatchIffNoneCut`, `CutExample`).
- A sensor reading at a sample's own time returns the whole sample if and only if the next sample
  does not have fewer components (`WholeIffNotCutShort`, `CutShortExample`). The file reader gives
  all samples of a sensor the same number of components, so only a sensor filled by hand can show
  it; recordings with ascending timestamps are read back whole (`RecordingsReadBack`).
- The coverage report's verbosity switch has no effect: the filter behind it lets every symbol
  through (`Report`).

## Model

| member | source | states |
|---|---|---|
| Ordering.OneSortedArrangement | tools/deterministic_coordinator/src/barrier.rs:158-159 | two sorted lists with the same contents are the same list |
| Ordering.SortForgetsOrder | tools/deterministic_coordinator/src/barrier.rs:139-140 | sorting any permutation of a submission gives the same list |
| Ordering.AdmissionControl | tools/deterministic_coordinator/src/barrier.rs:139-152 | kept and dropped messages partition the submission, nothing is dropped within the limit, every kept message is ordered before every dropped one, and arrival order does not matter |
| Messages.CompareIsTotal | tools/deterministic_coordinator/src/barrier.rs:24-35 | the comparison is a total order and `Equal` is equality of all fields |
| Messages.CompareNamedIsTotal | tools/zenoh_coordinator/src/barrier.rs:25-36 | the same for the other coordinator, which orders the fields differently |
| CanonicalOrder.CodeFollowsDocument | docs/architecture/01-system-overview.md:48 | of two messages in documented order the code puts the first one first if and only if they are not crossed |
| CanonicalOrder.SortedIsDocumentedIffNoneCrossed | docs/fundamentals/08-pdes-and-virtual-time.md:25-28 | a sorted batch is in documented order if and only if no two of its messages are crossed |
| CanonicalOrder.BroadcastsAreDocumented | tools/deterministic_coordinator/src/main.rs:378-386 | batches with one common destination are always in documented order |
| CanonicalOrder.CrossedExample | tools/deterministic_coordinator/src/barrier.rs:26-33 | two unicasts that are delivered against their sequence numbers |
| CanonicalOrder.CompareByFields | tools/deterministic_coordinator/src/barrier.rs:24-35 | one message is less than another if and only if it is at the first of time, source, destination, sequence number, protocol in declaration order, topic, payload in which they differ; texts and payloads by their first different position, a proper prefix being less, no topic before any |
| CanonicalOrder.CompareNamedByFields | tools/zenoh_coordinator/src/barrier.rs:25-36 | the same for the Zenoh coordinator: time, source, destination, sequence number, topic, protocol, payload |
| BarrierSpec.SlotForgetsOrder | tools/deterministic_coordinator/src/barrier.rs:134-159 | the reporters and messages of a quantum do not depend on the order of the calls |
| BarrierSpec.SlotBounded | tools/deterministic_coordinator/src/barrier.rs:142-154 | a quantum holds at most the per-node limit for each reporter |
| TwoSlot.RunExplained | tools/deterministic_coordinator/src/barrier.rs:86-178 | every run, no assumption: each batch is the specified batch of its quantum with every node in it, quanta are released consecutively, the slots hold exactly the accepted unreleased reports |
| TwoSlot.BatchSafety | tools/deterministic_coordinator/src/barrier.rs:157-174 | of every batch returned to a caller: exactly one report of each node, none of any other, no message of another quantum, at most nodes times limit messages |
| TwoSlot.WedgedForever | tools/deterministic_coordinator/src/barrier.rs:134-176 | once the current quantum is left complete, no sequence of calls ever releases anything again |
| TwoSlot.WedgeCondition | tools/deterministic_coordinator/src/barrier.rs:157-171 | a call leaves the current quantum complete if and only if it closes the previous one on a full lookahead |
| TwoSlot.WedgedIffMet | tools/deterministic_coordinator/src/barrier.rs:119-174 | a run ends stuck if and only if it contains such a call |
| TwoSlot.WedgeExample | tools/deterministic_coordinator/src/barrier.rs:119-131 | an error-free run that ends stuck |
| TwoSlot.NeverWedged | tools/deterministic_coordinator/src/barrier.rs:134-176 | with strictly increasing reports no reachable state has the current quantum complete |
| TwoSlot.ReleasesIffReached | tools/deterministic_coordinator/src/barrier.rs:119-174 | in every increasing run the accepted report that completes its quantum returns that quantum's batch if and only if every quantum before it is complete |
| TwoSlot.LastReportReleases | tools/deterministic_coordinator/src/barrier.rs:155-174 | with increasing gap-free reports the report that completes a quantum returns its batch at once |
| TwoSlot.GapExample | tools/deterministic_coordinator/src/barrier.rs:119-131 | with a gap it returns nothing |
| TwoSlot.FullLookaheadStalls | tools/deterministic_coordinator/src/barrier.rs:113-137 | in an increasing run whose lookahead is full, nothing is ever accepted or released again |
| TwoSlot.AllAccepted | tools/deterministic_coordinator/src/barrier.rs:103-137 | in an error-free increasing run exactly the reports of configured nodes for quanta from the start on are accepted |
| TwoSlot.NoErrors | tools/deterministic_coordinator/src/barrier.rs:103-136 | increasing reports at most one quantum ahead raise no error |
| TwoSlot.ErrorsExplained | tools/deterministic_coordinator/src/barrier.rs:103-136 | after any run, which of the three errors a call meets and with which numbers, in terms of what was released and accepted: stale reports are ignored, then unknown nodes, quanta too far ahead and repeated reports are refused |
| TwoSlot.Determinism | tools/deterministic_coordinator/src/barrier.rs:86-178 | two error-free interleavings of the same increasing reports release the same batches in the same order and end in the same state |
| TwoSlot.BagDeterminism | tools/deterministic_coordinator/src/barrier.rs:139-154 | the same when each report's messages may arrive in a different order as well |
| TwoSlotBarriers.TwoSlotBarrier.constructor | tools/deterministic_coordinator/src/barrier.rs:62-76 | a new barrier is a fresh state at quantum 0 |
| TwoSlotBarriers.CountFlags | tools/deterministic_coordinator/src/barrier.rs:171 | the count after promotion is the number of set flags |
| TwoSlotBarriers.TwoSlotBarrier.RecordNext | tools/deterministic_coordinator/src/barrier.rs:119-131 | a lookahead report goes to the next slot only |
| TwoSlotBarriers.TwoSlotBarrier.RecordCurrent | tools/deterministic_coordinator/src/barrier.rs:133-155 | a current report goes to the current slot, and the count keeps equal to the number of flags |
| TwoSlotBarriers.TwoSlotBarrier.Promote | tools/deterministic_coordinator/src/barrier.rs:157-174 | returns the sorted current messages and makes the lookahead current |
| TwoSlotBarriers.TwoSlotBarrier.SubmitDone | tools/deterministic_coordinator/src/barrier.rs:86-178 | takes the state machine's step and returns its answer, for every call, errors and stale reports included |
| TwoSlotBarriers.TwoSlotBarrier.SetQuantum | tools/deterministic_coordinator/src/barrier.rs:82-84 | changes the current quantum and nothing else |
| TwoSlotBarriers.TwoSlotBarrier.Reset | tools/deterministic_coordinator/src/barrier.rs:180-192 | back to a fresh state at quantum 0 |
| QuantaMap.DrainExplained | tools/zenoh_coordinator/src/barrier.rs:118-138 | draining releases the specified batches of consecutive quanta and leaves the rest of the map as it was |
| QuantaMap.RunExplained | tools/zenoh_coordinator/src/barrier.rs:85-149 | every run: released batches are the specified ones of consecutive quanta, remaining keys are not behind the current quantum, which is absent or incomplete |
| QuantaMap.ResultExplained | tools/zenoh_coordinator/src/barrier.rs:114-148 | a call returns the concatenated batches of exactly the quanta it closed, and nothing if it closed none |
| QuantaMap.ErrorsExplained | tools/zenoh_coordinator/src/barrier.rs:95-106 | after any run a call is refused, as a duplicate, if and only if the same report was accepted for a quantum not yet released |
| QuantaMap.ReceivedAreBatches | tools/zenoh_coordinator/src/barrier.rs:114-148 | the results of a run put together are the batches of the quanta it released, one after the other |
| QuantaMap.Confluence | tools/zenoh_coordinator/src/barrier.rs:85-149 | every ordering of the same distinct fitting reports is accepted in full, hands its callers the same messages in the same order and ends in the same state |
| QuantaMap.UniverseFits | tools/zenoh_coordinator/src/barrier.rs:119 | reports from a fixed set of as many names as nodes fit |
| QuantaMap.AlwaysAcceptedIffFits | tools/zenoh_coordinator/src/barrier.rs:95-119 | distinct reports are accepted in full in every order if and only if they fit |
| QuantaMap.OverfullForever | tools/zenoh_coordinator/src/barrier.rs:118-137 | a current quantum with too many reporters is never released, and nothing after it |
| QuantaMap.OverfullIff | tools/zenoh_coordinator/src/barrier.rs:114-137 | a run ends overfull if and only if it accepted too many reports for the first quantum that is not complete |
| QuantaMap.OverfullExample | tools/zenoh_coordinator/src/barrier.rs:100-119 | three accepted reports from a fresh barrier that end overfull |
| QuantaMapBarriers.QuantaMapBarrier.constructor | tools/zenoh_coordinator/src/barrier.rs:64-74 | a new barrier is a fresh state at quantum 1 |
| QuantaMapBarriers.QuantaMapBarrier.Reset | tools/zenoh_coordinator/src/barrier.rs:80-83 | forgets all reports and keeps the quantum |
| QuantaMapBarriers.QuantaMapBarrier.TakeCurrent | tools/zenoh_coordinator/src/barrier.rs:121-133 | one round of draining |
| QuantaMapBarriers.QuantaMapBarrier.DrainComplete | tools/zenoh_coordinator/src/barrier.rs:114-138 | the loop terminates and computes the specified draining |
| QuantaMapBarriers.QuantaMapBarrier.SubmitDone | tools/zenoh_coordinator/src/barrier.rs:85-149 | takes the state machine's step and returns its answer, for every call |
| Refinement.StepRefines | tools/zenoh_coordinator/src/barrier.rs:102-148 | for coupled states and a call without error, the two barriers give the same effect and stay coupled if and only if the call does not close on a full lookahead; if it does, the map barrier is ahead |
| Refinement.RefinesIffNoneMet | tools/deterministic_coordinator/src/barrier.rs:119-174 | on every error-free run the two barriers return the same results call by call and end coupled if and only if no call closed on a full lookahead; otherwise the map barrier's quantum is strictly ahead |
| Refinement.RunRefines | tools/deterministic_coordinator/src/barrier.rs:119-174 | on every error-free run with increasing reports the two barriers return the same results call by call |
| EventLoop.RunExplained | tools/deterministic_coordinator/src/main.rs:314-510 | every run: the loop's quantum is the barrier's, held-back frames are those no DONE has reached, each DONE submits the frames it is the first to reach and then the messages it carries, the output is deliver batch 1, start 2, deliver batch 2, start 3 and so on |
| EventLoop.ReachedAreDue | tools/deterministic_coordinator/src/main.rs:460-467 | the frames a DONE is the first to reach are the held-back ones within its limit |
| Output.DeliveredInOrder | tools/deterministic_coordinator/src/main.rs:470-481 | every run: the delivered messages, read off the output in order, are the batches the barrier returned one after the other |
| Output.RoundsSorted | tools/deterministic_coordinator/src/main.rs:471-481 | every run: whatever is delivered without a start in between is in delivery order |
| Output.StartsCounted | tools/deterministic_coordinator/src/main.rs:486-498 | every run: each node has been started exactly once on each quantum from 2 to the current one, nothing else has been started |
| Output.StartsInRounds | tools/deterministic_coordinator/src/main.rs:487-498 | every run: the starts come quantum by quantum, in each by node number |
| Output.StartAfterBatches | tools/deterministic_coordinator/src/main.rs:479-498 | every run: when a quantum is started, the batches of all earlier quanta have been delivered and no message of a later one |
| Scheduling.SubmissionsAreLocal | tools/deterministic_coordinator/src/main.rs:388-395 | the calls made for a node depend on that node's events only |
| Scheduling.SchedulingIndependence | docs/README.md:24-25 | same quanta reported with the same bags of messages, increasing, no errors: the same deliveries and starts in the same order and the same barrier, whatever order frames and DONEs of the same or different nodes arrived in |
| Scheduling.InterleavingIndependence | tools/deterministic_coordinator/src/main.rs:314-510 | if every node's events keep that node's order, the whole final state is the same |
| Scheduling.ReorderingUnseen | tools/deterministic_coordinator/src/main.rs:314-395 | any number of exchanges of neighbouring events of different nodes, of two frames, or of a frame and a DONE not reaching it changes neither the output nor the barrier nor which frames are held back for a node |
| Scheduling.NeverRefused | tools/deterministic_coordinator/src/main.rs:460-504 | if every DONE is of a configured node, in increasing order, and for the first quantum or one whose start had been sent to that node, none is refused |
| Scheduling.ProtocolDeterminism | docs/README.md:24-25 | nodes that obey these rules and hand over the same bags of messages get the same deliveries and starts in the same order, in every run, with no assumption about the barrier's answers |
| Scheduling.FrameAndDoneCommute | tools/deterministic_coordinator/src/main.rs:322-395 | a frame and a DONE of one node may be swapped if and only if the frame lies beyond the DONE's limit |
| Conservation.BarrierConserves | tools/deterministic_coordinator/src/barrier.rs:86-178 | every run: what was submitted is refused, truncated, pending or released, counted with multiplicity |
| Conservation.LoopConserves | tools/deterministic_coordinator/src/main.rs:388-467 | every frame and batched message is waiting or has been submitted |
| Conservation.MessagesConserved | tools/deterministic_coordinator/src/main.rs:322-510 | every message given to the loop is held back, refused with its DONE, truncated, pending or delivered, and exactly one of these |
| Coordinators.Partition | tools/deterministic_coordinator/src/main.rs:461 | splits held-back frames at the limit and keeps their order |
| Coordinators.Coordinator.constructor | tools/deterministic_coordinator/src/main.rs:208-218 | starts at quantum 1 with nothing held and nothing sent |
| Coordinators.Coordinator.HandleTx | tools/deterministic_coordinator/src/main.rs:388-395 | takes the loop's step for a frame |
| Coordinators.Coordinator.HandleDone | tools/deterministic_coordinator/src/main.rs:460-504 | takes the loop's step for a DONE |
| Coordinators.Coordinator.DeliverAll | tools/deterministic_coordinator/src/main.rs:479-481 | appends one delivery per message, in the order of the batch |
| Coordinators.Coordinator.StartAll | tools/deterministic_coordinator/src/main.rs:487-498 | appends one start of the new quantum per node, by node number |
| Topology.RfNeighbors | tools/deterministic_coordinator/src/topology.rs:316-337 | lists every positioned node within range, other than the node itself, once |
| Topology.InRangeByDistance | tools/deterministic_coordinator/src/topology.rs:327-333 | in range means at a distance of at most the range plus one millionth |
| Topology.IsLinkAllowed | tools/deterministic_coordinator/src/topology.rs:292-308 | true exactly if the pair is joined by the topology and not cut |
| Topology.BlockedIffLastWasCut | tools/deterministic_coordinator/src/topology.rs:339-360 | after any updates a pair is blocked if and only if the last update deciding it, in either direction, cut it |
| Topology.LinkAfterUpdates | tools/deterministic_coordinator/src/topology.rs:292-360 | after any updates a link may be used if and only if its ends are joined and the last update deciding the pair did not cut it, in both directions alike; joined means sharing a link of the protocol, for the two radio protocols being in range where the nodes stand then, and always without a topology |
| Topology.TopologyGraph.UpdatePositions | tools/deterministic_coordinator/src/topology.rs:310-314 | later positions override earlier ones; nothing else changes |
| Topology.StandsWhereMoved | tools/deterministic_coordinator/src/topology.rs:310-314 | after any updates a node stands where the last move naming it put it, or where it stood at first |
| Topology.TopologyGraph.UpdateControl | tools/deterministic_coordinator/src/topology.rs:351-356 | cuts at 0.99 and above, restores both directions at 0.01 and below, ignores the rest |
| Topology.TargetNodes | tools/deterministic_coordinator/src/main.rs:519-547 | names every node exactly as often as it is to be sent a copy: once if permitted for a unicast or a radio or implicit broadcast, once per mention on the sender's links for a wired broadcast |
| Topology.MentionsCounted | tools/deterministic_coordinator/src/main.rs:533-541 | a wired broadcast names a node once per mention on the sender's links |
| Topology.UnicastAfterUpdates | tools/deterministic_coordinator/src/main.rs:543-547 | after any updates a unicast is sent once if the link may be used then, and to nobody else |
| Topology.RadioBroadcast | tools/deterministic_coordinator/src/main.rs:530-532 | after any updates a radio broadcast goes once to every other node in range |
| Topology.ImplicitBroadcast | tools/deterministic_coordinator/src/main.rs:522-529 | without a topology a broadcast goes once to every other node seen whose link was not cut last |
| Topology.BroadcastReaches | tools/deterministic_coordinator/src/main.rs:530-542 | in an explicit topology a broadcast goes to exactly the other joined nodes, cut or not |
| Topology.MatchIffNoneCut | tools/deterministic_coordinator/src/main.rs:521-547 | after any updates of an explicit topology broadcast and unicast reach the same nodes if and only if no joined node's link was cut by the last update deciding it |
| Topology.CutExample | tools/deterministic_coordinator/src/main.rs:534-547 | over one cut cable the broadcast is sent and the unicast is not |
| Topology.IsNamedLinkAllowed | tools/zenoh_coordinator/src/topology.rs:142-162 | true exactly if the topology is implicit or some link of the protocol has both nodes |
| Topology.GetWirePeers | tools/zenoh_coordinator/src/topology.rs:164-181 | the peers are exactly the other nodes the permission test accepts |
| Topology.Destinations | tools/zenoh_coordinator/src/main.rs:300-318 | lists once every other node on a link of the protocol with the sender, or every other known node; the violation branch is never taken |
| BatchCodec.IntRoundTrip | tools/deterministic_coordinator/src/main.rs:92-103 | little-endian integers read back as written |
| BatchCodec.DecodeBatch | tools/deterministic_coordinator/src/main.rs:59-88 | the cursor loop computes the record-by-record decoding of any bytes |
| BatchCodec.BatchRoundTrip | tools/deterministic_coordinator/src/main.rs:59-106 | decoding an encoded batch, with anything behind it, gives back every message as far as the format carries it |
| BatchCodec.BatchRoundTripExact | tools/deterministic_coordinator/src/main.rs:31-106 | the round trip is the identity if and only if no message is `Control` and none has a base topic |
| BatchLayout.RecordLayout | tools/deterministic_coordinator/src/main.rs:90-106 | a record by byte positions: source 0-3, destination 4-7, time 8-15, sequence number 16-23, protocol 24 as its place in the declaration, payload length 25-28, payload from 29, all numbers least significant byte first |
| BatchLayout.ReadsWhatStands | tools/deterministic_coordinator/src/main.rs:64-84 | from any bytes a record is read if and only if header and announced payload are complete, and then every field is the number at its position and the cursor stands behind it; unknown protocol codes mean Ethernet |
| BatchLayout.DecodedByPosition | tools/deterministic_coordinator/src/main.rs:59-88 | a batch whose four-byte count is followed by that many complete records decodes to them in order; fewer than four bytes decode to nothing |
| Obstacles.RayIntersectsAabb | tools/zenoh_coordinator/src/main.rs:93-124 | true exactly if some parameter in [0, 1] is admitted on all three axes, for every segment and box |
| Obstacles.TestIsExact | tools/zenoh_coordinator/src/main.rs:93-124 | for well-formed boxes and no sliver, that is so exactly if a point of the closed segment lies in the box |
| Obstacles.TestIsSymmetric | tools/zenoh_coordinator/src/main.rs:93-124 | and then the answer does not depend on the direction |
| Obstacles.ExactIffNoSliver | tools/zenoh_coordinator/src/main.rs:93-124 | the test is right about every well-formed box if and only if the segment has no sliver |
| Obstacles.SymmetricIffNoSliver | tools/zenoh_coordinator/src/main.rs:93-124 | and gives the same answer in both directions for every well-formed box under exactly the same condition |
| Obstacles.TestFreezesSlivers | tools/zenoh_coordinator/src/main.rs:109-113 | for every segment the answer is that of the segment with sliver coordinates frozen |
| Obstacles.SliverExample | tools/zenoh_coordinator/src/main.rs:109-113 | a segment whose box is missed in one direction and found in the other |
| SpatialGrid.Build | tools/zenoh_coordinator/src/main.rs:158-173 | every node of the prefix is filed once, in its cell |
| SpatialGrid.Candidates | tools/zenoh_coordinator/src/main.rs:174-195 | lists each other node at most one cell away on every axis, once |
| SpatialGrid.ObstacleLoss | tools/zenoh_coordinator/src/main.rs:618-622 | the sum of the attenuations of the boxes in the way |
| SpatialGrid.AttenuationByGeometry | tools/zenoh_coordinator/src/main.rs:618-622 | for well-formed boxes the obstacle loss is the sum over exactly the boxes the segment touches, its slivers frozen |
| SpatialGrid.OneMoreBox | tools/zenoh_coordinator/src/main.rs:618-622 | without a sliver one more box, anywhere in the list, adds its attenuation if and only if the segment touches it |
| SpatialGrid.Recipients | tools/zenoh_coordinator/src/main.rs:591-628 | lists exactly the searched, permitted nodes whose signal is strong enough, each once |
| SpatialGrid.PickedByGeometry | tools/zenoh_coordinator/src/main.rs:591-628 | a positioned node is picked if and only if it lies in a neighbouring cell and power less path loss less the attenuations of the touched boxes reaches the sensitivity |
| SpatialGrid.PickedBlind | tools/zenoh_coordinator/src/main.rs:594-628 | a sender without a position reaches every other known node if and only if its power suffices by itself |
| SpatialGrid.WallExample | tools/zenoh_coordinator/src/main.rs:618-628 | a wall across the segment silences a node, the same wall to the side does not |
| SpatialGrid.NearMeans | tools/zenoh_coordinator/src/main.rs:174-195 | the cells searched are those of 500 m at most one away on every axis |
| SpatialGrid.WithinCellSizeIsNear | tools/zenoh_coordinator/src/main.rs:174-195 | no node within 500 m is missed |
| SpatialGrid.GridEqualsScan | tools/zenoh_coordinator/src/main.rs:591-628 | if nothing is audible beyond 500 m, the grid's recipients are those of a scan of all positions |
| SpatialGrid.NeverMissesIffCutOff | tools/zenoh_coordinator/src/main.rs:174-195 | for a non-decreasing path loss, every pair of points within hearing lies in neighbouring cells if and only if nothing is audible beyond 500 m |
| SpatialGrid.GridAgreesIffCutOff | tools/zenoh_coordinator/src/main.rs:591-628 | for a non-decreasing path loss the grid search picks the recipients of a full scan, for all positions and all obstacles of non-negative attenuation, if and only if nothing is audible beyond 500 m |
| SpatialGrid.MissedExample | tools/zenoh_coordinator/src/main.rs:174-195 | an audible node 1500 m away that the scan picks and the grid search does not |
| TimeAuthority.BoundedDrift | tools/testing/virtmcu_test_suite/conftest_core.py:482-513 | over runs of any length vtime minus expected time stays within the overshoot of one step |
| TimeAuthority.StepMeans | tools/testing/virtmcu_test_suite/conftest_core.py:483-513 | the request is the step less the recorded overshoot, or nothing if that is negative; the new overshoot is what the reply is ahead of the expected time, or nothing |
| TimeAuthority.VirtualTimeAuthority.Step | tools/testing/virtmcu_test_suite/conftest_core.py:469-515 | every node is asked for the step less its overshoot; all clocks advance by their replies, or those before the first unusable reply do and the rest do not, and the failure says why that reply is unusable |
| TimeAuthority.VirtualTimeAuthority.Init | tools/testing/virtmcu_test_suite/conftest_core.py:444-467 | every node is asked for a zero step, and its reply becomes both its own and its expected time, without overshoot |
| TimeAuthority.VirtualTimeAuthority.Round | tools/testing/virtmcu_test_suite/conftest_core.py:522-524 | one step of the given size, or of what the slowest node lacks if that is less |
| TimeAuthority.VirtualTimeAuthority.RunFor | tools/testing/virtmcu_test_suite/conftest_core.py:517-525 | terminates; the slowest node ends at the target or at most one overshoot past it |
| Coverage.MergeSorted | tools/analyze_coverage.py:71-80 | merged intervals have the same union and are strictly separated |
| Coverage.MergeIntervals | tools/analyze_coverage.py:66-80 | the same for any list of blocks, which is left sorted |
| Coverage.CalculateCoverage | tools/analyze_coverage.py:121-141 | counts exactly the covered addresses of the range |
| Coverage.CoverageAdditive | tools/analyze_coverage.py:121-141 | coverage is additive over adjacent ranges |
| Coverage.Report | tools/analyze_coverage.py:159-201 | one line per symbol of positive size, with the share of its addresses that lie in some block of the trace, and the total share, whatever the verbosity |
| Coverage.CoverageIsPercentage | tools/analyze_coverage.py:184-201 | every percentage lies between 0 and 100 |
| Coverage.LinesInOrder | tools/analyze_coverage.py:176-190 | the lines are those of the symbols of positive size, in their order |
| Coverage.LineMeans | tools/analyze_coverage.py:184-190 | a line says executed if and only if some address of the symbol is covered, and 100 if and only if all are; the percentage times the size is 100 times the covered addresses |
| Coverage.TotalIsMean | tools/analyze_coverage.py:192-201 | the total is the mean of the lines weighted by size, and 0 without lines |
| Resd.GetReading | tools/cyber_bridge/src/resd_parser.rs:64-93 | for every sample list and time: held, or interpolated between samples with t0 <= t < t1 |
| Resd.ReadingBetween | tools/cyber_bridge/src/resd_parser.rs:79-92 | every interpolated component lies between its two neighbours |
| Resd.LinearBetween | tools/cyber_bridge/src/resd_parser.rs:79-92 | with ascending timestamps the reading is linear between neighbouring samples |
| Resd.ExactAtSamples | tools/cyber_bridge/src/resd_parser.rs:69-92 | and exact at every sample, for the components the next sample also has |
| Resd.WholeIffNotCutShort | tools/cyber_bridge/src/resd_parser.rs:88-92 | a sample is read back in full at its own time if and only if the next one is not shorter |
| Resd.RecordingsReadBack | tools/cyber_bridge/src/resd_parser.rs:198-217 | with ascending timestamps and the same number of components in every sample, as the reader stores them, every sample is read back whole at its own time |
| Resd.CutShortExample | tools/cyber_bridge/src/resd_parser.rs:88-92 | three components read as one before a sample of one component |
| Resd.ConstantOutside | tools/cyber_bridge/src/resd_parser.rs:74-77 | and constant before the first and after the last |

## Left out

- Zenoh sessions, the async runtime, liveliness probes, logging and topic strings: the loop is modelled from the events it handles, in the order in which it handles them.
- Parsing of frames, headers and JSON before an event reaches the modelled code, including malformed ones that are skipped.
- `wait_for_all` of both barriers: wall-clock timeouts; neither main loop calls it.
- Machine integers: quantum numbers, times and counts are unbounded, so the model is that of runs below 2^64; the casts of grid coordinates to 64 bits are not modelled.
- Floating point: distances, power levels, parameters, readings and percentages are exact reals, distances are compared by their squares, and path loss is any function of the squared distance.
- The Zenoh coordinator's event loop, its random drops and jitter, and the immediate delivery mode of both coordinators.
- Where a delivered message is sent depends on the topology at that moment; the loop's output stops at the decision to deliver, and targets are modelled separately.
- Order of targets and of recipients: the source iterates hash maps and hash sets, the model picks elements in any order.
- Node id lists with repetitions in the time authority.
- Loading of topologies, obstacle files, ELF symbols and RESD files, message logs and captures: library parsing or write-only code.
- BatchCodec.DecodeBatch: where a short read leaves the cursor depends on the library version, so it is a parameter.
- Coverage report: the exits on an empty trace or symbol table, symbol names and the printed layout.
- SystemC adapter, QMP bridges, emitters, lints and the launch harness: foreign kernels, process control or text plumbing.
