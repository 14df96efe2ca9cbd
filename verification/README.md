# Verification model of the NA62 PC farm

The farm receives raw Ethernet frames, puts IP fragments together, reads Multi Event Packets (MEPs)
out of the UDP data, builds events in a pool of slots, runs the L1 and L2 triggers on them and sends
accepted events to storage. This project models those parts in Dafny and proves what they promise.
`dafny verify dfyconfig.toml` checks everything.

| file | content |
|---|---|
| `Bits.dfy`, `Sums.dfy` | bitwise operators written out bit by bit; sums over lists in any order |
| `Network.dfy` | byte loads and stores, the header view of a frame |
| `Reassembly.dfy`, `Assembly.dfy` | meaning of one `addFragment` call: completion test, sort, contiguity test, copy |
| `Copies.dfy` | for which fragments a frame can come out, and for which a copy leaves its bounds |
| `FragmentStore.dfy` | runs of calls on the store; the class with its 32 maps |
| `Wire.dfy`, `Cutting.dfy` | the headers as the standards lay them out, read back; cutting any datagram into fragments |
| `Verdicts.dfy` | what becomes of a frame and its container, by the headers it carries |
| `HandleFrame.dfy`, `FrameTask.dfy` | filtering and routing of frames, fragmentation transparency; the class of one task |
| `InventedMep.dfy`, `L0Dispatch.dfy` | building and reading back the invented MEPs; the L0 branch of `processFrame` |
| `Events.dfy` | one event-building call as an effect on one slot; the steps of the farm |
| `Lifecycle.dfy`, `LifecycleResults.dfy` | the life of an event as an automaton; results over all runs |
| `Progress.dfy` | what must happen: data is added, complete events go on, none is lost on the way |
| `Sweep.dfy`, `SharedMemory.dfy` | the end-of-burst sweep; the shared-memory variant refines the inline one |
| `EventBuilders.dfy` | the class that holds the pool, with the builders' methods |
| `FrameExamples.dfy`, `Examples.dfy` | concrete frames, and concrete runs of the farm, that show where a property fails |
| `Pipeline.dfy` | packet handlers, the task queue, task processors |

## What the model takes for granted

Types of the farm's libraries are not part of the repository; the model gives each the behaviour
its uses here rely on.

* Frames have at least 42 bytes (Ethernet, IP without options and UDP headers). A fragment has MF set
  or an offset other than zero. A container is an address and its bytes.
* `uint` has 32 bits, `size_t`, `uint_fast16_t` and `uint_fast32_t` 64, `uint_fast8_t` 8, as on
  64-bit Linux. The payload sum and the two counters of the store wrap at 2^32.
* `std::sort` leaves some permutation sorted by offset; results hold for every one.
* The copies of `reassembleFrame` have no bounds of their own. Where one would leave the new buffer or
  the fragment's container the model returns `OutOfBounds`, of which nothing is promised, and results
  say when it cannot happen.
* A MEP has an 8-byte header with a 16-bit length and fragments from byte 8 on, each starting with
  its own 16-bit length. The event number of the i-th fragment is the first event number plus i.
* `addL0Fragment` and `addL1Fragment` report completion on the insertion that completes the expected
  set; duplicates are dropped, and so is L1 data of an event that has not been through L1. An event is
  unfinished from its first fragment until its slot is freed.
* Only the L2 algorithms, while `processL2` runs, make an event wait for non-zero-suppressed data.
* An L0 fragment carries the burst that was current when the task of its frame was built, which need not
  be the one in which the frame was received.
* Trigger decisions and `isLastEventOfBurst` are arbitrary functions of the event's data.
* One call holding a lock, one event-building call, and the sweep together with the change of burst are
  single steps; any interleaving of steps is covered.

## Findings

* Ethernet padding on the fragment with offset 0 breaks reassembly: the first container is copied
  whole, padding included. A fragmented datagram is delivered if and only if its opening fragment came
  unpadded (`Transparency.FragmentationIsTransparent`); with padding it is rejected, or, when the padded
  container is longer than the reassembled frame, the copy leaves the new buffer. A concrete 40-byte
  datagram is in `FrameExamples.PaddedFragmentationIsLost`.
* A copy can leave the new buffer or a container. As long as no `tot_len` is below 20 and the payload sum
  does not wrap, this has three causes: a padded opening fragment; a fragment that announces more than its
  container holds (`checkFrame` lets every fragment pass); and an empty fragment that starts inside the
  final one, because the buffer ends with the fragment that has the highest offset and the sum test does
  not see empty ones. The exact condition, for any fragments in any order, is in
  `Copies.CopyEscapesIff`, and for unpadded openings in `Copies.CopiesStayInside`. Inputs:
  `FrameExamples.PaddedOpeningOverruns`, `FrameExamples.UnreadableFragmentEscapes`,
  `FrameExamples.EmptyFragmentOverruns`.
* `numberOfReassembledFrames_` counts attempts, not delivered frames: over any run it grows, modulo 2^32,
  by the frames, the contiguity rejections and the undefined copies together
  (`StoreRuns.CounterCountsAttempts`).
* The shared-memory farm and the inline one part on a fragment for an event whose response is still on
  its way. The shared-memory farm drops it. The inline farm has already disposed of the event: an
  expected L0 fragment is dropped only if the event is still in its slot, and fills the slot anew
  otherwise; an expected L1 fragment is dropped only if the event has left its slot, and is added
  otherwise. A fragment from no expected source never matters. Apart from a failed store and a change of
  burst this is the only way to part (`SharedMemoryRefinement.StepSimulates`, both directions). The run of
  two L0 fragments, the first of them again, and a rejecting response is in
  `FarmExamples.DuplicatePartsTheFarms`.
* The "incomplete at L0" figure of the end-of-burst report is the number of unfinished events whose L0 data
  is incomplete if and only if every unfinished event with complete L0 data is marked as requested
  (`EndOfBurstSweep.DifferenceOfCounters`). In the local build no code in this repository sets the mark, so
  the figure is right exactly when no event is left between its L0 completion and its freeing
  (`EndOfBurstSweep.DifferenceInLocalBuild`); with the shared memory, exactly when none is shipped with its
  response outstanding (`EndOfBurstSweep.DifferenceWithSharedMemory`). A state of either build in which it
  is wrong is in `FarmExamples.CompleteEventReportedIncomplete`.
* A comment in `processL2` says that an event is destroyed only if no non-zero-suppressed data was
  asked for; the code frees it in every case. An event that L2 accepts while asking for such data is freed
  and never stored (`FarmExamples.AskingForMoreLosesTheEvent`). Between calls no event waits for such data,
  so the branch for it is never taken (`LifecycleResults.NeverWaitsForMoreData`).
* The 16-bit length in the header of an invented MEP is right if and only if the block is shorter than
  2^16 bytes (`InventedMeps.RoundTripIffShort`). Two fragments of 40008 bytes are within what the builders'
  own arithmetic allows and make a block no reader can walk (`InventedMeps.LongBlockIsUnreadable`). The L2
  builder also takes fragment lengths of 2^16 and more: the fragment header then holds the low 16 bits of
  the length only, and the two bytes behind them are or-ed with the rest
  (`InventedMeps.Patched32ReplacesLow16`).
* The range handed over as a MEP lies inside the frame if and only if the UDP length is at least 8 and at
  most the frame's length less 34 (`FrameHandling.RangeInsideIff`). `checkFrame` guards only the upper
  bound, and only of unfragmented frames (`FrameHandling.CheckedRange`): a frame with UDP length 7 passes
  (`FrameExamples.ShortUdpLengthPasses`). Of a reassembled frame neither bound is looked at: an unpadded
  datagram whose UDP length exceeds its payload is refused in one piece and handed over, with a range
  that leaves the frame, in fragments (`Transparency.FragmentationIsTransparent`,
  `FrameExamples.OverlongUdpLengthGetsThrough`).

## Model

| member | source | states |
|---|---|---|
| Assembly.FrameIffExactCover | src/socket/FragmentStore.h:47-82 | for any arrival order, with duplicates, overlaps, gaps, padding and unreadable fragments: the datagram comes out in its own length exactly when one final fragment is there, every payload byte up to its end is carried by exactly one fragment, each payload lies in its container and the opening fragment is unpadded; with an unpadded opening no other frame comes out |
| Assembly.DeliveredFrameIsExact | src/socket/FragmentStore.h:139-196 | for arbitrary traffic: a delivered frame begins with the whole container of the one opening fragment, has every other payload at its own offset, takes each byte from exactly one fragment and fills the buffer to the end of a fragment of highest offset; if the opening fragment was unpadded, the payloads tile the datagram, 34+N bytes in all |
| Assembly.AssembleEnds | src/socket/FragmentStore.h:151-196 | for any list in sorted order: a copy leaves its bounds exactly when that of a fragment does up to which the list is contiguous, and a frame comes out exactly when all is contiguous and no copy does |
| Copies.CopyEscapesIff | src/socket/FragmentStore.h:47-192 | for any fragments in any arrival order: a copy can leave the new buffer or a container if and only if the completion test passes and some fragment, below which the others tile, announces more than it holds or ends behind one of highest offset |
| Copies.CopiesStayInside | src/socket/FragmentStore.h:47-192 | with an unpadded opening fragment, lengths of at least zero and a sum below 2^32: exactly when, behind a tiled start, a fragment announces more than it holds or an empty one starts inside the final one |
| Copies.FrameComesIff | src/socket/FragmentStore.h:47-196 | for any fragments, empty and padded ones included: a frame of a given length can come out if and only if the completion test passes and what is copied of them tiles the bytes up to the end of a fragment of highest offset |
| Copies.OverrunIsTheFinal | src/socket/FragmentStore.h:71-77 | the sum test bounds every fragment behind a tiled start by the end of the fragment with the highest offset, the final one alone excepted |
| Assembly.DeliveredLengthIffUnpadded | src/socket/FragmentStore.h:180-192 | for any delivered frame: its length is the datagram's if and only if the opening fragment was unpadded |
| Assembly.ExactCoverCompletes | src/socket/FragmentStore.h:69-77 | fragments that tile the payload pass the 32-bit sum test |
| Assembly.AttemptOutcome | src/socket/FragmentStore.h:77-82 | counted attempts are exactly the calls that end in a frame, a contiguity rejection or an undefined copy |
| Reassembly.ContiguousIffExactCover | src/socket/FragmentStore.h:162-173 | sorted and contiguous from zero is the same as: each byte below N carried once and none beyond |
| StoreRuns.KeyIsInjective | src/socket/FragmentStore.h:111-114 | the packed key is equal exactly for equal source address and identification |
| StoreRuns.AfterIsConsistent | src/socket/FragmentStore.h:44-84 | after every run each entry is non-empty, holds only its own fragments, at most one final one, and never enough to complete |
| StoreRuns.FinalsNeverExceedTwo | src/socket/FragmentStore.h:50-67 | the 8-bit counter of final fragments never passes two |
| StoreRuns.AttemptHasTwoFragments | src/socket/FragmentStore.h:69-79 | reassembly is only attempted with two fragments or more |
| StoreRuns.NonInterference | src/socket/FragmentStore.h:33-45 | what a key holds after any interleaving is what its own arrivals alone leave |
| StoreRuns.OutcomesDoNotInterfere | src/socket/FragmentStore.h:41-85 | what each call may return is what it may return in the run of its key's arrivals alone |
| StoreRuns.ReleasesDoNotInterfere | src/socket/FragmentStore.h:121-129 | the containers of a key freed over any interleaving are, in order, those freed by its arrivals alone |
| StoreRuns.DifferentKeysCommute | src/socket/FragmentStore.h:41-45 | calls under different keys commute, in the state and in what they free |
| StoreRuns.RunConserves | src/socket/FragmentStore.h:121-129 | over any run each received fragment is held or was freed, once |
| StoreRuns.CounterCountsAttempts | src/socket/FragmentStore.h:77-79 | over any run the counter of reassembled frames grows by frames, contiguity rejections and undefined copies, modulo 2^32 |
| FragmentStores.MergeLookup | src/socket/FragmentStore.h:33-45 | the 32 maps are one map: a key is found exactly in the map its residue selects |
| FragmentStores.MergeSize | src/socket/FragmentStore.h:95-101 | the sizes of the maps sum to the number of distinct keys |
| FragmentStores.FragmentStore.AddFragment | src/socket/FragmentStore.h:31-85 | updates the maps, counters and freed containers as one call on the single map and returns an outcome that call allows |
| FragmentStores.FragmentStore.PushBack | src/socket/FragmentStore.h:44-45 | appends to the list of the key, creating it if absent |
| FragmentStores.FragmentStore.CleanAll | src/socket/FragmentStore.h:121-137 | frees every container of the key once and removes the key, nothing else |
| FragmentStores.FragmentStore.GetNumberOfUnfinishedFrames | src/socket/FragmentStore.h:95-101 | the number of distinct datagrams received incompletely |
| FragmentStores.Tally | src/socket/FragmentStore.h:47-60 | payload bytes modulo 2^32, the number of final fragments and the latest of them |
| FragmentStores.SortFragments | src/socket/FragmentStore.h:144-149 | a permutation sorted by offset |
| FragmentStores.ReassembleFrame | src/socket/FragmentStore.h:139-196 | the buffer written step by step is the assembly of some sorted permutation |
| FrameHandling.KeyIsBufferIdentifier | src/socket/HandleFrameTask.cpp:176-220 | behind the filters equal keys mean equal RFC 791 section 3.2 buffer identifiers |
| Wire.HeaderReadsBack | src/socket/HandleFrameTask.cpp:166-170 | every header of RFC 791 section 3.1, with any flags and any offset up to 65528, is read back field by field; a frame is a fragment exactly if MF is set or the offset is not zero |
| Wire.EveryFrameCarries | src/socket/HandleFrameTask.cpp:166-170 | every frame carries exactly one such header, so results on headers speak of all frames |
| Wire.KeyOnTheWire | src/socket/FragmentStore.h:111-114 | keys are equal exactly for equal source address and identification on the wire |
| Verdicts.Filtered | src/socket/HandleFrameTask.cpp:172-217 | when exactly a frame is an ARP request, ignored, broken or misaddressed, by Ethernet type, protocol, length fields and destination |
| Verdicts.Routed | src/socket/HandleFrameTask.cpp:224-433 | when exactly an unfragmented datagram becomes an L0 or L1 MEP, is an empty L1 one, or has an unknown port, and with which bytes |
| Verdicts.Stored | src/socket/HandleFrameTask.cpp:219-226 | every fragment for this machine goes to the store, and its verdict is that of what comes out |
| Verdicts.BookedByVerdict | src/socket/HandleFrameTask.cpp:176-217 | the handler frees a container exactly if it was flushed, ignored, broken, misaddressed, or in one piece and empty or for an unknown port; it hands it on exactly if in one piece and a MEP; other books do not change |
| Verdicts.BookedOverTask | src/socket/HandleFrameTask.cpp:141-149 | over a task each book grows by exactly the containers with its verdicts, in order |
| FrameHandling.RangeInsideIff | src/socket/HandleFrameTask.cpp:228-230 | the UDP data handed over lie inside the frame exactly when the UDP length covers its header and ends inside the frame |
| FrameHandling.CheckedRange | src/socket/HandleFrameTask.cpp:466-490 | for an unfragmented frame that passes the checks, exactly when the UDP length is at least 8 |
| FrameHandling.HandleConserves | src/socket/HandleFrameTask.cpp:193-240 | each frame's container ends in exactly one place: freed, stored, released by the store, handed to a MEP, or an ARP request |
| FrameHandling.HandleAllConserves | src/socket/HandleFrameTask.cpp:141-149 | the same for all containers of a task |
| Transparency.StoreFollowsArrivals | src/socket/HandleFrameTask.cpp:141-149 | the handler's store follows the arrivals that pass the filters |
| Transparency.FragmentationIsTransparent | src/socket/HandleFrameTask.cpp:219-230 | any datagram for this machine cut as RFC 791 prescribes, fragments in any order among any other frames: nothing until the last, which brings out the datagram's payload if and only if the opening fragment was unpadded, and the key is free again; the verdict, port and data are those of the unfragmented frame if the UDP length is between 8 and the IP payload's, for unpadded datagrams exactly when it is at most the latter; the range handed over lies inside the frame exactly when it is between the two |
| Cutting.EveryCutIsAFragmentation | src/socket/HandleFrameTask.cpp:219-226 | every datagram for this machine, cut at any increasing multiples of eight, gives frames that are a fragmentation of it, reach the store under its key and start unpadded |
| Transparency.PayloadDecidesRoute | src/socket/HandleFrameTask.cpp:224-235 | frames with the same IP payload go to the same place with the same length and data, whatever their headers and padding |
| Transparency.IntactIsHandedOver | src/socket/HandleFrameTask.cpp:228-240 | an unfragmented datagram is handed over with exactly the data bytes its UDP header announces, padding left out |
| Transparency.PaddedStartNeverDelivers | src/socket/FragmentStore.h:180-185 | with a padded opening fragment every order ends in a rejection, or in a copy beyond the buffer when the container is longer than the frame |
| FrameExamples.PaddedFragmentationIsLost | src/socket/FragmentStore.h:166-185 | a concrete two-fragment datagram that is lost to padding |
| FrameExamples.PaddedOpeningOverruns | src/socket/FragmentStore.h:156-184 | a concrete pair whose padded first container is longer than the buffer |
| FrameExamples.UnreadableFragmentEscapes | src/socket/FragmentStore.h:186-191 | a concrete pair whose second fragment announces more than its container holds |
| FrameExamples.EmptyFragmentOverruns | src/socket/FragmentStore.h:152-191 | three concrete readable, unpadded fragments, one of them empty: the copy of the final one leaves the buffer, in the only order the sort can give |
| FrameExamples.ShortUdpLengthPasses | src/socket/HandleFrameTask.cpp:228-240 | a concrete unfragmented frame with UDP length 7 that passes every check and hands over a length of 2^64-1 |
| FrameExamples.OverlongUdpLengthGetsThrough | src/socket/HandleFrameTask.cpp:219-240 | a concrete datagram refused in one piece and, in two fragments, handed over with one byte more than it has |
| FrameTasks.FrameHandler.ProcessFrame | src/socket/HandleFrameTask.cpp:165-240 | the verdict is one the filters, the store and the routing allow; the container is freed, handed to a MEP, answered or left to the store exactly as the verdict says |
| FrameTasks.FrameHandler.Execute | src/socket/HandleFrameTask.cpp:134-156 | each container is handled once, in order, against the store its predecessors left, or freed while flushing; the three books grow by exactly the containers whose verdicts belong there |
| InventedMeps.Patched16IsLength | src/socket/HandleFrameTask.cpp:278-281 | the 16-bit mask-and-or stores exactly the length |
| InventedMeps.Patched32ReplacesLow16 | src/socket/HandleFrameTask.cpp:320-323 | for any 32-bit length the mask-and-or stores its low half and ors its high half into the word's; it stores the length exactly when that is below 2^16, and then keeps the high half |
| InventedMeps.CopyHeader | src/socket/HandleFrameTask.cpp:274-281 | copies one header with only its low 16 bits replaced and leaves the rest of the buffer alone |
| InventedMeps.FragmentsInARow | src/socket/HandleFrameTask.cpp:272-275 | the fragments of a received MEP follow each other from byte 8 on, each as long as it says, inside the block |
| InventedMeps.Invent | src/socket/HandleFrameTask.cpp:255-283 | the built block carries every L0TP fragment header, patched, at equal distances, for all three builders; header and buffer length are given in numbers |
| InventedMeps.InventedWalks | src/socket/HandleFrameTask.cpp:303-330 | walking an invented block by fragment lengths finds exactly the L0TP fragments and ends at the block's end |
| InventedMeps.RoundTripIffShort | src/socket/HandleFrameTask.cpp:347-377 | a reader that trusts the header recovers the fragments if and only if the block is shorter than 2^16 |
| InventedMeps.LongBlockIsUnreadable | src/socket/HandleFrameTask.cpp:255-270 | a concrete MEP and fragment length within the builders' arithmetic whose block no reader can walk, whatever its source |
| InventedMeps.ReadBackHeader | src/socket/HandleFrameTask.cpp:365-370 | header word i is the L0TP word with its low 16 bits replaced, and the other four bytes are the same |
| L0Dispatch.L0Dispatcher.InventAndBuild | src/socket/HandleFrameTask.cpp:253-299 | one invented MEP: a well-formed block, counters, one build call per event |
| L0Dispatch.L0Dispatcher.InventAll | src/socket/HandleFrameTask.cpp:252-393 | the invented MEPs of exactly the active levels, in the order L1, L2, NSTD |
| L0Dispatch.L0Dispatcher.Dispatch | src/socket/HandleFrameTask.cpp:240-399 | all build calls of a received MEP in order; per-source MEP counters rise by exactly one, byte counters by the exact sizes |
| L0Dispatch.FanOut | src/socket/HandleFrameTask.cpp:295-298 | each event number is built once per active source and nothing else is, the MEP's own fragments last |
| L0Dispatch.SourcesInOrder | src/socket/HandleFrameTask.cpp:252-397 | which sources take part, and that L1 comes before L2, that before NSTD and the MEP's own last |
| L0Dispatch.CallsFollowSources | src/socket/HandleFrameTask.cpp:295-298 | of any two calls the earlier is of an earlier source, or of the same and a smaller event number |
| L0Dispatch.BytesInNumbers | src/socket/HandleFrameTask.cpp:292-294 | the bytes counted: 50 and, per event, 8 and the data, 12 in all for NSTD; the container's length for the MEP's own source |
| Lifecycle.AddL0Conforms | src/eventBuilding/L1Builder.cpp:78-110 | adding an L0 fragment, with everything it sets off, is a path of the lifecycle automaton |
| Lifecycle.DisposeConforms | src/eventBuilding/L1Builder.cpp:177-189 | requesting, going on to L2 and rejecting each lead where the slot's fields then say |
| Lifecycle.AddL1Conforms | src/eventBuilding/L2Builder.cpp:82-107 | the same for L1 data and the L2 processing it completes |
| Lifecycle.ResponseKeepsInv | src/SharedMemory/QueueReceiver.cpp:41-99 | a response keeps the invariant; one of the current burst finds its event unchanged and shipped in its slot and acts on that slot only; one of another burst changes nothing but the queue |
| Lifecycle.RunKeepsInv | src/eventBuilding/L1Builder.cpp:47-191 | in every state of every run each slot's history is a path of the automaton and the pool and queue are in order |
| LifecycleResults.LifeOfASlot | src/eventBuilding/L2Builder.cpp:111-199 | over all runs: completion, L1, request, L2 and storing at most once per occupancy, freed once per filling, no touch between freeing and refilling; L1, request and L2 after L0 completion, a request only after a positive L1 decision; L2 only on all L0 and L1 data after a positive L1 decision; each storing right after the L2 call that kept that event, or right before the sweep of that last event, and neither goes without |
| LifecycleResults.OncePerOccupancy | src/eventBuilding/L1Builder.cpp:113-191 | two such actions have a free between them |
| LifecycleResults.FreedThenFilled | src/eventBuilding/L2Builder.cpp:197-198 | a slot is filled exactly at first and right after being freed |
| LifecycleResults.TriggersNeedCompleteL0 | src/eventBuilding/L1Builder.cpp:78-107 | L1, request and L2 follow an L0 completion of the same occupancy |
| LifecycleResults.L2RunsOnFullEvents | src/eventBuilding/L2Builder.cpp:82-107 | in any history the automaton accepts, L2 and request follow a positive L1 decision of the same occupancy, and L2 has all L0 and all L1 data |
| LifecycleResults.StoresFollowL2OrSweep | src/eventBuilding/L2Builder.cpp:114-198 | in such a history an event is stored exactly right after an L2 call that keeps it or right before its sweep as last event |
| LifecycleResults.RunIsBalanced | src/eventBuilding/L1Builder.cpp:177-200 | completed events = rejected + processed by L2 + swept after completion + still in their slots; the request counter is the requests made; storage is, record by record, what was kept by L2 or swept as last event |
| LifecycleResults.StorageIsExactly | src/eventBuilding/L2Builder.cpp:114-198 | in every reachable state storage holds each record exactly as often as L2 ran on it and kept it (L2 off, or accepted without asking for more data) or the sweep found it unfinished and last |
| LifecycleResults.StoredForAReason | src/eventBuilding/L2Builder.cpp:145-179 | every stored record has its L2 call or sweep in the log, and is the last of its burst or complete at L0 and L1 and kept by L2 |
| LifecycleResults.NeverWaitsForMoreData | src/eventBuilding/L2Builder.cpp:120-198 | although the L2 algorithms may ask for more data, no slot of any reachable state waits for it |
| FarmProgress.L0DataGathers | src/eventBuilding/L1Builder.cpp:78-110 | whatever happens elsewhere, whatever comes twice or unexpected: until the last expected L0 source has sent, the slot holds exactly the sources that have, with the burst of the first |
| FarmProgress.L0DataCompletes | src/eventBuilding/L1Builder.cpp:78-191 | the fragment of the last source completes the event: the local trigger decides on the data, rejecting, requesting once, or going through L2; with the shared memory the event is shipped as it is |
| FarmProgress.BypassNeverRejects | src/eventBuilding/L1Builder.cpp:124-143 | an event that does not fit into the shared memory gets the word 0x20 and is never rejected: requested, marked and kept waiting, or through L2 if no L1 data is expected |
| FarmProgress.ShippedUntilAnswered | src/eventBuilding/L1Builder.cpp:115-123 | until its response is taken a shipped event stays as it is and its response stays on its way |
| FarmProgress.ResponseDecides | src/SharedMemory/QueueReceiver.cpp:63-99 | taking the response decides on the event as it was shipped, with the word found for it |
| FarmProgress.L1DataGathers | src/eventBuilding/L2Builder.cpp:82-107 | an event past L1 holds exactly the L1 sources that have sent, until the last of them |
| FarmProgress.L1DataReachesL2 | src/eventBuilding/L2Builder.cpp:82-199 | the data of the last source takes the event through L2 with all of its data, storing it exactly if L2 keeps it |
| FarmProgress.AcceptedEventReachesL2 | src/eventBuilding/L1Builder.cpp:78-191 | in the local build an event whose L0 data all arrives, which L1 accepts, and whose L1 data all arrives after that, goes through L2 with all of it |
| EndOfBurstSweep.OrderIsIrrelevant | src/na62-farm.cpp:176-209 | any two visiting orders leave the same pool, storage and histories |
| EndOfBurstSweep.CountersAreExact | src/na62-farm.cpp:196-199 | in any order, hence for any split and leaf order, the two counters come to the numbers of unfinished and of unfinished marked events |
| EndOfBurstSweep.ParallelLoopVisitsAll | src/na62-farm.cpp:176-182 | any recursive split, with the leaves' threads interleaved index by index, visits each index up to the largest touched once |
| EndOfBurstSweep.NothingRemains | src/na62-farm.cpp:181-209 | after the sweep every slot of the pool is free |
| EndOfBurstSweep.LastEventIsStored | src/na62-farm.cpp:190-194 | an unfinished last event is stored once, before it is freed; no other is stored |
| EndOfBurstSweep.DifferenceOfCounters | src/na62-farm.cpp:211-215 | the reported difference is never negative, and is the number of events incomplete at L0 if and only if each unfinished event complete at L0 is marked |
| EndOfBurstSweep.DifferenceInLocalBuild | src/na62-farm.cpp:211-215 | in the local build the marked count is zero and the difference right exactly when every slot is free or still collecting L0 data |
| EndOfBurstSweep.DifferenceWithSharedMemory | src/na62-farm.cpp:211-215 | with the shared memory the difference is right exactly when no event's response is outstanding |
| FarmExamples.CompleteEventReportedIncomplete | src/na62-farm.cpp:196-215 | a concrete run of each build whose one event, complete at L0, is reported as incomplete |
| FarmExamples.AskingForMoreLosesTheEvent | src/eventBuilding/L2Builder.cpp:146-198 | a concrete run in which L2 accepts an event, asks for more data, and the event is freed unstored |
| SharedMemoryRefinement.StepSimulates | src/eventBuilding/L1Builder.cpp:115-144 | a step without failed store or burst change leaves the inline farm matching if and only if it is no harmful fragment for an event whose response is on its way |
| SharedMemoryRefinement.ResponseSimulates | src/SharedMemory/QueueReceiver.cpp:63-99 | taking any response is invisible to the inline farm |
| SharedMemoryRefinement.DrainedEqualsInline | src/eventBuilding/L1Builder.cpp:119-189 | in every run of the farm, from the start of any burst on, stale responses queued or not, over harmless steps: whenever the burst's responses are drained, in any order, same slots up to the request mark, same storage, same request count, same actions on the same events as inline |
| FarmExamples.DuplicatePartsTheFarms | src/eventBuilding/L1Builder.cpp:115-144 | a concrete run, harmless up to a duplicate L0 fragment, after which the drained farm's slot is free and the inline farm's is not |
| EventBuilders.EventPool.BuildL0 | src/eventBuilding/L1Builder.cpp:47-111 | does the L0 fragment step |
| EventBuilders.EventPool.ProcessL1 | src/eventBuilding/L1Builder.cpp:113-191 | ships, or disposes of the event at once |
| EventBuilders.EventPool.DisposeOf | src/eventBuilding/L1Builder.cpp:177-189 | requests, goes on to L2, or frees |
| EventBuilders.EventPool.BuildL1 | src/eventBuilding/L2Builder.cpp:42-109 | does the L1 fragment step |
| EventBuilders.EventPool.ProcessL2 | src/eventBuilding/L2Builder.cpp:111-199 | stores or not, then frees |
| EventBuilders.EventPool.ReceiveResponse | src/SharedMemory/QueueReceiver.cpp:41-99 | does the response step; the highest burst seen and the per-burst counter follow the responses of the current burst exactly |
| EventBuilders.EventPool.SweepIndex | src/na62-farm.cpp:183-207 | does the sweep of one index |
| EventBuilders.EventPool.OnBurstFinished | src/na62-farm.cpp:148-219 | does the sweep step; the counters are exactly the unfinished and the unfinished marked events, the reported figure their difference |
| Pipeline.PacketHandler.Thread | src/socket/PacketHandler.cpp:82-159 | as often as the thread may run, each round of polls becomes one task of exactly its accepted frames, or none if there are none; the frames of the last, incomplete round are abandoned; polls, tasks and sleeps are given in numbers |
| Pipeline.GatheredAreKept | src/socket/PacketHandler.cpp:100-129 | the frame of a poll is taken exactly if it arrived, the burst was not being flushed and it is no longer than the MTU, in the order of the polls |
| Pipeline.RoundsAreBatches | src/socket/PacketHandler.cpp:82-159 | with F polls to a round, round k gathers from the polls k*F up to k*F+F |
| Pipeline.TasksHoldFrames | src/socket/PacketHandler.cpp:138-156 | the tasks pushed hold all frames accepted in completed rounds, in order; none is empty or longer than a round |
| Pipeline.TaskProcessor.Thread | src/socket/TaskProcessor.cpp:19-29 | executes tasks from the front, each completely, and counts them down |
| PipelineRuns.RoundIsRun | src/socket/PacketHandler.cpp:100-156 | a round that accepts some frames is a run of the pipeline, ending with one more task of exactly these frames at the end of the queue |
| PipelineRuns.TaskIsRun | src/socket/TaskProcessor.cpp:19-29 | what a task processor does with the first task is a run: taken, its containers handled in order as `Execute` does, deleted |
| PipelineRuns.RunKeepsInv | src/socket/HandleFrameTask.cpp:66-74 | with any producers and consumers interleaved: each producer's frames keep their order, tasks their size, and the task counter is tasks constructed and not yet deleted |
| PipelineRuns.EveryContainerHasOnePlace | src/socket/HandleFrameTask.cpp:141-149 | in every state each accepted container is in exactly one place |
| PipelineRuns.NeverFreedTwice | src/socket/FragmentStore.h:121-129 | a container accepted once is freed, held or handed on at most once |

## Left out

- FrameTasks.FrameHandler.ProcessFrame: the MEP objects it creates are not part of it; the L0 branch is `L0Dispatch`, and of the L1 branch only the data handed over is modelled. Exceptions from MEP code and buffers allocated by reassembly are not in the books.
- InventedMeps.Invent: the bytes behind each invented fragment header are never written and stay unconstrained; sizes are those for which the 16-bit and 32-bit arithmetic of the builders does not wrap, so L2 fragment lengths of 2^16 or more are left out.
- EventBuilders.EventPool.ReceiveResponse: every response is for level 1; of any other level the program only logs an error. L1 details copied into the event and the statistics are not modelled.
- L0Dispatch.L0Dispatcher.InventAll: the sizes of active levels are restricted as for `InventedMeps.Invent`.
- L0Dispatch.L0Dispatcher.Dispatch: the same, for an L0TP MEP.
- EventBuilders.EventPool.OnBurstFinished: the loop of the method runs in ascending order; what other orders do and count is in `EndOfBurstSweep.OrderIsIrrelevant` and `EndOfBurstSweep.CountersAreExact`. The shared-memory queue is not cleared: responses left in it are of an older burst and dropped when taken. Detector statistics and the corrupted-header counter are not modelled.
- Assembly.FrameIffExactCover: for fragments with non-empty payloads, where the order is forced; with empty ones a frame may depend on how the unstable sort places equal offsets, and `Copies.FrameComesIff` says when one can come out.
- Copies.CopiesStayInside: for unpadded opening fragments, non-negative lengths and a sum below 2^32, as any 65557 fragments give; without these `Copies.CopyEscapesIff` holds.
- SharedMemoryRefinement.StepSimulates: excludes a failed store into the shared memory, a burst change, and a fragment that carries an older burst.
- Sockets, pf_ring, ZMQ, IPC, ARP replies, packet dumps, options, logging, timing histograms, thread start-up and shutdown: plumbing.
- Trigger algorithms, event serialisation and statistics: library code.
- The window between the sweep and the change of the burst number, and data races below one call.
- PoolParser: reporting only, and not started.
