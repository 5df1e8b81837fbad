# Verified models of OpenAirInterface: transmit pipeline, CU/DU split, PRACH, CI automata

This project models, in Dafny, the parts of the OpenAirInterface 5G code base whose correctness is
hard to see from one function, and proves what they promise for every input, every run or every
reachable state. `dafny verify dfyconfig.toml` checks all of it.

* **gNB transmit pipeline** (`SlotSchedule`, `TxPipeline`, `TxSafety`, `TxLiveness`, `TxLoss`,
  `TxFaults`, `TxSchedule`, `TxGnb`). Two job elements circulate through `L1_tx_free`, `L1_tx_filled`, the thread pool,
  `L1_tx_out` and the reorder thread. The pipeline is a transition system in which every FIFO
  operation is one step and the pool finishes jobs in any order; `TxGnb.Gnb` is the object whose
  fields the threads update, each method moving the abstract state by one step. Order, conservation
  of the elements, bounded runs and the absence of deadlock are proved over all runs, with the exact
  conditions under which they hold.
* **FS6 split (7.3) between CU and DU**. One byte buffer is appended to block by block (`Bytes`,
  `Fs6Bits`, `Fs6Zone`), cut into packets (`Fs6Transport`), received call by call (`Fs6Receive`,
  `Fs6Receiver`) in order of arrival (`Fs6Arrival`) and walked. Structures are stored byte by byte at
  their C offsets: UEs (`Fs6Downlink`), uplink decodes and control channels (`Fs6Config`, `Fs6Orders`),
  the downlink's second header (`Fs6DlHeader`), code segments and indications (`Fs6Uplink`,
  `Fs6Control`, `Fs6Segments`), RACH measurements (`Fs6Rach`). `Fs6Sender` is a sender's subframe, `Fs6Du` the DU,
  `Fs6Subframe` a subframe from bytes to bytes, `Fs6FullUplink` and `Fs6FullDownlink` one from the
  sender's data to what the receiver does. Both directions are proved
  transparent, down to the coded bits and the soft bits, in any order of arrival; the second header
  is, if and only if the first block arrives first.
* **Timing and PRACH** (`Timing`, `Prach`, `PrachRuns`, `RbMask`): frame numbers from timestamps, the noise floor
  filter, the eMTC repetition counters, the two copies of the detector, the resource block mask.
* **Latency tracker** (`LatencyMeas`, `LatencyWindows`): the ten best samples of a window, and when the
  truncating comparator gets them right.
* **CI scripts** (`StatusQueue`, `X2Handover`, `X2Search`, `LogSplit`, `LogLines`): lock-framed status records, the X2
  handover automaton, the log splitter.

Where the code and its comments disagree, the model follows the code:

* `sendSubFrame` says that the second header is duplicated into every block; its `memcpy` copies each
  block's second header onto itself, so contents are sent as they were appended. The receivers read
  the second header of what arrived first, so it is the sender's for all contents if and only if
  block 0 arrives first (`Fs6Arrival.HeaderArrivesIff`, `Fs6Rach.RachHeardIff`). With two blocks
  swapped the receiver reads memory nobody filled (`Fs6Arrival.SwappedHeader`), which can make the CU
  indicate a random access that nobody made (`Fs6Rach.SwappedIsMisheard`, `Fs6Rach.FalseRach`).
* `sendFs6Ulharq` looks as if it collected the indications of a subframe in one block; `current_fsf`
  is never assigned, so every call opens a block.
* The control channel list of a downlink block is copied from its first element only, so the DU has
  the subframe's control channels if and only if exactly one is active (`Fs6Config.CchListArrivesIff`); a DCI list is cut to
  8 entries (`Fs6DlHeader.WholeDciListIff`).
* The resource block loop runs to `nb_rb` inclusive, one block more than the UE has.
* `tx_reorder_thread` compares slot numbers only. `rx_func` asks for the type of the transmit slot with
  the receive frame number.
* The minima of the first reporting window are ten zeros, for a static `Meas` starts as zeros, as long
  as the comparator can compare every sample with zero, and only then
  (`LatencyWindows.FirstMinimaAreZeroIff`). They are the window's own minima if and only if ten samples
  are zero (`LatencyWindows.ZerosAreOwnIff`).
* For every uplink process that is due the CU sends the process `subframe2harq_pid` names, so a due
  process is due at the DU if and only if it is that one or the DU had it so before
  (`Fs6Orders.DueArrivesIff`).
* The reorder thread's message about a stored packet and a second one can never be logged
  (`TxFaults.FaultsAreHonest`).
* `receiveSubFrame` drops late packets, but takes one that comes first in a call for a subframe of its
  own (`Fs6Receive.LateFirstIsTaken`).

Results that hold only under a condition are stated with that condition, both ways:
`TxSafety.InOrderIffStartsInOrder`, `PrachRuns.BrIndicatesIff`, `PrachRuns.LegacyIndicatesIff`,
`TxLiveness.InOrderIffNeighboursDiffer`, `TxLoss.LostIffMistake`,
`TxSchedule.NeighboursDifferIff`, `SlotSchedule.RxAgreesWithScheduler`, `Fs6Bits.RoundTripIff`,
`Fs6Arrival.HeaderArrivesIff`, `Fs6Rach.RachHeardIff`, `Fs6Config.CchListArrivesIff`,
`Fs6Orders.DueArrivesIff`, `Fs6DlHeader.WholeDciListIff`, `LatencyMeas.PairOrdersIff`,
`LatencyMeas.ComparatorOrdersIff`, `LatencyWindows.RightUpToIff`,
`LatencyWindows.FirstMinimaAreZeroIff`, `LatencyWindows.ZerosAreOwnIff`, `Timing.TxLeadsRxIff`,
`Timing.LteLeadIff`, `LogSplit.FailsIff`, `LogSplit.EachHasItsFileIff`.
`TxLoss.CrossedStartIsForGood`, `TxLiveness.SendsLaterFirst`, `Fs6Arrival.SwappedHeader`,
`Fs6Rach.FalseRach`, `Fs6Receive.LateFirstIsTaken`, `LatencyWindows.LargeSampleIsLost` and
`LatencyWindows.LargeSampleIsKept` give the failing runs and inputs.

Capacity of the buffers is a precondition throughout: the code reserves fixed sizes and at most asserts
that they suffice. Contents are shorter than 2^16 bytes, as the block header's comment demands.

## Model

| member | source | states |
|---|---|---|
| `SlotSchedule.GetNextDownlinkSlot` | openair1/SCHED_NR/phy_frame_config_nr.c:312-325 | The search loop with its frame and slot counters refines the reference search, including the case in which its assertion stops the program |
| `SlotSchedule.NextIsFirstAfter` | openair1/SCHED_NR/phy_frame_config_nr.c:312-325 | For a table that does not depend on the frame's parity and has a downlink slot, the search ends and gives the slot of the first downlink tick after the given one |
| `SlotSchedule.NextIsFirstInWindow` | openair1/SCHED_NR/phy_frame_config_nr.c:312-325 | For any table the search gives the slot of the first downlink tick after the given one, if it comes no later than slot 0 of the frame after next |
| `SlotSchedule.NoneInWindow` | openair1/SCHED_NR/phy_frame_config_nr.c:312-325 | Without a downlink tick up to there the assertion stops the program |
| `SlotSchedule.RxAgreesWithScheduler` | executables/nr-gnb.c:244-245 | `rx_func`, which asks with the receive frame, agrees with the scheduler on every slot if and only if the table's even and odd frames agree on the first slots of a frame, as many as transmission is ahead |
| `TxGnb.Gnb.constructor` | executables/nr-gnb.c:451-467 | The initial state: two zeroed elements, both free |
| `TxGnb.Gnb.ScheduleResponse` | openair1/SCHED_NR/fapi_nr_l1.c:164-213 | One MAC fill is one `Fill` step: a free element becomes the last filled one with the slot's frame and slot and its old timestamp |
| `TxGnb.Gnb.RxTail` | executables/nr-gnb.c:244-265 | The tail of `rx_func` is one `Rx` step: dispatch to the pool, or the continuous-transmission bypass to `L1_tx_out` |
| `TxGnb.Gnb.PoolThreadDone` | executables/nr-gnb.c:460-461 | A pool thread ends: any element of the pool moves to `L1_tx_out` |
| `TxGnb.Gnb.ReorderSegment` | executables/nr-gnb.c:374-419 | The reorder thread from one blocking pull to the next is one `Reorder` step, with all three error branches |
| `TxSafety.StepKeepsInv` | executables/nr-gnb.c:244-265 | Every step of every thread keeps the invariant: each element in one place, the filled jobs are the next planned ones, the jobs in flight are those dispatched and not chosen, the reserve is the next job |
| `TxSafety.RunKeepsInv` | executables/nr-gnb.c:374-419 | The invariant holds after every run that starts in order, whatever the pool's completion order |
| `TxSafety.InOrderIffStartsInOrder` | executables/nr-gnb.c:374-419 | In every run the jobs handed to the radio are a prefix of the dispatch sequence (in order, none lost, none twice) if and only if nothing was sent yet or the first job pulled at start-up was the first dispatched |
| `TxSafety.NothingLost` | executables/nr-gnb.c:382-416 | In every reachable state each of the two elements is in exactly one of the six places, no error branch was taken, at most two dispatched jobs are unchosen and at most three untransmitted |
| `TxLiveness.RunsAreBounded` | executables/nr-gnb.c:374-419 | A decreasing measure: no run has more than 7 steps a job and one to start |
| `TxLiveness.AwaitedIsUnderWay` | executables/nr-gnb.c:392-402 | In every reachable state in which the thread waits with a job in reserve, the job it waits for is in the pool or in `L1_tx_out` |
| `TxLiveness.BlockedMeansDrained` | executables/nr-gnb.c:392-402 | When the reorder thread blocks and the pool is empty, everything dispatched was sent and both elements are free or filled |
| `TxLiveness.AllSentWhenStuck` | executables/nr-gnb.c:244-265 | A run that cannot go on has handed the whole plan to the radio |
| `TxLiveness.NeverDeadlocks` | executables/nr-gnb.c:240-265 | In every run that starts in order, some step is possible or the whole plan was sent; the scheduler runs inside `rx_func` |
| `TxLiveness.InOrderIffNeighboursDiffer` | executables/nr-gnb.c:386-402 | Every run that starts in order sends in order if and only if neighbouring jobs after the first have different slot numbers |
| `TxLiveness.SendsLaterFirst` | executables/nr-gnb.c:392-402 | A run that swaps two neighbours with the same slot number |
| `TxLiveness.CrossedStartLosesElement` | executables/nr-gnb.c:379-390 | For plans of four jobs or more whose first slot number is not met again at the next two, a run in which the first two jobs cross before the first pull: the thread takes the first job for a mistake and drops its element |
| `TxLoss.LostIffMistake` | executables/nr-gnb.c:384-390 | In every run of every configuration that the program survives, elements in the six places and mistakes logged add up to two: an element is lost if and only if that branch was taken |
| `TxLoss.LostForGood` | executables/nr-gnb.c:384-390 | No continuation of a run has more elements |
| `TxLoss.CrossedStartIsForGood` | executables/nr-gnb.c:379-390 | From the crossed start on, however the run goes on, the first job is never sent and at most one element is left |
| `TxFaults.FaultsAreHonest` | executables/nr-gnb.c:382-402 | In every run of every configuration: jobs sent or about to be that are not of the slot expected are at least as many as "none is good" messages and at most as many as those and "order mistake" messages together; the third message is never logged |
| `TxFaults.PoolIsDownlink` | executables/nr-gnb.c:244-265 | In every run the thread pool works on downlink slots only, each with its own frame, slot and timestamp |
| `TxSchedule.ScheduleIsChained` | executables/nr-gnb.c:409-413 | Driven slot by slot from any slot on, the thread's `next_tx_slot` after every job is the slot of the job that follows |
| `TxSchedule.TickIff` | executables/nr-gnb.c:244-257 | `rx_func` hands over at every downlink tick, with continuous transmission at every tick, and at no other |
| `TxSchedule.SameSlotIff` | openair1/SCHED_NR/phy_frame_config_nr.c:312-325 | The next downlink slot has the same number if and only if a frame has one downlink slot |
| `TxSchedule.NeighboursDifferIff` | executables/nr-gnb.c:386-402 | Neighbouring jobs differ in slot number if and only if transmission is continuous, a frame has two downlink slots, or there are fewer than three jobs |
| `TxSchedule.RadioGetsEverySlot` | executables/nr-gnb.c:374-419 | The monolithic gNB, end to end: every run that starts in order sends the slots in order, and one that cannot go on has sent them all |
| `Bytes.FetchOfAssign` | executables/main-fs6.c:1163-1181 | A structure is read back as it was assigned, field by field, whatever memory lay under it |
| `Bytes.StoreFields` | executables/main-fs6.c:1163-1181 | Field assignments into a buffer: the structure's values, and no byte outside it changed |
| `Fs6Bits.VectorFormIsPlain` | executables/main-fs6.c:209-219 | Compare, shuffle and movemask of sixteen bytes give the same two bytes as packing bit by bit, most significant first |
| `Fs6Bits.Fs6DlPack` | executables/main-fs6.c:209-219 | Packing writes exactly the two bytes a group of sixteen of the reference packing and nothing else |
| `Fs6Bits.Fs6DlUnpack` | executables/main-fs6.c:188-205 | The lookup table form writes the reference unpacking, and keeps the rest of the array |
| `Fs6Bits.UnpackedOfPacked` | executables/main-fs6.c:186-219 | For every length and every byte array, unpacking a packed array gives for each position whether the byte was positive |
| `Fs6Bits.RoundTripIff` | executables/main-fs6.c:186-219 | The round trip is the identity if and only if the bytes are zeros and ones |
| `Fs6Zone.BufferZone.constructor` | executables/split_headers.h:250-252 | A new zone is an empty chain |
| `Fs6Zone.BufferZone.MoveToEnd` | executables/main-fs6.c:431-441 | The walk at the head of every append function ends behind the last block, and its block number assertion never fires |
| `Fs6Zone.BufferZone.OpenBlock` | executables/main-fs6.c:443-446 | Opening a block keeps the chain well formed and every earlier block's content, and writes only the block count and the new header |
| `Fs6Zone.AlignedIsLeast` | executables/split_headers.h:263-266 | The size of a block is the least multiple of 32 that holds header and content |
| `Fs6Zone.ChainWithLast` | executables/main-fs6.c:431-446 | A block written behind the first blocks of a chain makes a chain with them, numbered from 0 |
| `Fs6Zone.AppendStruct` | executables/main-fs6.c:443-464 | Appending a structure and data: one more block with exactly these values and bytes, all others and the second header at the front as they were |
| `Fs6Zone.StoreFront` | executables/main-fs6.c:1298-1320 | Assigning fields of the second header at the front, with blocks there or not: these fields, and every block as it was behind its second header |
| `Fs6Zone.SendAnyway` | executables/main-fs6.c:1486-1490 | Without any block a block of the second header alone is sent; the first block starts with the header at the front |
| `Fs6Transport.SendSubFrame` | executables/transport_split.c:156-195 | One packet a block, each with the first header's timestamp, count and type and its own number, contents as they are |
| `Fs6Receiver.Receiver.ReceiveSubFrame` | executables/transport_split.c:101-154 | A call on any packets and socket errors, with the packet the last call kept: exactly the packets of its specification are in the buffer back to back, the count or -1 is returned, and the packet of a later timestamp is kept |
| `Fs6Receive.RunConserves` | executables/transport_split.c:101-154 | Over any run of calls, whatever is lost, late or timed out: every packet that comes is returned by one call or dropped by one call as late |
| `Fs6Receive.RunSorts` | executables/transport_split.c:129-141 | Every result of a run is of one timestamp, later than what its call drops and earlier than what it keeps |
| `Fs6Receive.SubframesStayApart` | executables/transport_split.c:101-154 | Whatever packets are lost, if those of a subframe arrive before those of the next, every call returns what arrived of one subframe, in order of arrival, and nothing is dropped |
| `Fs6Receive.LateFirstIsTaken` | executables/transport_split.c:129-141 | A packet of an earlier timestamp that comes first in a call is returned, not dropped |
| `Fs6Downlink.AppendFs6DLUE` | executables/main-fs6.c:1136-1188 | One more block that holds the UE's parameters and its packed bits |
| `Fs6Downlink.DecodeOfContent` | executables/main-fs6.c:818-851 | Such a block is recognised and decoded to the parameters that were encoded |
| `Fs6Du.Du.RemoveScheduled` | executables/main-fs6.c:949-960 | Every entry with an RNTI is inactive; RNTI, parameters, HARQ ids and processes of all entries, and the flags of the others, are as they were |
| `Fs6Du.Du.ReadHeader` | executables/main-fs6.c:938-1038 | The reads of the second header: PBCH, PDCCH and PHICH of the subframe's parity, as many DCI entries as the header says, the rest kept; a header that counts more than 8 entries is refused |
| `Fs6Du.Du.RcvFs6DL` | executables/main-fs6.c:818-936 | The walk over the received bytes takes in exactly the packets' contents, each of the three kinds of block into its own table |
| `Fs6Du.ReplayParts` | executables/main-fs6.c:825-931 | The three kinds of block do not interfere |
| `Fs6Du.OrdersArrive` | executables/main-fs6.c:855-924 | Every uplink decode the CU ordered, once or more and in any order among other blocks, is in the DU's table, due in the subframe, the UE's other processes untouched |
| `Fs6Orders.AppendAllOrders` | executables/main-fs6.c:1250-1286 | The loops over UEs and processes append the orders of the specification, one block each, behind the blocks there were |
| `Fs6Orders.OrderedIff` | executables/main-fs6.c:1250-1286 | What is ordered: for each UE with a due process the process `subframe2harq_pid` names, and nothing else |
| `Fs6Orders.TableArrives` | executables/main-fs6.c:855-924 | From the CU's orders, in any order among other blocks, a UE with a due process has its order at the DU, a UE without keeps its entry |
| `Fs6Orders.DueArrivesIff` | executables/main-fs6.c:1268-1285 | A process due at the CU is due at the DU if and only if it is the one `subframe2harq_pid` names, or the DU had it so before |
| `Fs6Du.UnorderedIsKept` | executables/main-fs6.c:855-924 | A UE without an order keeps its entry |
| `Fs6Du.OneCchList` | executables/main-fs6.c:925-929 | With one control channel list among the blocks, that list alone decides |
| `Fs6Config.UlschedIsLayout` | executables/split_headers.h:106-168 | The 56 fields of the structure lie inside it and do not overlap |
| `Fs6Config.AppendFs6TxULUE` | executables/main-fs6.c:1048-1134 | One more block that holds the UE's and the process's values |
| `Fs6Config.UlConfigArrives` | executables/main-fs6.c:855-924 | Such a block is recognised and every value arrives at its own place, in the UE's entry and the process named |
| `Fs6Config.AppendFs6DLUEcch` | executables/main-fs6.c:1190-1232 | One more block with all control channels that are due, in table order; none if none is due |
| `Fs6Config.InDueIff` | executables/main-fs6.c:1205-1226 | The list holds exactly the entries of the CU's table that are active in this frame and subframe, each with its index |
| `Fs6Config.FirstCchArrives` | executables/main-fs6.c:925-929 | Of a list the DU gets exactly the first element |
| `Fs6Config.CchListArrivesIff` | executables/main-fs6.c:925-929 | Whatever the DU's table was, it gets the CU's control channels of the subframe if and only if exactly one entry of the CU's table is active in it |
| `Fs6DlHeader.FillHeader` | executables/main-fs6.c:1295-1320 | The CU's header at the front of its zone: PBCH, PDCCH, up to 8 DCI entries, PHICH and clocks; with MBMS entries the program aborts |
| `Fs6DlHeader.HeaderArrives` | executables/main-fs6.c:938-1038 | From the CU's header the DU has the CU's PBCH, PDCCH, DCI entries sent and PHICH |
| `Fs6DlHeader.RestIsKept` | executables/main-fs6.c:943-992 | A header leaves the PDCCH, MPDCCH and PHICH entries of the other parity and the DCI entries behind those it counts as they were |
| `Fs6DlHeader.ClocksArrive` | executables/main-fs6.c:1437-1439 | The DU reads the CU's two clock values |
| `Fs6DlHeader.WholeDciListIff` | executables/main-fs6.c:1300-1305 | The DU has the CU's whole DCI list if and only if it has at most 8 entries |
| `Fs6Downlink.ReplayCarries` | executables/main-fs6.c:825-851 | After any prefix of the walk the UEs named so far carry their blocks and the others are untouched |
| `Fs6Downlink.DownlinkIsTransparent` | executables/main-fs6.c:949-962 | Whatever the DU's table was, it transmits for exactly the UEs the CU named, each with the CU's parameters and a one exactly where the CU's bit array was set; a named UE keeps its other HARQ processes, HARQ ids and bits behind its last group, any other only loses its flag |
| `Fs6Uplink.SendFs6Ul` | executables/main-fs6.c:430-465 | One more block that holds the segment's parameters, offset and bytes |
| `Fs6Uplink.SendFs6Ulharq` | executables/main-fs6.c:371-427 | One more block with one element that holds the indication, also when the UCI or the acknowledgements are absent |
| `Fs6Uplink.SegmentArrives` | executables/main-fs6.c:755-772 | A segment block is recognised and read as the segment that was sent |
| `Fs6Uplink.IndicationArrives` | executables/main-fs6.c:772-797 | A control block makes the call the DU was asked to make, once; a HARQ call's UCI is then in the CU's table, an SR call leaves the table, and nothing else changes but the noise level |
| `Fs6Uplink.Cu.RecvFs6Ul` | executables/main-fs6.c:748-802 | The walk over the received bytes takes in exactly the packets' contents, for any number of elements in a control block |
| `Fs6Control.WalkTakesElements` | executables/main-fs6.c:772-797 | After any walk, however many elements the control blocks have and with or without a UCI: each entry is the UCI of the last element that brings one for it or as it was, the noise level is the last element's, and the calls are those of the elements in order, each with the UCI stored at that time |
| `Fs6Uplink.ReplayIsDelivery` | executables/main-fs6.c:748-802 | The walk over bytes has the effect of the messages the bytes stand for |
| `Fs6Uplink.LastWriterWins` | executables/main-fs6.c:758-760 | For any segments, overlapping or not, the last one to cover a byte decides it |
| `Fs6Uplink.UncoveredIsKept` | executables/main-fs6.c:758-760 | A byte that no segment covers keeps its value |
| `Fs6Uplink.UplinkIsTransparent` | executables/main-fs6.c:748-802 | With disjoint segments: every segment complete at its offset with its parameters, every other soft bit kept, and exactly the DU's calls, once each, in block order; each control entry is the UCI of the last HARQ indication for it, the noise level the last indication's, and all other entries, processes and parameters are as they were |
| `Fs6Uplink.OrderDoesNotMatter` | executables/main-fs6.c:748-802 | Two arrivals of the same disjoint segments leave the same soft bits |
| `Fs6Segments.SegmentsUseAllBits` | openair1/PHY/LTE_TRANSPORT/ulsch_decoding.c:323-333 | The segment sizes add up to the coded bits, but for a last incomplete symbol |
| `Fs6Segments.SharesAreEven` | openair1/PHY/LTE_TRANSPORT/ulsch_decoding.c:323-333 | Segments differ by at most one symbol, the larger ones last |
| `Fs6Segments.SegmentsAreApart` | openair1/PHY/LTE_TRANSPORT/ulsch_decoding.c:323-333 | The segments of a transport block neither overlap nor contradict each other, as the uplink theorem asks |
| `Fs6Segments.UlschDecodingData` | openair1/PHY/LTE_TRANSPORT/ulsch_decoding.c:295-334 | The DU's loop appends one block a code segment, each with its stretch of the soft bits |
| `Fs6Segments.SoftBitsArrive` | openair1/PHY/LTE_TRANSPORT/ulsch_decoding.c:331-333 | Whatever else is in the subframe and in whatever order it comes, the CU has the DU's soft bits |
| `Fs6Arrival.Exchange` | executables/transport_split.c:101-195 | Sending, any order of arrival and receiving: the receiver's walk meets the sender's blocks, complete, and the content at its front is that of the first arrival |
| `Fs6Arrival.HeaderArrivesIff` | executables/transport_split.c:169-176 | For every order of arrival: the second header the receiver reads is the first block's, for all contents, if and only if the first block arrives first |
| `Fs6Arrival.SwappedHeader` | executables/transport_split.c:169-176 | Two blocks that arrive swapped: the receiver reads what lay under the second one |
| `Fs6Rach.PrachToSplit` | executables/main-fs6.c:221-275 | In a PRACH subframe the DU's measurement is in the header at the front, otherwise nothing is written |
| `Fs6Rach.RachArrives` | executables/main-fs6.c:278-282 | From that header the CU reads the DU's measurement |
| `Fs6Rach.RachHeardIff` | executables/main-fs6.c:278-282 | For every order of arrival: the CU reads the DU's measurement, for all contents, if and only if the first block arrives first |
| `Fs6Rach.DecideRach` | executables/main-fs6.c:1551-1552 | The CU's detector decides on the header of the first arrival, in PRACH subframes only |
| `Fs6Rach.RachIsTransparent` | executables/main-fs6.c:1525-1559 | Over any run of uplink subframes in which the first block arrives first, the CU has the monolithic eNB's noise floor, warm-up counter and indications |
| `Fs6Rach.FalseRach` | executables/main-fs6.c:326-368 | After the warm-up, a header that is not the DU's makes the CU indicate a random access that the monolithic eNB does not |
| `Fs6Sender.UlDuFs6` | executables/main-fs6.c:1459-1495 | A DU's subframe: the first block starts with the measurement, and the blocks are the code segments and indications of all UEs, or the header alone |
| `Fs6Sender.DlCuFs6` | executables/main-fs6.c:1497-1523 | A CU's subframe: the first block starts with the filled header, the blocks there were are kept behind it, and the scheduled UEs follow |
| `Fs6Subframe.DownlinkSubframe` | executables/main-fs6.c:938-1042 | A downlink subframe from the CU's bytes to the DU: in any order of arrival exactly the named UEs, with their parameters and bits, and the decodes and control channels of the blocks; the second header of the first arrival unless it counts more than 8 DCI entries, which is the CU's if the first block arrives first; whatever no block is about is as it was |
| `Fs6Subframe.UplinkSubframe` | executables/main-fs6.c:1525-1559 | An uplink subframe from the DU's bytes to the CU: in any order of arrival every segment delivered and every call made; RACH decided on the first arrival's header, as the monolithic eNB decides if the first block arrives first; whatever no block is about is as it was |
| `Fs6FullUplink.Uplink` | executables/main-fs6.c:1459-1559 | From the DU's soft bits, indications and measurement, for any number of UEs with a transport block each and any order of arrival: the CU has every transport block's soft bits up to the last whole symbol and its parameters, makes every indication, and decides on random access as the monolithic eNB if the first block arrives first; whatever no block is about is as it was |
| `Fs6FullDownlink.Downlink` | executables/main-fs6.c:938-1523 | From the CU's header and scheduled UEs, behind any blocks with decodes and control channels, in any order of arrival: the DU transmits for exactly these UEs with their parameters and bits; if the first block arrives first it has the CU's PBCH, PDCCH, DCI and PHICH; with MBMS entries the program aborts and the DU is as it was; whatever no block is about is as it was |
| `StatusQueue.RunKeepsInv` | ci-scripts/cls_oaicitest.py:985-999 | Under every interleaving the queue is whole records and at most the lock holder's beginning of one, and every process has reported a prefix of its program |
| `StatusQueue.SomeProcessCanStep` | ci-scripts/cls_oaicitest.py:1575-1581 | Until all processes have ended one of them can step |
| `StatusQueue.RunsAreBounded` | ci-scripts/cls_oaicitest.py:1575-1581 | Every run to the join takes the same number of steps, one a field and two for the lock |
| `StatusQueue.ParseOfFlatten` | ci-scripts/cls_oaicitest.py:1079-1089 | Reading as many fields as a record has, again and again, gives back the queued records |
| `StatusQueue.Consume` | ci-scripts/cls_oaicitest.py:3059-3083 | The draining loop reports the records it read and the verdict they deserve, and gets stuck exactly where the queue is not whole records |
| `StatusQueue.AllReported` | ci-scripts/cls_oaicitest.py:1711-1768 | After the join the queue holds the reports of all processes, each process's in order, and nothing else |
| `StatusQueue.VerdictIsIndependent` | ci-scripts/cls_oaicitest.py:1939-1952 | Whatever the interleaving, the consumer reads exactly the reports and the verdict depends on the processes' programs alone |
| `LatencyMeas.PairOrdersIff` | executables/main-fs6.c:67-72 | The truncating comparator has the right sign on two values, both ways, if and only if they are equal or differ by 1 to 2^31 - 1 modulo 2^32 |
| `LatencyMeas.ComparatorOrdersIff` | executables/main-fs6.c:67-72 | It has it on a whole range if and only if the range has at most 2^31 values |
| `LatencyMeas.Qsort` | executables/main-fs6.c:144-147 | The sort with either comparator: always a permutation, and ordered when the entries are comparable |
| `LatencyMeas.StillBest` | executables/main-fs6.c:140-147 | Overwriting slot 0 and sorting keeps the ten best: nothing dropped, padding included, goes before any of them |
| `LatencyMeas.StillSettled` | executables/main-fs6.c:140-147 | For any sample nothing is lost between the ten and the dropped ones, and the ten are the best as long as the window is comparable |
| `LatencyMeas.SmallSamplesAreBest` | executables/main-fs6.c:136-159 | With samples up to INT_MAX the ten entries are the ten best of the window, in either mode |
| `LatencyWindows.AnySortSettles` | executables/main-fs6.c:140-147 | Whatever sort is used, a window of any samples keeps ten of them and the padding, the best if the window is comparable |
| `LatencyWindows.RightUpToIff` | executables/main-fs6.c:67-147 | In either mode and whatever sort is used, all windows with samples up to a bound are reported rightly if and only if the bound is at most INT_MAX |
| `LatencyWindows.LargeSampleIsLost` | executables/main-fs6.c:67-72 | A sample whose truncation is negative is dropped from the maxima by any sort, and ten zeros are reported |
| `LatencyWindows.LargeSampleIsKept` | executables/main-fs6.c:111-115 | Such a sample is kept among the minima by any sort and reported as the smallest |
| `LatencyMeas.BestIsUnique` | executables/main-fs6.c:140-147 | The samples and the padding determine the ten |
| `LatencyWindows.FirstMinimaAreZero` | executables/main-fs6.c:110-110 | Before the first reset the ten minima are zeros, for any samples that can be compared with each other and with zero |
| `LatencyWindows.FirstMinimaAreZeroIff` | executables/main-fs6.c:110-147 | All through the first window the ten minima are zeros, whatever sort is used, if and only if the comparator can compare every sample with zero |
| `LatencyWindows.ZerosAreOwnIff` | executables/main-fs6.c:110-110 | Ten zeros are the ten smallest samples of the window if and only if ten samples are zero |
| `LatencyMeas.Meas.constructor` | executables/main-fs6.c:110-110 | A zeroed object tracks the empty window with zeros as padding |
| `LatencyWindows.FullWindowIsOwn` | executables/main-fs6.c:151-158 | After a reset a window of at least ten samples up to INT_MAX is reported by its own ten largest, or smallest |
| `LatencyMeas.Meas.UpdateTimesReset` | executables/main-fs6.c:136-159 | For every sample: a report every period, about exactly the period's samples, with count, average and ten entries that are the best when the window is comparable; then an empty window with the mode's padding |
| `Prach.FilterBounded` | executables/main-ocp.c:607-607 | A noise floor update never exceeds both its old value and its input |
| `Prach.FilterSettles` | executables/main-ocp.c:607-607 | Under a constant input the floor is in the band of 16 below it after as many updates as it was away, and from then on |
| `Prach.BandIsTight` | executables/main-ocp.c:607-607 | An input under which the floor stays at the lower end of the band for ever |
| `Prach.CopiesAgree` | executables/main-fs6.c:290-368 | The CU's copy of the detector, transcribed on its own, does what the monolithic one does, in the legacy and the eMTC branch |
| `Prach.SplitMatchesMonolithic` | executables/main-fs6.c:326-368 | From headers that carry the legacy measurements the CU's copy has the monolithic eNB's noise floor, counter and indications after any run, however eMTC calls are mixed in |
| `Prach.WarmUp` | executables/main-ocp.c:569-611 | Before the hundredth legacy call there is no indication of either kind; the counter is the number of calls up to 100 |
| `PrachRuns.BrIndicatesIff` | executables/main-ocp.c:464-560 | After any run an eMTC call indicates once, with preamble, delay and the RA-RNTI of the group this call belongs to, if and only if 100 legacy calls were made, level 0 is enabled and the energy is above the floor by more than the threshold; otherwise nothing, and floor and counter stay |
| `PrachRuns.LegacyIndicatesIff` | executables/main-ocp.c:569-611 | After any run a legacy call indicates once and leaves the floor, if and only if 100 legacy calls were made and the energy is above the floor by more than the threshold; otherwise it updates the floor with its average and indicates nothing |
| `PrachRuns.FloorIsFiltered` | executables/main-ocp.c:607-607 | Over any run whose legacy calls have one average, every legacy call that indicates nothing is one update of the floor with that average, whatever the energies, and nothing else changes it |
| `PrachRuns.FloorSettles` | executables/main-ocp.c:607-607 | The floor is in the band of 16 below the average once as many legacy calls indicated nothing as it was away, and from then on |
| `PrachRuns.DisabledIsKept` | executables/main-ocp.c:467-489 | A level that is not enabled keeps its counter and first frame over any run |
| `Prach.RepetitionsAreGrouped` | executables/main-ocp.c:467-489 | After any calls a CE level's counter is the number of its receptions modulo its repetitions and its first frame the one that began the latest group |
| `Prach.RaRntiIsInjective` | executables/main-ocp.c:552-553 | The RA-RNTI (section 5.1.4 of 3GPP TS 36.321) tells the subframe and the first frame modulo 40 |
| `Prach.Enb.OcpRxPrachBr` | executables/main-ocp.c:464-490 | The repetition loop updates counter and first frame of the active levels and no other |
| `Prach.Enb.PrachProceduresOcp` | executables/main-ocp.c:493-611 | The procedure is one step of the specification, for either flag |
| `Prach.Enb.PrachFromSplit` | executables/main-fs6.c:277-369 | The CU's procedure, transcribed on its own, is one step of its specification |
| `Timing.FrameAndSubframe` | executables/main-ocp.c:128-135 | frame * 10 + subframe is the number of TTIs modulo 10240, for every timestamp |
| `Timing.AllAreTimed` | executables/main-ocp.c:124-137 | Reception and both kinds of PRACH have the number of the timestamp's TTI, transmission that of the transmit timestamp's, all in range |
| `Timing.NumberAdvances` | executables/main-ocp.c:128-135 | k TTIs later the number is k further on modulo 10240 |
| `Timing.TxLeadsRx` | executables/main-ocp.c:124-135 | Without a wrap of the 64-bit sum, transmission leads reception by `sf_ahead` |
| `Timing.TxLeadsRxIff` | executables/main-ocp.c:124-135 | Transmission leads reception by `sf_ahead` if and only if the sum does not wrap or the TTIs lost in the wrap, 2^64 over the samples per TTI and one more below its remainder, are a multiple of 10240 |
| `Timing.LteLeadIff` | executables/main-ocp.c:124-135 | For the LTE bandwidths a wrap always shows: the lead is right if and only if the sum does not wrap |
| `Timing.DuRederivesAll` | executables/main-fs6.c:1437-1437 | The DU derives all the CU's numbers and timestamps from the transmit timestamp, wrap or not |
| `Timing.L1RxtxProc.SetAllFromTs` | executables/main-ocp.c:120-140 | The loop over instances and carriers leaves the numbers of the last carrier: reception and PRACH those of the timestamp, transmission those of the transmit timestamp |
| `RbMask.BitOfSetBit` | executables/main-fs6.c:499-499 | Setting a bit sets that bit and no other |
| `RbMask.Enb.MarkScheduled` | executables/main-fs6.c:488-500 | A resource block is marked if and only if some scheduled UE's range, as the loop runs over it, holds it |
| `RbMask.Enb.Clear` | executables/main-fs6.c:551-554 | No block is marked |
| `X2Handover.Count` | ci-scripts/ran.py:852-876 | The line loop computes the automaton's run |
| `X2Search.RunIsSearch` | ci-scripts/ran.py:852-876 | For every log the automaton counts what a plain search finds that takes message by message the first line that has it |
| `X2Handover.CountsHaveWitnesses` | ci-scripts/ran.py:852-876 | For every log the counted handovers are in it, pairwise without overlap, each with its messages in order, and at most one more has begun |
| `X2Handover.CompleteLogIsCounted` | ci-scripts/ran.py:852-876 | A log of complete handovers in any mixture is counted exactly, with any other lines between the messages |
| `LogSplit.SplitUndoesRender` | ci-scripts/docker_log_split.py:46-69 | For every sequence of plain lines and marked sections the rewritten log is the plain lines in order and the files are those of the sections |
| `LogLines.EveryLineHasItsPlace` | ci-scripts/docker_log_split.py:46-69 | For every log that is not refused, markers in any order: the rewritten log is the lines outside sections, the file of a name the section of its last start marker up to the next marker, other files are as they were |
| `LogSplit.EachHasItsFileIff` | ci-scripts/docker_log_split.py:54-58 | Every section's file is its body if and only if no name is used for two bodies |
| `LogSplit.FailsIff` | ci-scripts/docker_log_split.py:54-69 | A log is refused if and only if it has an end marker before any start marker |
| `LogSplit.SplitReport.Split` | ci-scripts/docker_log_split.py:46-72 | The line loop computes the specification; it fails exactly on an end marker before any start marker, and then neither the log nor any file was changed |

## Left out

- Signal processing itself (`tx_func`, `rx_prach0`, `ulsch_decoding`, `pdsch_procedures`, `get_G`): opaque to these properties; their results are parameters.
- The RNTI purge of `rx_func` (executables/nr-gnb.c:164-207): it resets the uplink entries of released UEs; the transmit pipeline reads none of them, and no modelled property turns on them.
- `oai_exit`, `abortTpool` and the start-up barriers: the pipeline model has no shutdown.
- `subframe2harq_pid` itself: the process it names is a parameter of each UE.
- Downlink subframes in which the CU returns before it fills the header (uplink subframes of TDD): the header is then whatever the zone holds.
- Fs6Du.Du.ReadHeader: what the DCI loop does with a count above 8, which reads behind the header's list, is not modelled; the DU's tables are as stated when it starts.
- UDP itself: subframes end to end are ones whose packets all arrive, in any order. Calls that lose packets are covered by `Fs6Receive` alone.
- `O_ACK` of an uplink segment: sent, and not read by the CU.
- Struct layout is that of a 64-bit target; the model has one table of UEs where the code clears `NUMBER_OF_DLSCH_MAX` entries and transmits for `NUMBER_OF_UE_MAX`.
- `qsort` of the C library: modelled by a sort of the same contract.
- Clocks and the printing of reports: the sample is a parameter and the report a result.
- TxGnb.Gnb.ReorderSegment: waits are modelled by enabledness, not by condition variables.
- NFAPI PNF mode: the forwarding of RACH indications (the indication is the same event), and the gNB's PNF fill (nfapi/oai_integration/nfapi_pnf.c:1101-1240), which takes an element a PDU and writes no slot.
- Exceptions, signals and sleeps in the Python processes; regular expressions are a classification of each line.
- SSH, docker, EPC, HTML, configuration parsing and plotting in the CI scripts: input and output.
