# A verified model of the BadVPN data path

This project models the parts of BadVPN's peer-to-peer client that move packets, and two
self-contained machines beside them, and proves what they are there for: fair scheduling, loss-free
fragmentation, a learning switch that always agrees with a scan of its peers, buffers that move
between sinks without getting lost, relay assignment, link setup, the message codec, the packet
codec, the job stack and packet handshake everything runs on, a line splitter and a DHCP client.

Most components come in three layers:

- a **reference** on plain values that says what has to happen (`FairQueueSpec`, `AssemblerSpec`,
  `DisassemblerSpec`, `SwitchSpec`, `DataProtoSpec`, `RelaySpec`, `BindingSpec`, `BProtoWire`,
  `SpWire`, `DhcpSpec`, `HandshakeSpec`, `PendingSpec`, `LineBufferSpec`);
- theorems over **all runs** of the reference, stated without its own functions wherever it says what
  comes out (`Fairness`, `Latecomers`, `Reassembly`, `RoundTrip`, `Packing`, `CancelLoss`, `SwitchRuns`,
  `SwitchFrames`, `Memberships`, `DataProtoHistory`, `RelayHistory`, `DhcpHistory`, `DhcpExchange`, and
  the last sections of the other references), and the formats on the wire in plain numbers
  (`WireFormats`, `DhcpReplies`, `DhcpRequests`);
- the **code's own form**, a class with the fields, lists, buffers, timers and loops of the C code,
  each public method proved to be one step of the reference (`FairQueueImpl`, `AssemblerImpl`,
  `DisassemblerImpl`, `FrameDeciderImpl`, `DataProtoImpl`, `RelayImpl`, `BindingImpl`, `BProtoImpl`,
  `SpCodec`, `AddrProto`, `MsgProto`, `YouConnect`, `DhcpImpl`, `HandshakeImpl`, `PendingImpl`,
  `LineBufferImpl`). `AssemblerPool`, `SwitchIndex`, `SwitchTables`, `Draining`, `RelayTables`,
  `RelayFlows`, `FlowWishes` and `BProtoSpans` hold the data-structure invariants in between, again on
  plain values.

Integer widths matter in three places and are modelled there: the 64-bit virtual times of the fair
queue (which wrap on purpose), the 32-bit packet clock of the assembler (which is rebased) and the
field widths on the wire. Time, the network, random numbers, the hash and the cipher are parameters
or events. `RelayImpl` drives a real `DataProtoImpl.DataProto`: the local flows of the peers and the
relay flows between them are attached, detached and freed while the sinks' queues start and finish
sends at any time, and DataProto's own preconditions are met at every call.

What the proofs brought out about the code, and how it is modelled:

- `FrameDecider_AnalyzeAndDecide` returns early while a multicast decision is not drained, after it
  has freed the decision's iterator (badvpn/client/FrameDecider.c:374-376). The decision is kept, but
  the iterator is no longer moved off an entry that goes away. The model keeps such a loose iterator:
  the old destinations can still be handed out if and only if the entry it stands on has not been
  unlinked since, and `PeerFree` and `RemoveFromMulticast` say exactly when that happens. The client
  drains every decision, so `ForwardFrame` never meets the case.
- The one-byte auxiliary data length of an IGMPv3 record goes through a 16-bit byte swap
  (badvpn/client/FrameDecider.c:768), so a little-endian host, the kind modelled here, skips 256 bytes
  for every word of four bytes (a big-endian host would skip one). A record is read right if and only
  if it has no auxiliary data (`IgmpWire.RecordReadIffNoAux`); `IgmpWire.MembershipAfterAuxLost` is a
  report of two memberships of which none is learned.
- In `DataProtoFlow_Free` and `DataProtoFlow_Attach` the branch for a buffer that is on a sink but not
  being sent (badvpn/client/DataProto.c:475-479, 529-533) cannot be reached: without a desired sink a
  buffer is on a sink only while its packet is being sent.
- The branch for a "youconnect" message that is too long to send (badvpn/client/client.c:2545-2549)
  cannot be reached either. With at most eight external addresses per bind address, scopes of at most
  63 bytes and keys of at most 16 (badvpn/client/client.h:95, badvpn/client/client.c:132, 946,
  1280-1283, badvpn/security/BEncryption.h:61) an offer has at most 1032 bytes, and a message has room
  for 1984 (`YouConnect.OfferFits`). So no setup stalls: it ends in a link, in relaying or with the
  master's retry timer running, and in a retry if and only if the address that ends the search fails
  (`BindingSpec.SetupSettles`). A side that still relays over an old link and has nothing to offer
  keeps that link when both sides give up (badvpn/client/client.c:2118, 2335-2339).
- Cancelling a frame does not advance the frame id (badvpn/client/FragmentProtoDisassembler.c:122-132).
  `CancelLoss` proves that this is harmless if and only if nothing of the frame had been sent.
  Otherwise exactly the next frame is lost, because its first chunk hits what the receiver holds under
  the same id; `CancelLoss.CancelLosesFrame` is such a run.

## Model

| member | source | states |
|---|---|---|
| `Fairness.Fair` | badvpn/flow/PacketPassFairQueue.c:52-217 | in every run, two flows that stay backlogged and have both been served have virtual times at most one maximal packet apart, and over any later interval their service differs by at most two maximal packets, across any number of rebasings |
| `Fairness.NoStarvation` | badvpn/flow/PacketPassFairQueue.c:79-180 | while no flow is added, a waiting packet sees at most as many completions as the sum over the other flows of max(0, its time - theirs + 1), and the queue always has its next step enabled |
| `Fairness.TimeIsService` | badvpn/flow/PacketPassFairQueue.c:79-116 | a backlogged flow's virtual time grows by exactly the weight it was served |
| `Fairness.LeadBounded` | badvpn/flow/PacketPassFairQueue.c:139-217 | a served flow is at most one maximal packet ahead of a flow that was backlogged all along |
| `Fairness.WaitBoundStep` | badvpn/flow/PacketPassFairQueue.c:139-217 | the wait bound never rises on any step and drops with every completed packet |
| `Latecomers.LinesUp` | badvpn/flow/PacketPassFairQueue.c:52-77 | a flow that was just served lines up at its own time; any other at its own time or level with the least of the active flows, whichever is later, or no earlier than zero if nobody is active; nobody else is moved |
| `Latecomers.WaitPerFlow` | badvpn/flow/PacketPassFairQueue.c:52-217 | while a packet waits, every other flow completes at most one packet, and one more for every weight of a packet by which the waiting flow was ahead of the active flows when it lined up |
| `Latecomers.ComebackWaits` | badvpn/flow/PacketPassFairQueue.c:52-217 | a flow that comes back and is not ahead of any active flow waits for at most one packet of every other flow |
| `Latecomers.FirstPacketWaits` | badvpn/flow/PacketPassFairQueue.c:52-321 | the first packet of a new flow waits for at most one packet of every other flow |
| `Latecomers.NewFlowNotAhead` | badvpn/flow/PacketPassFairQueue.c:296-321 | until its first packet a new flow is not ahead of anybody, however often the clock has been rebased since |
| `Latecomers.KeepsItsTurn` | badvpn/flow/PacketPassFairQueue.c:153-217 | a flow that submits its next packet before the schedule job runs lines up at the time up to which it has been served |
| `Latecomers.IdleQueueSends` | badvpn/flow/PacketPassFairQueue.c:153-180 | a packet is sent at once if nothing is being sent and no job is pending |
| `Latecomers.FirstOfAll` | badvpn/flow/PacketPassFairQueue.c:153-321 | a new queue sends the first packet of its first flow at once |
| `Latecomers.FreeingLetsGo` | badvpn/flow/PacketPassFairQueue.c:281-351 | once the queue is to be freed every flow may go |
| `FairQueueSpec.StepKeepsInv` | badvpn/flow/PacketPassFairQueue.c:118-351 | every event keeps: queued flows are not behind the sending flow, active flows not behind what has been rebased away, no time exceeds that by more than a word, and nothing waits without a wake-up |
| `FairQueueImpl.WrapsBack` | badvpn/flow/PacketPassFairQueue.c:79-116 | subtracting and adding in 64-bit words gives the true value exactly when that value fits |
| `FairQueueImpl.SubtractIsFloorMove` | badvpn/flow/PacketPassFairQueue.c:79-116 | what the code subtracts on overflow is at most every queued flow's time, so nothing is clamped, and is how far the reference's floor moves |
| `FairQueueImpl.ChargeAgrees` | badvpn/flow/PacketPassFairQueue.c:79-116 | after a rebasing all differences among queued flows and the served flow are kept and the old tree is still in order |
| `FairQueueImpl.FairQueue.SubtractFromAll` | badvpn/flow/PacketPassFairQueue.c:99-111 | the loop rebases every flow, wrapping the served one and clamping only idle ones |
| `FairQueueImpl.FairQueue.IncrementSentFlow` | badvpn/flow/PacketPassFairQueue.c:79-116 | the served flow is charged exactly, with or without overflow |
| `FairQueueImpl.FairQueue.OutputDone` | badvpn/flow/PacketPassFairQueue.c:182-217 | is the Done step; differences to queued flows change by exactly the packet's weight |
| `FairQueueImpl.FairQueue.Send` | badvpn/flow/PacketPassFairQueue.c:153-180 | is the Send step: the flow just served keeps its time, others are raised to the clock; `Latecomers.LinesUp` says where that puts the flow |
| `FairQueueImpl.FairQueue.Enter` | badvpn/flow/PacketPassFairQueue.c:153-175 | the flow joins the sorted tree and stays above the floor |
| `FairQueueImpl.FairQueue.ScheduleFirst` | badvpn/flow/PacketPassFairQueue.c:118-137 | the first flow of the tree is the reference's first flow |
| `FairQueueImpl.FairQueue.RunScheduleJob` | badvpn/flow/PacketPassFairQueue.c:139-151 | is the Job step |
| `FairQueueImpl.FairQueue.FlowInit` | badvpn/flow/PacketPassFairQueue.c:296-321 | is the FlowInit step |
| `FairQueueImpl.FairQueue.FlowFree` | badvpn/flow/PacketPassFairQueue.c:323-351 | is the FlowFree step, for a busy flow only while the queue is being freed |
| `FairQueueImpl.FairQueue.PrepareFree` | badvpn/flow/PacketPassFairQueue.c:281-287 | is the PrepareFree step |
| `FairQueueImpl.FairQueue.constructor` | badvpn/flow/PacketPassFairQueue.c:219-266 | starts in the reference's initial state |
| `Reassembly.DeliveredFramesAreTiled` | badvpn/client/FragmentProtoAssembler.c:154-346 | for every sequence of packets, well-formed or not, every delivered frame is made of all chunks of one id that came in from some moment until it was complete: no two share a position, every position is held, exactly one is marked last and ends the frame, none was ignored, and none came more than num_frames packets after the one before it |
| `Reassembly.DeliveredFramesAreWhole` | badvpn/client/FragmentProtoAssembler.c:154-346 | the same for the frame that a single chunk completes |
| `Reassembly.AnyOrderDelivered` | badvpn/client/FragmentProtoAssembler.c:57-346 | a frame whose chunks all arrive, in any order and among those of other frames, is delivered with the last of them, provided none comes more than num_frames packets after the one before it and fewer than num_frames other frames are begun in between |
| `Reassembly.FeedIsPlay` | badvpn/client/FragmentProtoAssembler.c:285-346 | reading packets is reading their chunks one by one and ticking at their ends |
| `AssemblerSpec.Tiling` | badvpn/client/FragmentProtoAssembler.c:105-108 | disjoint pieces in [0, n) have total length at most n, and if it is n they leave no gap |
| `AssemblerSpec.CompleteTiles` | badvpn/client/FragmentProtoAssembler.c:197-268 | the code's completeness test (sum equals length) means that the pieces tile the frame |
| `AssemblerSpec.ReceiveKeepsInv` | badvpn/client/FragmentProtoAssembler.c:154-283 | any chunk keeps the pool in order, and a frame that comes out is tiled by its accepted pieces |
| `AssemblerSpec.EndPacketKeepsInv` | badvpn/client/FragmentProtoAssembler.c:324-339 | the end of a packet keeps the pool in order, purging or not |
| `AssemblerRuns.ReadIsReceiveAll` | badvpn/client/FragmentProtoAssembler.c:285-368 | stopping at a complete frame and resuming later reads the same chunks as reading the packet at once |
| `AssemblerPool.SurvivorIsRecent` | badvpn/client/FragmentProtoAssembler.c:117-152 | what survives a purge is younger than the tolerance, and has a time above zero once the clock is past the tolerance |
| `AssemblerPool.RebaseOk` | badvpn/client/FragmentProtoAssembler.c:142-151 | subtracting the least time from all entries and the clock keeps every age |
| `AssemblerPool.FreeOk` | badvpn/client/FragmentProtoAssembler.c:46-55 | freeing keeps free and used entries a partition of the pool, and tree and list the same frames |
| `AssemblerPool.UseOk` | badvpn/client/FragmentProtoAssembler.c:80-100 | taking a free entry keeps the partition and the unique ids |
| `AssemblerPool.CompleteBuffered` | badvpn/client/FragmentProtoAssembler.c:253-277 | all of a complete frame is in the entry's buffer |
| `AssemblerImpl.Assembler.FreeFrame` | badvpn/client/FragmentProtoAssembler.c:46-55 | the frame leaves list and tree, its entry becomes the last free one |
| `AssemblerImpl.Assembler.AllocateNewFrame` | badvpn/client/FragmentProtoAssembler.c:57-103 | evicts the frame created first if the pool is full, then adds an empty frame; `Reassembly.AnyOrderDelivered` is what that is for |
| `AssemblerImpl.Assembler.LookupFrame` | badvpn/client/FragmentProtoAssembler.c:179-193 | finds the frame by id, replacing it if it has timed out |
| `AssemblerImpl.Assembler.CheckChunk` | badvpn/client/FragmentProtoAssembler.c:197-227 | accepts a chunk exactly if it overlaps nothing and agrees with the known length |
| `AssemblerImpl.Assembler.AddToFrame` | badvpn/client/FragmentProtoAssembler.c:229-256 | counters and buffer follow the accepted pieces |
| `AssemblerImpl.Assembler.AcceptChunk` | badvpn/client/FragmentProtoAssembler.c:229-278 | completes, waits for more, or gives the frame up when its chunk slots are used |
| `AssemblerImpl.Assembler.ProcessChunk` | badvpn/client/FragmentProtoAssembler.c:154-283 | is Receive; a completed frame is in the returned buffer |
| `AssemblerImpl.Assembler.PurgeTimedOut` | badvpn/client/FragmentProtoAssembler.c:119-134 | drops exactly the timed-out frames and finds the least time of the rest |
| `AssemblerImpl.Assembler.SubtractFromEntries` | badvpn/client/FragmentProtoAssembler.c:144-148 | every used entry loses the least time, no other entry changes |
| `AssemblerImpl.Assembler.ReduceTimes` | badvpn/client/FragmentProtoAssembler.c:117-152 | survivors keep their age on the lowered clock, which is then at most the number of frames |
| `AssemblerImpl.Assembler.FinishPacket` | badvpn/client/FragmentProtoAssembler.c:325-345 | is EndPacket of an unbounded clock that purges when the 32-bit one is full |
| `AssemblerImpl.Assembler.ReadChunks` | badvpn/client/FragmentProtoAssembler.c:289-323 | reads up to the next complete frame or the first malformed chunk |
| `AssemblerImpl.Assembler.ProcessInput` | badvpn/client/FragmentProtoAssembler.c:285-346 | reads, and ends the packet when no frame came out |
| `AssemblerImpl.Assembler.InputSend` | badvpn/client/FragmentProtoAssembler.c:348-360 | starts a packet |
| `AssemblerImpl.Assembler.OutputDone` | badvpn/client/FragmentProtoAssembler.c:362-368 | resumes the packet after a delivered frame |
| `AssemblerImpl.Assembler.constructor` | badvpn/client/FragmentProtoAssembler.c:370-445 | starts empty, with every entry free |
| `FragmentWire.ChunksOfEncoding` | badvpn/client/FragmentProtoAssembler.c:289-313 | a receiver reads from a packet exactly the chunks that were written into it |
| `DisassemblerSpec.StepKeepsInv` | badvpn/client/FragmentProtoDisassembler.c:39-162 | the open packet is always the encoding of its chunks and within the MTU |
| `DisassemblerImpl.PutChunk` | badvpn/client/FragmentProtoDisassembler.c:56-65 | appends the encoding of a chunk to the packet buffer |
| `DisassemblerImpl.Disassembler.WriteChunk` | badvpn/client/FragmentProtoDisassembler.c:49-70 | is one round of the writing loop |
| `DisassemblerImpl.Disassembler.WriteAll` | badvpn/client/FragmentProtoDisassembler.c:48-70 | is the writing loop |
| `DisassemblerImpl.Disassembler.WriteChunks` | badvpn/client/FragmentProtoDisassembler.c:39-102 | finishes the frame and the packet when they are full, else starts the timer |
| `DisassemblerImpl.Disassembler.InputSend` | badvpn/client/FragmentProtoDisassembler.c:104-120 | is the Input step |
| `DisassemblerImpl.Disassembler.OutputRecv` | badvpn/client/FragmentProtoDisassembler.c:134-149 | is the Output step |
| `DisassemblerImpl.Disassembler.TimerFired` | badvpn/client/FragmentProtoDisassembler.c:151-162 | is the Timer step: the open packet is sent as it is |
| `DisassemblerImpl.Disassembler.RequestCancel` | badvpn/client/FragmentProtoDisassembler.c:122-132 | is the Cancel step: the frame is forgotten, the frame id stays |
| `DisassemblerImpl.Disassembler.constructor` | badvpn/client/FragmentProtoDisassembler.c:164-199 | starts without frame and packet |
| `RoundTrip.FragmentationRoundTrip` | badvpn/client/FragmentProtoDisassembler.c:39-162 | for any frames, any interleaving of buffers, timers and cancels of unstarted frames and any chunk MTU, an assembler with enough chunk slots that is fed all packets in order delivers the frames that were not cancelled in order, and all of them once the sender holds nothing back |
| `RoundTrip.RunSyncedFrom` | badvpn/client/FragmentProtoDisassembler.c:39-162 | from any moment at which receiver and sender agree, even with the remains of an abandoned frame in front, they keep agreeing on every frame as long as its id is not the abandoned one |
| `RoundTrip.SplitBound` | badvpn/protocol/fragmentproto.h:92-98 | without chunk MTU, at every moment of every run, the frame submitted last, of length L, has taken at most 1 + ceil((L - 1) / (MTU - header)) chunks, one fewer while it is unfinished, which is at most what fragmentproto_max_chunks_for_frame allows |
| `RoundTrip.DatagramRoundTrip` | badvpn/client/DatagramPeerIO.c:197-226 | the configuration that DatagramPeerIO sets up satisfies the round trip with no further assumption |
| `Packing.PacketsWellFilled` | badvpn/client/FragmentProtoDisassembler.c:39-102 | in every run a packet is sent when its time is over, when it has no room for another chunk, or at once if nothing may be delayed, and not before; its chunks keep to chunk_mtu and are as long as they may be |
| `Packing.DeliveredInTime` | badvpn/client/FragmentProtoDisassembler.c:39-160 | when the packing delay expires, and at once if there is none, every frame taken so far and not cancelled has been delivered |
| `CancelLoss.StartedCancelLosesNext` | badvpn/client/FragmentProtoDisassembler.c:122-132 | after a started frame has been cancelled nothing is delivered of the next frame, however it is cut and sent |
| `CancelLoss.StartedCancelLosesOne` | badvpn/client/FragmentProtoDisassembler.c:122-132 | after a started frame has been cancelled exactly one further frame is lost, the next one: all others arrive in order, for any number of frames until the id comes round again |
| `CancelLoss.NextIsIfFew` | badvpn/client/FragmentProtoDisassembler.c:72-83 | the id of a cancelled frame comes round only after 65535 more frames |
| `CancelLoss.CancelHarmlessIffUnstarted` | badvpn/client/FragmentProtoDisassembler.c:122-132 | in a run with one cancel and any number of frames after it, until the id comes round again, everything but the cancelled frame is delivered if and only if nothing of that frame had been sent |
| `CancelLoss.CancelLosesFrame` | badvpn/client/FragmentProtoDisassembler.c:122-132 | a run of five events: a frame is cancelled half sent and nothing of the frame after it is delivered |
| `CancelLoss.HeadlessIncomplete` | badvpn/client/FragmentProtoAssembler.c:256-266 | a frame whose beginning is missing is never complete |
| `SwitchSpec.SigOfGroupMac` | badvpn/client/FrameDecider.c:120-131 | a frame for a group is looked up under the signature its members are filed under |
| `SwitchSpec.QueryOnlyShortens` | badvpn/client/FrameDecider.c:281-314 | a group-specific query lowers memberships of exactly its group to at most the limit and touches nothing else |
| `SwitchSpec.ListenersAre` | badvpn/client/FrameDecider.c:481-496 | the reference scan lists every membership with the signature once |
| `IgmpWire.ReportRoundTrip` | badvpn/client/FrameDecider.c:729-788 | a version 3 report without auxiliary data is read as exactly the memberships it states |
| `IgmpWire.RecordOfEncode` | badvpn/client/FrameDecider.c:743-788 | whatever follows a record, it is read as what it states and reading goes on 252 bytes too far for every word of auxiliary data, or stops if there is less |
| `IgmpWire.RecordReadIffNoAux` | badvpn/client/FrameDecider.c:767-774 | a record is read as what it states, and reading goes on right after it, if and only if it has no auxiliary data |
| `IgmpWire.ReportRead` | badvpn/client/FrameDecider.c:729-788 | a report is read up to its first record with auxiliary data, if less follows than the code skips in vain |
| `IgmpWire.ReportReadIff` | badvpn/client/FrameDecider.c:729-788 | such a report is read right if and only if the records from that one on state no membership |
| `IgmpWire.MembershipAfterAuxLost` | badvpn/client/FrameDecider.c:767-774 | a report of two memberships of which none is learned |
| `IgmpWire.V2ReportRoundTrip` | badvpn/client/FrameDecider.c:714-728 | a version 2 report is read as the one membership it states |
| `IgmpWire.OnlyReports` | badvpn/client/FrameDecider.c:714-790 | nothing but reports of versions 2 and 3 reports memberships |
| `IgmpWire.QueryRoundTrip` | badvpn/client/FrameDecider.c:425-436 | a version 2 query is group-specific exactly if it names a group and its response time is not zero |
| `IgmpWire.QueryV3RoundTrip` | badvpn/client/FrameDecider.c:437-463 | a version 3 query counts as group-specific exactly if it names a group and no sources |
| `IgmpWire.TargetOfGroupFrame` | badvpn/client/FrameDecider.c:469-496 | a frame for a group's Ethernet address is looked up under the group's signature |
| `IgmpWire.GroupFrameReaches` | badvpn/client/FrameDecider.c:469-556 | a frame for a group reaches every member of the group and nobody but members of groups with the same low 23 bits |
| `SwitchFrames.FrameReaches` | badvpn/client/FrameDecider.c:361-510 | from the bytes of a frame: broadcasts and IGMP go to everybody, a frame to 01:00:5e to exactly the members of the groups that its address stands for, any other frame to the one owner of its destination address, or to everybody if nobody owns it |
| `SwitchFrames.ForwardedTo` | badvpn/client/FrameDecider.c:361-795 | the same over every history of frames: a frame for a single address goes to the peer that used the address as a source last and has not left, and to nobody else, or to everybody present |
| `SwitchFrames.UnicastReachesUser` | badvpn/client/FrameDecider.c:69-118 | it does go to that peer, as long as nobody else has used the address since and the peer has used fewer other addresses than it may hold |
| `SwitchFrames.SigIsAddress` | badvpn/client/FrameDecider.c:120-131 | address and group have the same signature exactly if the address stands for the group |
| `SwitchFrames.HistoryIsRun` | badvpn/client/FrameDecider.c:361-795 | a history of frames is a run of learning, joining and query events |
| `Memberships.MembershipEnds` | badvpn/client/FrameDecider.c:199-321 | in every run a membership ends the interval after its latest report, or earlier if a query for the group has said so since; an expired or departed member is none |
| `Memberships.MembershipRetained` | badvpn/client/FrameDecider.c:199-252 | a peer that has reported a group stays a member until the membership expires, the peer departs, or it has reported as many other groups as it may be in |
| `SwitchIndex.ListIsExact` | badvpn/client/FrameDecider.c:133-197 | a signature is in the tree exactly if some entry has it, and the list of its master is exactly the entries with that signature |
| `SwitchIndex.AddRefKeeps` | badvpn/client/FrameDecider.c:133-164 | adding an entry keeps one master per signature list |
| `SwitchIndex.RemoveRefKeeps` | badvpn/client/FrameDecider.c:166-197 | removing an entry, master or not, keeps one master per non-empty list |
| `SwitchTables.LearnIs` | badvpn/client/FrameDecider.c:69-118 | learning an address changes only its former owner and its new one |
| `SwitchTables.ListScans` | badvpn/client/FrameDecider.c:481-496 | the signature list leads to the same peers, equally often, as a scan of all memberships |
| `SwitchTables.TreeKnowsOwner` | badvpn/client/FrameDecider.c:498-504 | the address tree knows the owner of an address exactly if somebody owns it |
| `SwitchTables.TablesImplyInv` | badvpn/client/FrameDecider.c:69-279 | in every state of the indexes each address has one owner and no quota is exceeded |
| `FrameDeciderImpl.FrameDecider.constructor` | badvpn/client/FrameDecider.c:323-351 | starts with no peers |
| `FrameDeciderImpl.FrameDecider.AddMacToPeer` | badvpn/client/FrameDecider.c:69-118 | is LearnMac: the address belongs to the peer alone, the stalest one goes if there is no room |
| `FrameDeciderImpl.FrameDecider.AddGroupToPeer` | badvpn/client/FrameDecider.c:199-252 | is Join: the membership is refreshed or added, the earliest one goes if there is no room |
| `FrameDeciderImpl.FrameDecider.RemoveGroupEntry` | badvpn/client/FrameDecider.c:254-279 | is Leave, in all three indexes |
| `FrameDeciderImpl.FrameDecider.RemoveFromMulticast` | badvpn/client/FrameDecider.c:166-197 | unlinks the entry; a running iteration loses nothing of other peers; a freed iterator becomes stale exactly if it stands on the entry |
| `FrameDeciderImpl.FrameDecider.LowerGroupTimers` | badvpn/client/FrameDecider.c:281-314 | walking one signature list lowers every membership of the group |
| `FrameDeciderImpl.FrameDecider.Choose` | badvpn/client/FrameDecider.c:469-510 | what will be handed out is what a scan of all peers gives for the destination |
| `FrameDeciderImpl.FrameDecider.AnalyzeAndDecide` | badvpn/client/FrameDecider.c:361-510 | from any state but an undrained multicast, the pending destinations are those of the scan; from an undrained one nothing changes but that the iterator is loose, and what was pending still is |
| `FrameDeciderImpl.FrameDecider.NextDestination` | badvpn/client/FrameDecider.c:512-556 | hands out the first pending destination, none when there is none, also from a loose iterator that is not stale |
| `FrameDeciderImpl.FrameDecider.Drain` | badvpn/client/client.c:2673-2681 | the client's loop hands out exactly the pending destinations, in order |
| `FrameDeciderImpl.FrameDecider.ForwardFrame` | badvpn/client/client.c:2666-2682 | from a drained state a frame goes exactly where a scan of all addresses and memberships sends it; `SwitchFrames.ForwardedTo` says which peers these are, from the bytes of the frames |
| `FrameDeciderImpl.FrameDecider.PeerInit` | badvpn/client/FrameDecider.c:558-624 | is AddPeer, with all entries free |
| `FrameDeciderImpl.FrameDecider.PeerFree` | badvpn/client/FrameDecider.c:626-669 | is DropPeer; a running iteration skips the peer and nobody else; a decision becomes unusable exactly if its loose iterator stands on a membership of the peer |
| `FrameDeciderImpl.FrameDecider.Analyze` | badvpn/client/FrameDecider.c:671-795 | learns the source address and the reported groups of a frame |
| `FrameDeciderImpl.FrameDecider.AddRecords` | badvpn/client/FrameDecider.c:741-788 | the record loop joins the groups of all records up to the first malformed one |
| `Draining.PendingAfterUnlink` | badvpn/client/FrameDecider.c:166-197 | unlinking a membership under the iterator takes nothing away from other peers, unless the iterator is loose and stands on that very membership |
| `Draining.PendingAfterFree` | badvpn/client/FrameDecider.c:626-669 | what is pending after a peer has gone is what was pending without it |
| `SwitchRuns.RunKeepsInv` | badvpn/client/FrameDecider.c:69-279 | in every run each address has at most one owner and quotas hold |
| `SwitchRuns.ObservedIsRun` | badvpn/client/FrameDecider.c:671-795 | analysing a frame is the events of its source address and its reports |
| `SwitchRuns.OwnerIsLastUser` | badvpn/client/FrameDecider.c:69-118 | in every run the owner of an address is the peer that used it last and has not left since |
| `SwitchRuns.UnicastGoesToLastUser` | badvpn/client/FrameDecider.c:498-510 | a unicast frame goes to the last user of the address alone, or to everybody |
| `SwitchRuns.AddressRetained` | badvpn/client/FrameDecider.c:69-118 | an address stays with its user until somebody else uses it, the user leaves, or the user has used as many other addresses as it may hold |
| `DataProtoSpec.StepKeepsInv` | badvpn/client/DataProto.c:146-309 | every call and every end of a send keeps each buffer where its flow wants it or detaching, and detaching buffers the ones being sent |
| `DataProtoSpec.EveryBufferInPlace` | badvpn/client/DataProto.c:146-225 | in every run a buffer is on its desired sink, or it is the one buffer that its sink detaches and sends |
| `DataProtoSpec.LeavingMoves` | badvpn/client/DataProto.c:200-225 | a detaching buffer moves exactly when its send ends or its sink is freed, and then to the sink wanted at that time |
| `DataProtoSpec.OrphanFreedOnce` | badvpn/client/DataProto.c:458-484 | a buffer orphaned during a send is freed exactly once, when the send ends or the sink goes, and stays until then |
| `DataProtoHistory.StateIsHistory` | badvpn/client/DataProto.c:62-566 | in every run the place of every buffer, what has been freed, what every queue sends, and the state and reports of every sink are what the events say: a buffer follows its flow at once, or when the send of its packet is over |
| `DataProtoHistory.LastReportIsLatest` | badvpn/client/DataProto.c:62-109 | once the job has run the last report is the latest word: whether the peer said in its latest packet that it receives, and down after a timeout |
| `DataProtoImpl.StepKeepsAll` | badvpn/client/DataProto.c:180-225 | busy handlers are set for exactly the detaching buffers and reference counters count exactly the flows that want a sink |
| `DataProtoImpl.NobodyDesires` | badvpn/client/DataProto.c:297-309 | a sink's counter is zero exactly if no flow wants it |
| `DataProtoImpl.UndesiredIsLeaving` | badvpn/client/DataProto.c:458-543 | a flow that wants no sink has its buffer on one only while its packet is being sent |
| `DataProtoImpl.DataProto.constructor` | badvpn/client/DataProto.c:227-295 | starts without sinks, buffers and flows |
| `DataProtoImpl.DataProto.BufferDetach` | badvpn/client/DataProto.c:160-178 | the buffer is on no sink and the sink has no reference to it |
| `DataProtoImpl.DataProto.ScheduleDetach` | badvpn/client/DataProto.c:180-198 | the sink detaches this buffer and a busy handler is set, also when called again |
| `DataProtoImpl.DataProto.FinishDetach` | badvpn/client/DataProto.c:200-216 | the buffer ends exactly on the desired sink, or is freed if its flow is gone |
| `DataProtoImpl.DataProto.SinkInit` | badvpn/client/DataProto.c:227-295 | is the NewSink step |
| `DataProtoImpl.DataProto.SinkFree` | badvpn/client/DataProto.c:297-337 | is the FreeSink step: no buffer is left on the sink |
| `DataProtoImpl.DataProto.QueueDone` | badvpn/client/DataProto.c:218-225 | is the SendDone step: the busy handler runs exactly if the sender detaches |
| `DataProtoImpl.DataProto.QueueStart` | badvpn/flow/PacketPassFairQueue.c:118-137 | is the SendStart step: the queue of a sink starts to send |
| `DataProtoImpl.DataProto.FlowInit` | badvpn/client/DataProto.c:396-456 | is the NewFlow step |
| `DataProtoImpl.DataProto.FlowFree` | badvpn/client/DataProto.c:458-484 | is the FreeFlow step |
| `DataProtoImpl.DataProto.FlowAttach` | badvpn/client/DataProto.c:516-543 | is the Attach step: at once, or when the running send ends |
| `DataProtoImpl.DataProto.FlowDetach` | badvpn/client/DataProto.c:545-566 | is the Detach step: at once, or when the running send ends |
| `DataProtoImpl.DataProto.SinkReceived` | badvpn/client/DataProto.c:339-358 | is the Received step; `DataProtoHistory.StateIsHistory` says that the link is then up exactly if the peer receives |
| `DataProtoImpl.DataProto.ReceiveTimer` | badvpn/client/DataProto.c:71-79 | is the Timeout step |
| `DataProtoImpl.DataProto.RefreshUpJob` | badvpn/client/DataProto.c:62-69 | the job is pending exactly while the reported state is stale |
| `DataProtoImpl.DataProto.UpJob` | badvpn/client/DataProto.c:100-109 | is the Notify step: reports alternate, starting with up |
| `RelaySpec.RelaysSound` | badvpn/client/client.c:1606-1898 | in every run a relayed peer's relay is another peer with a working link of its own, and nobody waits while any peer can relay |
| `RelaySpec.RelayIsStable` | badvpn/client/client.c:1771-1845 | a relayed peer stays with its relay as long as the relay provides and nothing happens to the peer itself |
| `RelaySpec.StepKeepsInv` | badvpn/client/client.c:1606-1898 | every event keeps the relay list equal to the providers, relaying direct and waiting only without relays |
| `RelayHistory.StateIsHistory` | badvpn/client/client.c:1600-1898 | in every run the mode of every peer and the list of relays are what the events say: whoever needs a relay stays with the one that was oldest when the need arose while it provides |
| `RelayHistory.RelayedOrWaiting` | badvpn/client/client.c:1847-1868 | a peer that gave up and is no provider is relayed, or waits exactly while nobody can relay, until it connects, is reset or leaves |
| `RelayImpl.RelayClient.FramesFollowMode` | badvpn/client/client.c:1600-1845 | frames for a peer go over its own link, over the link of its relay, or nowhere, as its mode says |
| `RelayImpl.RelayClient.RelayedFramesFollow` | badvpn/client/DPRelay.c:36-105 | relayed frames go over the own link of their destination or nowhere |
| `RelayTables.TablesAreSound` | badvpn/client/client.c:1729-1898 | the flags exclude each other and every list holds exactly the peers whose flag says so, which makes the modes consistent |
| `RelayFlows.SinkIsUnused` | badvpn/client/client.c:1695-1727 | once a link relays for nobody and the flows to its peer have left, no local flow and no relay flow wants its sink |
| `RelayFlows.LinkWishes` | badvpn/client/DPRelay.c:278-307 | when a link comes or goes, exactly the peer's local flow and the relay flows to the peer change the sink they want |
| `RelayFlows.AddRoute` | badvpn/client/DPRelay.c:42-82 | a new relay flow is in the lists of its source and its destination, and no pair of peers has two |
| `RelayFlows.RemoveRoute` | badvpn/client/DPRelay.c:84-107 | a freed relay flow leaves both lists |
| `FlowWishes.WishesStep` | badvpn/client/DataProto.c:62-566 | sends, keep-alives, timers and reports change no flow's wish; attaching and detaching change one |
| `FlowWishes.NobodyWants` | badvpn/client/DataProto.c:297-337 | a sink that no flow wants, as far as its user knows, may be freed, whatever is being sent |
| `FlowWishes.FreeSinkOf` | badvpn/client/DataProto.c:297-337 | frees such a sink in any state of its queue and keeps what the user knows |
| `RelayImpl.RelayClient.SendStarts` | badvpn/flow/PacketPassFairQueue.c:118-137 | a queue may start to send at any time; the client stays valid |
| `RelayImpl.RelayClient.SendEnds` | badvpn/client/DataProto.c:200-225 | a send may end at any time, with the detaching it was deferred for; the client stays valid |
| `RelayImpl.RelayClient.PacketReceived` | badvpn/client/DataProto.c:339-358 | received keep-alives leave the client valid |
| `RelayImpl.RelayClient.NothingReceived` | badvpn/client/DataProto.c:71-79 | the receive timer leaves the client valid |
| `RelayImpl.RelayClient.LinkReports` | badvpn/client/client.c:2626-2645 | what the up job reports is the Up or the Down event |
| `RelayImpl.RelayClient.AttachRelaySink` | badvpn/client/DPRelay.c:278-292 | the loop attaches all relay flows to the peer, and nothing else |
| `RelayImpl.RelayClient.DetachRelaySink` | badvpn/client/DPRelay.c:294-307 | the loop detaches all relay flows to the peer, and nothing else |
| `RelayImpl.RelayClient.CreateFlow` | badvpn/client/DPRelay.c:42-82 | the flow is filed under both peers and attached if the destination has a link |
| `RelayImpl.RelayClient.FreeFlow` | badvpn/client/DPRelay.c:84-107 | the flow is gone from DataProto, from both lists and from the router |
| `RelayImpl.RelayClient.FindFlow` | badvpn/client/DPRelay.c:116-127 | finds the flow between two peers exactly if there is one |
| `RelayImpl.RelayClient.SubmitFrame` | badvpn/client/DPRelay.c:186-221 | the frame gets the flow of its pair of peers, a new one only if there was none |
| `RelayImpl.RelayClient.RouteFrame` | badvpn/client/DPRelay.c:129-143 | the frame goes to a flow that still exists, or nowhere |
| `RelayImpl.RelayClient.FlowInactive` | badvpn/client/DPRelay.c:109-114 | an idle relay flow goes away and nothing else changes |
| `RelayImpl.RelayClient.FreeRelayFlows` | badvpn/client/DPReceive.c:253-267 | the loops free all relay flows to and from the peer |
| `RelayImpl.RelayClient.InitLink` | badvpn/client/client.c:1606-1693 | idle becomes linked, with the local flow and all relay flows to the peer on the new sink; if the link cannot be had nothing changes |
| `RelayImpl.RelayClient.FreeLink` | badvpn/client/client.c:1695-1727 | linked becomes idle; relay flows and local flow are detached, during a send or not, before the sink is freed |
| `RelayImpl.RelayClient.CleanupConnections` | badvpn/client/client.c:1729-1748 | any mode becomes idle; users of a relay move on |
| `RelayImpl.RelayClient.EnableRelayProvider` | badvpn/client/client.c:1750-1769 | the link provides and all waiting peers are assigned |
| `RelayImpl.RelayClient.DisableRelayProvider` | badvpn/client/client.c:1771-1800 | all users get the next relay, or wait |
| `RelayImpl.RelayClient.InstallRelaying` | badvpn/client/client.c:1802-1822 | idle becomes relayed; the flow is attached to the relay's sink |
| `RelayImpl.RelayClient.FreeRelaying` | badvpn/client/client.c:1824-1845 | relayed becomes idle; flow and user list are updated |
| `RelayImpl.RelayClient.PeerNeedRelay` | badvpn/client/client.c:1847-1868 | is the GiveUp event; `RelayHistory.RelayedOrWaiting` says what becomes of the peer |
| `RelayImpl.RelayClient.RegisterNeedRelay` | badvpn/client/client.c:1870-1883 | idle becomes waiting |
| `RelayImpl.RelayClient.UnregisterNeedRelay` | badvpn/client/client.c:1885-1898 | waiting becomes idle |
| `RelayImpl.RelayClient.AssignRelays` | badvpn/client/client.c:2684-2709 | the loop gives the first relay to everybody who waits |
| `RelayImpl.RelayClient.FreshLink` | badvpn/client/client.c:2342-2355 | is the Connect event: a fresh link, or idle if that fails |
| `RelayImpl.RelayClient.PeerReset` | badvpn/client/client.c:1900-1905 | is the Reset event |
| `RelayImpl.RelayClient.PeerAdd` | badvpn/client/client.c:1324-1507 | is the Add event, with a flow that wants no sink |
| `RelayImpl.RelayClient.PeerRemove` | badvpn/client/client.c:1509-1535 | is the Drop event; relay flows, then the local flow are freed, all wanting no sink |
| `RelayImpl.RelayClient.LinkUp` | badvpn/client/client.c:2626-2636 | is the Up event |
| `RelayImpl.RelayClient.LinkDown` | badvpn/client/client.c:2637-2645 | is the Down event |
| `BindingSpec.SetupTerminates` | badvpn/client/client.c:1900-2403 | whatever state the sides start in and whatever the order of arrivals, a setup sends at most 2(Nm + Ns) + 2 messages, has at most one on its way, and when it is quiet both sides are in the one state that both sides' addresses determine, also when a link or a connection cannot be had |
| `BindingSpec.SetupSettles` | badvpn/client/client.c:1900-2403 | a quiet setup has led to a link or to relaying if and only if the address that ends the search, if there is one, can be bound and connected to; otherwise the master's retry timer runs |
| `BindingSpec.SetupCanFinish` | badvpn/client/client.c:1900-2403 | from any point, letting at most 2(Nm + Ns) + 2 messages arrive ends the setup |
| `BindingSpec.BindFinds` | badvpn/client/client.c:2301-2403 | binding stops at the next address it can bind to, or finds none and says so, or resets because there is no link; none of the addresses it passes ends the search |
| `BindingImpl.PeerSetup.PeerBind` | badvpn/client/client.c:2301-2340 | the loop over bind addresses is Bind |
| `BindingImpl.PeerSetup.StartPeerBinding` | badvpn/client/client.c:2293-2299 | is StartBinding |
| `BindingImpl.PeerSetup.HandleYouConnect` | badvpn/client/client.c:2001-2085 | for every message: ignored if it or an address before the first usable one is malformed or key or password are not what the transport needs, else connected to the first readable address in a known scope or reset if that fails, else says that it cannot; for every offer of the other side this is what the reference does |
| `YouConnect.ReadOffer` | badvpn/client/client.c:2001-2085 | decides about every message as the reference function of its fields does |
| `YouConnect.PickAddress` | badvpn/client/client.c:2012-2050 | the loop picks the first readable address in a known scope, unless an address message before it is malformed |
| `YouConnect.PickIs` | badvpn/client/client.c:2012-2050 | the choice is the first usable address, unless an address message before it is malformed |
| `YouConnect.UsedIsRight` | badvpn/client/client.c:2001-2085 | whatever the message, an address is used only if its scope is known and the message has the key or password that the transport needs, and no other |
| `YouConnect.OfferRead` | badvpn/client/client.c:2001-2085 | a written offer is read as its first external address in a known scope, with the key or password that was sent |
| `AddrProto.AddrRead` | badvpn/protocol/addr.h:153-205 | reads exactly the addresses of type IPv4 or IPv6 that have a port and an address of that type |
| `AddrProto.AddrWrite` | badvpn/protocol/addr.h:121-151 | fills its buffer of the precomputed size with the encoding |
| `AddrProto.AddrRoundTrip` | badvpn/protocol/addr.h:106-205 | every address is read as it was written |
| `AddrProto.ReadAddrOk` | badvpn/protocol/addr.h:153-205 | whatever is read has a port of two bytes and an address of the right size |
| `BindingImpl.PeerSetup.HandleCannotConnect` | badvpn/client/client.c:2087-2104 | goes on binding, if it is binding and the message is empty |
| `BindingImpl.PeerSetup.HandleCannotBind` | badvpn/client/client.c:2106-2122 | if the message is empty, the slave starts binding and the master gives up |
| `BindingImpl.PeerSetup.HandleYouRetry` | badvpn/client/client.c:2222-2237 | if the message is empty, the master resets and the slave ignores it |
| `BindingImpl.PeerSetup.PeerReset` | badvpn/client/client.c:1900-1914 | the master's retry timer runs, the slave asks for a retry |
| `BindingImpl.PeerSetup.RetryTimer` | badvpn/client/client.c:2283-2291 | starts binding again |
| `BindingImpl.PeerSetup.HandleMessage` | badvpn/client/client.c:1955-1999 | the bytes of every setup message are handled as the reference handles the message, and the answer is bytes of the reference's answer; bytes that are no message change nothing |
| `BindingImpl.CarriedMessage` | badvpn/client/client.c:1955-1999 | from the bytes of a setup message its type and payload can be told |
| `YouConnect.OfferFits` | badvpn/client/client.c:2524-2549 | every offer within the client's limits has at most 1032 bytes, which a message has room for, and is one that the other side can read |
| `YouConnect.SendOffer` | badvpn/client/client.c:2509-2606 | with the client's own limit on messages every offer is sent |
| `MsgProto.MsgRoundTrip` | badvpn/protocol/msgproto.bproto:1-8 | a message is read as the type and payload that were written |
| `MsgProto.MsgLength` | badvpn/protocol/msgproto.h:74 | a message can be passed on if and only if its payload is within MSG_MAX_PAYLOAD |
| `MsgProto.MsgRead` | badvpn/client/client.c:1961-1972 | the generated parser reads exactly the messages of one type and one payload |
| `MsgProto.MsgWrite` | badvpn/client/client.c:2442-2499 | writes the encoding, which the server passes on |
| `BProtoWire.WrittenIsAccepted` | badvpn/bproto_generator/bproto_functions.php:342-610 | for any schema, entries that meet the cardinalities are accepted by the parser and read as written |
| `BProtoWire.AcceptedIsWritten` | badvpn/bproto_generator/bproto_functions.php:422-610 | an accepted message is the one encoding of conforming entries |
| `BProtoWire.NextOfEncode` | badvpn/bproto_generator/bproto_functions.php:457-520 | an entry is read back as it was written, whatever follows |
| `BProtoWire.EncodeOfNext` | badvpn/bproto_generator/bproto_functions.php:457-520 | an entry that can be read is the encoding of what was read |
| `WireFormats.AcceptedWhen` | badvpn/bproto_generator/bproto_functions.php:422-610 | a message is accepted exactly if every entry is of a known field and of its type, required fields occur, and fields that are not repeated occur at most once |
| `WireFormats.NumberBytes` | badvpn/bproto/BProto.h:41-77 | the bytes of an integer entry |
| `WireFormats.BlobBytes` | badvpn/bproto/BProto.h:41-83 | the bytes of a data entry |
| `WireFormats.SetupMessages` | badvpn/protocol/msgproto.h:67-72 | the bytes of the messages of the link setup |
| `WireFormats.MessageBytes` | badvpn/protocol/msgproto.bproto:1-9 | the bytes of a message |
| `WireFormats.AddressBytes` | badvpn/protocol/addr.bproto:1-11 | the bytes of an address |
| `WireFormats.ScopedAddressBytes` | badvpn/protocol/msgproto.bproto:21-27 | the bytes of an external address |
| `WireFormats.ExtraBytes` | badvpn/protocol/msgproto.bproto:11-19 | the bytes of key and password |
| `WireFormats.ChunkBytes` | badvpn/protocol/fragmentproto.h:54-80 | the bytes of a chunk |
| `BProtoSpans.EntryAtCursor` | badvpn/bproto_generator/bproto_functions.php:648-755 | cursors fall on entry boundaries and the entry at the cursor lies inside the span, so the length asserts of Get hold |
| `BProtoSpans.RestEmpty` | badvpn/bproto_generator/bproto_functions.php:612-634 | a field has something left exactly while its cursor has not reached the end of its span |
| `BProtoImpl.SizesAddUp` | badvpn/bproto_generator/bproto_functions.php:177-189 | the SIZE macros add up to the length of the message |
| `BProtoImpl.Writer.constructor` | badvpn/bproto_generator/bproto_functions.php:303-318 | starts an empty message |
| `BProtoImpl.Writer.Add` | badvpn/bproto_generator/bproto_functions.php:342-416 | appends one entry and advances by its SIZE |
| `BProtoImpl.Writer.Finish` | badvpn/bproto_generator/bproto_functions.php:320-336 | the asserts on the counts make the message conform, and its length is the sum of the sizes |
| `BProtoImpl.Parser.Init` | badvpn/bproto_generator/bproto_functions.php:422-610 | accepts exactly the encodings of conforming messages, and then has all values of every field to give |
| `BProtoImpl.Parser.Scan` | badvpn/bproto_generator/bproto_functions.php:454-575 | the loop counts entries and records spans on entry boundaries |
| `BProtoImpl.Parser.Get` | badvpn/bproto_generator/bproto_functions.php:648-759 | gives the next value of the field, none when there is none, and leaves other fields alone |
| `BProtoImpl.Parser.GotEverything` | badvpn/bproto_generator/bproto_functions.php:612-638 | true exactly if no Get would succeed |
| `BProtoImpl.Parser.Reset` | badvpn/bproto_generator/bproto_functions.php:761-764 | all values of the field can be got again |
| `BProtoImpl.Parser.Forward` | badvpn/bproto_generator/bproto_functions.php:766-769 | nothing of the field is left |
| `ConnectInfo.MessageLength` | badvpn/client/client.c:2524-2543 | the length computed before writing is exactly the length written, nested address messages included |
| `ConnectInfo.SendConnectInfo` | badvpn/client/client.c:2509-2606 | the message fills its buffer exactly, and is not sent if it is too long |
| `ConnectInfo.WriteAddress` | badvpn/client/client.c:2571-2588 | an inner address message fills its buffer exactly |
| `ConnectInfo.AddressRoundTrip` | badvpn/client/client.c:2022-2042 | scope and address of an offer are read as they were written |
| `ConnectInfo.ConnectInfoRoundTrip` | badvpn/client/client.c:2001-2080 | the receiver gets all addresses in order, and the key or password, and nothing else |
| `SpWire.DecodeOfEncode` | badvpn/client/SPProtoEncoder.c:87-152 | for any hash, any invertible cipher and any combination of features, decoding an encoding gives back payload, seed id and password, for every length within the MTU |
| `SpWire.EncodeOfDecode` | badvpn/client/SPProtoDecoder.c:42-155 | an accepted packet is the encoding of what it decodes to, under the same IV |
| `SpWire.PayloadMtuExact` | badvpn/protocol/spproto.h:152-193 | a payload fits into a carrier packet exactly up to the computed payload MTU |
| `WireFormats.PlainBytes` | badvpn/protocol/spproto.h:117-128 | the bytes of a packet before encryption; the hash is that of the whole packet with zeros in its place |
| `WireFormats.SealedBytes` | badvpn/protocol/spproto.h:36-56 | an encrypted packet is the initialization vector and the encryption of the packet, a one, and as few zeros as fill the last block |
| `SpCodec.WriteHeader` | badvpn/client/SPProtoEncoder.c:98-122 | password data and hash are written around the payload in place |
| `SpCodec.WritePadding` | badvpn/client/SPProtoEncoder.c:130-134 | a one and zeros up to the block boundary |
| `SpCodec.EncodeWork` | badvpn/client/SPProtoEncoder.c:87-152 | produces the encoding, of the computed carrier length |
| `SpCodec.FindPadding` | badvpn/client/SPProtoDecoder.c:88-107 | the backward search finds the padding byte of the last block or rejects |
| `SpCodec.CheckHash` | badvpn/client/SPProtoDecoder.c:132-150 | compares with the hash over the zeroed field and leaves the packet as it was |
| `SpCodec.OpenPlain` | badvpn/client/SPProtoDecoder.c:110-154 | accepts exactly what the reference opens |
| `SpCodec.DecodeWork` | badvpn/client/SPProtoDecoder.c:42-155 | is Decode; without a key an encrypted packet is rejected |
| `HandshakeSpec.OncePerSend` | badvpn/flow/PacketPassInterface.h:149-227 | in every history within the contract each send is answered exactly once before the next, reaches the provider exactly once unless it is cancelled before that, and then never; the provider answers once for each packet that reaches it and is told of a cancel at most once, if there was one |
| `HandshakeSpec.CancelReaches` | badvpn/flow/PacketPassInterface.h:191-227 | a cancel that the provider has not been told of while it works is still to come |
| `HandshakeImpl.PacketPass.SenderSend` | badvpn/flow/PacketPassInterface.h:181-198 | only the operation job is set; the history stays within the contract |
| `HandshakeImpl.PacketPass.ProviderDone` | badvpn/flow/PacketPassInterface.h:149-162 | a pending cancel is dropped, the done job is set |
| `HandshakeImpl.PacketPass.SenderRequestCancel` | badvpn/flow/PacketPassInterface.h:200-227 | a packet not yet with the provider never gets there; repeated requests do nothing |
| `HandshakeImpl.PacketPass.ExecuteTop` | badvpn/flow/PacketPassInterface.c:32-68 | pending jobs match the state in every reachable state, so every callback is one that the contract allows |
| `HandshakeImpl.RunTop` | badvpn/base/BPending.c:66-88 | with any number of interfaces on one stack, the top job is run by the interface it belongs to and all interfaces stay within their contracts |
| `HandshakeImpl.PacketPass.StaysValid` | badvpn/base/BPending.c:137-171 | setting and unsetting other jobs on the shared stack leaves an interface as it is |
| `PendingSpec.LaterRunsFirst` | badvpn/base/BPending.c:66-171 | whatever is set, unset and executed in between, a job does not run while a job set later is pending |
| `PendingSpec.ResubmitBeforeSchedule` | badvpn/flow/PacketPassFairQueue.c:182-206 | a flow that resubmits from its done handler is queued before the fair queue's schedule job runs |
| `PendingImpl.PendingGroup.SetJob` | badvpn/base/BPending.c:137-154 | the job is on top, once |
| `PendingImpl.PendingGroup.UnsetJob` | badvpn/base/BPending.c:156-171 | the job is gone, the others keep their order |
| `PendingImpl.PendingGroup.ExecuteJob` | badvpn/base/BPending.c:66-88 | the top job runs and is no longer pending |
| `DhcpSpec.DhcpRuns` | badvpn/dhcpclient/BDHCPClientCore.c:406-678 | in every run with punctual timers the client is up at most until its lease runs out, reports alternate and agree with the state, the configuration is the one last reported, at most four requests follow an offer, and at most eight processes share a transaction id, each sending at most one discover |
| `DhcpSpec.StepKeepsInv` | badvpn/dhcpclient/BDHCPClientCore.c:406-678 | the same without any assumption on time, except for the lease |
| `DhcpHistory.RunExplained` | badvpn/dhcpclient/BDHCPClientCore.c:482-678 | in every run with punctual timers the client asks for an offer it has received, every three seconds from then on; it is up by virtue of such an offer and of acknowledgements by the same server, with what the first one said; it renews when half of the lease of the latest one is over, every twenty seconds, until all of it is over |
| `DhcpHistory.StaysUp` | badvpn/dhcpclient/BDHCPClientCore.c:421-463 | the client stays up with the same configuration exactly until its lease timer fires or its own server refuses |
| `DhcpHistory.ComesUp` | badvpn/dhcpclient/BDHCPClientCore.c:506-533 | it comes up exactly when the offer it has asked for is acknowledged |
| `DhcpHistory.AsksFor` | badvpn/dhcpclient/BDHCPClientCore.c:482-505 | it takes an offer exactly when it is looking for one, and gives it up exactly after four requests or a refusal |
| `DhcpHistory.Speaks` | badvpn/dhcpclient/BDHCPClientCore.c:73-206 | what an event calls for is sent unless the previous message is still being sent, and nothing else is; the transaction id changes only when it is used up or a new one is called for |
| `DhcpExchange.Exchange` | badvpn/dhcpclient/BDHCPClientCore.c:208-533 | from bytes: an offer and its acknowledgement bring the client up with what they say |
| `DhcpExchange.Refusal` | badvpn/dhcpclient/BDHCPClientCore.c:421-463 | from bytes: a refusal by the server that was chosen ends everything for four seconds, any other changes nothing |
| `DhcpExchange.Renewed` | badvpn/dhcpclient/BDHCPClientCore.c:536-562 | from bytes: an acknowledgement while renewing extends the lease and changes nothing else |
| `DhcpExchange.OtherPackets` | badvpn/dhcpclient/BDHCPClientCore.c:208-251 | a packet that is no reply to this client and transaction changes nothing |
| `DhcpImpl.DhcpClient.constructor` | badvpn/dhcpclient/BDHCPClientCore.c:764-778 | starts by sending a discover |
| `DhcpImpl.DhcpClient.StartProcess` | badvpn/dhcpclient/BDHCPClientCore.c:565-589 | a new transaction id when forced or used up |
| `DhcpImpl.DhcpClient.HandleNak` | badvpn/dhcpclient/BDHCPClientCore.c:406-463 | resets from every state with an offer of that server, reporting down if it was up |
| `DhcpImpl.DhcpClient.HandleReply` | badvpn/dhcpclient/BDHCPClientCore.c:406-563 | is the Receive step |
| `DhcpImpl.DhcpClient.HandlePacket` | badvpn/dhcpclient/BDHCPClientCore.c:208-563 | for every packet: the Receive step if it is a well-formed reply to this client and transaction, else nothing |
| `DhcpWire.ReadReply` | badvpn/dhcpclient/BDHCPClientCore.c:220-404 | the header checks and the option loop compute the reference reading; `DhcpReplies.ReplyMeans` says what that is, by option numbers |
| `DhcpWire.ReadOptions` | badvpn/dhcpclient/BDHCPClientCore.c:253-392 | the option loop is the reference reading of options, byte by byte; `DhcpReplies.ReplyMeans` says what that is, by option numbers |
| `DhcpWire.OptionsRoundTrip` | badvpn/dhcpclient/BDHCPClientCore.c:277-392 | any options in any order, ended and padded, are read as what they say, later ones overriding earlier ones |
| `DhcpWire.AcceptedIsOptions` | badvpn/dhcpclient/BDHCPClientCore.c:277-392 | whatever is accepted is such a list of options |
| `DhcpWire.ReplyRoundTrip` | badvpn/dhcpclient/BDHCPClientCore.c:220-404 | a server's reply is read as what its header and options say, whatever the fields hold that the client ignores |
| `DhcpReplies.ReplyMeans` | badvpn/dhcpclient/BDHCPClientCore.c:220-404 | for every reply, by option numbers: the last option 53, 54, 51, 1, 3 and 6 says type, server, lease, mask, router and name servers; the client reads exactly that, and gives up exactly if one of these has the wrong length or there is no known type or no server |
| `DhcpReplies.MessageRoundTrip` | badvpn/dhcpclient/BDHCPClientCore.c:220-404 | a message that a server writes, with its options in any order and among unknown ones, is read as that message |
| `DhcpReplies.AcceptedIsReply` | badvpn/dhcpclient/BDHCPClientCore.c:220-404 | every accepted packet is a boot reply for the client's hardware address and transaction whose options say what is read |
| `DhcpRequests.WriteAsk` | badvpn/dhcpclient/BDHCPClientCore.c:73-198 | a message of the client has a fixed header and its options, and always fits into the send buffer |
| `DhcpRequests.AskIsRead` | badvpn/dhcpclient/BDHCPClientCore.c:101-190 | a server reads from it the type, the address and server meant, the room for an answer, the parameters wanted and the client's names |
| `DhcpRequests.AskBytes` | badvpn/dhcpclient/BDHCPClientCore.c:88-98 | a message is a boot request with the transaction id at 4, the hardware address at 28, the DHCP magic at 236 and zeros everywhere else, then the options and their end |
| `DhcpExchange.AsksInOptions` | badvpn/dhcpclient/BDHCPClientCore.c:565-660 | a discover asks for no address, a request names the offered address and its server, a renewal the address alone |
| `DhcpExchange.RequestsIgnored` | badvpn/dhcpclient/BDHCPClientCore.c:228-230 | a message of a client, this one or another, changes nothing |
| `DhcpImpl.DhcpClient.OnResetTimer` | badvpn/dhcpclient/BDHCPClientCore.c:591-599 | is the ResetTimer step |
| `DhcpImpl.DhcpClient.OnRequestTimer` | badvpn/dhcpclient/BDHCPClientCore.c:601-626 | is the RequestTimer step |
| `DhcpImpl.DhcpClient.OnRenewTimer` | badvpn/dhcpclient/BDHCPClientCore.c:628-646 | is the RenewTimer step |
| `DhcpImpl.DhcpClient.OnRenewRequestTimer` | badvpn/dhcpclient/BDHCPClientCore.c:648-660 | is the RenewRequestTimer step |
| `DhcpImpl.DhcpClient.OnLeaseTimer` | badvpn/dhcpclient/BDHCPClientCore.c:662-678 | is the LeaseTimer step |
| `DhcpImpl.DhcpClient.GetConfig` | badvpn/dhcpclient/BDHCPClientCore.c:814-852 | while the client is up, through any number of renewals, its address, mask, router and name servers are those it had when it reported that it is up |
| `LineBufferSpec.PacketsAreStream` | badvpn/flow/LineBuffer.c:39-96 | the packets of a stream concatenate to a prefix of it, and what is left is shorter than the buffer and has no newline |
| `LineBufferSpec.PacketShape` | badvpn/flow/LineBuffer.c:39-96 | every packet is a line, or exactly as long as the buffer, with a newline only at its end |
| `LineBufferImpl.LineBuffer.InputDone` | badvpn/flow/LineBuffer.c:39-68 | while receiving, the packets sent are exactly those of the bytes received, however they were cut into receives, and every receive has room |
| `LineBufferImpl.LineBuffer.OutputDone` | badvpn/flow/LineBuffer.c:70-96 | the next packet of the stream is sent if it is complete |
| `LineBufferImpl.LineBuffer.constructor` | badvpn/flow/LineBuffer.c:98-132 | starts receiving into an empty buffer |

## Left out

- CancelLoss.CancelHarmlessIffUnstarted: does not cover runs in which the id of the cancelled frame comes round again (after 65535 more frames), because what the receiver still holds under that id then depends on its clock.
- IgmpWire.ReportReadIff: does not cover reports in which more data follows a record with auxiliary data than the code skips in vain, because what is read then depends on where the skip lands; `IgmpWire.RecordOfEncode` covers each record of them.
- RelayImpl.RelayClient.SubmitFrame: does not model the router's frame buffer, and DPReceive's packet header, which decides who may relay to whom, is left out; source and destination are parameters.
- SwitchTables.TablesImplyInv: does not model which of a peer's entries holds an address or a group, because entries are interchangeable; free entries are counted.
- Lost or reordered packets in the round trip of whole runs; what the assembler delivers then is covered by `Reassembly.DeliveredFramesAreTiled` and `Reassembly.AnyOrderDelivered`.
- FrameDecider timers as clock events: a membership carries its end time, and its expiry is an event that can happen at any time.
- IPv4 header checks are a parameter of `Igmp` and of the frame decider's methods.
- DataProtoFlow_Route and the route buffers: which packets a flow's buffer holds.
- HandshakeImpl: the MTU and data of a packet, and freeing an interface in the middle of an operation.
- Chat failures in the link setup: the chat is reliable and in order; and failures of a link after its setup.
- The key, password and seed exchange of a link beyond the first message.
- The server's MAC address that the DHCP client remembers, and the flags and pace of keep-alive packets.
- One-time password generation and checking, threads and the packet interfaces of the SPProto encoder and decoder.
- BProto entries of type "message", which the generator itself rejects.
- SSL, sockets, the TAP device, the server, logging and command lines: foreign calls and wiring.
- PacketPassFifoQueue, PacketPassPriorityQueue, PacketCopier, SimpleStreamBuffer and BArpProbe: they would add only easier members.
