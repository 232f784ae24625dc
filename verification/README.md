# Verification of the traffic-inspection components

This project models the state-carrying parts of the peer-to-peer traffic-inspection framework in Dafny and proves
what they do over every input, every run and every interleaving.

* **DMA commands** (`DmaPlan.dfy`, `DmaTransfer.dfy`): `dma_to_device` and `dma_from_device` cut a byte range over the
  queues of a port. `DmaPlan` states sizes, addresses, offsets, descriptor counts and the loop-carried last-descriptor
  size without the running totals of the loops; `DmaTransfer` has the loops, proves them against that plan, and proves
  what whole plans do to the device memory and to the host file.
* **Clock synchronisation** (`ClkSync.dfy`, `SyncLink.dfy`, `HwTime.dfy`): the register block with its synchronisers
  and registered comparator as a class with one method per clock edge, a master driving a slave through a delay line,
  and the counters read as nanoseconds with the constants of the host software.
* **Packet path of the FPGA** (`PacketDetect.dfy`, `TimestampInject.dfy`, `FrameBytes.dfy`, `P2pPlugin.dfy`): start-of-packet detection on
  an AXI4-Stream lane (valid/ready handshake of section 2.2 of the AMBA 4 AXI4-Stream specification, ARM IHI 0051A), the
  match on the VLAN TCI (section 9.6 of IEEE 802.1Q-2018), the slot search and splice of the injector, what
  both mean for the bytes of a frame, and the plugin that ORs the detections of all lanes into the counters.
* **Software forwarder** (`Forwarder.dfy`, `ForwarderLoops.dfy`, `ForwarderProofs.dfy`, `ForwarderWritten.dfy`,
  `ForwarderSizing.dfy`, `TxFairness.dfy`): the receive and the transmit thread as interleaved atomic steps over a bounded ring of physical
  packet buffers, which the pool gives out again; reading the stop flag and the burst that follows are separate steps.
  Then what whole iterations of the two loops do and how they end, what the overflow test as written does, the pool size that rules out refusals, and the round-robin queue counter.
* **Host time keeping and pacing** (`Stats.dfy`, `PacedSender.dfy`): reported TSC gaps, hop latencies in `uint64`
  arithmetic, and the paced loop of the synchronisation sender.
* `Words.dfy` holds the unsigned word types, wrap-around and a few facts on division.

Code that changes state is a class or a method with loops, proved equal to a function of the old state; the theorems are
lemmas about those functions. Environment choices (schedules, device verdicts, clock readings, input waveforms, power-up
register values) are parameters, so each theorem quantifies over all of them.

## Where the code and its comments differ

* `server/src/pipeline.cpp:45-46`: the comment on the free loop says "ring is full", but a bulk enqueue returns the
  number of objects enqueued, so the test `!= 0` selects the accepted bursts. Both readings are modelled. With the
  commented one every interleaving conserves buffers and packets and keeps their order. With the written one buffers
  stay conserved if and only if the schedule never delivers a burst and then comes to the enqueue
  (`WrittenConservesIff`); a freed buffer is filled again while it is queued, so that the NIC can get one packet twice
  and another never (`WrittenRepeatsPacket`), with any pool and ring at all (`WrittenKeepsOrderIff`); and the ring can
  fill whatever the pool (`NeverRefusedIff`).
* `server/src/pipeline.cpp:23, 132`: the stop flag is read before each burst, so one burst on either side can still go
  through after it is set (`StopBounds`, `StopLetsOneBurstThrough`).
* `server/src/pipeline.cpp:32-33`: the receive queue index is computed and never used; queue 0 is always polled.
* `server/src/commands.c:617-618, 740-754`: the last-descriptor size is declared outside both loops and not assigned
  for a transfer that fills its descriptors. `LdExactIff` gives the exact condition under which every visit still
  passes the true remainder, and `StaleTailExample` an input on which one does not.
* `server/src/commands.c:730-731`: with fewer bytes than queues a write sends a whole buffer on every queue after the
  first, behind the requested range (`PassTotal`, `StaysInRangeIff`, `ShortWriteExample`).
* `server/src/commands.c:671-674`: the message asks for less than `BRAM_SIZE`; the test admits equality. The test is
  modelled.
* `fpga/hw/IPs/clk_sync_pulse/clk_sync_pulse_regs.sv:31`: the comment says master by default, the parameter says
  `SLAVE`; the register write logic is commented out, so only the parameter selects the mode.
* `fpga/hw/IPs/clk_sync_pulse/clk_sync_pulse_regs.sv:32, 193, 236`: the period is named as 322 ticks. Reset loads 321,
  and the registered comparator makes a round two edges longer than the register value, 323 in all.
* `fpga/hw/IPs/packet_detect/packet_detect.sv:55-63`: the EtherType and the VLAN ID are compared as bit slices, in which
  the earlier byte is the lower one, while both fields have their higher byte first on the wire. With byte n of a frame
  in bits 8n to 8n + 7, as the offsets have it, a frame is matched iff its bytes 12 and 13 are 00 81, byte 14 has C in
  its upper half and byte 15 is AB (`MatchedBytes`). A tagged frame has 81 00 there, so none is matched, in particular
  not the one that `server/src_clk_sync/main.cpp:95-99` builds (`TaggedFramesAreNotMatched`).
* `fpga/hw/IPs/timestamp_inject/timestamp_inject.sv:31, 65, 76-78`: the comment speaks of the next available offset. The
  search takes the first slot whose low word is *not* the empty marker, so later hops overwrite the same slot, and the
  splice ignores `found_timestamp_idx`: without such a slot it overwrites bits 0 to 63. The concatenation written there
  is 63 bits wide, so bit 63 of a stamp is zero.
* `fpga/hw/plugins/inject_timestamp/p2p_322mhz.sv:199-215, 274-290`: the detectors' reset port is left unconnected. The
  reset is therefore an input of every cycle; `InResetEveryBeatIsFirst` says what a reset held low would mean.

## Model

| member | source | states |
|---|---|---|
| DmaPlan.PassTotal | server/src/commands.c:696-738 | The transfers of one pass carry exactly the requested bytes iff the command reads, or has a byte for each queue; a smaller write totals the input plus one buffer for each further queue. |
| DmaPlan.AddressIsOffset | server/src/commands.c:709-759 | With a byte for each queue, every queue's device address minus the base is its file offset, starts where the previous queue stopped, and the modulo by the BRAM size changes nothing. |
| DmaPlan.RangesTile | server/src/commands.c:709-759 | Every byte of the range is carried by exactly one queue, in the file and on the device: ranges are disjoint and leave no gap. |
| DmaPlan.StaysInRangeIff | server/src/commands.c:710-738 | All ranges a write touches lie in the requested range iff every queue gets a byte. |
| DmaPlan.ShortWriteExample | server/src/commands.c:730-731 | One byte over two queues with buffers of 4096 sends 4097 bytes. |
| DmaPlan.DescriptorsCover | server/src/commands.c:740-754 | The descriptor count is the ceiling of size over buffer size. |
| DmaPlan.LdExactIff | server/src/commands.c:740-754 | Over all queues and passes the last-descriptor size is the true remainder iff a condition on size, rest, buffer size, queues and passes holds, for both directions and all sizes. |
| DmaPlan.StaleTailExample | server/src/commands.c:617-618 | With 8193 bytes over two queues, twice, some visit passes a wrong last-descriptor size. |
| DmaPlan.LdIsLatestRemainder | server/src/commands.c:740-754 | The last-descriptor size of every call of every pass is the remainder of the latest transfer, itself included, that did not fill its descriptors, and zero before the first of these. |
| DmaPlan.CallsLdExactIff | server/src/commands.c:740-754 | In terms of the calls of a whole run: all of them pass their true remainder iff the same condition holds. |
| DmaPlan.CallsAreVisits | server/src/commands.c:709-780 | Call k of a run goes to queue k mod n, memory-mapped iff that queue is no streaming one; its descriptors hold the transfer and none is superfluous, one for an empty one; the zero-byte flag is set on exactly the calls of a zero-length write. |
| DmaPlan.CallsDealBytes | server/src/commands.c:710-738 | All queues but the last get the largest equal share and the last the rest, or the first everything if there are fewer bytes than queues; the device address is the requested one plus the bytes dealt out before, modulo 524288, for all sizes. |
| DmaPlan.CallsStartInFile | server/src/commands.c:756-769 | Every transfer starts in the file where the bytes dealt out before end, but at its start for a streaming queue of a write without loopback, and for every queue if there are fewer bytes than queues. |
| DmaTransfer.AdmitIff | server/src/commands.c:636-692 | A request is let through iff port, queue count, range and zero-length conditions hold, with its own figures and those of its port; each objection is made exactly when it is the first that applies. |
| DmaTransfer.Descriptors | server/src/commands.c:740-754 | The branches compute that descriptor count and the carried last-descriptor size. |
| DmaTransfer.NextSend | server/src/commands.c:710-738 | From the running total and address the write loop computes the planned address and share of the queue. |
| DmaTransfer.NextReceive | server/src/commands.c:930-953 | The same for the read loop, which has no filler branch. |
| DmaTransfer.Arguments | server/src/commands.c:740-780 | A visit hands the driver exactly the planned transfer. |
| DmaTransfer.SendPass | server/src/commands.c:703-785 | One pass issues the planned transfers in order and stops at the first failing or impossible one. |
| DmaTransfer.ReceivePass | server/src/commands.c:923-1011 | Likewise for a read, which extends the output file. |
| DmaTransfer.Qdma.Xmit | server/src/commands.c:779-780 | Contract of the unseen transmit call: exactly the transfer's bytes move, to memory or to the stream, or nothing. |
| DmaTransfer.Qdma.Recv | server/src/commands.c:991-998 | Contract of the unseen receive calls: exactly the transfer's bytes are written at the file offset, or nothing. |
| DmaTransfer.DmaToDevice | server/src/commands.c:636-789 | Every outcome of the write command: refused iff the request is not acceptable, and then without a call; complete after all passes over all queues, if no driver error falls in them; or cut short at the first that does. In each case the transfers issued and the device state left. |
| DmaTransfer.DmaFromDevice | server/src/commands.c:868-1015 | The same of the read command, with the file it leaves. |
| DmaTransfer.PlanWritesImage | server/src/commands.c:702-787 | At every visit of every pass the device holds an exact copy of the front of the file at the requested address and is otherwise unchanged. |
| DmaTransfer.WritesUnhindered | server/src/commands.c:779-784 | No transfer of such a write is impossible, so only a driver error can stop it. |
| DmaTransfer.CutShortLeavesFront | server/src/commands.c:724-727 | A write cut short by a driver error leaves exactly the front of the file reached so far and nothing else. |
| DmaTransfer.PlanReadsImage | server/src/commands.c:922-1013 | At every visit of every pass the output file is an exact copy of the front of the device range, for any number of queues, and no visit is refused. |
| DmaTransfer.RoundTrip | server/src/commands.c:702-787 | A file written over n queues and read back over any m queues comes back byte for byte, other device bytes unchanged, for any number of passes on each side. |
| DmaTransfer.MixedWritesOwnRanges | server/src/commands.c:756-780 | On a port with any mixture of queues, at every visit of every pass the memory-mapped queues have put exactly their own ranges of the file at their places; no other byte of the memory changes. |
| DmaTransfer.StreamsInOrder | server/src/commands.c:756-765 | With loopback enabled streaming queues send the file in order in the first pass and leave the memory alone. |
| DmaTransfer.StreamsSendFronts | server/src/commands.c:761-763 | Without loopback every streaming queue in every pass sends the front of the file again, as much of it as its share has. |
| DmaTransfer.StreamReadsInOrder | server/src/commands.c:977-994 | Streaming queues fill the file with the waiting bytes in order, over any number of queues. |
| DmaTransfer.StreamRoundTrip | server/src/commands.c:761-765 | Through the loopback a file comes back byte for byte, whatever the two queue counts. |
| DmaTransfer.WriteThenRead | server/src/commands.c:922-1013 | The two commands in sequence on any requests for configured ports and queues, within the BRAM and with a byte for each queue of the first, do complete, and return the first bytes of the file. |
| ClkSync.ClkSyncPulse.Posedge | fpga/hw/IPs/clk_sync_pulse/clk_sync_pulse_regs.sv:190-246 | One clock edge of all registers, each block reading the values from before the edge. |
| ClkSync.ClkSyncPulse.Clock | fpga/hw/IPs/clk_sync_pulse/clk_sync_pulse_regs.sv:190-246 | A run of edges out of reset. |
| ClkSync.ResetSettles | fpga/hw/IPs/clk_sync_pulse/clk_sync_pulse_regs.sv:190-237 | Four reset edges bring any power-up state to the parameters with cleared counters; the unreset comparator is high exactly for a master with period register zero. |
| ClkSync.SynchronisersDelay | fpga/hw/IPs/clk_sync_pulse/clk_sync_pulse_regs.sv:190-237 | What reset loads into period and mode registers is behind the synchronisers two edges later and not before, and the comparator follows one edge behind them. |
| ClkSync.MasterMixedRadix | fpga/hw/IPs/clk_sync_pulse/clk_sync_pulse_regs.sv:198-240 | k edges after an aligned start the counters are k in mixed radix with a round of period + 2 edges, for every 32-bit period and whatever sync_pulse_i does. |
| ClkSync.PulseMarksLastTick | fpga/hw/IPs/clk_sync_pulse/clk_sync_pulse.sv:104-104 | The outgoing pulse is high exactly in the last tick of each round. |
| ClkSync.MasterAfterReset | fpga/hw/IPs/clk_sync_pulse/clk_sync_pulse_regs.sv:190-240 | From power-up through reset a master's counters are its edge count in mixed radix iff the period register is not zero or the edge count is a multiple of 2^33; with zero every edge counts. |
| ClkSync.ZeroPeriodCountsEveryEdge | fpga/hw/IPs/clk_sync_pulse/clk_sync_pulse_regs.sv:207-240 | With period zero and the comparator high the tick stays zero and every edge counts. |
| ClkSync.SlaveCountsPulses | fpga/hw/IPs/clk_sync_pulse/clk_sync_pulse.sv:100-104 | A slave's nb_sync is the number of pulse-high edges modulo 2^32, its tick is always zero and it sends no pulse. |
| SyncLink.LineCarriesPulses | fpga/hw/IPs/clk_sync_pulse/clk_sync_pulse.sv:104-104 | A delay line of d cycles always holds the master's last d pulses. |
| SyncLink.SlaveIsDelayedMaster | fpga/hw/IPs/clk_sync_pulse/clk_sync_pulse.sv:99-104 | Behind a d-cycle line a slave's nb_sync is at every moment the master's of d edges earlier. |
| HwTime.Drift | server/src/stats.h:27-28 | Converted time after k edges is 4k ns plus a fixed error for each completed round. |
| HwTime.OneEdge | server/src/stats.h:72-75 | Each edge adds 4 ns, except a rollover, which adds 1000 - 4(period + 1). |
| HwTime.MonotoneIff | server/src/stats.h:72-75 | Over a run with a rollover converted time never goes backwards iff 4(period + 1) is at most 1000. |
| HwTime.ExactIff | server/src/stats.h:27-28 | Converted time is real time at 4 ns an edge iff the period register is 248. |
| HwTime.ConfiguredMasterStepsBack | fpga/hw/IPs/clk_sync_pulse/clk_sync_pulse_regs.sv:32-32 | With the default period converted time falls by 288 ns every 323 edges. |
| PacketDetect.PacketDetector.Clock | fpga/hw/IPs/packet_detect/packet_detect.sv:37-63 | One cycle of the packet-start FSM and the detection output. |
| PacketDetect.FirstBeatIff | fpga/hw/IPs/packet_detect/packet_detect.sv:39-49 | first_beat fires exactly on accepted beats that follow an accepted tlast, a reset or nothing, over any handshake history. |
| PacketDetect.StartsBalanceEnds | fpga/hw/IPs/packet_detect/packet_detect.sv:39-49 | Firings equal accepted tlasts plus the packet still open. |
| PacketDetect.StallsDoNotMatter | fpga/hw/IPs/packet_detect/packet_detect.sv:39-63 | Histories with the same accepted beats have the same detections, however they are stalled. |
| PacketDetect.InResetEveryBeatIsFirst | fpga/hw/IPs/packet_detect/packet_detect.sv:39-49 | With the reset held low every accepted beat counts as a first beat. |
| FrameBytes.MatchedFields | fpga/hw/IPs/packet_detect/packet_detect.sv:55-63 | A beat assembled from its header fields is matched iff the EtherType slice reads 33024 and the VLAN ID slice 2748. |
| FrameBytes.MatchedBytes | fpga/hw/IPs/packet_detect/packet_detect.sv:55-63 | A frame is matched iff bytes 12 and 13 are 00 81, the upper half of byte 14 is C and byte 15 is AB. |
| FrameBytes.TaggedFramesAreNotMatched | server/src_clk_sync/main.cpp:95-99 | No frame with the VLAN EtherType in network order is matched, so not the synchronisation packet either. |
| TimestampInject.GetTimestampIdx | fpga/hw/IPs/timestamp_inject/timestamp_inject.sv:56-71 | The search loop finds the first of five slots whose low word is not the marker, or index 0. |
| TimestampInject.InsertTimestamp | fpga/hw/IPs/timestamp_inject/timestamp_inject.sv:73-80 | The output is the input with one stamp spliced in, or the input unchanged without a detection. |
| TimestampInject.InsertedAt | fpga/hw/IPs/timestamp_inject/timestamp_inject.sv:56-71 | The stamp goes to bit 144 + 64k iff that field is the first of five without 0xDEADBEEF in its lower half, and to bit 0 iff all have it. |
| TimestampInject.StampReads | fpga/hw/IPs/timestamp_inject/timestamp_inject.sv:78-78 | A stamp's low word is the tick and the constant stands above it. |
| TimestampInject.InjectionIsLocal | fpga/hw/IPs/timestamp_inject/timestamp_inject.sv:54-80 | Only one 64-bit field changes: with an open slot, neither bits 0-143, nor bits 464-511, nor any other slot; without one, bits 0-63. |
| TimestampInject.MatchSurvivesChain | fpga/hw/IPs/packet_detect/packet_detect.sv:55-63 | The VLAN match has the same verdict after any chain of hops. |
| TimestampInject.ChainIsLastHop | fpga/hw/IPs/timestamp_inject/timestamp_inject.sv:54-80 | If no tick but possibly the last is the marker, a chain of hops leaves what its last hop alone would have written, open slot or not. |
| TimestampInject.ChainIsLastHopIff | fpga/hw/IPs/timestamp_inject/timestamp_inject.sv:54-80 | For every beat and non-empty chain: the chain leaves what its last hop alone would have written iff the VLAN does not match, no earlier tick is the marker, no slot is open, or exactly one is and the last tick is the marker and bits 0-63 already are its stamp. |
| P2pPlugin.Lanes | fpga/hw/plugins/inject_timestamp/p2p_322mhz.sv:196-215 | The generated instances detect and inject lane by lane. |
| P2pPlugin.P2p322.Posedge | fpga/hw/plugins/inject_timestamp/p2p_322mhz.sv:128-165 | One edge of detectors, combiner registers and counters together, in reset or out of it. |
| P2pPlugin.P2p322.Clock | fpga/hw/plugins/inject_timestamp/p2p_322mhz.sv:128-290 | In any run from idle detectors, in either mode, lane l's beat of cycle t leaves with the tick of that cycle injected if it starts a packet with the VLAN, and unchanged otherwise. |
| P2pPlugin.LaneSends | fpga/hw/plugins/inject_timestamp/p2p_322mhz.sv:196-215 | The injector's output is that beat. |
| P2pPlugin.ResetMakesFresh | fpga/hw/plugins/inject_timestamp/p2p_322mhz.sv:128-165 | Four reset edges, the last two with silent lanes, bring a slave plugin from any power-up state to the one that counting starts from, although the combiner's registers have no reset. |
| P2pPlugin.SyncCounting | fpga/hw/plugins/inject_timestamp/p2p_322mhz.sv:128-134 | At every moment nb_sync is, modulo 2^32, the number of cycles up to two cycles ago in which some lane started a matching packet; the combiner's two registers hold the hits of the last two cycles. |
| P2pPlugin.PathIsHops | fpga/hw/plugins/inject_timestamp/p2p_322mhz.sv:196-215 | Along stations of which each gets the beat that its predecessor put out, the last puts out what a chain of hops with their ticks makes of the first beat. |
| P2pPlugin.SlaveStationsStampZero | fpga/hw/plugins/inject_timestamp/p2p_322mhz.sv:271-290 | If all of them are slaves, whatever their histories, a matching first beat leaves the last with one stamp, whose tick is zero; any other as it came. |
| Forwarder.Ring.EnqueueBulk | server/src/pipeline.cpp:45-45 | Contract of the bulk enqueue: all or nothing, with the count as result. |
| Forwarder.Ring.DequeueBurst | server/src/pipeline.cpp:135-135 | Contract of the burst dequeue: the oldest buffers, at most the burst size. |
| Forwarder.Threads.CheckReceive | server/src/pipeline.cpp:23-23 | Loop head of the receive thread: exit if the flag is set, otherwise poll. |
| Forwarder.Threads.Receive | server/src/pipeline.cpp:33-42 | The burst into buffers of the pool, whatever the flag says by then; an empty one goes back to the loop head. |
| Forwarder.Threads.Enqueue | server/src/pipeline.cpp:44-50 | The bulk enqueue and its branch, in either reading. |
| Forwarder.Threads.FreeReceived | server/src/pipeline.cpp:47-49 | One round of the overflow loop. |
| Forwarder.Threads.CheckTransmit | server/src/pipeline.cpp:132-132 | Loop head of the transmit thread. |
| Forwarder.Threads.Dequeue | server/src/pipeline.cpp:135-139 | The burst from the ring; an empty one goes back to the loop head. |
| Forwarder.Threads.Transmit | server/src/pipeline.cpp:145-147 | A burst on the round-robin queue of which the NIC takes a prefix. |
| Forwarder.Threads.FreeUnsent | server/src/pipeline.cpp:150-153 | One round of the loop that frees the tail. |
| Forwarder.Threads.Interleave | server/src/pipeline.cpp:132-157 | The object driven by any schedule is the specification's run. |
| ForwarderLoops.ReceiveIterationDoes | server/src/pipeline.cpp:33-50 | From a poll on, step by step: a burst of up to 32 is queued as a whole iff it fits, and freed as a whole, in order, or not at all, in either reading, whatever the flag says by then. |
| ForwarderLoops.TransmitIterationDoes | server/src/pipeline.cpp:135-155 | From a poll on: up to 32 buffers leave the ring in one burst, the NIC gets the oldest k, the others are freed in order, one burst is counted, whatever the flag says by then. |
| ForwarderLoops.EmptyPolls | server/src/pipeline.cpp:34-38 | A poll that brings nothing changes nothing but to go back to the loop head, on either side. |
| ForwarderLoops.EnoughTurnsExit | server/src/pipeline.cpp:132-157 | Once the flag is set each thread exits within 35 steps of its own, however the two and the devices interleave, in either reading. |
| ForwarderLoops.StoppedRunAccounts | server/src/pipeline.cpp:132-157 | Commented reading: then every packet received is sent, freed or in the ring, exactly once, and at most 32 were received after the flag. |
| ForwarderLoops.ExitNeedsStop | server/src/pipeline.cpp:23-23 | No thread exits before the flag is set. |
| ForwarderProofs.AlwaysOwned | server/src/pipeline.cpp:44-50 | Commented reading: in every interleaving each buffer of the pool is in exactly one of pool, receive burst, ring, transmit burst and NIC, once. |
| ForwarderProofs.AlwaysConserved | server/src/pipeline.cpp:23-52 | Commented reading: in every interleaving each received packet is in exactly one of receive burst, ring, transmit burst, sent or freed, once. |
| ForwarderProofs.ExitLeavesOnlyRing | server/src/pipeline.cpp:132-157 | Commented reading: once both threads have exited, every packet received is sent, freed or in the ring, exactly once. |
| ForwarderProofs.StopBounds | server/src/pipeline.cpp:23-33 | Either reading: after the stop flag at most one more burst is received, and none unless the thread had already read the flag as clear; at most the larger of the held burst and one burst size is sent, and only what was held unless the transmit thread had read the flag as clear. |
| ForwarderProofs.StopLetsOneBurstThrough | server/src/pipeline.cpp:23-33 | That bound is reached: a burst of any size that the pool has still arrives after the flag is set. |
| ForwarderProofs.ExitIsFinal | server/src/pipeline.cpp:132-157 | Either reading: a thread that has exited stays so, however the schedule goes on. |
| ForwarderProofs.CleanRunsKeepOrder | server/src/pipeline.cpp:33-50 | Either reading: as long as no burst is delivered into a buffer that is queued or about to be sent, packets are sent, held and queued in the order of their arrival. |
| ForwarderProofs.SentIsSubsequence | server/src/pipeline.cpp:33-50 | Commented reading: in every interleaving what is handed to the NIC is a subsequence, in order, of what was received. |
| ForwarderWritten.WrittenConservesIff | server/src/pipeline.cpp:45-50 | Written reading: buffers stay conserved throughout a run iff its schedule never takes the receive thread past a clear flag, delivers it a burst and comes to the enqueue. |
| ForwarderWritten.WrittenFreesWhatItEnqueues | server/src/pipeline.cpp:45-50 | Written reading, any non-empty pool and ring: a run after which one buffer is freed and still in the ring. |
| ForwarderWritten.WrittenRepeatsPacket | server/src/pipeline.cpp:45-50 | Written reading, any non-empty pool and ring: a run in which the NIC gets the second packet twice and the first never. |
| ForwarderWritten.WrittenKeepsOrderIff | server/src/pipeline.cpp:45-50 | Written reading: every schedule sends packets in order and without repetition iff the pool or the ring is empty. |
| ForwarderSizing.PortInitBuffers | server/src/onic_port.cpp:25-40 | The pool size that port_init accumulates, in uint32 arithmetic. |
| ForwarderSizing.PoolSufficesIff | server/src/onic_port.cpp:25-40 | The pool has two buffers a descriptor and 32 a queue iff that number fits in 32 bits, and then exactly these or 1024. |
| ForwarderSizing.NeverRefusedIff | server/src/pipeline.cpp:45-45 | No interleaving ever has a bulk enqueue refused iff, in the commented reading, the pool is no larger than the usable ring, and in the written reading, the pool is empty. |
| ForwarderSizing.ConfiguredNeverRefusesIff | server/src/main.cpp:71-74 | As configured the pool has 4160 buffers and the ring takes 8191: no enqueue is ever refused in the commented reading, some schedule has one refused in the written one. |
| TxFairness.QueuesGetShares | server/src/pipeline.cpp:145-147 | In every interleaving the 16-bit counter is the burst count modulo 2^16 and each queue got the bursts it selects. |
| TxFairness.TransmitFairness | server/src/pipeline.cpp:127-147 | Per-queue burst counts differ by at most 1 for one or two queues, and by at most 1 plus the completed counter turns for three. |
| TxFairness.QueueZeroLeads | server/src/forward_context.h:3-3 | For three queues and any non-empty pool and ring that bound is reached: a schedule with w full turns and one burst puts queue 0 ahead of both others by w + 1. |
| TxFairness.EveryCountAttained | server/src/pipeline.cpp:132-147 | With a non-empty pool and ring every number of bursts is the outcome of some schedule. |
| Stats.DeltaExactIff | server/src/stats.h:135-137 | A reported gap is the exact one rounded down iff it is at most 18446744073 cycles, across a wrap of the counter; otherwise it is too small. |
| Stats.RoundingDrift | server/src/stats.h:135-137 | m short gaps together are reported as at most the whole interval and less than m ns short of it. |
| Stats.ReportsAddUp | server/src/stats.cpp:47-49 | The sum that bound speaks of is what the loop sends. |
| Stats.EachReportIsItsGap | server/src/stats.cpp:47-49 | For short gaps each report is the gap since the previous reading, exact and rounded down. |
| Stats.StatsLog.RunStatsProducer | server/src/stats.cpp:34-59 | The loop sends one report a round until the flag or a failing read, and leaves old_time at the last reading. |
| Stats.FirstReport | server/src/stats.h:108-108 | With old_time initially zero the first report is right iff the counter is at most 18446744073. |
| Stats.CalcHopLatencies | server/src/stats.h:69-78 | For any number of hops each latency is the difference of converted times modulo 2^64. |
| Stats.LatencyIsDifference | server/src/stats.h:72-75 | A latency is the true difference iff that is neither negative nor 2^64 or more, even if the inner subtractions wrap. |
| Stats.LatenciesTelescope | server/src/stats.h:72-76 | Latencies add up to first minus last time modulo 2^64. |
| PacedSender.Sender.Loop | server/src_clk_sync/main.cpp:103-123 | The endless loop over any series of clock readings and device verdicts. |
| PacedSender.TurnsDecide | server/src_clk_sync/main.cpp:103-122 | From the turns alone, also across a wrap: each turn at or past the start plus a period for every attempt before it is an attempt, no other is; clones, clones sent and clones freed are the attempts that got a clone, whose clone the NIC took, and whose clone it refused. |
| PacedSender.DueTurnsAttempt | server/src_clk_sync/main.cpp:103-109 | Short of a wrap every turn at or past t0 + attempts * period makes exactly one attempt and no other turn does. |
| PacedSender.Deadline | server/src_clk_sync/main.cpp:103-109 | next_tsc is the start plus one period an attempt, and the last attempt was due. |
| PacedSender.NeverEarly | server/src_clk_sync/main.cpp:104-109 | Attempt k happens no earlier than k periods after the start. |
| PacedSender.RateBound | server/src_clk_sync/main.cpp:103-109 | By time T at most (T - t0) div period + 1 attempts were made, and exactly that many once nothing is due. |
| PacedSender.ClonesAccounted | server/src_clk_sync/main.cpp:111-122 | Every clone is sent or freed, and count is the number of clones. |

## Left out

- DmaTransfer.Qdma.Xmit: `do_xmit` is not part of this model; a transfer moves exactly its size from the file offset or is refused, and the last-descriptor size is a value handed over, not a cause of fewer bytes.
- DmaTransfer.Qdma.Recv: `do_recv_mm` and `do_recv_st` are not part of this model; the contract is the same, with streamed bytes taken from a given input.
- DmaTransfer.RoundTrip: is about ports whose queues are all memory-mapped; for a port with both kinds, `MixedWritesOwnRanges` says what a write puts into memory, and nothing is said of a read.
- DmaTransfer.StreamRoundTrip: one pass on each side, since a further pass streams the file again; the loopback hands the sent bytes back in order.
- DmaTransfer.DmaToDevice: negative numbers on the command line and addresses near 2^64 are excluded by the types; a failing endpoint, seek or transfer call is one fault at a visit, since all three end the command in the same way.
- DmaPlan.StaysInRangeIff: assumes no more queues than BRAM bytes, far above the 4096 queues a port can have; beyond that a write could wrap around the whole BRAM into its own range.
- The `PERF_BENCHMARK` and `TANDEM_BOOT_SUPPORTED` builds of the DMA commands, their token tables, printing and file opening.
- ClkSync.ClkSyncPulse.Posedge: one clock domain; metastability, the AXI-Lite register access and its commented-out logic are not modelled.
- FrameBytes.MatchedBytes: takes byte n of a frame to travel in bits 8n to 8n + 7, as in AXI4-Stream; the shell around the plugin is not part of this model.
- P2pPlugin.P2p322.Posedge: register slices, address decoding and the separate clocks of the ports are not modelled; lane data enters at the injectors. The bit-index macros are not part of this model; one 512-bit lane is a sequence of bits with bit 0 first.
- Forwarder.Threads.Transmit: what a packet says is read when the buffer is handed to the NIC; a buffer that is written into while the NIC still has it is not followed further.
- Several contexts that feed one ring; the program launches one.
- `run_cmac_producer`: the same time keeping as `run_stats_producer`, without the early exit.
- The `Timestamps` constructor, which never fills the tick array, and any claim that it decodes what the injector writes.
- `fpga_rx_final_thread`, `extract_then_produce_latency_packets`, Kafka production, port life cycle, CMAC registers and the 250 MHz plugin.
