# Blockmon core: verified model

Blockmon is a packet-monitoring runtime: blocks exchange messages over gates, and most of its
difficulty sits in a few components. This project models those components in Dafny and proves what
they promise, over every input, every run or every reachable state.

| files | component |
|---|---|
| `DBQueueProtocol`, `DBQueueSafety`, `DBQueueOrder`, `DBQueueRuns` | the double-buffered queue as a protocol of atomic steps: any number of producers, one consumer, any schedule |
| `DBQueueProgress` | what the threads can count on: no producer is stuck, a blocking call can still succeed, a dropping one tries once, every pop ends |
| `DBQueueGiveUp`, `DBQueueFullFlag` | what the consumer's give-up step and a late full flag do, with runs that show it |
| `DBQueueClass` | the queue object with its arrays, and the input gate that retries on it, for calls that do not overlap |
| `FlowRecords`, `FlowMeterSpec`, `FlowMeterInvariants`, `FlowMeterRuns` | the flow meter and the periodic flow meter on values: invariants, staleness, termination, conservation |
| `FlowMeterClass`, `PeriodFlowMeterClass` | the meters as objects whose table and queue share mutable flows |
| `WireFormat`, `StreamReader` | the serialised form of messages, and the reader that reassembles a byte stream |
| `SerializerClass`, `SerSourceClass` | the cursor buffer, the message codecs and the receiving block over many clients |
| `PacketFormat`, `PacketStages`, `PacketClass` | a captured frame parsed eagerly; parsing on demand with caches; the packet object |
| `PacketWriter` | an independent writer of frames, and what every accessor answers about what it wrote, wherever the capture ends |
| `Dissector` | the alternative, memoising header lookup |
| `DnsNames` | decompression of domain names (sections 3.1 and 4.1.4 of RFC 1035) |
| `TcpOrder` | putting the packets of a TCP flow in transmission order |
| `TopN` | the streaming selection of the heaviest flows |
| `Gates` | two-sided links between gates, and delivery over them |

`dafny verify dfyconfig.toml` checks the whole project.

## How to read it

A component that works on values is a set of functions with lemmas; one that changes objects is a
class whose methods are proved against those functions. Errors of the program (a throw, a failed
assertion, a wrapped counter) are modelled, not excluded. Machine arithmetic is written out where it
matters: 64-bit counters and time differences, the sign extension of a 16-bit length, the 32-bit
sequence space, the 30-bit ticket field. Formats are pinned by what the bytes are, not only by round
trips: `EncodingLayout` for messages, `AccessorsAnswerWhatWasWritten` for frames, `PointerTarget` for
compressed names, `OffsetsOnBytes` for the dissector.

Where the code does less than its documentation or a reader would expect, the model follows the code,
shows the failing case and states exactly when the code does what is expected:

- The queue's consumer skips a slot after 100 polls. The order theorem holds for every run without
  that step, and conservation for all runs. After the step everything delivered before the next swap
  is ahead of its turn (`AheadUntilSwap`), and `Reordered` is a run from the initial state that
  delivers the second of two messages first.
- A full flag raised late, after a swap, turns messages away from a buffer that may be empty:
  `FullFlagMeans` says what the flag means, `RefusedByEmptyBuffer` is such a run.
- With an idle timeout of 0 the timer loop of the flow meter does not end when a live flow was seen at
  the very time of the pass; `PassEndsExactlyWhen` gives the exact condition and `ZeroIdleIsReached` a
  run of one packet that leads there.
- When the expiry queue is full, the flow meter throws after the table entry was made;
  `FlowMeter.Receive` describes that state.
- A serialised message longer than 32767 bytes has a length field that reads as negative;
  `ReassembledExactlyWhen` states that this is the only obstacle, whatever the fragmentation.
- `l3_protocol` of a packet changes when later stages mark the packet as a runt;
  `L3ProtocolIsStableExactlyWhen` gives the exact set of frames.
- The dissector finds no IPv4 header in a tagged frame; `SameIpHeaderExactlyWhen` gives the frames, by
  their bytes, on which it differs from the packet class, and `TaggedFrameDiffers` one of them. It can
  return its own sentinel exactly for the frame addresses of `UndefinedExactlyWhen`.
- Nothing keeps the DNS reader from following pointers for ever or out of the message:
  `EndsExactlyWhen` states that reading ends if and only if the pointers stay in the message and never
  lead twice to the same place. A pointer to the root behind a label adds a trailing dot
  (`ReadsTheLabelsExactlyWhen`).
- A SYN carried by the first packet of a flow is not recorded (`FirstSynOrder`,
  `WrappedHandshakeIsMisordered`), and a packet with the SYN's sequence number that arrived before the
  SYN ends up last (`RotationOrder`).
- Disconnecting a gate from all its peers fails when a peer is linked twice, and leaves one-sided links
  behind (`OutGate.DisconnectAll`).

## Model

| member | source | states |
|---|---|---|
| DBQueueProtocol.UnpackPack | core/block/DBQueue.hpp:203-207 | masking the packed pointer word reads back the buffer selector and the ticket number |
| DBQueueProtocol.FetchAddOnPackedWord | core/block/DBQueue.hpp:203-207 | adding 1 to the packed word increments the ticket if and only if the 30-bit field does not overflow, and otherwise changes the selector |
| DBQueueProtocol.MaskCutsAtThirtyBits | core/block/DBQueue.hpp:81 | on 32-bit words, the mask of the program separates the two top bits from the other thirty |
| DBQueueSafety.StepKeepsShape | core/block/DBQueue.hpp:83-115 | no step of producer or consumer leaves the index ranges of the buffers, and the two sides always work on different buffers |
| DBQueueSafety.StepConserves | core/block/DBQueue.hpp:98-115 | every step, give-up included, keeps each message in exactly one of hand, slot, delivered, lost, dropped |
| DBQueueOrder.StepKeepsOrder | core/block/DBQueue.hpp:199-219 | every step but the give-up keeps the slot/ticket correspondence, also when a late producer raises the full flag after a swap |
| DBQueueOrder.TakeTicketKeepsOrder | core/block/DBQueue.hpp:203-214 | the fetch_add step assigns the next place in acceptance order and no ticket is held twice |
| DBQueueOrder.StorePayloadKeepsOrder | core/block/DBQueue.hpp:216 | writing a payload never hits a slot of another producer or one that still holds a message |
| DBQueueOrder.StoreValidKeepsOrder | core/block/DBQueue.hpp:217 | publishing a slot exposes exactly the message of its ticket |
| DBQueueOrder.TakePayloadKeepsOrder | core/block/DBQueue.hpp:104-108 | the message taken is the next one in acceptance order |
| DBQueueOrder.ClearValidKeepsOrder | core/block/DBQueue.hpp:85-88 | clearing flags before the exchange touches only slots that have been read |
| DBQueueOrder.SwapWordKeepsOrder | core/block/DBQueue.hpp:89-95 | the exchange hands over exactly the accepted tickets, even with producers still writing their slots |
| DBQueueRuns.DeliveryIsTicketOrder | core/block/DBQueue.hpp:83-115 | in every run without a give-up, the delivered messages are a prefix of the accepted ones in ticket order, nothing is lost, and the rest is accounted for by the two buffers |
| DBQueueRuns.EveryMessageInOnePlace | core/block/DBQueue.hpp:98-115 | in every run, give-ups included, each offered message is in exactly one place, counted with multiplicity |
| DBQueueRuns.NothingDeliveredTwice | core/block/DBQueue.hpp:98-115 | in every run a delivered message was offered, and one offered once is delivered at most once and is nowhere else |
| DBQueueRuns.BlockingReceiveLosesNothing | core/block/InGate.cpp:46-70 | in non-dropping mode while the pool runs, and without give-ups, every message is held, queued or delivered, each exactly once |
| DBQueueRuns.RunDropsOnlyWhenAllowed | core/block/InGate.cpp:48-70 | a message is given back only in dropping mode or after the pool stopped |
| DBQueueRuns.EmptyPopIsHonest | core/block/DBQueue.hpp:163-169 | when pop reports an empty queue, every undelivered ticket was taken after its swap |
| DBQueueRuns.PolledSlotHasAnOwner | core/block/DBQueue.hpp:100-113 | an unpublished slot the consumer polls belongs to a producer inside push, which publishes it in at most three steps of its own |
| DBQueueRuns.GiveUpSkipsAMessage | core/block/DBQueue.hpp:112 | from any ordered state, giving up on a slot whose successor is published delivers the successor in its place |
| DBQueueProgress.NeverStuck | core/block/InGate.cpp:46-70 | in every reachable state a producer inside receive has a next step of its own, up to the limit of the ticket field |
| DBQueueProgress.ConsumerSwaps | core/block/DBQueue.hpp:163-169 | from any state the consumer, left alone, comes to exchange the buffers |
| DBQueueProgress.RefusedCanSucceed | core/block/InGate.cpp:48-68 | from every reachable state with a refused blocking call, some continuation with a swap accepts its message as the next one |
| DBQueueProgress.DroppingTriesOnce | core/block/InGate.cpp:48-70 | in dropping mode every message offered is tried exactly once |
| DBQueueProgress.PopEnds | core/block/DBQueue.hpp:83-115 | however the producers interleave, a pop swaps at most once and ends within 207 * Qlen + 5 steps of the consumer |
| DBQueueGiveUp.AheadUntilSwap | core/block/DBQueue.hpp:100-113 | after a give-up in an ordered state, and whatever follows, every delivery before the next swap comes out ahead of its turn |
| DBQueueGiveUp.Reordered | core/block/DBQueue.hpp:98-115 | for any two messages, a run from the initial state, through 100 polls, that accepts them in order and delivers the second one first |
| DBQueueGiveUp.GivesUpAfterHundredPolls | core/block/DBQueue.hpp:100-112 | a slot that stays unpublished is polled at most 100 times, and given up if and only if it has been polled 100 times |
| DBQueueFullFlag.FullFlagMeans | core/block/DBQueue.hpp:208-214 | in every run without a give-up, a raised full flag means that the producer buffer is used up, or that the consumer's buffer was, or that the flag is about to be cleared |
| DBQueueFullFlag.RefusedByEmptyBuffer | core/block/DBQueue.hpp:201-202 | a run in which a late full flag refuses a message although no slot of the producer buffer is taken |
| DBQueueClass.DBQueue.constructor | core/block/DBQueue.hpp:119-120 | a new queue is empty |
| DBQueueClass.DBQueue.Push | core/block/DBQueue.hpp:199-219 | appends to the FIFO, and fails if and only if Qlen pushes were accepted since the last swap |
| DBQueueClass.DBQueue.Consume | core/block/DBQueue.hpp:98-115 | takes the first published slot, skips only unpublished ones, and on a quiescent queue takes the head of the FIFO |
| DBQueueClass.DBQueue.SwapQueues | core/block/DBQueue.hpp:83-96 | exchanges the buffers, clears exactly the consumed flags and keeps the contents |
| DBQueueClass.DBQueue.Pop | core/block/DBQueue.hpp:163-169 | removes the head of the FIFO, and fails if and only if the FIFO is empty |
| DBQueueClass.DBQueue.MoveFrom | core/block/DBQueue.hpp:123-134 | move construction preserves the contents, in order, and the number of accepted pushes |
| DBQueueClass.DBQueue.Reset | core/block/DBQueue.hpp:231-247 | leaves an empty queue whatever state it was in |
| DBQueueClass.InGate.Receive | core/block/InGate.cpp:39-74 | the message is enqueued exactly once or not at all, only a full buffer turns it away, a blocking call succeeds once the consumer asks for more than it had left to read, and what the consumer pops meanwhile is the old contents in order |
| DBQueueClass.InGate.Dequeue | core/block/InGate.cpp:76-92 | successive dequeues return the contents in order until they are exhausted |
| FlowRecords.ExpandEndsNow | messages/Flow.hpp:113-116 | with a clock that does not go back, a packet moves the end time to now and keeps a non-zero start time |
| FlowRecords.AbsorbKeepsBalance | messages/Flow.hpp:113-134 | accounting one packet keeps the per-key balance of packets, bytes and stored packets, modulo 2^64 and exactly below it |
| FlowRecords.ExportKeepsBalance | messages/Flow.hpp:155-175 | exporting an entry, or a clone followed by a reset, keeps the per-key balance |
| FlowMeterInvariants.InsertKeepsInv | blocks/FlowMeter.cpp:338-362 | a new flow keeps the table/queue bijection, the sorted queue and the time bounds; the insert fails if and only if Q_SIZE-1 slots are in use |
| FlowMeterInvariants.UpdateKeepsInv | blocks/FlowMeter.cpp:363-387 | a packet of a known flow never fails, keeps all invariants, and its record stays within the active timeout |
| FlowMeterInvariants.NotExpired | blocks/FlowMeter.cpp:295-306 | the unsigned comparison means idle for longer than the timeout, or a clock still below the timeout |
| FlowMeterInvariants.PassStops | blocks/FlowMeter.cpp:312-319 | stopping early is sound: because the queue is sorted by check time, no unvisited flow is stale |
| FlowMeterInvariants.PassKeepsInv | blocks/FlowMeter.cpp:293-321 | a pass keeps the bijection, the order and the time bounds, and leaves no flow unseen for twice the idle timeout |
| FlowMeterInvariants.TimerKeepsInv | blocks/FlowMeter.cpp:293-321 | the same for a whole timer event |
| FlowMeterInvariants.LoopComputesPass | blocks/FlowMeter.cpp:298-320 | the unbounded loop, run on the circular queue, ends after at most one pop more than there are slots and computes the pass |
| FlowMeterInvariants.TimerTerminates | blocks/FlowMeter.cpp:298-320 | a timer pass over n queued flows, if it ends at all, ends within n+1 iterations |
| FlowMeterInvariants.ZeroIdleExpiresAll | blocks/FlowMeter.cpp:297-320 | with idle timeout 0 and no flow seen at the time of the pass, the pass ends and empties table and queue |
| FlowMeterRuns.RunLaws | blocks/FlowMeter.cpp:293-388 | in every reachable state: one-to-one table and queue, sorted queue, end minus start below (active_ms+1)*1000, and per key exported plus live equals received |
| FlowMeterRuns.TimerLeavesNoStaleFlow | blocks/FlowMeter.cpp:293-321 | after a pass at t in any run, every live flow was last seen after t minus twice the idle timeout |
| FlowMeterRuns.ThrowsExactlyWhenFull | blocks/FlowMeter.cpp:338-362 | in any run, a packet throws if and only if it starts a flow and 131071 flows are live |
| FlowMeterRuns.FirstPacketOfFlow | blocks/FlowMeter.cpp:338-361 | in any run, the first packet of a flow makes a record of that packet alone, starting and ending now |
| FlowMeterRuns.NextPacketOfFlow | blocks/FlowMeter.cpp:363-387 | in any run, a packet of a live flow exports it if and only if it started at least (active_ms+1)*1000 microseconds ago, with the old start time and counters and ending now; otherwise the same record goes on with one packet more |
| FlowMeterRuns.PassExportsOnlyIdleFlows | blocks/FlowMeter.cpp:305-311 | in any run, every record a pass exports is the live record of a flow not seen for longer than the idle timeout (or any flow, while the clock is below the timeout) and leaves the table, and all other live records stay as they are |
| FlowMeterRuns.ExportsAreFinal | blocks/FlowMeter.cpp:305-311 | along any run the exported records only grow and none of them changes |
| FlowMeterRuns.ZeroIdleLoops | blocks/FlowMeter.cpp:297-320 | with idle timeout 0, a flow seen at the time of the pass keeps the loop going for ever |
| FlowMeterRuns.ZeroIdleIsReached | blocks/FlowMeter.cpp:297-320 | with idle timeout 0, one arrival and a timer at the same time lead to a pass that does not end |
| FlowMeterRuns.PassEndsExactlyWhen | blocks/FlowMeter.cpp:293-321 | the loop ends if and only if the idle timeout is positive or no live flow was seen at the time of the pass |
| FlowMeterRuns.FlushKeepsBalance | blocks/PeriodFlowMeter.cpp:195-203 | flushing the table in any enumeration order keeps the per-key balance |
| FlowMeterRuns.PeriodRunKeepsBalance | blocks/PeriodFlowMeter.cpp:195-237 | the periodic meter obeys the same conservation law over any run |
| FlowMeterRuns.MetersAgree | blocks/PeriodFlowMeter.cpp:195-237 | on the same packets both meters account for the same packets and bytes per key, modulo 2^64 and exactly below it |
| FlowMeterRuns.PeriodRecordsSpanTheirPackets | blocks/PeriodFlowMeter.cpp:212-237 | in every run with positive times, a flow is live if and only if it was seen since the last flush, and its record starts at the earliest and ends at the latest of those packets, whatever order the times have |
| FlowMeterRuns.PeriodRecordsStartFirstEndLast | blocks/PeriodFlowMeter.cpp:212-237 | with a clock that does not go back, it starts at the first and ends at the last of them |
| FlowMeterRuns.FlushSendsRecords | blocks/PeriodFlowMeter.cpp:195-203 | a flush sends the records as they stand, in the order of enumeration, behind what was sent before |
| FlowMeterClass.Flow.ExpandInterval | messages/Flow.hpp:113-116 | the method realises the interval update, with its special case for a zero start time |
| FlowMeterClass.Flow.Clone | messages/Flow.hpp:155-165 | a fresh object with the same record |
| FlowMeterClass.Flow.Reset | messages/Flow.hpp:167-175 | back to the record of a new flow of the same key |
| FlowMeterClass.FlowQueue.PopSlot | blocks/FlowMeter.cpp:199-207 | removes the oldest slot of the circular queue, and fails if and only if it is empty |
| FlowMeterClass.FlowQueue.PushSlot | blocks/FlowMeter.cpp:214-222 | appends a slot, and fails without a change if and only if Q_SIZE-1 slots are in use |
| FlowMeterClass.FlowMeter.constructor | blocks/FlowMeter.cpp:232-248 | a new meter is empty and valid |
| FlowMeterClass.FlowMeter.Insert | blocks/FlowMeter.cpp:338-362 | table and queue get the same fresh flow object; on a full queue the entry is in the table only |
| FlowMeterClass.FlowMeter.ExportCopy | blocks/FlowMeter.cpp:366-379 | active timeout: a copy leaves, the shared entry is reset, and no flow sent before changes |
| FlowMeterClass.FlowMeter.Receive | blocks/FlowMeter.cpp:330-388 | on shared objects exactly the step on values, the throw included; sent flows keep identity and contents and are unreachable |
| FlowMeterClass.FlowMeter.ExportExpired | blocks/FlowMeter.cpp:305-311 | idle timeout: the flow leaves table and queue before it is sent |
| FlowMeterClass.FlowMeter.Requeue | blocks/FlowMeter.cpp:314-316 | putting a live slot back inside the pass never fails |
| FlowMeterClass.FlowMeter.TimerIteration | blocks/FlowMeter.cpp:300-319 | one iteration on the objects is one iteration on values |
| FlowMeterClass.FlowMeter.HandleTimer | blocks/FlowMeter.cpp:293-321 | whenever the loop ends, by the condition of PassEndsExactlyWhen, it leaves the result of the pass, with all invariants |
| PeriodFlowMeterClass.PeriodFlowMeter.Receive | blocks/PeriodFlowMeter.cpp:212-237 | on shared objects exactly the step on values; sent flows do not change |
| PeriodFlowMeterClass.PeriodFlowMeter.HandleTimer | blocks/PeriodFlowMeter.cpp:195-203 | sends every entry exactly once, in the order of the table, and clears it |
| WireFormat.Be16RoundTrip | core/message/BufferSerializer.hpp:234-240 | every 16-bit integer, negative ones included, reads back unchanged, and what longer lengths read back as |
| WireFormat.Be32RoundTrip | core/message/BufferSerializer.hpp:146-152 | every 32-bit integer reads back unchanged |
| WireFormat.Be16Bytes | core/message/BufferSerializer.hpp:111-117 | the bytes of a 16-bit field, most significant first |
| WireFormat.Be32Bytes | core/message/BufferSerializer.hpp:87-93 | the bytes of a 32-bit field, most significant first |
| WireFormat.StringRoundTrip | core/message/BufferSerializer.hpp:136-140 | a length-prefixed string below 32768 bytes reads back and leaves exactly what follows it |
| WireFormat.StringsRoundTrip | messages/WordRecord.cpp:38-49 | a sequence of strings reads back in order |
| WireFormat.BuildRoundTrip | messages/WordRecord.cpp:42-52 | decoding the body of a message gives the message and consumes exactly its bytes |
| WireFormat.EncodingLayout | core/message/Serializer.hpp:118-123 | for every message below 65536 bytes: the first two bytes are the total length in base 256, the next four of a word record the number of words, and the two bytes in front of each string its length, all most significant first, with the string behind them |
| StreamReader.PartialWaits | blocks/SerSource.cpp:190-192 | a proper prefix of a message makes the reader wait |
| StreamReader.WholeIsEmitted | blocks/SerSource.cpp:190-198 | a whole message is emitted and exactly the bytes behind it stay |
| StreamReader.DrainTakesWholeMessages | blocks/SerSource.cpp:187-203 | draining any prefix of a stream emits whole messages only and keeps a proper part of the next |
| StreamReader.SessionEmitsTheMessages | blocks/SerSource.cpp:184-256 | however the bytes are cut into chunks, the session emits the messages in order and ends with an empty buffer |
| StreamReader.AnyFragmentationIsReassembled | blocks/SerSource.cpp:184-256 | the same from an empty buffer |
| StreamReader.InStreamStep | blocks/SerSource.cpp:187-252 | after each chunk and drain fewer than 32767 bytes are left and nothing can be taken out |
| StreamReader.LongMessageBreaks | core/message/BufferSerializer.hpp:239 | a longer message is not reassembled from any fragmentation into chunks of at most 2000 bytes |
| StreamReader.ReassembledExactlyWhen | blocks/SerSource.cpp:184-256 | for every message and every such fragmentation: it is reassembled if and only if its encoding is at most 32767 bytes |
| SerializerClass.Serializer.Reset | core/message/Serializer.hpp:47-51 | empties the buffer and leaves room for the length field |
| SerializerClass.Serializer.Compact | core/message/BufferSerializer.hpp:55-61 | moves the unread bytes to the head of the buffer |
| SerializerClass.Serializer.Consume | core/message/BufferSerializer.hpp:77-81 | drops bytes at the front; the program's assertion lets the cursor pass the tail, and the buffer is then unusable |
| SerializerClass.Serializer.PutInt16 | core/message/BufferSerializer.hpp:111-117 | appends two bytes, the most significant first, whose values are stated |
| SerializerClass.Serializer.PutInt32 | core/message/BufferSerializer.hpp:87-93 | appends four bytes, the most significant first, whose values are stated |
| SerializerClass.Serializer.PutRawData | core/message/BufferSerializer.hpp:124-129 | appends the bytes |
| SerializerClass.Serializer.PutData | core/message/BufferSerializer.hpp:136-140 | appends a length-prefixed string |
| SerializerClass.Serializer.ConsumeInt32 | core/message/BufferSerializer.hpp:146-152 | reads and drops a signed field, as a number made of its four bytes |
| SerializerClass.Serializer.ConsumeInt16 | core/message/BufferSerializer.hpp:170-176 | reads and drops a sign-extended field |
| SerializerClass.Serializer.ConsumeString | core/message/BufferSerializer.hpp:208-214 | reads and drops a length-prefixed string; one that runs past the tail is read from stale bytes and leaves the cursor behind the tail |
| SerializerClass.Serializer.SetInt16 | core/message/BufferSerializer.hpp:221-227 | overwrites two bytes in place, the most significant first |
| SerializerClass.Serializer.GetInt16 | core/message/BufferSerializer.hpp:234-240 | reads a sign-extended field in place, as a number made of its two bytes |
| SerializerClass.Serializer.Finalize | core/message/Serializer.hpp:118-123 | fills in the total length and hands out the bytes |
| SerializerClass.Serialize | messages/WordRecord.cpp:34-40 | writes the body of the encoding behind the length field |
| SerializerClass.SerializeAndFinalize | messages/Tweet.cpp:33-36 | serialising and finalising produces the encoding, with the layout of EncodingLayout on its bytes |
| SerializerClass.BuildSame | messages/WordRecord.cpp:42-52 | decodes from the buffer what the decoder on values decodes, and consumes the same bytes |
| SerSourceClass.TakeMessage | blocks/SerSource.cpp:189-199 | one look at one buffer: emit and compact, or leave everything as it is |
| SerSourceClass.SerSource.DrainClient | blocks/SerSource.cpp:188-200 | touches one client's buffer only |
| SerSourceClass.SerSource.DrainAll | blocks/SerSource.cpp:187-203 | the round-robin drain ends, and per client emits exactly what its buffer held |
| SerSourceClass.SerSource.Accept | blocks/SerSource.cpp:218-234 | a new client starts with an empty buffer of its own, unless 30 clients are connected |
| SerSourceClass.SerSource.ReceiveRound | blocks/SerSource.cpp:235-255 | appends each client's chunk to its own buffer |
| SerSourceClass.SerSource.Serve | blocks/SerSource.cpp:184-256 | for any number of clients and any fragmentation into chunks of at most 2000 bytes: no buffer overflow, no cursor failure, and per client exactly the messages sent, in order |
| PacketFormat.SkipTags | messages/Packet.cpp:80-95 | skipping 802.1Q tags ends, in steps of 4 bytes, inside the captured bytes, and never reports a tag as the packet type |
| PacketFormat.LinkOf | messages/Packet.cpp:55-112 | an IPv4 header is reported if and only if the type is IPv4, and starts inside the frame |
| PacketStages.MacStageAgrees | messages/Packet.cpp:55-112 | the link stage brings the cache to what the eager parse gives |
| PacketStages.IpStageAgrees | messages/Packet.cpp:115-156 | the same for the IPv4 stage, runts included |
| PacketStages.PortsStageAgrees | messages/Packet.cpp:160-193 | the same for the port stage |
| PacketStages.TcpStageAgrees | messages/Packet.cpp:197-239 | the same for the TCP stage |
| PacketStages.BodyStageAgrees | messages/Packet.hpp:322-335 | the payload accessors find the payload and its length |
| PacketStages.HistoryDoesNotMatter | messages/Packet.hpp:301-469 | after any sequence of accessor calls, every accessor but l3_protocol answers what one eager parse of the bytes gives |
| PacketStages.PointersInBounds | messages/Packet.cpp:125-230 | after any sequence of calls the stored header pointers are ordered and lie within the captured bytes |
| PacketStages.L3ProtocolIsStableExactlyWhen | messages/Packet.hpp:343-347 | l3_protocol answers the link type after every history if and only if no announced header is cut short |
| PacketStages.RuntShows | messages/Packet.cpp:146-151 | otherwise it changes to 0xFFF3 for a cut IPv4 header and to 0xFFF4 for a cut header behind it |
| PacketStages.L3ProtocolChanges | messages/Packet.cpp:146-151 | a frame on which it changes |
| PacketClass.Packet.constructor | messages/Packet.hpp:108-131 | nothing is parsed yet, and uninitialised fields may hold anything |
| PacketClass.Packet.ReadLink | messages/Packet.cpp:61-98 | the loop over tags ends and finds the packet type and the IPv4 header |
| PacketClass.Packet.ParseMac | messages/Packet.cpp:55-112 | the method is the link stage and keeps the cache consistent |
| PacketClass.Packet.ParseIpHeader | messages/Packet.cpp:115-156 | the same for the IPv4 stage, reading captured bytes only |
| PacketClass.Packet.ParsePorts | messages/Packet.cpp:160-193 | the same for the port stage |
| PacketClass.Packet.ParseTcpHeader | messages/Packet.cpp:197-239 | the same for the TCP stage |
| PacketClass.Packet.AccessAll | messages/Packet.hpp:301-469 | any sequence of accessor calls on the object answers as the eager parse does |
| PacketWriter.QuadOf | messages/NetTypes.hpp:53-64 | every 32-bit number has exactly one form as four bytes, the most significant first, which is how the writer takes its values |
| PacketWriter.TagsAreSkipped | messages/Packet.cpp:80-102 | any number of written tags is skipped and the IPv4 header found behind them, unless the capture ends less than 14 bytes behind a tag type |
| PacketWriter.NetReadBack | messages/Packet.cpp:115-156 | link type, addresses, protocol, header fields and transport start are those written, or those of a runt |
| PacketWriter.PortsReadBack | messages/Packet.cpp:160-193 | ports and UDP length are those written, if captured, and a runt is reported exactly when the ports are cut |
| PacketWriter.TcpReadBack | messages/Packet.cpp:197-239 | the TCP fields are those written, if captured, and a runt is reported exactly when the header is cut |
| PacketWriter.BodyReadBack | messages/Packet.hpp:322-335 | where the payload starts and which length the headers promise |
| PacketWriter.AccessorsAnswerWhatWasWritten | messages/NetTypes.hpp:43-91 | for all header values laid out as the packed structs, any tags, options and payload, and wherever the capture ends: every accessor answers the value written, or what a missing header leaves |
| PacketWriter.HistoryAnswersWhatWasWritten | messages/Packet.hpp:301-469 | and so after any sequence of accessor calls |
| Dissector.SearchFindsHeader | core/dissectors/dissector.hpp:143-163 | the search over the parent list finds each header where a direct computation puts it |
| Dissector.OffsetsOnBytes | core/dissectors/dissector.hpp:76-113 | where the IPv4, TCP, UDP and ICMP headers and the data of a frame are, read off its bytes, tagged frames included |
| Dissector.Slice.constructor | messages/NewPacket.hpp:130-144 | the Ethernet slot holds the frame and every other slot the sentinel |
| Dissector.Slice.GetHeader | core/dissectors/dissector.hpp:184-205 | in any query order the answer is the address of the header, or null when there is none |
| Dissector.Slice.GetParent | core/dissectors/dissector.hpp:143-178 | address and size of the first parent that announces the header |
| Dissector.NeverUndefined | core/dissectors/dissector.hpp:184-205 | for all other frame addresses the sentinel is not returned |
| Dissector.UndefinedExactlyWhen | core/dissectors/dissector.hpp:184-205 | some memory and header make the lookup return the sentinel if and only if it lies 14 to 134 bytes above the frame, a multiple of 4 behind the Ethernet header |
| Dissector.SameIpHeaderExactlyWhen | core/dissectors/dissector.hpp:83-88 | on Ethernet frames both find the same IPv4 header if and only if the bytes do not hold a chain of captured tags that ends in the IPv4 type |
| Dissector.SkipFindsIp | messages/Packet.cpp:80-102 | the tag loop of the packet class finds an IPv4 header exactly behind such a chain |
| Dissector.TaggedFrameDiffers | messages/Packet.cpp:80-102 | a tagged frame of 28 bytes on which they differ |
| Dissector.SameTransportHeader | core/dissectors/dissector.hpp:89-106 | on untagged frames with a captured IPv4 header the transport headers agree |
| Dissector.SamePayload | core/dissectors/dissector.hpp:108-113 | on untagged frames the payloads agree whenever the packet class finds one |
| DnsNames.ReadSegment | messages/DNSPacket.cpp:60-70 | the loop ends and returns the dot-joined labels in place and their extent |
| DnsNames.ReadName | messages/DNSPacket.cpp:50-92 | every name that ends is read, wherever its pointers go: the text of the name, and exactly the bytes occupied in place, counted in 16 bits |
| DnsNames.TextIsJoinedLabels | messages/DNSPacket.cpp:59-90 | the text is the dot-joined labels with pointers followed, plus a dot if a pointer behind a label leads to the root |
| DnsNames.ReadsTheLabelsExactlyWhen | messages/DNSPacket.cpp:71-80 | the text is the dot-joined labels if and only if no pointer behind a label leads to the root |
| DnsNames.NameRoundTrip | messages/DNSPacket.cpp:60-82 | labels of up to 191 bytes, written as RFC 1035 prescribes, read back as their dotted form, and all written bytes are consumed |
| DnsNames.CompressedRoundTrip | messages/DNSPacket.cpp:71-79 | labels followed by the two bytes 0xC0 + t / 256 and t % 256 read back as the labels and the name at t, for every t below 0x4000, and two bytes count for the pointer |
| DnsNames.PointerTarget | messages/DNSPacket.cpp:72 | those two bytes lead to offset t |
| DnsNames.PointersAreUnique | messages/DNSPacket.cpp:85 | any two bytes from 0xC0 0x00 on are such a pointer, and lead to one place only |
| DnsNames.SplitJoined | messages/DNSPacket.cpp:62-70 | splitting the text at the byte 46 gives back the labels, if none of them holds that byte |
| DnsNames.EndsExactlyWhen | messages/DNSPacket.cpp:59-87 | reading ends inside the message if and only if no chain of pointers leaves the message or comes back to a place it was at |
| DnsNames.FewerHopsThanBytes | messages/DNSPacket.cpp:71-87 | a name that ends follows fewer pointers than the message has bytes |
| DnsNames.CyclesNeverEnd | messages/DNSPacket.cpp:71-87 | no name on a cycle of pointers, of any length, is read to its end |
| DnsNames.TwoCycle | messages/DNSPacket.cpp:84-87 | two names that point to each other |
| DnsNames.ForwardPointer | messages/DNSPacket.cpp:84-87 | a pointer that goes forward is read all the same |
| DnsNames.BackwardNamesEnd | messages/DNSPacket.cpp:71-87 | with pointers that go back, as RFC 1035 prescribes, reading ends and follows at most as many pointers as the offset of the name |
| DnsNames.SelfPointerNeverEnds | messages/DNSPacket.cpp:71-79 | a name that points to itself is never read to its end |
| TcpOrder.FlowPackets.Scan | messages/Flow.cpp:86-107 | succeeds if and only if the list is all TCP or one UDP datagram; otherwise the reason is that of the first packet that breaks this; and which SYN is recorded: the last one that the first packet does not carry |
| TcpOrder.FlowPackets.Sort | messages/Flow.cpp:109-112 | a stably sorted permutation by raw sequence number |
| TcpOrder.FlowPackets.Arrange | messages/Flow.cpp:37-145 | the stably sorted list with a prefix moved to its end, so that it starts with the recorded SYN and, under the condition of RotationOrder on the arrival order, is ordered by distance from it; no change on an error, for which the condition is exact, or an empty list |
| TcpOrder.RotationOrder | messages/Flow.cpp:131-142 | moving the prefix behind the sorted list orders it by (seq - syn) mod 2^32 if and only if no equal number precedes the SYN or all numbers are equal |
| TcpOrder.UnrotatedOrder | messages/Flow.cpp:131-142 | without a rotation that order holds if and only if no number is smaller |
| TcpOrder.FirstSynOrder | messages/Flow.cpp:95-105 | when only the first packet carries a SYN, the order relative to it holds if and only if no packet has a smaller number |
| TcpOrder.WrappedHandshakeIsMisordered | messages/Flow.cpp:95-105 | a two-packet flow for which it fails |
| TopN.SelectionIsTopN | blocks/TopNFlowSelector.cpp:160-177 | above every packet count the selection holds as many flows as were received, or all its N |
| TopN.TopNFlowSelector.Receive | blocks/TopNFlowSelector.cpp:160-177 | since the last flush min(N, received) flows are kept and every discarded one is at most as heavy as any kept one; a flow enters a full heap if and only if some kept flow is lighter, and then in the place of a least one |
| TopN.TopNFlowSelector.HandleTimer | blocks/TopNFlowSelector.cpp:182-192 | the flush emits the N heaviest flows in ascending order and empties the heap |
| Gates.OutGate.Disconnect | core/block/OutGate.hpp:85-96 | removes every occurrence of a peer and keeps the order of the others; fails if and only if there is none |
| Gates.RemoveAllKeepsOrder | core/block/OutGate.hpp:87 | removal leaves exactly the other peers, in their order |
| Gates.OutGate.DisconnectAll | core/block/OutGate.hpp:98-104 | no peer lists the gate any more; fails if and only if a peer is linked twice, and then exactly the peers before the repeated one have dropped the gate |
| Gates.OutGate.Deliver | core/block/OutGate.hpp:107-118 | every linked gate receives the message once per link, after what it had |
| Gates.InGate.Disconnect | core/block/InGate.cpp:99-108 | the same removal on the other side |
| Gates.Composition.CreateLink | core/composition/Composition.cpp:65-72 | both ends record one link more and all pairs stay symmetric |
| Gates.Composition.DeleteLink | core/composition/Composition.cpp:73-79 | both ends lose all links of the pair, all pairs stay symmetric; fails if and only if there was none |

## Left out

- Weak memory orderings, mutexes, condition variables, sleeping and yielding: the queue protocol interleaves atomic steps, and fewer than 2^30 tickets are taken between two swaps.
- DBQueueClass.InGate.Receive: models indirectly invoked blocks; for a directly invoked one the gate only calls the block.
- Move assignment of `DBQueue`, and the notifying variants of `pop`: they repeat move construction and `pop`.
- XML configuration, sockets, capture sources, the timer thread, thread pools, logging, the Python daemon: input and output; a socket is replaced by the chunks it returns, the clock by the time stamped on each event.
- Messages of the wrong type (a throw at the head of each `_receive_msg`): one easy branch per block.
- FlowMeterClass.FlowMeter.HandleTimer: requires the condition under which its loop ends; `FlowMeterRuns.PassEndsExactlyWhen` shows that it does not end otherwise.
- FlowMeterRuns.RunLaws: a run ends at a timer pass that does not end.
- The multiplication of the idle timeout by 1000 in `int`: the model takes the timeout in microseconds.
- Hash functions and hash-table internals: `unordered_map` is a finite map keyed by the five-tuple; the flush order of the periodic meter is arbitrary.
- The memory of moved-out queue slots: a popped slot of the circular queue holds a placeholder.
- 64-bit fields and the raw-buffer readers of `BufferSerializer`: they repeat the fields that are modelled.
- SerializerClass.Serializer.ConsumeString: requires a length that is not negative and ends inside the array; otherwise the program constructs a string from memory it does not own.
- SerializerClass.BuildSame: requires a buffer from which a message can be decoded; after a string that runs past the tail the program goes on with cursors for which nothing is defined.
- SerSourceClass.SerSource.Serve: the set of clients is fixed while it runs; a client accepted between two rounds is covered by `Accept`, a failing socket is not modelled.
- The payload-copy loop of `Flow::get_payload`: its accounting of holes does not match its documentation; only the ordering step is modelled.
- PacketClass.Packet.constructor: the total length, the time stamp and the ownership of the buffer are not modelled.
- The string forms and single-bit tests of `Packet` accessors: they only wrap accessors that are modelled.
- Dissector.Slice.GetHeader: memory behind the captured bytes is arbitrary but readable; a frame at address 0 or at the sentinel address itself is excluded.
- The walk over DNS answers: it ignores the record length for types it does not know.
- DnsNames.ReadName: requires a name whose reading ends inside the message; the code checks neither the end of the message nor cycles, and `DnsNames.EndsExactlyWhen` says which names those are.
- TopN.TopNFlowSelector.Top: the priority queue is any container that yields a least element; the comparison object of the source is not a strict order, which the standard library demands.
- TopN.TopNFlowSelector.constructor: requires N to be at least 1, because with 0 the code reads the top of an empty heap.
- Looking up blocks and gates by name in a composition: one map lookup each, with a throw.
- The batch and slice arenas: bump allocation would only add easy members.
- NTP conversions, counters, printers, filters, histograms: easy or floating-point members.
