# A model of mpquic_trans

mpquic_trans carries live video over multipath QUIC. This project models the parts of it whose
correctness rests on state kept over many calls, and proves what they promise for every input, every
run and every reachable state.

- **Stream reassembly** (`FrameSorter`, `StreamDelivery`, `RingList`). The frame sorter keeps a list of
  gaps and a map of queued frames. Under any overlap, repetition and reordering it delivers exactly the
  sender's bytes. The generated ring list below it refines a sequence.
- **Acknowledgements** (`AckFrames`, `AckCodec`, `AckRoundTrip`, `AckFrameIO`, `Float16`,
  `ReceivedHistory`, `ReceivedPackets`, `AckTiming`, `SentPackets`, `SentPacketRules`,
  `SentPacketHandlers`, `AckProtocol`). The receiver collects packet numbers and decides when to
  acknowledge them, the ACK is written with long gaps split into blocks and with what does not fit
  dropped, and the sender reads it. In every run over a network that loses, repeats and reorders, only
  received packets are taken as acknowledged, none of them stays in flight, and no correct peer is
  accused.
- **Flow control** (`FlowControl`, `FlowControlManagers`, `FlowProtocol`, `FlowProgress`,
  `FlowReceiver`). Two correct endpoints never raise a violation at stream or connection level, and the
  sender is never stopped for good; with any peer at all, exactly the offsets beyond what was granted
  are refused.
- **Framing, packing and retransmission** (`StreamFrames`, `Frames`, `FrameRoundTrip`, `FrameSafety`,
  `WireLayout`, `Framing`, `FramingSize`, `StreamFramers`, `Packing`, `PackingRules`, `PacketPackers`,
  `PacketSize`, `Retransmission`, `Witnesses`). Stream data is cut, packed to a byte limit, lost, queued
  again, duplicated on other paths and cut again, while frame objects are shared and changed in place.
  What is handed out is what the application wrote, in order, and no byte of it is forgotten; how large
  a packet gets and whether it can be read is settled exactly.
- **Scheduling, packet numbers and headers** (`StreamsMap`, `PacketNumbers`, `PublicHeaders`).
- **Congestion control** (`Olia`, `OliaCoupling`, `OliaRules`, `OliaSenders`). The coupling terms of all
  paths cancel out, windows stay in bounds, and a path backs off once for all losses of one window.
- **RTMP chunking** (`RtmpChunks`, `RtmpRoundTrip`, `RtmpRules`, `RtmpConn`). Messages survive being cut
  into chunks whose size changes on the way, and being interleaved.

## How it is built

Code that changes state is modelled twice. A function on values says what one call does (`AfterPush`,
`AfterReceivedAck`, `PopStreamFrames`), and the class or the loop that does it in place is proved to
compute exactly that. The theorems are about runs of the functions, and so hold of the classes. What the
functions themselves compute is stated once more without naming them, in numbers and contents
(`UpdateMeans`, `AckRemoves`, `PacketCarries`, `AcksAreTimely`, `LossBacksOff`, the byte layouts).

Networks, clocks and foreign decisions are inputs. A run is a sequence of states in which each follows
from the one before by some step; which packet is lost, repeated or late, when an alarm fires
(`late`, `expired`), whether window updates come too often (`frequent`) and in which order a map is
visited is left open everywhere.

Stream frames that several packets share are objects in `StreamFramers` and numbers in a store in
`Framing`, so that the cut of a shared frame shows in every packet that holds it.

## Where the code and its promise part

Each of these has its exact condition, and a concrete input where it fails; the two about packets are
reached by runs of the sender that are given step by step.

- A FIN frame that is cut because its tail arrived before keeps its FIN bit. The reader is told the
  stream ends before its last bytes: `EarlyFin`. The FIN stays in its place exactly when the last byte was
  still missing: `FinIsKeptIff`.
- An ACK whose first gap is longer than 254 * 255 is not written at all: `LongFirstGapIsNotWritten`,
  `WriteFailsIff`.
- A packet exceeds the maximum size when one byte is cut off a frame at offset zero whose very object was
  popped whole before in the same packet; the comment in `composeNextPacket` says the size is right in
  all cases. A duplicated packet leads there: `PacketTooLarge`, `PacketFits`.
- A payload whose stream frames end in a repeated object cannot be read back, since dropping the length
  field of one copy drops it of the other: `PayloadUnreadable`, `PayloadReadsBack`.
- `MinLength` of a PATHS frame wraps in eight bits; it is right exactly up to 84 paths: `LongPathsFrame`,
  `LengthIsExact`.
- A version negotiation header that names a path is not read back: `NegotiationReadsBackIff`.
- A Set Chunk Size message is itself cut with the size it announces, and arrives exactly when it fits:
  `GarbledAnnouncement`, `AnnouncementArrives`.
- The reader tells chunk streams apart by the first byte of the header alone, so a message on stream 65
  cannot come while one on stream 64 is in progress: `SharedEntry`, `OtherMessageReadsIff`.
- A Window Ack Size message of fewer than four bytes is written, and makes the reader panic:
  `ShortWindow`, `WindowIsReadIff`.

## Model

| member | source | states |
|---|---|---|
| StreamDelivery.DeliveryIsExact | mpquic_trans/stream_frame_sorter.go:32-161 | after any run of pushes of slices of one stream and pops, in any order, overlapping and repeated, what was read followed by what can still be read is exactly the stream up to the first byte that no pushed frame covered |
| StreamDelivery.RunInvariant | mpquic_trans/stream_frame_sorter.go:32-161 | in every such run the bytes read are a prefix of the stream, and a byte is missing exactly when no pushed frame covered it |
| StreamDelivery.PushMeaning | mpquic_trans/stream_frame_sorter.go:51-134 | a push removes exactly its own interval from the missing bytes, keeps the gap list sorted, disjoint and open-ended, and reports a duplicate if and only if nothing of the frame was missing |
| StreamDelivery.PushCanonical | mpquic_trans/stream_frame_sorter.go:51-144 | whatever frame arrives, consistent with a stream or not, the gap list stays sorted, disjoint, non-empty and open-ended unless the push fails for want of an end gap |
| StreamDelivery.PopMeaning | mpquic_trans/stream_frame_sorter.go:146-161 | the popped frame is the next stretch of the stream; there is none only when the read position is the start of the first gap |
| StreamDelivery.DrainReachesFirstGap | mpquic_trans/stream_frame_sorter.go:146-161 | popping until nothing is left yields exactly the stream from the read position to the first gap |
| StreamDelivery.FinIsKeptIff | mpquic_trans/stream_frame_sorter.go:96-102 | the queued FIN still marks the end of the stream after an accepted push if and only if a pushed FIN frame finds the last byte of the stream missing |
| StreamDelivery.EarlyFin | mpquic_trans/stream_frame_sorter.go:96-102 | three bytes, the tail first and then the whole frame: the reader is handed the first two bytes with FIN |
| FrameSorter.StreamFrameSorter.Push | mpquic_trans/stream_frame_sorter.go:32-144 | the class updates gaps, queue and result as the value-level push does |
| FrameSorter.StreamFrameSorter.Insert | mpquic_trans/stream_frame_sorter.go:41-144 | the same for a frame with data, duplicates by offset being cut or refused first |
| FrameSorter.StreamFrameSorter.SkipGaps | mpquic_trans/stream_frame_sorter.go:54-68 | finds the first gap that ends at or behind the start of the frame |
| FrameSorter.Fill | mpquic_trans/stream_frame_sorter.go:78-144 | the loops over gaps and queued frames carve exactly the new interval out of the gap list |
| FrameSorter.BridgeGaps | mpquic_trans/stream_frame_sorter.go:78-94 | the loop drops the gaps and the queued frames lying wholly inside the frame, and finds the gap the frame ends in |
| FrameSorter.ShrinkGaps | mpquic_trans/stream_frame_sorter.go:104-130 | the gaps at both ends are shortened, split or removed, leaving what lies left and right of the frame |
| FrameSorter.StreamFrameSorter.Pop | mpquic_trans/stream_frame_sorter.go:146-153 | removes the head frame and advances the read position by its length |
| RingList.List.Insert | mpquic_trans/internal/utils/byteinterval_linkedlist.go:90-99 | linking into the sentinel ring is insertion into a sequence; ring and length stay right, no value changes |
| RingList.List.Remove | mpquic_trans/internal/utils/byteinterval_linkedlist.go:107-126 | removes the element of this list from the sequence and unlinks it; a foreign element changes nothing |
| RingList.List.PushFront | mpquic_trans/internal/utils/byteinterval_linkedlist.go:129-132 | a new element comes first, also in a list that was never initialised |
| RingList.List.PushBack | mpquic_trans/internal/utils/byteinterval_linkedlist.go:135-138 | a new element comes last |
| RingList.List.InsertBefore | mpquic_trans/internal/utils/byteinterval_linkedlist.go:142-148 | a new element right before the mark; a foreign mark gives null and changes nothing |
| RingList.List.InsertAfter | mpquic_trans/internal/utils/byteinterval_linkedlist.go:152-158 | a new element right after the mark; a foreign mark gives null and changes nothing |
| RingList.List.Front | mpquic_trans/internal/utils/byteinterval_linkedlist.go:67-72 | the first element of the sequence, or null |
| RingList.List.Back | mpquic_trans/internal/utils/byteinterval_linkedlist.go:75-80 | the last element of the sequence, or null |
| RingList.Element.Next | mpquic_trans/internal/utils/byteinterval_linkedlist.go:29-34 | one step up in the sequence, null at its end and outside a list |
| RingList.Element.Prev | mpquic_trans/internal/utils/byteinterval_linkedlist.go:37-42 | one step down in the sequence, null at its start and outside a list |
| RingList.List.Init | mpquic_trans/internal/utils/byteinterval_linkedlist.go:52-57 | any list becomes an empty ring |
| RingList.List.LazyInit | mpquic_trans/internal/utils/byteinterval_linkedlist.go:83-87 | closes the ring of a list that was never used and leaves any other list as it is |
| AckProtocol.AcksAreSound | mpquic_trans/ackhandler/sent_packet_handler.go:180-226 | in every run of sender, receiver and a network that loses, repeats and reorders packets and ACK bytes: what the sender takes as acknowledged was received, whatever ACK arrives next parses, is handled without the unsent-packet and skipped-packet errors, and acknowledges received packets only |
| AckProtocol.NextKeepsInv | mpquic_trans/ackhandler/sent_packet_handler.go:130-226 | every step of the ACK protocol keeps the joint invariant of sender, receiver and ACKs under way |
| AckProtocol.NoFatalAckError | mpquic_trans/ackhandler/sent_packet_handler.go:180-226 | an ACK that names only received packets, and only sent ones, is never answered with an error that ends the session |
| AckProtocol.EmitIsPossible | mpquic_trans/ackhandler/received_packet_handler.go:125-148 | at any point of a run an ACK that is due is well formed, and writing it fails if and only if its first gap is longer than 254 * 255 |
| AckRoundTrip.RoundTrip | mpquic_trans/internal/wire/ack_frame.go:38-347 | what is parsed from a written ACK is the path, the largest number and a prefix of the ranges, acknowledges nothing more, has the announced length, and carries the delay rounded down by less than one part in 2048 or clamped; following bytes are left alone |
| AckRoundTrip.WriteFailsIff | mpquic_trans/internal/wire/ack_frame.go:203-347 | for a frame with valid ranges, writing fails if and only if the gap below the first range is longer than 254 * 255 |
| AckRoundTrip.LongFirstGapIsNotWritten | mpquic_trans/internal/wire/ack_frame.go:416-442 | a frame with valid ranges that is not written: packets 1 and 65000 |
| AckRoundTrip.ParsedIsOrdered | mpquic_trans/internal/wire/ack_frame.go:38-200 | whatever the bytes, a parsed ACK names as lowest a packet not above its largest, and all its ranges lie between them |
| WireLayout.AckTypeByte | mpquic_trans/internal/wire/ack_frame.go:203-240 | each bit of the type byte: missing ranges, path, and the lengths 1, 2, 4 or 6 of both number fields |
| WireLayout.PlainAck | mpquic_trans/internal/wire/ack_frame.go:203-278 | all bytes of an ACK without missing ranges, in both byte orders |
| WireLayout.LongGapAck | mpquic_trans/internal/wire/ack_frame.go:280-370 | all bytes of an ACK on a path with a gap of 297 packets, which takes two blocks |
| WireLayout.LongDelay | mpquic_trans/internal/utils/float16.go:54-86 | the sixteen bits of a delay of 8195 microseconds, and of one beyond the maximum |
| AckRoundTrip.WrittenLength | mpquic_trans/internal/wire/ack_frame.go:350-369 | exactly as many bytes are written as MinLength says |
| AckRoundTrip.ReceivedAcksLess | mpquic_trans/internal/wire/ack_frame.go:416-442 | dropping the ranges that do not fit keeps the frame valid and acknowledges a subset of the packets |
| AckFrames.TruncateAcksLess | mpquic_trans/internal/wire/ack_frame.go:472-488 | cutting off lower ranges acknowledges exactly the packets from the last kept range on |
| AckFrames.ValidateAckRanges | mpquic_trans/internal/wire/ack_frame.go:376-412 | comparing neighbours decides whether all ranges are non-empty, descending and apart, with the largest number on top |
| AckFrameIO.Write | mpquic_trans/internal/wire/ack_frame.go:203-347 | the writing loops produce the bytes, or the error, of the value-level ACK writer |
| AckFrameIO.WriteHeader | mpquic_trans/internal/wire/ack_frame.go:203-243 | type byte, path, largest number, delay |
| AckFrameIO.WriteLowerRanges | mpquic_trans/internal/wire/ack_frame.go:280-339 | the loop over the lower ranges writes their blocks, and the promised number of them unless the first gap alone is too long |
| AckFrameIO.WriteGap | mpquic_trans/internal/wire/ack_frame.go:288-333 | a gap of more than 255 is written as blocks of 255 with length zero and one last block |
| AckFrameIO.NumWritableNackRanges | mpquic_trans/internal/wire/ack_frame.go:416-442 | counts the blocks of the longest prefix of ranges that needs fewer than 255 blocks |
| AckFrameIO.BlocksNeeded | mpquic_trans/internal/wire/ack_frame.go:428-432 | blocks needed for one gap: one exactly up to 255 |
| AckCodec.WritableRanges | mpquic_trans/internal/wire/ack_frame.go:416-442 | the number of ranges written is the greatest one that fits |
| AckFrameIO.GetMissingSequenceNumberDeltaLen | mpquic_trans/internal/wire/ack_frame.go:444-469 | the loop picks the length that holds the longest range |
| AckFrameIO.ParseAckFrame | mpquic_trans/internal/wire/ack_frame.go:38-200 | the parser reads what the value-level parser reads, errors included |
| AckFrameIO.ReadRanges | mpquic_trans/internal/wire/ack_frame.go:106-154 | the block loop, with its flags for long blocks and complete ranges, assembles the ranges and drops an incomplete last one |
| AckCodec.ParseAck | mpquic_trans/internal/wire/ack_frame.go:38-200 | whatever the bytes, a parsed ACK has valid ranges and the lowest number that belongs to them |
| Float16.RoundTrip | mpquic_trans/internal/utils/float16.go:25-86 | sixteen bits hold the value rounded down by less than one part in 2048, or the maximum |
| Float16.WriteUfloat16 | mpquic_trans/internal/utils/float16.go:54-86 | the shifting loop computes the encoding of every value |
| Float16.Normalise | mpquic_trans/internal/utils/float16.go:68-77 | the loop over halving offsets finds the exponent that leaves twelve significant bits |
| Bytes.DecodeEncode | mpquic_trans/internal/utils/byteorder_little_endian.go:17-149 | fixed-width integers in either byte order decode to what was encoded |
| Bytes.ReadEncoded | mpquic_trans/internal/utils/byteorder_big_endian.go:17-149 | reading back a written integer leaves the bytes behind it |
| ReceivedHistory.CanonicalIsUnique | mpquic_trans/ackhandler/received_packet_history.go:28-108 | two range lists of this form that contain the same numbers are the same list |
| ReceivedHistory.ReceivedPacketHistory.ReceivedPacket | mpquic_trans/ackhandler/received_packet_history.go:28-75 | below the range limit exactly the one number is added and ranges stay sorted, disjoint and non-adjacent; at the limit nothing changes |
| ReceivedHistory.AddAt | mpquic_trans/ackhandler/received_packet_history.go:38-69 | one round of the search extends, merges or inserts, or shows that the number lies lower |
| ReceivedHistory.ReceivedPacketHistory.DeleteUpTo | mpquic_trans/ackhandler/received_packet_history.go:78-93 | exactly the numbers above the limit are kept |
| ReceivedHistory.ReceivedPacketHistory.GetAckRanges | mpquic_trans/ackhandler/received_packet_history.go:96-108 | the ranges, the highest first |
| ReceivedPackets.AckIsExact | mpquic_trans/ackhandler/received_packet_handler.go:125-148 | the ACK acknowledges exactly the tracked packet numbers and passes the range checks of the writer and the parser |
| ReceivedPackets.NotEmpty | mpquic_trans/ackhandler/received_packet_handler.go:125-148 | once a packet was observed the history is not empty and its highest range ends in the largest observed number |
| ReceivedPackets.ReceivesKeepsConsistent | mpquic_trans/ackhandler/received_packet_handler.go:46-68 | accepting a packet, late ones and repeated ones included, keeps the largest observed number in the history |
| ReceivedPackets.LimitKeepsConsistent | mpquic_trans/ackhandler/received_packet_handler.go:72-75 | so does a lower limit below the largest observed number |
| ReceivedPackets.AckKeepsConsistent | mpquic_trans/ackhandler/received_packet_handler.go:125-148 | so does handing out an ACK |
| Frames.StopWaitingInRange | mpquic_trans/internal/wire/stop_waiting_frame.go:64-81 | whatever the bytes, a parsed STOP_WAITING names a number of at least one and not above its own packet, so the limit taken from it is below a received number |
| ReceivedPackets.ReceivedPacketHandler.ReceivedPacket | mpquic_trans/ackhandler/received_packet_handler.go:46-68 | the class does the step that the lemmas are about, with its three outcomes |
| ReceivedPackets.ReceivedPacketHandler.MaybeQueueAck | mpquic_trans/ackhandler/received_packet_handler.go:77-123 | the class queues an ACK or sets the alarm as the value-level step does, which AckTiming pins down over whole runs |
| ReceivedPackets.ReceivedPacketHandler.SetLowerLimit | mpquic_trans/ackhandler/received_packet_handler.go:72-75 | forgets exactly what is not above the limit |
| ReceivedPackets.ReceivedPacketHandler.GetAckFrame | mpquic_trans/ackhandler/received_packet_handler.go:125-148 | returns the exact ACK when one is due and nothing otherwise, never looks into an empty history, and stays consistent |
| AckTiming.AcksAreTimely | mpquic_trans/ackhandler/received_packet_handler.go:77-130 | in every run an ACK is queued exactly if, since the last one, a packet filled or made a gap or came before any ACK, two packets called for one, or twenty came before version 39; the alarm is set exactly if one packet calls for an ACK and none is queued; and an ACK is handed out exactly then, in the latter case once the alarm has fired |
| AckTiming.AckStartsAnew | mpquic_trans/ackhandler/received_packet_handler.go:125-148 | handing out an ACK clears both flags and the count, and later packets are measured against its largest number; when none is due nothing changes |
| AckTiming.QuietPacket | mpquic_trans/ackhandler/received_packet_handler.go:77-123 | a packet that is not urgent, calls for no ACK and is not the twentieth changes neither flag |
| AckTiming.RangesAreTracked | mpquic_trans/ackhandler/received_packet_handler.go:46-75 | in every run the ranges an ACK is built from cover exactly the packets accepted and not below a limit set since |
| SentPackets.BytesInFlightAreExact | mpquic_trans/ackhandler/sent_packet_handler.go:130-178 | in every run of the sent-packet handler the bytes in flight are the sum over the history, never negative, and packet numbers strictly increase |
| SentPackets.SentKeepsInv | mpquic_trans/ackhandler/sent_packet_handler.go:130-178 | sending, or refusing to, keeps history, skipped packets and byte count in order |
| SentPackets.AckKeepsInv | mpquic_trans/ackhandler/sent_packet_handler.go:180-226 | so does any ACK, accepted or not, with the losses it reveals |
| SentPackets.AlarmKeepsInv | mpquic_trans/ackhandler/sent_packet_handler.go:445-477 | so does the alarm in each of its modes |
| SentPackets.InflightLostKeepsInv | mpquic_trans/ackhandler/sent_packet_handler.go:423-443 | so does giving up all packets up to the largest acknowledged one |
| SentPackets.SplitSum | mpquic_trans/ackhandler/sent_packet_handler.go:483-488 | the bytes of the removed packets and of those that stay add up to the bytes before |
| SentPacketHandlers.DetermineNewlyAckedPackets | mpquic_trans/ackhandler/sent_packet_handler.go:267-303 | for a validated ACK the scan along history and ranges returns exactly the history packets it acknowledges; the branch that reports a bug is not reached |
| SentPacketHandlers.CollectLostPackets | mpquic_trans/ackhandler/sent_packet_handler.go:389-421 | the loop collects exactly the overdue packets at or below the largest acknowledged one, and says whether any was spared |
| SentPacketHandlers.SentPacketHandler.SentPacket | mpquic_trans/ackhandler/sent_packet_handler.go:130-178 | the class appends the packet, records skipped numbers and bytes, or refuses, and keeps the invariant |
| SentPacketHandlers.SentPacketHandler.ReceivedAck | mpquic_trans/ackhandler/sent_packet_handler.go:180-226 | the class handles an ACK as the value-level step does, whose effect on history, queue and counters SentPacketRules.AckRemoves states, and keeps the invariant |
| SentPacketHandlers.SentPacketHandler.DetectLostPackets | mpquic_trans/ackhandler/sent_packet_handler.go:389-421 | moves exactly the overdue packets to the retransmission queue, in order |
| SentPacketHandlers.SentPacketHandler.SetInflightAsLost | mpquic_trans/ackhandler/sent_packet_handler.go:423-443 | moves all packets up to the largest acknowledged one to the queue |
| SentPacketHandlers.SentPacketHandler.OnAlarm | mpquic_trans/ackhandler/sent_packet_handler.go:445-477 | the class does what the three alarm lemmas of SentPacketRules say, with the same choice between them |
| SentPacketHandlers.SentPacketHandler.RetransmitTLP | mpquic_trans/ackhandler/sent_packet_handler.go:527-531 | queues the newest packet, if there is one |
| SentPacketHandlers.SentPacketHandler.RetransmitAllPackets | mpquic_trans/ackhandler/sent_packet_handler.go:533-538 | queues the whole history, the oldest first |
| SentPacketHandlers.SentPacketHandler.RetransmitOldestTwoPackets | mpquic_trans/ackhandler/sent_packet_handler.go:546-550 | queues the two oldest packets, or as many as there are |
| SentPacketHandlers.SentPacketHandler.DequeuePacketForRetransmission | mpquic_trans/ackhandler/sent_packet_handler.go:490-502 | hands out the queue from its front |
| SentPacketHandlers.SentPacketHandler.DuplicatePacket | mpquic_trans/ackhandler/sent_packet_handler.go:572-574 | queues a packet that stays in the history |
| SentPacketHandlers.SentPacketHandler.GarbageCollectSkippedPackets | mpquic_trans/ackhandler/sent_packet_handler.go:617-626 | forgets the skipped numbers up to the largest number acknowledged in order |
| SentPacketRules.AckRemoves | mpquic_trans/ackhandler/sent_packet_handler.go:180-226 | after an ACK that counts no packet it acknowledges is left in the history, the overdue ones up to its largest number are queued in order, all others stay, the bytes in flight fall by exactly the lengths of both kinds, the probe and timeout counts are zero if anything was acknowledged, and the loss timer is set exactly if a packet up to its largest number stays |
| SentPacketRules.OtherAcksChangeNothing | mpquic_trans/ackhandler/sent_packet_handler.go:180-206 | any other ACK leaves history, queue and counts alone, with the error that fits: not sent, skipped, or late |
| SentPacketRules.AckForgetsSkipped | mpquic_trans/ackhandler/sent_packet_handler.go:617-626 | an ACK that counts makes the sender forget exactly the skipped numbers below the first packet still in the history |
| AckProtocol.AcknowledgedLeave | mpquic_trans/ackhandler/sent_packet_handler.go:207-218 | in every run with any network no packet that was acknowledged is still in the history |
| SentPacketRules.SentMeans | mpquic_trans/ackhandler/sent_packet_handler.go:130-178 | a packet is refused exactly if its number is not above the last one or 5000 are tracked; it is tracked, with its length in flight, exactly if it holds a frame other than ACK and STOP_WAITING |
| SentPacketRules.SkipRemembers | mpquic_trans/ackhandler/sent_packet_handler.go:139-146 | of the numbers passed over the last ten are remembered, in order |
| SentPacketRules.SkippedAscend | mpquic_trans/ackhandler/sent_packet_handler.go:130-148 | in every run the remembered numbers ascend and lie below the last one sent |
| SentPacketRules.StripSplits | mpquic_trans/ackhandler/retransmittable.go:7-34 | the frames tracked for a packet are its frames but ACK and STOP_WAITING, in their order |
| SentPacketRules.LossAlarmQueues | mpquic_trans/ackhandler/sent_packet_handler.go:445-462 | with a loss timer the alarm queues exactly the overdue packets up to the largest acknowledged one |
| SentPacketRules.ProbeAlarmQueues | mpquic_trans/ackhandler/sent_packet_handler.go:445-477 | without one it queues the newest packet the first two times, and counts the probe |
| SentPacketRules.TimeoutAlarmQueues | mpquic_trans/ackhandler/sent_packet_handler.go:445-477 | after two probes it queues the two oldest packets, or all of them on a path that may have failed, and counts the timeout |
| SentPacketRules.ProbesAreBounded | mpquic_trans/ackhandler/sent_packet_handler.go:445-488 | in every run at most two probes are counted |
| SentPacketRules.GivingUpQueues | mpquic_trans/ackhandler/sent_packet_handler.go:423-443 | giving up queues exactly the packets up to the largest acknowledged one, in order |
| FlowProtocol.NoViolation | mpquic_trans/internal/flowcontrol/flow_control_manager.go:64-118 | two correct endpoints, with data, resets and window updates lost, repeated and reordered: whatever arrives next is accepted at stream and connection level |
| FlowProtocol.SenderStaysWithin | mpquic_trans/internal/flowcontrol/flow_controller.go:66-110 | at every point of such a run the sender's windows, those still taken from the handshake included, are within the receiver's, and no more was sent |
| FlowProtocol.WindowsNeverShrink | mpquic_trans/internal/flowcontrol/flow_controller.go:151-217 | no step shrinks a window at either end, although the first update replaces the window of the handshake |
| FlowProtocol.NextKeepsInv | mpquic_trans/internal/flowcontrol/flow_control_manager.go:43-282 | every step of the two endpoints keeps the joint invariant |
| FlowProtocol.SendFits | mpquic_trans/stream_framer.go:183-213 | what the send window allows fits the peer's stream window and, in total over all streams ever opened, its connection window |
| FlowReceiver.ExcessIsRefused | mpquic_trans/internal/flowcontrol/flow_control_manager.go:64-118 | with any peer, no more is ever accepted than was granted per stream and in total over all streams, closed ones included, and an offset is refused exactly when it exceeds its stream's window or takes the total above the connection's |
| FlowReceiver.StepKeepsSound | mpquic_trans/internal/flowcontrol/flow_control_manager.go:43-157 | every accepted step of a session with any peer keeps both counts within both windows |
| FlowReceiver.ResetsAreChecked | mpquic_trans/internal/flowcontrol/flow_control_manager.go:64-89 | in every session a RST_STREAM is refused as data after termination exactly if its offset is below what was received, and is otherwise treated as data |
| FlowProgress.SenderCanGoOn | mpquic_trans/internal/flowcontrol/flow_control_manager.go:138-157 | in every run, once all the sender has sent was read, the next window updates let it send at least half of the first stream window and, if the stream counts, of the first connection window, as soon as they have arrived |
| FlowProgress.SenderCatchesUp | mpquic_trans/internal/flowcontrol/flow_controller.go:66-110 | a sender that every update has reached may use the receiver's windows to the last byte |
| FlowProgress.RoomAfterUpdates | mpquic_trans/internal/flowcontrol/flow_controller.go:151-170 | in every run, after the window updates at least half of the first window is left beyond what was read, per stream and in total |
| FlowProgress.RunAnnounces | mpquic_trans/internal/flowcontrol/flow_control_manager.go:138-157 | in every run a window that has grown was announced as it is |
| FlowProgress.FrequentUpdatesDouble | mpquic_trans/internal/flowcontrol/flow_controller.go:139-207 | in every run an update that comes too soon doubles its stream's increment up to the maximum, the first update included |
| FlowControl.UpdateMeans | mpquic_trans/internal/flowcontrol/flow_controller.go:151-207 | in numbers: an update is due exactly when less than half an increment is left, opens the window to one increment beyond what was read, and doubles the increment when the last one was too recent |
| FlowControl.StreamsAreReported | mpquic_trans/internal/flowcontrol/flow_control_manager.go:138-157 | without force a stream is reported exactly if less than half its increment was left, with a window that has grown; with force always; and at least half an increment is left afterwards |
| FlowControl.ConnectionIsReported | mpquic_trans/internal/flowcontrol/flow_control_manager.go:138-157 | the same for the connection, whose increment is then at least one and a half times that of a contributing stream whose own has grown, up to its maximum |
| FlowControl.EnsureMeans | mpquic_trans/internal/flowcontrol/flow_controller.go:212-217 | a minimum increment is taken up to the maximum, and stops the clock exactly when it raises the increment |
| FlowControl.NewControllerGrants | mpquic_trans/internal/flowcontrol/flow_controller.go:40-60 | a new controller grants, and may use, what the parameters say for its level |
| FlowControl.RaisedMeans | mpquic_trans/internal/flowcontrol/flow_controller.go:94-110 | after a window update what was sent and what may be sent reach the greatest offset announced |
| FlowControl.SentShrinks | mpquic_trans/internal/flowcontrol/flow_control_manager.go:176-253 | what is sent is taken from the window of its stream, and from that of another stream only as far as they share the connection |
| FlowControl.WindowGrows | mpquic_trans/internal/flowcontrol/flow_controller.go:151-207 | a window update takes nothing back and leaves exactly one increment to read ahead |
| FlowControl.EnsureTwice | mpquic_trans/internal/flowcontrol/flow_controller.go:212-217 | asking for one minimum increment after another is asking for the larger one, so the order of streams does not matter |
| FlowControl.WindowSize | mpquic_trans/internal/flowcontrol/flow_controller.go:103-110 | what was sent plus what may be sent is the effective window, and nothing may be sent beyond it |
| FlowControlManagers.FlowControlManager.GetWindowUpdates | mpquic_trans/internal/flowcontrol/flow_control_manager.go:138-157 | in whatever order the streams are visited, each controller is updated once, the connection last and with the greatest increment demanded, and exactly the due updates are returned; when one is due FlowControl.StreamsAreReported says in numbers |
| FlowControlManagers.FlowControlManager.UpdateHighestReceived | mpquic_trans/internal/flowcontrol/flow_control_manager.go:94-118 | the class counts received data at both levels with the outcomes that the lemmas are about |
| FlowControlManagers.FlowControlManager.ResetStream | mpquic_trans/internal/flowcontrol/flow_control_manager.go:64-89 | the same for a final offset, which must not be below what was received |
| FlowControlManagers.FlowControlManager.AddBytesRead | mpquic_trans/internal/flowcontrol/flow_control_manager.go:121-136 | read bytes are counted for the stream and, where it contributes, the connection |
| FlowControlManagers.FlowControlManager.AddBytesSent | mpquic_trans/internal/flowcontrol/flow_control_manager.go:176-191 | sent bytes are counted for the stream and, where it contributes, the connection |
| FlowControlManagers.FlowControlManager.SendWindowSize | mpquic_trans/internal/flowcontrol/flow_control_manager.go:238-253 | the smaller window of both levels, and an error for an unknown stream |
| FlowControlManagers.FlowControlManager.UpdateWindow | mpquic_trans/internal/flowcontrol/flow_control_manager.go:263-282 | a window is only ever raised, and the result says whether it was |
| FlowControlManagers.FlowControlManager.NewStream | mpquic_trans/internal/flowcontrol/flow_control_manager.go:43-52 | a stream that is known already keeps its controller |
| FlowControlManagers.FlowControlManager.RemoveStream | mpquic_trans/internal/flowcontrol/flow_control_manager.go:55-59 | the other controllers stay |
| FlowControlManagers.FlowController.MaybeUpdateWindow | mpquic_trans/internal/flowcontrol/flow_controller.go:151-170 | an update is due exactly when less than half an increment is left; the window is then one increment beyond what was read, and at least half an increment is left afterwards |
| FlowControlManagers.FlowController.MaybeAdjustWindowIncrement | mpquic_trans/internal/flowcontrol/flow_controller.go:173-207 | the increment doubles up to its maximum when updates come too often |
| FlowControlManagers.FlowController.UpdateHighestReceived | mpquic_trans/internal/flowcontrol/flow_controller.go:121-131 | the highest offset never falls; the growth is returned, and a smaller offset is reported |
| Retransmission.NothingIsForgotten | mpquic_trans/stream.go:244-263 | in every run over all paths, every byte ever handed out is in a tracked packet, a retransmission queue, the framer's queue or a frame of an acknowledged packet, and no frame object ever holds anything but its stretch of the stream, although frames shared by duplicated packets are cut in place |
| Retransmission.NoEndIsForgotten | mpquic_trans/stream.go:280-289 | in every run a FIN that was handed out, and the FIN of every stream that is marked as having sent it, is in a frame in one of these places, at the same final offset, which is the length of all the application wrote |
| Retransmission.HandedOutIsGiven | mpquic_trans/stream.go:184-263 | in every run what was handed out of a stream, followed by what is pending, is exactly what the application wrote, in order |
| Retransmission.NormalMoves | mpquic_trans/stream_framer.go:165-238 | the new frames of a packet hold, stream by stream and in order, the front of what was pending, the rest stays pending, and a FIN leaves nothing |
| Retransmission.RefsInOrder | mpquic_trans/scheduler.go:30-80 | a lost packet gives its stream frames back to the framer in order |
| Retransmission.NextKeepsInv | mpquic_trans/scheduler.go:30-80 | every step keeps that: sending, ACKs, alarms, requeueing, duplication, new paths and new data |
| Retransmission.SendKeeps | mpquic_trans/stream_framer.go:129-238 | popping, cutting and adding frames, and dropping the length of the last, loses no byte |
| Retransmission.AckKeeps | mpquic_trans/ackhandler/sent_packet_handler.go:180-226 | an ACK removes only the packets it acknowledges; every other packet stays in the history or the queue |
| Retransmission.GetRetransmission | mpquic_trans/scheduler.go:30-80 | the loop empties the retransmission queue of every path, moving the stream frames to the framer |
| FramingSize.StreamPartFits | mpquic_trans/stream_framer.go:36-39 | the stream frames of a packet, the last without its length field, take at most two bytes less than the limit if and only if the cut is not an unlucky one, and otherwise exceed it by exactly the number of copies |
| FramingSize.PoppedCost | mpquic_trans/stream_framer.go:129-163 | the popped frames cost at most the length counted, and in the unlucky case exactly so much more |
| FramingSize.Growth | mpquic_trans/stream_framer.go:241-258 | cutting the front off a frame makes the rest longer by one byte exactly when one byte is cut off at offset zero, and never otherwise |
| Framing.VisitWithinWindow | mpquic_trans/stream_framer.go:165-238 | a new frame continues its stream, stays within the send window, and is counted for it |
| Framing.VisitStream | mpquic_trans/stream_framer.go:169-233 | a visited stream yields at most one frame, and that fits the room |
| Framing.PopNormal | mpquic_trans/stream_framer.go:165-238 | frames with new data never take more than the room left |
| Framing.Whole | mpquic_trans/stream_framer.go:129-163 | the frames popped whole fit, and the next one does not |
| Framing.QueueIsPopped | mpquic_trans/stream_framer.go:129-163 | frames are sent again in the order of the queue, none lost and none twice; the first left behind is split so that the room is filled, its back with the FIN staying at the head, unless not even its header fits |
| Framing.FrontIsTaken | mpquic_trans/stream.go:244-289 | data is handed out from the front, as much as is allowed; the FIN comes with the last of it, once |
| Framing.VisitSends | mpquic_trans/stream_framer.go:169-233 | how much a visit takes: behind a header that fits, as much as room, window and stream allow; a frame for the FIN alone otherwise; and when the visits stop |
| Framing.VisitBlocks | mpquic_trans/stream_framer.go:213-221 | a BLOCKED frame for the connection when its window is used up, otherwise for the stream when its own is and the frame does not end it |
| Framing.NormalUsesRoom | mpquic_trans/stream_framer.go:165-238 | a visited stream keeps data it is allowed to send only if at most fifteen bytes of room are left |
| StreamFramers.MaybeSplitOffFrame | mpquic_trans/stream_framer.go:241-258 | a new object gets the front and the old object keeps the rest, or nothing happens |
| StreamFramers.Stream.GetDataForWriting | mpquic_trans/stream.go:244-263 | what is taken followed by what stays is the data that was there, as much as is allowed is taken unless the stream has failed, and the write offset moves on by its length |
| StreamFramers.Stream.Write | mpquic_trans/stream.go:184-203 | data replaces what a write left whose deadline has passed; a closed or failed stream takes none |
| StreamFramers.StreamFramer.MaybePopFramesForRetransmission | mpquic_trans/stream_framer.go:129-163 | the loop over shared frame objects pops, cuts and marks what the value-level framer does |
| StreamFramers.StreamSender.MaybePopNormalFrames | mpquic_trans/stream_framer.go:165-238 | the loop over the streams frames new data, counts it and queues BLOCKED frames as the value-level framer does |
| StreamFramers.StreamSender.Visit | mpquic_trans/stream_framer.go:169-233 | one round of that loop |
| StreamFramers.StreamFramer.PopStreamFrames | mpquic_trans/stream_framer.go:36-39 | retransmissions first and new data in the room left, every object, stream and window as the value-level framer says |
| StreamFramers.StreamFramer.AddFrameForRetransmission | mpquic_trans/stream_framer.go:32-34 | queues the object itself, at the end |
| PacketSize.PacketFits | mpquic_trans/packet_packer.go:317-350 | header, written frames and overhead fit the maximum packet size, so that the size error is not reached, if and only if what is queued and the room do not make for an unlucky cut |
| Packing.PayloadFits | mpquic_trans/packet_packer.go:207-275 | a composed payload stays within the given size if and only if what is queued, and the room left by the other frames, do not make for an unlucky cut |
| Witnesses.PacketTooLarge | mpquic_trans/packet_packer.go:330-338 | a run of the sender, and the packet of more than 1350 bytes that is composed after it |
| Witnesses.QueuedTwice | mpquic_trans/scheduler.go:782-797 | sending, duplicating, losing and requeueing a packet leads, for data of any length, to a queue that holds one frame object twice |
| Packing.PayloadReadsBack | mpquic_trans/packet_packer.go:207-275 | unpacking the written payload gives the same frames, ACK up to truncation and rounding, if and only if the queue, the room and the streams do not make the stream frames end in a repeated one |
| Packing.RepeatedLast | mpquic_trans/stream_framer.go:36-39 | the last frame object comes once in the packet unless it was popped whole twice, nothing was cut off behind it, and no stream had anything to send: frames cut off and new frames are objects of their own |
| Witnesses.PayloadUnreadable | mpquic_trans/packet_packer.go:260-263 | a run of the sender, and the payload composed after it that is not read back |
| Packing.LengthIsExact | mpquic_trans/internal/wire/paths_frame.go:26-91 | a control frame takes as many bytes as its MinLength says, a PATHS frame if and only if it has at most 84 paths |
| Packing.LongPathsFrame | mpquic_trans/internal/wire/paths_frame.go:88-91 | 85 paths: 258 bytes are written and two are announced |
| Packing.Compose | mpquic_trans/packet_packer.go:207-275 | the length counted while composing never exceeds the limit; PackingRules.PacketCarries says which frames are in the packet |
| PackingRules.PacketCarries | mpquic_trans/packet_packer.go:207-275 | the packet begins with the pending STOP_WAITING and ACK, then come control frames, the newest first, then the stream frames popped for the room left; control frames taken and left are together those queued, those left are a prefix of the queue whose last one does not fit, and new BLOCKED frames go behind them |
| PackingRules.ComposeFailsIff | mpquic_trans/packet_packer.go:215-250 | composing fails if and only if STOP_WAITING and ACK alone are too long |
| PackingRules.RoomIsUsed | mpquic_trans/stream_framer.go:36-39 | a frame stays queued, or a visited stream keeps data it may send, only if at most fifteen bytes are left |
| PackingRules.ControlsAreTaken | mpquic_trans/packet_packer.go:233-245 | control frames are taken one by one from the end of the queue until one does not fit |
| PacketPackers.PacketPacker.ComposeNextPacket | mpquic_trans/packet_packer.go:207-275 | the class takes control frames, stream frames and BLOCKED frames as the value-level composition does, errors included, and so carries the frames that PackingRules.PacketCarries names |
| PacketPackers.PacketPacker.TakeControls | mpquic_trans/packet_packer.go:233-245 | control frames are taken from the end of the queue while they fit |
| PacketPackers.PacketPacker.QueueControlFrame | mpquic_trans/packet_packer.go:277-286 | STOP_WAITING and ACK replace the pending one, other frames are queued |
| FrameRoundTrip.PayloadReadBack | mpquic_trans/packet_unpacker.go:44-119 | a list of frames of all kinds, with only the last stream frame taking the rest, is read back as written |
| FrameRoundTrip.FrameReadBack | mpquic_trans/packet_unpacker.go:44-119 | each written frame is told apart by its first byte, read back, and leaves the bytes behind it |
| FrameRoundTrip.LengthIsNeeded | mpquic_trans/internal/wire/stream_frame.go:28-86 | a stream frame without a length that is not the last one makes the payload unreadable |
| FrameRoundTrip.PathsReadBack | mpquic_trans/internal/wire/paths_frame.go:26-86 | path IDs come back and round-trip times come back rounded |
| Frames.Unpack | mpquic_trans/packet_unpacker.go:27-125 | the loop skips padding and reads frame after frame until an error or the end, and an empty payload is an error |
| Frames.AckConsumes | mpquic_trans/internal/wire/ack_frame.go:38-200 | parsing an ACK consumes at least one byte, so the loop ends |
| FrameSafety.PayloadIsSane | mpquic_trans/packet_unpacker.go:27-125 | whatever the payload, each frame accepted is in order: stream data encrypted or of the handshake, not empty and below 2^64, ACK ranges ordered, STOP_WAITING not above its packet, paths as many as announced |
| FrameSafety.HeaderIsSane | mpquic_trans/internal/wire/public_header.go:154-270 | whatever the header, a packet names a connection other than 0 unless the server leaves it out, and has a packet number exactly if it is no reset and no version negotiation |
| FrameSafety.TimestampsAreSkipped | mpquic_trans/internal/wire/ack_frame.go:170-200 | the timestamps behind an ACK are skipped, five bytes for the first and three for each other |
| StreamFrames.RoundTrip | mpquic_trans/internal/wire/stream_frame.go:28-151 | a stream frame reads back as written; without a length field it takes everything behind it |
| StreamFrames.TakesAll | mpquic_trans/internal/wire/stream_frame.go:28-86 | without a length field nothing is left, also where the offset overflows |
| StreamFrames.IdLength | mpquic_trans/internal/wire/stream_frame.go:153-162 | the stream ID fits the length chosen |
| StreamFrames.OffsetLength | mpquic_trans/internal/wire/stream_frame.go:164-187 | the offset fits the length chosen, and one byte is never chosen |
| WireLayout.FullStreamFrame | mpquic_trans/internal/wire/stream_frame.go:89-151 | all bytes of a stream frame with offset, length and FIN |
| WireLayout.ShortStreamFrame | mpquic_trans/internal/wire/stream_frame.go:89-151 | all bytes of the first frame of a stream without a length |
| WireLayout.StreamControlFrames | mpquic_trans/internal/wire/rst_stream_frame.go:18-30 | all bytes of RST_STREAM, WINDOW_UPDATE and BLOCKED |
| WireLayout.StopWaitingFrame | mpquic_trans/internal/wire/stop_waiting_frame.go:26-60 | all bytes of STOP_WAITING, which holds a distance, and of PING |
| WireLayout.GoawayFrame | mpquic_trans/internal/wire/goaway_frame.go:56-68 | all bytes of GOAWAY |
| WireLayout.AddressFrame | mpquic_trans/internal/wire/add_address_frame.go:26-55 | all bytes of ADD_ADDRESS |
| WireLayout.PathsFrame | mpquic_trans/internal/wire/paths_frame.go:26-46 | all bytes of PATHS |
| WireLayout.MultipathHeader | mpquic_trans/internal/wire/public_header.go:40-117 | all bytes of the header of a multipath packet |
| StreamsMap.EveryStreamGetsItsTurn | mpquic_trans/streams_map.go:246-279 | with n open streams held fixed, any n rounds in which the streams 1 and 3 let the round go on visit every other stream |
| StreamsMap.VisitedDistinct | mpquic_trans/streams_map.go:246-279 | no round visits a stream twice, wherever it starts and stops |
| StreamsMap.WalkCovers | mpquic_trans/streams_map.go:263-277 | a round covers as many positions as it visits streams, skipped priority streams not counting |
| StreamsMap.EveryRoundAdvances | mpquic_trans/streams_map.go:263-277 | every round moves the index on by at least one position |
| StreamsMap.RoundIsComplete | mpquic_trans/streams_map.go:246-279 | a round visits streams 1 and 3 first, in order, goes on until a stream puts an end to it, and visits every open stream if none does |
| StreamsMap.StreamsMap.RoundRobinIterate | mpquic_trans/streams_map.go:246-279 | the loops visit the streams and leave the index where the value-level round says; StreamsMap.RoundIsComplete says what a round is |
| StreamsMap.StreamsMap.RemoveStream | mpquic_trans/streams_map.go:301-328 | closes up the order, keeps the index on the same stream, and never forgets that the ID was used |
| StreamsMap.StreamsMap.GetOrOpenStream | mpquic_trans/streams_map.go:69-125 | opens exactly the peer's streams between the highest one so far and the new one, and tells open, closed and invalid IDs apart |
| StreamsMap.StreamsMap.OpenStream | mpquic_trans/streams_map.go:153-183 | opens an ID that was never used before |
| StreamsMap.StreamsMap.PutStream | mpquic_trans/streams_map.go:289-298 | a new stream comes last in the order; one that is there already is an error and changes nothing |
| PacketNumbers.NumberIsRecovered | mpquic_trans/internal/protocol/packet_number.go:4-42 | the receiver infers the packet number from its truncation, in epoch zero with its 64-bit wrap-around too, when the number length was chosen from the least unacknowledged number |
| PacketNumbers.Recovers | mpquic_trans/internal/protocol/packet_number.go:4-28 | inference picks the one number of the right remainder within half an epoch of the expected one |
| PacketNumbers.LengthIsShortest | mpquic_trans/internal/protocol/packet_number.go:32-42 | the number length chosen is the shortest of 2, 4 and 6 bytes whose half epoch covers the distance to the least unacknowledged number |
| PublicHeaders.RoundTrip | mpquic_trans/internal/wire/public_header.go:40-270 | headers of regular packets and of resets read back, with as much of the packet number as was sent |
| PublicHeaders.NegotiationReadsBackIff | mpquic_trans/internal/wire/public_header.go:220-238 | a version negotiation packet reads back with its list of versions if and only if it names no path, and is refused otherwise |
| PublicHeaders.NumberArrives | mpquic_trans/internal/wire/public_header.go:106-117 | written, read and inferred, the packet number arrives |
| PublicHeaders.LengthIsExact | mpquic_trans/internal/wire/public_header.go:274-309 | the announced header length is the written one, and is refused exactly where writing fails or the version is negotiated |
| OliaSenders.GetEpsilon | mpquic_trans/congestion/olia_sender.go:175-237 | over any map of at most 255 paths, in any order, the shares set on the paths add up to zero, go to the paths of largest window and to the best of the others, and no denominator is zero |
| OliaCoupling.SharesCancel | mpquic_trans/congestion/olia_sender.go:215-236 | the shares of all paths add up to zero |
| OliaSenders.FindBest | mpquic_trans/congestion/olia_sender.go:191-198 | looks at every path once, in some order, and takes the best along it; with known round-trip times and no overflow that is the greatest ratio of bytes to squared round-trip time |
| OliaCoupling.AlongIsGreatest | mpquic_trans/congestion/olia_sender.go:191-198 | then every order leads to a path that no other one exceeds |
| OliaCoupling.OrderMatters | mpquic_trans/congestion/olia_sender.go:191-198 | with an unknown round-trip time the order of the map decides |
| OliaCoupling.BestIsGreatest | mpquic_trans/congestion/olia_sender.go:191-213 | the comparison with the best path then singles out exactly the paths that no other one exceeds |
| OliaSenders.GetMaxCwnd | mpquic_trans/congestion/olia_sender.go:147-155 | the greatest window, which some path has |
| OliaSenders.CountSets | mpquic_trans/congestion/olia_sender.go:200-213 | the eight-bit counters are the sizes of both sets for at most 255 paths |
| Olia.WindowStaysInBounds | mpquic_trans/congestion/olia_sender.go:239-391 | in every run of ACKs, losses, timeouts and migrations the window is between one and the maximum, and the loss counters are ordered, so that their differences do not wrap |
| Olia.ActKeepsInv | mpquic_trans/congestion/olia_sender.go:239-391 | every action keeps these bounds |
| Olia.BackoffShrinks | mpquic_trans/congestion/olia_sender.go:292-345 | a loss never raises the window, for any number of emulated connections |
| Olia.RoundedBackoffShrinks | mpquic_trans/congestion/olia_sender.go:325-333 | nor does it in floating point, for any rounding that keeps the order of numbers and the window as it is |
| OliaSenders.Olia.CongestionWindowAfterAck | mpquic_trans/congestion/olia.go:63-92 | the window moves by at most one packet, never to zero, and uses the count up when it does; unless a product overflows, the count grows by what OLIA prescribes |
| Olia.IncreaseIsPrescribed | mpquic_trans/congestion/olia.go:63-82 | unless a product overflows, the scaled integer arithmetic of an ACK is the increase OLIA prescribes, the part of the rate and the share divided by the window, rounded towards zero |
| Olia.WindowMovesByOne | mpquic_trans/congestion/olia.go:84-92 | exactly when the count reaches a whole packet the window moves, by one |
| OliaSenders.GetRate | mpquic_trans/congestion/olia_sender.go:157-173 | the squared sum over all paths, in whatever order they are visited, with the 64-bit wrap-around |
| OliaSenders.OliaSender.OnPacketAcked | mpquic_trans/congestion/olia_sender.go:239-290 | slow start or coupled growth, with the share and the rate just computed from all paths |
| OliaSenders.OliaSender.OnPacketLost | mpquic_trans/congestion/olia_sender.go:292-345 | the class does the value-level step, which OliaRules.BacksOffOnce shows to back off once for all losses of packets sent before |
| OliaRules.BacksOffOnce | mpquic_trans/congestion/olia_sender.go:292-345 | of all losses of packets sent before a back-off, in any order and number, only the first backs off |
| OliaRules.LossBacksOff | mpquic_trans/congestion/olia_sender.go:313-345 | a loss of a later packet sets window and threshold to the backed-off window, or one packet less in slow start with large reductions, but at least two, and begins a new interval between losses |
| OliaRules.LossIsKnown | mpquic_trans/congestion/olia_sender.go:292-312 | an earlier one leaves the window alone, except with large reductions after a back-off in slow start, where it takes one packet off exactly when it is the first or completes another segment of lost bytes |
| OliaRules.BackoffIs | mpquic_trans/congestion/olia_sender.go:435-442 | the backed-off window of n emulated connections is the window times (n - 0.3) / n, rounded down |
| OliaRules.AckMoves | mpquic_trans/congestion/olia_sender.go:239-290 | an ACK leaves the window alone while losses are repaired, while less than the window is used, and at the maximum; adds one packet in slow start; and moves it by at most one otherwise |
| OliaRules.TimeoutStartsOver | mpquic_trans/congestion/olia_sender.go:354-370 | a timeout that retransmits leaves two packets, half the window as threshold and no counts; any timeout ends the repair |
| OliaRules.WhoGains | mpquic_trans/congestion/olia_sender.go:215-236 | a path gains exactly if it is best and below the largest window, and loses exactly if it has the largest window and some path gains |
| OliaRules.RateIsSumOfWindows | mpquic_trans/congestion/olia_sender.go:157-173 | with equal round-trip times the rate is one more than the scaled sum of all windows, squared |
| OliaRules.RateTermIs | mpquic_trans/congestion/olia_sender.go:163-170 | a path adds its scaled window times the ratio of the round-trip times, rounded down, and nothing while its own is unknown |
| OliaSenders.OliaSender.OnRetransmissionTimeout | mpquic_trans/congestion/olia_sender.go:354-370 | the window falls to the minimum when packets were retransmitted |
| RtmpRoundTrip.MessagesArrive | mpquic_trans/liveproxy/protocol/rtmp/core/conn.go:48-87 | any sequence of messages of up to 500 * 1024 bytes on any chunk streams is read back in order from what was written, empty ones excepted, with both chunk sizes in lockstep and nothing left over, if control messages hold the number they are for and announcements of a chunk size fit one chunk or change nothing |
| RtmpRoundTrip.FourIsEnough | mpquic_trans/liveproxy/protocol/rtmp/core/conn.go:82-133 | that is so when chunk sizes are at least four and announcements have four bytes |
| RtmpRoundTrip.WindowIsReadIff | mpquic_trans/liveproxy/protocol/rtmp/core/conn.go:127-133 | a Window Ack Size message is read if and only if it has at least four bytes |
| RtmpRoundTrip.ShortWindow | mpquic_trans/liveproxy/protocol/rtmp/core/conn.go:130-132 | a Window Ack Size message of one byte, which is written but not read |
| RtmpRoundTrip.MessageReads | mpquic_trans/liveproxy/protocol/rtmp/core/chunk_stream.go:38-225 | one message, cut into chunks, is read back whole, extended timestamps included |
| RtmpRoundTrip.AnnouncementArrives | mpquic_trans/liveproxy/protocol/rtmp/core/conn.go:82-133 | a Set Chunk Size message of any length from four, itself cut with the size it announces, arrives at a reader that expects it in one chunk if and only if that size is at least its length |
| RtmpRoundTrip.GarbledAnnouncement | mpquic_trans/liveproxy/protocol/rtmp/core/conn.go:82-87 | announcing a chunk size of one: another message is read |
| RtmpRules.InterleavedArrive | mpquic_trans/liveproxy/protocol/rtmp/core/conn.go:48-80 | a message that comes while another is in progress arrives whole, and so does the other after it, if the reader tells their chunk streams apart |
| RtmpRules.OtherMessageReadsIff | mpquic_trans/liveproxy/protocol/rtmp/core/conn.go:49-66 | it is read if and only if their chunk stream IDs differ in the first byte of the header |
| RtmpRules.SharedEntry | mpquic_trans/liveproxy/protocol/rtmp/core/conn.go:49-66 | chunk streams 64 and 65 are written differently but share one entry |
| RtmpRules.DeltaHeaderReads | mpquic_trans/liveproxy/protocol/rtmp/core/chunk_stream.go:150-163 | format 1: the time counts from the message before, the message stream stays |
| RtmpRules.LongMessageFails | mpquic_trans/liveproxy/protocol/rtmp/core/chunk_stream.go:31-36 | a message longer than a block of the pool is not read |
| RtmpRules.ShortHeaderReads | mpquic_trans/liveproxy/protocol/rtmp/core/chunk_stream.go:164-175 | format 2: length and type stay as well |
| RtmpRules.RepeatedHeaderReads | mpquic_trans/liveproxy/protocol/rtmp/core/chunk_stream.go:176-205 | format 3 without a message in progress: the time goes on by the same delta, or stays after a whole timestamp |
| RtmpRules.TimestampMayBeMissing | mpquic_trans/liveproxy/protocol/rtmp/core/chunk_stream.go:194-205 | within a message four bytes are skipped exactly if the timestamp was extended and they are it |
| RtmpRules.VideoHeader | mpquic_trans/liveproxy/protocol/rtmp/core/chunk_stream.go:38-81 | all bytes of the headers of a video message |
| RtmpRules.LateHeader | mpquic_trans/liveproxy/protocol/rtmp/core/chunk_stream.go:38-81 | all bytes of the headers of an audio message with an extended timestamp |
| RtmpRules.MediaHaveStreams | mpquic_trans/liveproxy/protocol/rtmp/core/chunk_stream.go:83-121 | audio is written on chunk stream 4, video and data messages on 6, everything else on its own |
| RtmpRules.AnnouncementIsHeeded | mpquic_trans/liveproxy/protocol/rtmp/core/conn.go:127-133 | chunk size and window become the numbers their announcements begin with, and no other message changes them |
| RtmpRules.AcksAddUp | mpquic_trans/liveproxy/protocol/rtmp/core/conn.go:135-146 | over any messages of less than 2^32 bytes, what was acknowledged and what is outstanding add up to what was read; each acknowledgement is of at least a window, and less than one is outstanding |
| RtmpConn.Conn.Write | mpquic_trans/liveproxy/protocol/rtmp/core/conn.go:82-87 | appends the chunks of the message, cut with the size it announces if it does; fails where the source panics |
| RtmpConn.Conn.WriteChunk | mpquic_trans/liveproxy/protocol/rtmp/core/chunk_stream.go:83-121 | the loop writes header and data of every chunk and nothing after the last, and fails for a chunk size of zero |
| RtmpConn.Conn.ReadNext | mpquic_trans/liveproxy/protocol/rtmp/core/conn.go:48-80 | reads the message that the value-level reader reads, hands over its buffer, heeds it, and writes an acknowledgement exactly when the window is used up; every buffer handed over before keeps its message |
| RtmpConn.Conn.StillHeld | mpquic_trans/liveproxy/utils/pool/pool.go:10-18 | at any point of a connection the buffer of every message handed over holds that message |
| RtmpConn.ReadInto | mpquic_trans/liveproxy/protocol/rtmp/core/chunk_stream.go:123-225 | a chunk is read into the buffer of its message, a new one when the message begins, and no other buffer changes |
| RtmpConn.OneFilled | mpquic_trans/liveproxy/protocol/rtmp/core/conn.go:48-80 | filling the buffer of one chunk stream leaves all others, and all messages handed over, as they were |
| RtmpConn.Conn.HandleControlMsg | mpquic_trans/liveproxy/protocol/rtmp/core/conn.go:127-133 | takes over an announced chunk size or window, and fails for one that is too short |
| RtmpConn.Conn.Ack | mpquic_trans/liveproxy/protocol/rtmp/core/conn.go:135-146 | counts what was read modulo 2^32 and acknowledges when the window is reached |
| RtmpConn.Pool.Get | mpquic_trans/liveproxy/utils/pool/pool.go:10-18 | a slice handed out never overlaps any slice handed out before |

## Left out

- Sockets, goroutines, mutexes, deadlines, logging and the session loop: only the sequential calls they make are modelled.
- Cryptography and the handshake: sealing adds a constant overhead, and handshake parameters are inputs; packets below the forward-secure level and the crypto stream's own framing are not modelled.
- Path selection by the schedulers, the learned model and the per-ACK quotas: a step may use any path.
- Closing of paths, the choice of a version, CONNECTION_CLOSE and CLOSE_PATH frames: no state of the modelled parts depends on them beyond ending a session or a path.
- `PackPing`, `PackAckPacket`, `packCryptoPacket` and `PackHandshakeRetransmission`: the same pieces as `composeNextPacket` with fewer choices.
- Round-trip time estimates and alarm times: their values are inputs of the steps that use them.
- Cubic, PRR, hybrid slow start, pacing and statistics counters: not needed by any property here.
- HLS, FLV, TS and AMF handling, queues and the HTTP interface of the live proxy: media plumbing.
- Move and list-append operations of the ring list: unused. The sorter and the packet histories use sequences where the source uses such lists; `RingList` proves that the list behaves like one.
- 64-bit counters of bytes and packets are natural numbers; wrap-around is written out where the code subtracts or multiplies without comparing first.
- Retransmission.GetRetransmission: the queues and the framer are values of a World, not objects, and control frames that are sent again (window updates, PATHS) are not tracked.
- Retransmission.NothingIsForgotten: covers data handed out by data streams; packets of the handshake are excluded, as is what a closed path still holds.
- Retransmission.HandedOutIsGiven: what a write whose deadline passed had handed out before counts as given, although the source reports that nothing was written.
- FlowProgress.SenderCanGoOn: says how much may be sent once the updates have arrived, not when they do.
- StreamFramers.Stream.Write: does not wait until the data is taken.
- FlowProtocol.NoViolation: data flows in one direction while the other direction does anything; the crypto stream, which is not accounted for, is excluded.
- AckProtocol.AcksAreSound: one path and one direction; a step in which the receiver has too many ranges, or cannot write its ACK, ends the session and is no step.
- Olia.BackoffShrinks: in the class the back-off factor is a real number where the source uses single precision; Olia.RoundedBackoffShrinks covers the rounding.
- OliaRules.BackoffIs: the factor is exact, where the source rounds it to single precision.
- OliaSenders.FindBest: promises the greatest ratio only when all round-trip times are known and no product overflows; otherwise the order decides, as OliaCoupling.OrderMatters shows.
- RtmpConn.Conn.ReadNext: what the source panics at is an error here, and says nothing about the state left behind.
- RtmpRoundTrip.AnnouncementArrives: a reader whose own chunk size is below the length of the announcement is not covered; what it reads then depends on the bytes that follow.
- PublicHeaders.RoundTrip: the version is known to the reader; headers that cannot be written, and a nonce with a version or reset flag, which the parser does not read, are excluded.
