# Verified model of the olcrtc tunnel core

olcrtc carries a byte tunnel over video rooms that lose, repeat, reorder and broadcast. This project
models the protocol pieces of its Go core and proves what they guarantee over whole runs. Each
component has a specification on values, an imperative form (classes, arrays, loops) proved against
it where the source works in place, and theorems about every run of the specification.

| component | modules |
|---|---|
| fragments, acks, retransmission and reassembly between two parties | `Reassembly`, `ReassemblyProperties`, `ReassemblerImpl`, `FrameCodec`, `AckTracking`, `WindowTight`, `Delivery`, `DeliveryProofs`, `EvictionRun` |
| RTP reorder buffer and VP8 frame assembly | `ReorderBuffer`, `ReorderProofs`, `BufferMap`, `StreamOrder`, `OrderNeeded`, `ReorderImpl`, `FrameAssembly`, `Reader` |
| anti-replay cache | `Replay` |
| H.264 SEI codec | `SeiCodec`, `SeiImpl` |
| batching writer, wire format, room routing and peer table | `EpochHeader`, `WirePath`, `WireImpl`, `Routing`, `PeerTable`, `PeerRace`, `PeerControl` |
| byte stream over pooled buffers | `PooledStreams`, `MuxConn` |
| liveness and reconnect supervision | `Liveness`, `Reconnect` |
| bytes and fixed-width integers | `Bytes` |

`dafny verify dfyconfig.toml` checks everything.

Assumptions and inputs. Checksums are arbitrary functions: no theorem assumes that they are free of
collisions. Time is an integer passed in; goroutines are interleavings of atomic steps, one step per
lock or channel operation. KCP, smux, the RTP library and encryption are outside: the VP8 depacketizer
is a function parameter, decryption is the optional plaintext given to a push, and the outcome of a
reconnect call is part of a script. In `Delivery` a frame once sent can arrive any number of times,
at any later moment or never, and anything that the receiving side rejects can be added.

Results that differ from a first reading of the source:

- A packet that arrives 0x8000 or more ahead of the lowest missing one is taken for an old one and
  lost, so the reorder buffer restores order under one more condition than its window of 256;
  `ReorderProofs.InOrderIffTimely` states the exact condition and `FarAheadIsLost` an input that needs it.
- A packet late by most of a cycle of the sequence space is taken for a new one: deliveries then leave
  the order of the stream and a frame can mix packets that are a cycle apart. `StreamOrder` proves the
  order of every run in which this does not happen, and `OrderNeeded` that each time it does happen
  the order can be broken.
- A message can be acknowledged in full and never delivered when its open entry is evicted or reset
  between its fragments. The end-to-end theorem says exactly when, and `EvictionRun` gives a run.
- A control KCP that is started after its session was closed is never closed; `PeerControl` states
  exactly when that happens and gives an interleaving.
- Without batching, a packet that happens to begin with the batch magic is split as a batch. With
  batching, a packet over 65535 bytes is skipped. `WirePath` proves conservation for all other packets
  and loss for these.
- The failure window of the reconnect supervisor does not slide; `Reconnect.LimitIffWindowFull` states
  exactly when the limit is reached.
- A read of a connection returns no bytes and no error when the only queued frames are empty ones,
  although the comment on Read promises at least one byte. The model follows the code.
- The comment on the delivered messages speaks of a reset at the cap; the code rotates two
  generations, and so does the model.

## Model

| member | source | states |
|---|---|---|
| `DeliveryProofs.SendReturnsNilDelivered` | native/olcrtc/internal/transport/common/sender.go:63-206 | In every run over a network that loses, repeats, reorders and adds frames, a message whose Send returned nil has been handed over with exactly its bytes if and only if no fragment of it is lost, that is, dropped from its open entry by an eviction or a reset and not stored again. |
| `EvictionRun.SentYetUndelivered` | native/olcrtc/internal/transport/common/common.go:249-269 | Such a loss happens: a run in which Send returns nil for a message and the receiver has never handed anything over. |
| `DeliveryProofs.OnlySentOnceInWindow` | native/olcrtc/internal/transport/common/sender.go:182-206 | In every run, everything handed over is a message that was sent, with its own bytes; and since the last reset two deliveries of one message are more than `maxRecent` deliveries apart. |
| `DeliveryProofs.AllAckedConfirmed` | native/olcrtc/internal/transport/common/ack.go:100-104 | When every fragment of a message is acknowledged, every fragment of it is stored, delivered or lost. |
| `DeliveryProofs.ConfirmedDelivered` | native/olcrtc/internal/transport/common/common.go:281-293 | Such a message has been delivered unless one of its fragments is lost, because a complete entry never stays open. |
| `DeliveryProofs.AckedSecure` | native/olcrtc/internal/transport/common/sender.go:182-206 | Whenever a fragment is answered with an ack, the receiver holds that fragment or has delivered its message. |
| `DeliveryProofs.ReceiveExtends` | native/olcrtc/internal/transport/common/common.go:196-214 | No later fragment takes that away from any acknowledged fragment: it stays stored, or its message is delivered, or it is recorded as lost until it is stored again. |
| `DeliveryProofs.ReceiveKeepsLost` | native/olcrtc/internal/transport/common/common.go:196-214 | The record is true: a lost fragment is not stored and its message is not delivered. |
| `DeliveryProofs.StepKeeps` | native/olcrtc/internal/transport/common/sender.go:63-206 | Every step of sender, receiver and network keeps the system invariant. |
| `DeliveryProofs.RunInv` | native/olcrtc/internal/transport/common/sender.go:63-206 | The system invariant holds in every reachable state of every run with fewer than 2^32 sends. |
| `DeliveryProofs.SendNeverStuck` | native/olcrtc/internal/transport/common/sender.go:136-152 | A Send in progress always has a next step of its own: queue a fragment or time out. |
| `DeliveryProofs.UnackedExact` | native/olcrtc/internal/transport/common/ack.go:87-97 | A retransmission queues exactly the fragments that are not yet acknowledged, in ascending order. |
| `ReassemblyProperties.OrderIndependentReassembly` | native/olcrtc/internal/transport/common/common.go:196-314 | Fragments of a fresh message in any order, with any repetition, between arbitrary fragments of other messages, are answered Partial until the last missing one arrives, and that one delivers the original bytes, while no message is opened beyond the pending cap. |
| `ReassemblyProperties.Reassembling` | native/olcrtc/internal/transport/common/common.go:226-279 | Until then the open entry holds exactly the fragments that have arrived. |
| `ReassemblyProperties.PushOwn` | native/olcrtc/internal/transport/common/common.go:196-214 | A fragment of an open message delivers the message if and only if it was the last one missing. |
| `ReassemblyProperties.PushFrame` | native/olcrtc/internal/transport/common/common.go:249-269 | A Push touches the entry of another message only by evicting it, and never revives a forgotten one. |
| `ReassemblyProperties.EvictionLosesAcknowledged` | native/olcrtc/internal/transport/common/common.go:249-269 | With room for one open message, a fragment of a second message evicts the first: both fragments of the first are answered Partial and afterwards only its second is stored. |
| `ReassemblyProperties.DedupWindow` | native/olcrtc/internal/transport/common/common.go:216-293 | A delivered message keeps being answered Duplicate for at least `maxRecent` further deliveries, whatever else is pushed, unless a delivery reuses its number with another checksum. |
| `ReassemblyProperties.WindowBound` | native/olcrtc/internal/transport/common/common.go:281-293 | In every run both generations together hold at most `2 * maxRecent` entries, at most `maxPending` messages are open, and no open one is complete. |
| `WindowTight.WindowIsTight` | native/olcrtc/internal/transport/common/common.go:216-293 | The window is no longer than promised, for every `maxRecent`: in a run of one-fragment messages, one of them is answered Duplicate after `maxRecent` further deliveries and delivered a second time after one more. |
| `Reassembly.PushKeepsInv` | native/olcrtc/internal/transport/common/common.go:196-214 | Push keeps the caps, the exact count of missing fragments and the distinct ages of open entries. |
| `Reassembly.ChunksPartition` | native/olcrtc/internal/transport/common/common.go:38-54 | For every chunk size the chunks join to the data and respect the size; empty data is one empty chunk. |
| `Reassembly.FragmentPayload` | native/olcrtc/internal/transport/common/common.go:38-54 | The splitting loop computes exactly those chunks. |
| `Reassembly.SentFragmentValid` | native/olcrtc/internal/transport/common/common.go:96-112 | A sent fragment passes the receiver's validation if and only if its message is within the length and fragment limits. |
| `ReassemblerImpl.Assemble` | native/olcrtc/internal/transport/common/common.go:298-314 | The copying loop joins the stored fragments and cuts at the announced length. |
| `ReassemblerImpl.Reassembler.PushFragment` | native/olcrtc/internal/transport/common/common.go:196-214 | The in-place reassembler moves its three tables exactly as the model's Push, with the same answer. |
| `ReassemblerImpl.Reassembler.EvictOldestIfFull` | native/olcrtc/internal/transport/common/common.go:249-269 | The scan drops the entry added first, never the one being kept, and only above the cap. |
| `ReassemblerImpl.Reassembler.Reset` | native/olcrtc/internal/transport/common/common.go:167-174 | Reset forgets the open entries and both generations of delivered messages. |
| `FrameCodec.DataRoundTrip` | native/olcrtc/internal/transport/common/frame.go:148-209 | Decoding an encoded fragment returns its fields, truncated to their wire widths, and its payload. |
| `FrameCodec.AckRoundTrip` | native/olcrtc/internal/transport/common/frame.go:167-209 | Decoding an encoded ack returns its fields. |
| `FrameCodec.HelloRoundTrip` | native/olcrtc/internal/transport/common/frame.go:177-209 | Decoding an encoded hello returns its role and binding. |
| `FrameCodec.DecodeDeterminesBytes` | native/olcrtc/internal/transport/common/frame.go:187-259 | Whatever decodes was laid out as the encoders lay it out, up to trailing bytes that ack and hello frames ignore. |
| `FrameCodec.EncodeData` | native/olcrtc/internal/transport/common/frame.go:148-164 | Filling the buffer at its offsets gives the data layout. |
| `FrameCodec.EncodeAck` | native/olcrtc/internal/transport/common/frame.go:167-174 | Filling the buffer at its offsets gives the ack layout. |
| `AckTracking.DoneMeansAllAcked` | native/olcrtc/internal/transport/common/ack.go:100-104 | The remaining count is zero if and only if every fragment is acknowledged. |
| `AckTracking.MarkedKeepsConsistent` | native/olcrtc/internal/transport/common/ack.go:64-84 | Mark keeps the remaining count exact, sets at most its own flag, only for the right checksum and a valid index, and takes none back. |
| `AckTracking.AckWaiter.Pending` | native/olcrtc/internal/transport/common/ack.go:87-97 | The scan returns exactly the unacknowledged indices, ascending. |
| `AckTracking.AckTracker.Mark` | native/olcrtc/internal/transport/common/ack.go:64-84 | An ack reaches the waiter of its sequence number and no other. |
| `ReorderProofs.InOrderIffTimely` | native/olcrtc/internal/transport/vp8channel/rtp_reader.go:60-137 | When every packet of a stream arrives once and the lowest comes first, the buffer hands on the whole stream in order if and only if every packet arrives less than 0x8000 ahead of the lowest missing one and never more than 256 wait behind it. |
| `ReorderProofs.FarAheadIsLost` | native/olcrtc/internal/transport/vp8channel/rtp_reader.go:60-81 | The bound of 256 waiting packets alone is not enough: an arrival order in which one packet waits, 0x8000 ahead of the hole, loses it. |
| `StreamOrder.DeliveriesIncrease` | native/olcrtc/internal/transport/vp8channel/rtp_reader.go:60-137 | In every run, whatever is lost, repeated or given up, in which each accepted arrival lies within half the sequence space ahead of the next number to deliver: the packets handed on are arrivals, in strictly increasing order of the sender's own unbounded numbers. |
| `StreamOrder.CycleLateBreaksOrder` | native/olcrtc/internal/transport/vp8channel/rtp_reader.go:60-81 | The condition is needed: packet 1 arriving after packet 0x10000 is handed on after it. |
| `OrderNeeded.MistakenBreaksOrder` | native/olcrtc/internal/transport/vp8channel/rtp_reader.go:60-137 | The condition is exact: after any run that meets it, each accepted arrival outside that range makes deliveries out of order as soon as packets still missing arrive. |
| `ReorderBuffer.SeqLessIsOrder` | native/olcrtc/internal/transport/vp8channel/rtp_reader.go:33-37 | On numbers within half the space ahead of a common origin, serial comparison is a strict total order. |
| `ReorderBuffer.SkipToOldest` | native/olcrtc/internal/transport/vp8channel/rtp_reader.go:127-137 | The scan finds the oldest buffered packet, whatever order the map is visited in. |
| `ReorderBuffer.PushKeepsInv` | native/olcrtc/internal/transport/vp8channel/rtp_reader.go:60-81 | After every push at most 256 packets are buffered, all within half the space ahead of the next number, which is not among them. |
| `ReorderBuffer.StallIsBounded` | native/olcrtc/internal/transport/vp8channel/rtp_reader.go:60-81 | In every run at most 256 accepted new packets in a row can pass without a delivery. |
| `ReorderImpl.Reorderer.Push` | native/olcrtc/internal/transport/vp8channel/rtp_reader.go:60-81 | The in-place buffer delivers as the model does; each packet object ever made is pending or free, in exactly one place, and at most 257 are ever made. |
| `ReorderImpl.Reorderer.Clone` | native/olcrtc/internal/transport/vp8channel/rtp_reader.go:97-113 | A copy goes into the last free object, or into a new one only when none is free. |
| `ReorderImpl.Reorderer.Recycle` | native/olcrtc/internal/transport/vp8channel/rtp_reader.go:115-123 | A recycled object has a cleared header and payload and keeps its storage unless that exceeds the retained capacity. |
| `FrameAssembly.EmittedExactly` | native/olcrtc/internal/transport/vp8channel/rtp_reader.go:150-196 | A packet completes a frame if and only if some run of consecutively numbered packets from one start bit to its marker has an acceptable size, and then exactly those bytes are returned. |
| `FrameAssembly.Vp8FrameState.ProcessRtpPacket` | native/olcrtc/internal/transport/vp8channel/rtp_reader.go:150-196 | The in-place assembler does what the model's step does. |
| `Reader.ReaderRestoresStream` | native/olcrtc/internal/transport/vp8channel/rtp_reader.go:219-250 | For every timely arrival order that covers a stretch of the stream, with any repetition and the lowest packet first, reorder-then-assemble hands on exactly the frames of that stretch in its original order. |
| `Reader.FramesAreStreamFrames` | native/olcrtc/internal/transport/vp8channel/rtp_reader.go:219-250 | In every run, lossy or not, whose arrivals meet the condition of `StreamOrder`, each frame handed on is a frame of the sender's stream: the bytes of consecutive packets that all arrived, from one start bit to one marker. |
| `Reader.CycleLateForgesFrame` | native/olcrtc/internal/transport/vp8channel/rtp_reader.go:150-196 | Without it two packets a whole cycle apart in the stream can make a frame that was never sent. |
| `Replay.CheckRefinesSet` | native/olcrtc/internal/crypto/chacha.go:260-290 | The 64-bit bitmap refines a set: a counter is accepted if and only if it is new and less than 64 below the highest accepted one, and the bitmap then stands for the set with it. |
| `Replay.AcceptedTwiceOnlyAfterGap` | native/olcrtc/internal/crypto/chacha.go:260-304 | In every run the same prefix and counter are accepted twice only if at least 256 other prefixes were accepted between two successive accepts of that prefix. |
| `Replay.LateRecordsAccepted` | native/olcrtc/internal/crypto/chacha.go:260-290 | A counter not seen since its prefix became resident, and less than 64 below the highest, is accepted. |
| `Replay.EvictedDisplaced` | native/olcrtc/internal/crypto/chacha.go:292-304 | The evicted prefix is one that 256 others have overtaken since its last accept. |
| `Replay.AcceptKeepsInv` | native/olcrtc/internal/crypto/chacha.go:260-304 | Map and list always agree, without repetition, and hold at most 256 prefixes. |
| `Replay.RunInv` | native/olcrtc/internal/crypto/chacha.go:260-304 | In every run the list is ordered by last accept and each bitmap stands for the counters accepted since its prefix became resident. |
| `Replay.ReplayCache.AcceptRecord` | native/olcrtc/internal/crypto/chacha.go:260-290 | The in-place cache moves as the model's Accept, with the same verdict. |
| `Replay.ReplayCache.InsertPrefix` | native/olcrtc/internal/crypto/chacha.go:292-304 | Insertion evicts the back of a full list and puts the newcomer in front, in map and list together. |
| `SeiCodec.AccessUnitRoundTrip` | native/olcrtc/internal/transport/seichannel/h264.go:39-208 | For every payload, whatever its bytes, extracting from the built access unit gives exactly that payload, and nothing for the empty one. |
| `SeiCodec.UnescapeInverts` | native/olcrtc/internal/transport/seichannel/h264.go:215-242 | Unescaping inverts escaping on every input. |
| `SeiCodec.EscapedNeverEmulates` | native/olcrtc/internal/transport/seichannel/h264.go:215-231 | Escaped bytes never contain 00 00 followed by 00, 01 or 02. |
| `SeiCodec.EscapeAddsAtMostHalf` | native/olcrtc/internal/transport/seichannel/h264.go:215-231 | Escaping n bytes adds at most n/2. |
| `SeiCodec.EscapeAppend` | native/olcrtc/internal/transport/seichannel/h264.go:106-142 | Escaping may stop and resume anywhere with the count of zeros carried over. |
| `SeiCodec.ConsumeInverts` | native/olcrtc/internal/transport/seichannel/h264.go:187-208 | Reading a coded value gives back the value and the position after it. |
| `SeiCodec.ExtractStream` | native/olcrtc/internal/transport/seichannel/h264.go:58-104 | Splitting a byte stream of safe units gives back the units, in order. |
| `SeiImpl.AppendEscapedSeiRbsp` | native/olcrtc/internal/transport/seichannel/h264.go:106-113 | The streaming escaper appends exactly the two-pass escape of type, size, identifier, payload and stop byte. |
| `SeiImpl.EscapeRbsp` | native/olcrtc/internal/transport/seichannel/h264.go:215-231 | The two-pass loop computes the same escape as the model. |
| `SeiImpl.UnescapeRbsp` | native/olcrtc/internal/transport/seichannel/h264.go:233-242 | The loop that drops emulation bytes computes the model's unescape. |
| `SeiImpl.ConsumeSeiValue` | native/olcrtc/internal/transport/seichannel/h264.go:195-208 | The loop reads a coded value or reports that the data ends first. |
| `SeiImpl.ExtractTransportSei` | native/olcrtc/internal/transport/seichannel/h264.go:144-185 | The scan of messages returns exactly the payloads carried under the transport's identifier, or the error. |
| `SeiImpl.FindStartCode` | native/olcrtc/internal/transport/seichannel/h264.go:91-104 | The scan finds the first start code of three or four bytes. |
| `SeiImpl.ExtractVideoPayloads` | native/olcrtc/internal/transport/seichannel/h264.go:58-76 | The loop over units computes the model's extraction. |
| `SeiImpl.BuildVideoAccessUnit` | native/olcrtc/internal/transport/seichannel/h264.go:39-56 | The appends build the model's access unit. |
| `WirePath.WirePathConserves` | native/olcrtc/internal/transport/vp8channel/writer.go:106-281 | For any packets written and any ticks and keyframes in between, what the receiver has been handed and what the writer still holds are together exactly the packets written, in order, each once. |
| `WirePath.EverythingArrives` | native/olcrtc/internal/transport/vp8channel/writer.go:106-281 | Once writing stops, as many ticks as packets were written are enough for the receiver to have been handed every packet, in order, with nothing left behind. |
| `WirePath.SamplesBounded` | native/olcrtc/internal/transport/vp8channel/writer.go:245-281 | Every sample written in a run stays within 60 KiB when each packet does with its headers, whether or not the packet survives the path. |
| `WirePath.SingleFrameExact` | native/olcrtc/internal/transport/vp8channel/wire.go:50-77 | A frame sent unbatched arrives intact if and only if its packet does not begin with the batch magic. |
| `WirePath.UncarriedPacketIsLost` | native/olcrtc/internal/transport/vp8channel/writer.go:236-304 | The condition of conservation is exact: a packet that begins with the batch magic without batching, or exceeds 65535 bytes with it, is not what the receiver gets. |
| `WirePath.BatchReceived` | native/olcrtc/internal/transport/vp8channel/wire.go:57-77 | Splitting a batch and checking each packet's checksum gives back the packets put in. |
| `WirePath.DeliverChecked` | native/olcrtc/internal/transport/vp8channel/kcpconn.go:154-176 | A packet with its checksum trailer passes the check and loses the trailer. |
| `WireImpl.SplitKcpPayload` | native/olcrtc/internal/transport/vp8channel/wire.go:57-77 | The loop over the shrinking rest hands on the model's packets in order. |
| `WireImpl.Writer.BatchSampleFrom` | native/olcrtc/internal/transport/vp8channel/writer.go:245-281 | The filling loop gives the model's sample, carry-over and remaining queue; a frame that cannot be batched is returned as it is. |
| `WireImpl.Writer.OnTick` | native/olcrtc/internal/transport/vp8channel/writer.go:106-134 | One tick of the writer is one tick of the model. |
| `WireImpl.Writer.WriteTo` | native/olcrtc/internal/transport/vp8channel/kcpconn.go:229-265 | A write queues header, packet and checksum. |
| `EpochHeader.HeaderRoundTrip` | native/olcrtc/internal/transport/vp8channel/epoch.go:23-52 | A built header parses back to its token and epochs, whatever follows it. |
| `Routing.RoutingIsolation` | native/olcrtc/internal/transport/vp8channel/inbound.go:11-75 | Over every run with any number of clients, joins, epoch rotations and repeated or delayed frames: a client is handed only what the server addressed to it, on the plane it was sent on; the server hands what a client sent only to that client's own data or control session. |
| `Routing.AddressedFrameArrives` | native/olcrtc/internal/transport/vp8channel/inbound.go:11-75 | A nonempty frame reaches the client it is addressed to under its current epoch: on the control plane always, on the data plane once the client has confirmed the server epoch it comes from. |
| `Routing.ClientFrameArrives` | native/olcrtc/internal/transport/vp8channel/inbound.go:103-112 | A client's nonempty frame reaches its own session at the server unless it is addressed to a server epoch given up since. |
| `Routing.ClientHearsOnlyServer` | native/olcrtc/internal/transport/vp8channel/inbound.go:50-75 | Whatever a client takes from the shared medium was sent by the server to that client on that plane. |
| `Routing.ServerHearsOwner` | native/olcrtc/internal/transport/vp8channel/control.go:81-106 | Whatever the server takes from the shared medium came from the client whose session it feeds. |
| `Routing.StepKeeps` | native/olcrtc/internal/transport/vp8channel/transport.go:349-408 | Sends, hearings, confirmations, joins and rotations keep epochs owned by one party and every frame on the medium truthfully addressed. |
| `PeerRace.PeerTableSafe` | native/olcrtc/internal/transport/vp8channel/peers.go:118-298 | In every interleaving of first contacts, sweeps, evictions and shutdown: at most 64 sessions, one per epoch; a session neither in the table nor held in the middle of a step has been closed exactly once and any other not at all; a closed table stays empty. |
| `PeerRace.CallersConverge` | native/olcrtc/internal/transport/vp8channel/peers.go:254-298 | When two calls for one epoch return `a` and later `b`, they are the same session if and only if `a` stayed in the table all the while; and no later call returns an older session. |
| `PeerRace.LeavesForGood` | native/olcrtc/internal/transport/vp8channel/peers.go:139-163 | A session that has left the table never comes back. |
| `PeerRace.AddFailsOnlyWhenClosed` | native/olcrtc/internal/transport/vp8channel/peers.go:139-163 | The refusal of a second session for an epoch is a backstop that no interleaving reaches. |
| `PeerRace.StepKeeps` | native/olcrtc/internal/transport/vp8channel/peers.go:118-298 | Each goroutine's step keeps every session in exactly one place and creation serialised. |
| `PeerControl.ControlLeaksIffClosedBefore` | native/olcrtc/internal/transport/vp8channel/peers.go:303-339 | In every interleaving, once a session has been closed, its control KCP still runs if and only if the session had been closed before the control KCP was started under the session's lock. |
| `PeerControl.HeldSince` | native/olcrtc/internal/transport/vp8channel/peers.go:303-307 | A goroutine that waits for that lock got its session from a lookup at which the session was open; so such a close falls between the lookup and the lock. |
| `PeerControl.SweepBetweenLeaks` | native/olcrtc/internal/transport/vp8channel/peers.go:303-339 | It happens: a sweep between the two leaves a control KCP that nothing closes. |
| `PeerControl.ClosesStep` | native/olcrtc/internal/transport/vp8channel/peers.go:75-90 | The table closes each session at most once. |
| `PeerTable.Peers.Get` | native/olcrtc/internal/transport/vp8channel/peers.go:118-128 | A lookup returns the installed session and refreshes it alone. |
| `PeerTable.Peers.Add` | native/olcrtc/internal/transport/vp8channel/peers.go:139-163 | An add fails if and only if the table is closed or the epoch present; otherwise it installs the session, evicting the least recently used one from a full table. |
| `PeerTable.Peers.EvictOldest` | native/olcrtc/internal/transport/vp8channel/peers.go:166-185 | The scan drops a least recently seen session. |
| `PeerTable.Peers.Sweep` | native/olcrtc/internal/transport/vp8channel/peers.go:188-208 | A sweep removes and returns exactly the sessions last seen before the cutoff. |
| `PeerTable.Peers.CloseAll` | native/olcrtc/internal/transport/vp8channel/peers.go:212-222 | Closing empties the table, returns every session in it and marks it closed. |
| `PooledStreams.ByteStreamFidelity` | native/olcrtc/internal/muxconn/conn.go:264-383 | In every interleaving of any number of connections sharing one buffer pool, on every open connection the bytes read, the rest of the current buffer and the queued buffers are together exactly the accepted plaintexts, in order. |
| `PooledStreams.NoBufferShared` | native/olcrtc/internal/muxconn/conn.go:111-132 | In every run, closes included, no buffer is in two places, on one connection or across connections, and none is in the pool twice. |
| `PooledStreams.StepKeeps` | native/olcrtc/internal/muxconn/conn.go:264-471 | Each step of a push, a read or a close keeps every buffer with one owner and its contents true. |
| `MuxConn.Conn.Read` | native/olcrtc/internal/muxconn/conn.go:314-353 | A read fills the caller's buffer with as many unread bytes as there are, at least one as soon as any is there, leaves the rest of it alone, and reports the end exactly when no frame is held; what it copied and what remains are what there was. |
| `MuxConn.Conn.Push` | native/olcrtc/internal/muxconn/conn.go:264-282 | A decrypted frame is appended whole to the stream, or the stream stays as it is when decryption failed or the connection is closed; no buffer is held and pooled at once. |
| `MuxConn.Conn.Close` | native/olcrtc/internal/muxconn/conn.go:453-471 | The first close gives every queued buffer back and keeps what is left of the current one; later ones change nothing. |
| `MuxConn.Conn.RecycleIfDrained` | native/olcrtc/internal/muxconn/conn.go:378-383 | Only a buffer read to its end goes back, and the stream stays what it is. |
| `MuxConn.FramePool.Acquire` | native/olcrtc/internal/muxconn/conn.go:111-119 | An acquired buffer is empty and no longer in the pool. |
| `MuxConn.FramePool.Release` | native/olcrtc/internal/muxconn/conn.go:121-132 | A released buffer is pooled unless it has grown beyond twice the usual capacity. |
| `Liveness.PingAccounting` | native/olcrtc/internal/control/control.go:237-297 | In every run each ping sent is pending, answered or expired, and the failure count is the number expired since the last matched pong. |
| `Liveness.PendingExact` | native/olcrtc/internal/control/control.go:237-297 | A ping is pending if and only if no pong for it came after it and no later tick found it late; and its send time is kept. |
| `Liveness.NoFalseAlarm` | native/olcrtc/internal/control/control.go:237-260 | No run whose pings are all answered before they expire goes unhealthy. |
| `Liveness.DetectionBound` | native/olcrtc/internal/control/control.go:237-276 | With ticks at least an interval apart and no further matched pong, unhealthy is declared within ceil(Timeout/Interval) + Failures ticks. |
| `Liveness.SilentPeerDetectedExactly` | native/olcrtc/internal/control/control.go:237-276 | That bound is met with equality: a peer that never answers is declared dead at exactly that tick. |
| `Liveness.WithDefaults` | native/olcrtc/internal/control/control.go:113-124 | Each positive setting is kept and each other one becomes its default, so that every configuration is usable. |
| `Liveness.ControlState.SendProbe` | native/olcrtc/internal/control/control.go:237-276 | The loop over the pending map expires exactly the late pings, then either reports unhealthy or sends the next ping. |
| `Liveness.ControlState.HandlePong` | native/olcrtc/internal/control/control.go:278-297 | A pong that matches clears its ping and the failure count; any other changes nothing. |
| `Reconnect.LimitIffBurst` | native/olcrtc/internal/engine/reconnect.go:152-207 | Counting requests, the limit is reached if and only if some maxAttempts + 1 attempts in a row start at most five minutes after one another before any shutdown, whatever their outcomes, and on the first such attempt, in place of its reconnect call. |
| `Reconnect.RequestBound` | native/olcrtc/internal/engine/reconnect.go:152-173 | Attempts at most five minutes apart make at most maxAttempts reconnect calls, successes or not, and unless shutdown comes first the next attempt ends the supervisor. |
| `Reconnect.LimitOnlyAfterFailures` | native/olcrtc/internal/engine/reconnect.go:175-226 | Counting failures, the limit is reached only after maxAttempts + 1 failed attempts in a row, checked within five minutes of the first of them. |
| `Reconnect.LimitIffWindowFull` | native/olcrtc/internal/engine/reconnect.go:175-233 | And exactly at the first attempt before any shutdown whose window, opened by a failure and closed by a success or a late check, already holds more than maxAttempts failures. |
| `Reconnect.FailureBound` | native/olcrtc/internal/engine/reconnect.go:175-195 | When every attempt fails and is checked within five minutes of the first failure, at most maxAttempts + 1 reconnect calls are made, and exactly that many unless shutdown comes first. |
| `Reconnect.WindowDoesNotSlide` | native/olcrtc/internal/engine/reconnect.go:209-226 | The window does not slide: three failures in a row within five minutes pass a limit of two when an older window closes in between. |
| `Reconnect.SuperviseIsFlat` | native/olcrtc/internal/engine/reconnect.go:130-150 | Serving request after request is one loop over attempts. |
| `Reconnect.Reconnector.HandleRequestAttempt` | native/olcrtc/internal/engine/reconnect.go:152-173 | The request-counting loop does what the model does and drains the queue exactly on success. |
| `Reconnect.Reconnector.HandleFailureAttempts` | native/olcrtc/internal/engine/reconnect.go:175-195 | The failure-counting loop does what the model does and drains the queue exactly on success. |
| `Reconnect.Reconnector.Watch` | native/olcrtc/internal/engine/reconnect.go:130-143 | The supervisor serves requests until one of them ends it. |
| `Reconnect.Reconnector.Request` | native/olcrtc/internal/engine/reconnect.go:117-127 | A request is rejected, takes the one queue slot, or is coalesced into the request that holds it. |
| `Reconnect.Backoff` | native/olcrtc/internal/engine/reconnect.go:292-298 | The wait is two seconds per attempt up to fifteen attempts and thirty seconds from then on. |

## Left out

- AEAD sealing and opening, key derivation, record layout and the atomic send counter: foreign cryptography around one increment.
- Ack timeout arithmetic, tickers and deadlines: a timeout is a step that may happen at any moment.
- KCP, smux, RTP parsing and the VP8 depacketizer: foreign; `FrameAssembly` takes the depacketizer as a function.
- Capacities and blocking of the outbound queues, and the loss of KCP packets when the inbound channel is full: the wire path assumes that writes succeed and that there is space inbound.
- The control queue's own drain and the per-peer writer pump: the same batching loop as the data queue.
- Recycling of packet buffers in the writer and in the KCP connection: packets are values there.
- Peer restart detection from a changed epoch: it only triggers a callback.
- Epoch reuse: a rotation always takes an epoch that nobody has used, where the source draws one at random until it differs from its own last one.
- Wrap-around of the 64-bit counter that orders open messages: modelled as unbounded.
- The linked list of the replay cache: a sequence with the same order.
- Slices of one array shared between messages: payloads are values, except for the pooled buffers of `PooledStreams` and `MuxConn` and the packet objects of `ReorderImpl`.
- The order of bytes read after a close: frames still queued are dropped then; buffer ownership is proved for closed connections too.
- Writing to a connection, decrypt-failure logging and status callbacks: plumbing.
- JSON framing of control messages, the handshake, SOCKS, configuration, engines, authentication, the mobile bindings, the older copy of the VP8 channel and the Android application: easy members or interface code.
- WindowTight.WindowIsTight: for caps below 2^31, because message numbers are 32-bit.
- Liveness.DetectionBound: assumes ticks at least an interval apart, because a late receiver of a Go ticker can see two ticks closer together.
- Liveness.PendingExact: runs have fewer than 2^64 events, because ping numbers are 64-bit.
- DeliveryProofs.SendReturnsNilDelivered: runs have fewer than 2^32 sends and the message fewer than 2^32 bytes, because sequence numbers and lengths are 32-bit on the wire.
