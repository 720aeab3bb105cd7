# Fast In Balance: verified core

This project models the hard parts of the Go implementation of Fast In Balance, a networking
library with an event engine, an adaptive task pool, WebSocket, HPACK and a QUIC stack of its own,
and proves what they promise. Everything is Dafny 4.11; `dafny verify dfyconfig.toml` checks it.

The models follow one pattern. A component that updates fields in place is a `class` with those
fields, and each of its methods is proved equal to a function on values. What every call keeps is
proved about the functions, and what every run keeps is proved about a state machine whose steps are
those functions. Concurrency is modelled by steps: one step for each region under a mutex, for each
signal, for each goroutine start, and for whatever the network or the socket decides, in any order.

| part | modules |
|---|---|
| QUIC send and receive buffers, and a whole stream over a bad network | `QuicSpans`, `QuicSendBuffer`, `QuicRecvBuffer`, `QuicStreamRun`, `QuicStreamProgress` |
| QUIC loss recovery, congestion control and sending-side flow control | `QuicStreamSend`, `QuicPackets`, `QuicHeld`, `QuicDraft`, `QuicSender`, `QuicSenderRun`, `QuicRecovery`, `QuicCongestion`, `QuicLoss`, `QuicWire`, `QuicStreamEnds`, `QuicSenderProgress` |
| QUIC integers, ACK ranges and ACK frames | `QuicVarint`, `QuicAck`, `QuicAckRun`, `QuicAckFields` |
| QUIC receiving-side flow control, packet numbers, stream table | `QuicStreamRecv`, `QuicReceiver`, `QuicAdmission`, `QuicArrival`, `QuicWindows`, `QuicPacketNumber`, `QuicPeerStreams`, `QuicStreamLookup` |
| Poly1305 on three 64-bit limbs | `Poly1305`, `Words`, `LittleEndian` |
| the adaptive task pool | `TaskPool`, `TaskPoolRun`, `TaskPoolSafety`, `TaskPoolTheorems`, `TaskPoolSize`, `TaskPoolRetire`, `TaskPoolProgress` |
| HPACK with its Huffman code and real tables | `Bits`, `Huffman`, `HuffmanEncoder`, `HuffmanDecoder`, `HuffmanTiling`, `HuffmanTable`, `HpackInt`, `HpackString`, `HpackTable`, `HpackCodec`, `HpackSync`, `Hpack`, `HpackCoders`, `HpackExchange`, `HpackSecrets`, `HpackChoice`, `HpackBlocks` |
| WebSocket frames, masks and UTF-8, with borrowed reads | `Utf8`, `Utf8Scalars`, `WsMask`, `WsFrame`, `WsParser`, `WsMarshal`, `WsMessage` |
| the output queue of a connection and the budget of the engine | `SendQueue`, `SendQueueRun`, `SendQueueConn`, `SendQueueClose` |
| shared | `Arithmetic`, `Bytes` |

Functions that a proof needs only through a few facts are passed as parameters: the integer coder
into the ACK parser (`put`, `take`), the credit rule into the receiving stream (`use`), the byte
mixer into the WebSocket parser (`xor`), the string and integer coders into HPACK (`Wire`). A
predicate beside each says which concrete function it is.

What the code does that its promises do not cover:

- A resize of the task pool that raises the ceiling over a backlog can leave a task queued below the
  new ceiling with no worker coming (`TaskPoolTheorems.ServedKept` has the exact condition,
  `TaskPoolTheorems.ResizeLeavesBacklog` five steps that show it).
- A resize that lowers the floor can leave workers parked above it and asked to leave, with nothing to tell
  them, until the next shrink asks anew (`TaskPoolRetire.HeardKept` has the exact condition,
  `TaskPoolRetire.RequestStaysOpen` nine steps that show it).
- An encoder that is not told of a decoder limit below 4096 can refer to entries that the decoder could
  not keep (`HpackSync.AlwaysInStep` has the exact condition, `HpackSync.UntoldFails` the failing family).
- A packet number can be accepted twice once its range has been forgotten (`QuicAckRun.RepeatIff`,
  `QuicAckRun.AcceptedTwice`).
- A stream whose reader stopped can end with credit that the peer never gets back
  (`QuicStreamRecv.CreditAtEnd`, `QuicStreamRecv.StoppedStreamKeepsCredit`).
- `AppendVarint` silently drops bits of values from 2^62 on (`QuicVarint.DecodeEncode`), and
  `decodePN` does not step over the ends of the number space (`QuicPacketNumber.DecodePNIff`).
- The comment on `poly1305.block` says that `hibit` is 0 for a padded block. The code passes 1 for
  every block, which is what the AEAD construction of RFC 8439 needs; the model follows the code.

## Model

| member | source | states |
|---|---|---|
| `QuicSpans.AddSpan` | go/http3/internal/quic/buffer.go:8-28 | the binary search, the scan and the splice give the canonical list (sorted, disjoint, not touching) that covers exactly the old bytes and the new ones, and equal the recursive reference `Merge` |
| `QuicSpans.SearchEnd` | go/http3/internal/quic/buffer.go:13 | the binary search separates the spans that end before the offset from the others |
| `QuicSpans.MergeSound` | go/http3/internal/quic/buffer.go:8-28 | the reference keeps lists canonical and adds exactly the bytes of the span |
| `QuicSpans.CanonicalUnique` | go/http3/internal/quic/buffer.go:8-9 | two canonical lists that cover the same bytes are equal, so byte sets determine the lists kept |
| `QuicSendBuffer.SendBuffer.Write` | go/http3/internal/quic/buffer.go:47 | appends to what is held and touches nothing else |
| `QuicSendBuffer.SendBuffer.HasLost` | go/http3/internal/quic/buffer.go:49-55 | true exactly when some byte from base on is marked lost; what it drops is acknowledged |
| `QuicSendBuffer.SendBuffer.PopLost` | go/http3/internal/quic/buffer.go:57-72 | refines the value function `PopLost`; no slice is out of bounds |
| `QuicSendBuffer.SendBuffer.PopNew` | go/http3/internal/quic/buffer.go:74-80 | refines `PopNew` |
| `QuicSendBuffer.SendBuffer.OnAck` | go/http3/internal/quic/buffer.go:82-100 | refines `OnAck` |
| `QuicSendBuffer.SendBuffer.OnLost` | go/http3/internal/quic/buffer.go:102-110 | refines `OnLost` |
| `QuicSendBuffer.PopLostSound` | go/http3/internal/quic/buffer.go:57-72 | the bytes handed out are those of the buffer at their offset, at most n, and exactly they stop being marked lost |
| `QuicSendBuffer.PopNewSound` | go/http3/internal/quic/buffer.go:74-80 | the bytes handed out are the next unsent ones, n of them or all that are left, and next moves past them |
| `QuicSendBuffer.PopLostTakes` | go/http3/internal/quic/buffer.go:57-72 | what is handed out starts at the first lost byte, stops short of n only at the end of its run, and is nothing exactly if n is zero or nothing is lost |
| `QuicSendBuffer.OnAckSound` | go/http3/internal/quic/buffer.go:82-100 | exactly the range becomes acknowledged, base moves to the first gap, and the buffer drops just the prefix before it |
| `QuicSendBuffer.OnLostSound` | go/http3/internal/quic/buffer.go:102-110 | from base on, exactly the range is added to what is lost |
| `QuicRecvBuffer.RecvBuffer.Push` | go/http3/internal/quic/buffer.go:131-147 | refines `Push`: search, shift and store keep the segments sorted and their byte count exact |
| `QuicRecvBuffer.RecvBuffer.Pop` | go/http3/internal/quic/buffer.go:149-167 | refines `Pop` |
| `QuicRecvBuffer.PushSound` | go/http3/internal/quic/buffer.go:131-147 | exactly the bytes of the frame are added, and a buffer that agrees with a stream goes on agreeing |
| `QuicRecvBuffer.PopSound` | go/http3/internal/quic/buffer.go:149-167 | what is popped are the next bytes of the stream, no byte is forgotten, and nothing is popped exactly when the next byte has not come |
| `QuicStreamRun.StepKeeps` | go/http3/internal/quic/buffer.go:30-167 | every step of sender, receiver and a network that delays, repeats, reorders and loses frames keeps the stream invariant |
| `QuicStreamRun.DeliveredIsPrefix` | go/http3/internal/quic/buffer.go:121-167 | in every run what was delivered is a prefix of what was written, and delivery stalls only at a byte that no frame has brought |
| `QuicStreamRun.AllAckedMeansAllDelivered` | go/http3/internal/quic/buffer.go:112-113 | with a peer that acknowledges only what it has, all acknowledged and nothing left to pop means delivered equals written |
| `QuicStreamProgress.AllCanBeSent` | go/http3/internal/quic/buffer.go:74-80 | in every run one send of as much as is unsent leaves next at the end, and every byte written has been on the wire |
| `QuicStreamProgress.CanFinish` | go/http3/internal/quic/buffer.go:30-167 | from every state a run reaches, an honest peer can be led to where delivered equals written, all of it acknowledged and none lost |
| `QuicStreamSend.AckedValid` | go/http3/internal/quic/stream.go:250-259 | an acknowledgement of data a stream has sent keeps the sending side well formed |
| `QuicStreamSend.LostValid` | go/http3/internal/quic/stream.go:261-270 | so does its loss |
| `QuicHeld.FrameAcked` | go/http3/internal/quic/recovery.go:267-276 | acknowledging a frame keeps every sending side well formed and what was sent unchanged, and touches only the packet number space of the frame |
| `QuicHeld.FrameLost` | go/http3/internal/quic/recovery.go:278-301 | the same for the loss of a frame |
| `QuicHeld.AckPacketsGood` | go/http3/internal/quic/recovery.go:194-204 | packets whose frames were told of the acknowledgement can be forgotten without stranding a byte, a FIN or a RESET_STREAM |
| `QuicHeld.LosePacketsGood` | go/http3/internal/quic/recovery.go:250-261 | so can packets whose frames were told of the loss |
| `QuicHeld.ProbeGood` | go/http3/internal/quic/recovery.go:420-431 | queueing again what remembered packets carry strands nothing |
| `QuicDraft.TakeOneGood` | go/http3/internal/quic/stream.go:174-248 | putting lost data, new data, a FIN, a RESET_STREAM or a control frame into a packet strands nothing |
| `QuicDraft.TakeAll` | go/http3/internal/quic/send.go:207-323 | filling a packet in any order and amount keeps that, and leaves the other spaces alone |
| `QuicDraft.TakeNewFlow` | go/http3/internal/quic/stream.go:148-154 | new data within the credit keeps both flow-control limits |
| `QuicDraft.TakeOneFlow` | go/http3/internal/quic/stream.go:174-226 | every other frame leaves the flow-control totals as they are |
| `QuicDraft.TakeOneWire` | go/http3/internal/quic/stream.go:228-248 | every frame put on the wire agrees with the final sizes announced before |
| `QuicSender.LossBooks` | go/http3/internal/quic/recovery.go:249-264 | detecting losses takes exactly their bytes and ack-eliciting packets out of the totals and keeps the window above its minimum |
| `QuicSender.TakeAckedBooks` | go/http3/internal/quic/recovery.go:160-176 | between taking acknowledged packets out of the record and booking them, the totals are off by exactly those packets |
| `QuicSender.AckBooks` | go/http3/internal/quic/recovery.go:151-214 | an ACK frame, with the loss detection in the middle of it, leaves the totals exact |
| `QuicSender.AckHeld` | go/http3/internal/quic/recovery.go:151-214 | an ACK frame strands nothing |
| `QuicSender.LossHeld` | go/http3/internal/quic/recovery.go:218-265 | loss detection strands nothing |
| `QuicSender.ProbeHeld` | go/http3/internal/quic/recovery.go:408-432 | probing strands nothing |
| `QuicSender.DiscardHeld` | go/http3/internal/quic/recovery.go:436-448 | discarding a space strands nothing of the others |
| `QuicSender.RetryHeld` | go/http3/internal/quic/conn.go:939-951 | a Retry queues again all that the forgotten Initial packets carried |
| `QuicRecovery.BackTo` | go/http3/internal/quic/recovery.go:164-166 | stepping back to the range decides membership of the packet number in all ranges |
| `QuicRecovery.ScanAcked` | go/http3/internal/quic/recovery.go:160-176 | the two-pointer scan splits the record, in order, into the packets inside some range and the others |
| `QuicRecovery.ScanLost` | go/http3/internal/quic/recovery.go:226-245 | the scan splits the record, in order: lost is exactly what is at most the largest acknowledged number and three or more behind it or not sent after the cutoff |
| `QuicRecovery.CountAcked` | go/http3/internal/quic/recovery.go:195-200 | one step of the congestion window and of the ack-eliciting count |
| `QuicRecovery.BookAcked` | go/http3/internal/quic/recovery.go:194-204 | the booking loop: frames told in order, window and count as the folds over the packets |
| `QuicRecovery.BookLost` | go/http3/internal/quic/recovery.go:249-264 | the same for losses, with at most one congestion event, dated by the last packet in flight |
| `QuicRecovery.QueueProbes` | go/http3/internal/quic/recovery.go:420-431 | the loop queues the ack-eliciting packets again, at most two of them in the application space |
| `QuicRecovery.CountSent` | go/http3/internal/quic/recovery.go:441-445 | the bytes in flight and the ack-eliciting packets of a record |
| `QuicRecovery.LosePackets` | go/http3/internal/quic/recovery.go:224-264 | detectLost on a space that has seen an acknowledgement |
| `QuicRecovery.Connection.DetectLostPackets` | go/http3/internal/quic/recovery.go:218-265 | refines `DetectLost` |
| `QuicRecovery.Connection.TakeAckedPackets` | go/http3/internal/quic/recovery.go:157-176 | refines `TakeAcked` |
| `QuicRecovery.Connection.SettleAcked` | go/http3/internal/quic/recovery.go:194-204 | refines `Settle` |
| `QuicRecovery.Connection.AckReceived` | go/http3/internal/quic/recovery.go:151-214 | refuses exactly an acknowledgement of an unsent packet, changing nothing; otherwise refines `OnAckReceived` |
| `QuicRecovery.Connection.HandleAck` | go/http3/internal/quic/recovery.go:151-214 | is the ACK step of the state machine and keeps its invariant |
| `QuicRecovery.Connection.ProbeSpace` | go/http3/internal/quic/recovery.go:408-432 | refines `Probe` |
| `QuicRecovery.Connection.DiscardOne` | go/http3/internal/quic/recovery.go:436-448 | refines `Discard` |
| `QuicRecovery.Connection.RestartInitial` | go/http3/internal/quic/conn.go:939-951 | refines `Retry` |
| `QuicSenderRun.SendKeeps` | go/http3/internal/quic/recovery.go:129-142 | sending a packet keeps the invariant, whatever it carries |
| `QuicSenderRun.StepKeeps` | go/http3/internal/quic/recovery.go:97-448 | every step (write, reset, finish, limits, send, ACK, loss timer, probe timer, discard, Retry) keeps the books, the coverage of sent data and the limits |
| `QuicSenderRun.NoByteStranded` | go/http3/internal/quic/recovery.go:128-448 | in every run each sent byte is acknowledged, queued to be sent again, or in a remembered packet; with nothing outstanding and nothing lost, all of it, the FIN and the RESET_STREAM are acknowledged |
| `QuicSenderRun.FlightIsExact` | go/http3/internal/quic/recovery.go:87-148 | in every run bytesInFlight and the ack-eliciting counts are the sums over the recorded packets, and the window stays at its minimum or above |
| `QuicSenderRun.FinalSizeIsFinal` | go/http3/internal/quic/stream.go:109-121 | in every run all final sizes a stream announces, by FIN or RESET_STREAM, are equal, and no STREAM frame goes beyond them |
| `QuicSenderRun.LimitsRespected` | go/http3/internal/quic/stream.go:147-154 | in every run new data stays within the limits of the stream and of the connection, and sentData is the sum over the streams |
| `QuicLoss.LostIff` | go/http3/internal/quic/recovery.go:218-265 | loss detection takes a packet out of the record if and only if its number is at most the largest acknowledged one and it is three or more behind it or sent lossDelay or more before now; the other spaces stay as they are |
| `QuicLoss.AckIff` | go/http3/internal/quic/recovery.go:151-214 | an ACK frame is refused if and only if it names an unsent packet; otherwise a packet stays in the record if and only if no range names it and, if the frame newly acknowledges any, it is not behind |
| `QuicLoss.AckMeansReceived` | go/http3/internal/quic/frames.go:94-114 | the ranges a peer has received and the ranges its ACK frame acknowledges here name the same packets |
| `QuicLoss.PacketsAckedBytes` | go/http3/internal/quic/recovery.go:267-276 | acknowledging packets marks exactly the bytes they carry |
| `QuicLoss.PacketsLostBytes` | go/http3/internal/quic/recovery.go:278-301 | losing packets queues exactly the bytes they carry, from base on |
| `QuicLoss.LostBytesIff` | go/http3/internal/quic/recovery.go:218-301 | loss detection queues exactly the bytes of the packets that are behind |
| `QuicLoss.ProbeBytesIff` | go/http3/internal/quic/recovery.go:408-432 | a probe queues exactly the bytes of the oldest two ack-eliciting packets, or of all of them in the handshake spaces, and forgets no packet |
| `QuicWire.NewDataGoes` | go/http3/internal/quic/stream.go:210-248 | new data goes from the first unsent byte on, as much as packet, data and both limits allow, and the frame carries FIN exactly if it reaches the end of a stream that is to end |
| `QuicWire.CryptoGoes` | go/http3/internal/quic/send.go:264-291 | handshake data goes the same way, under no limit and without FIN |
| `QuicWire.LostDataGoes` | go/http3/internal/quic/stream.go:201-209 | lost data goes again from its first byte on, to the end of its run or of the room, with FIN if it reaches the end and none is on its way |
| `QuicWire.EndGoes` | go/http3/internal/quic/stream.go:190-225 | a FIN goes alone exactly if it is due and all data has gone, a RESET_STREAM exactly if it is due |
| `QuicWire.ResetAnnounces` | go/http3/internal/quic/stream.go:109-121 | a reset announces what has been sent as the final size, unless the stream is reset or its end acknowledged |
| `QuicWire.WireIsWritten` | go/http3/internal/quic/stream.go:174-248 | in every run every STREAM frame, sent first or again, carries exactly the bytes the application wrote at its offset |
| `QuicWire.PacketRecorded` | go/http3/internal/quic/recovery.go:128-142 | in every run a packet is recorded with the next number of its space, its time and size; it elicits an acknowledgement if it carries any frame to be remembered or a PING, and is in flight if that or padded |
| `QuicStreamEnds.EndIff` | go/http3/internal/quic/stream.go:78-121 | in every run a stream is ended by a write with fin unless it was reset, reset by a call unless its end is acknowledged, and by nothing else |
| `QuicSenderProgress.AllRunsGo` | go/http3/internal/quic/stream.go:201-209 | from every state packets can be sent until nothing of a stream is queued to be sent again |
| `QuicSenderProgress.RestGoes` | go/http3/internal/quic/stream.go:210-225 | when nothing is lost and the limits allow it, one packet carries all of a stream that was not sent |
| `QuicSenderProgress.AcksEnd` | go/http3/internal/quic/recovery.go:151-214 | an acknowledgement of everything ends a stream that has all its data and its FIN sent, or its RESET_STREAM |
| `QuicSenderProgress.CanComplete` | go/http3/internal/quic/stream.go:174-307 | from every state a run reaches, a stream that was ended or reset can be brought to where all of it is acknowledged |
| `QuicCongestion.RecoveryIsQuiet` | go/http3/internal/quic/recovery.go:99-118 | over any run of acknowledgements and losses of packets sent before the recovery began, the window stays as it is |
| `QuicCongestion.CutIff` | go/http3/internal/quic/recovery.go:111-118 | losing packets halves the window, down to two datagrams, and begins a recovery if and only if the last of them in flight was sent after the recovery before it began; otherwise the window stays |
| `QuicCongestion.OneCutPerRecovery` | go/http3/internal/quic/recovery.go:111-118 | however many packets of a flight are lost, and in however many detections, the window is halved once and not below its minimum |
| `QuicCongestion.SlowStartIsExact` | go/http3/internal/quic/recovery.go:104-105 | below the threshold the window grows by exactly the bytes acknowledged |
| `QuicCongestion.AvoidanceIsLinear` | go/http3/internal/quic/recovery.go:106-108 | above it, growth times window is at most a datagram times the bytes acknowledged, over any sequence of packets |
| `QuicCongestion.OneDatagramPerWindow` | go/http3/internal/quic/recovery.go:106-108 | so one window of acknowledgements adds at most one datagram |
| `QuicCongestion.AvoidanceGrows` | go/http3/internal/quic/recovery.go:106-108 | and it is at least that but for one byte for each packet: growth plus packets, times the window reached, is at least a datagram times the bytes acknowledged |
| `QuicVarint.Length` | go/http3/internal/quic/varint.go:22-34 | is the length of the encoding |
| `QuicVarint.AppendVarint` | go/http3/internal/quic/varint.go:7-20 | appends the encoding byte by byte |
| `QuicVarint.ReadVarint` | go/http3/internal/quic/varint.go:36-51 | the loop computes the big-endian value and its length, zero if the input is too short |
| `QuicVarint.DecodeEncode` | go/http3/internal/quic/varint.go:7-51 | for every 64-bit value the reader gets it back modulo 2^62, so exactly if and only if it is at most maxVarint |
| `QuicVarint.DecodeIs` | go/http3/internal/quic/varint.go:36-51 | for arbitrary bytes: the first two bits give the length, the bits after them the value, highest first, as table 4 of RFC 9000 has it; the length is zero exactly if too few bytes are there |
| `QuicVarint.Reader.Varint` | go/http3/internal/quic/varint.go:66-75 | takes one integer off the front, or fails for good |
| `QuicAck.SearchRange` | go/http3/internal/quic/buffer.go:187 | the binary search finds the first range that the number does not lie beyond |
| `QuicAck.Add` | go/http3/internal/quic/buffer.go:180-210 | refuses exactly what is there or older than a full set; otherwise inserts, keeping ranges ascending, disjoint, not adjacent and at most 32 |
| `QuicAck.InsertMembers` | go/http3/internal/quic/buffer.go:191-204 | the reference insertion adds exactly the number |
| `QuicAck.AddedMembers` | go/http3/internal/quic/buffer.go:205-207 | what is forgotten on overflow is exactly the oldest range |
| `QuicAckRun.AddNext` | go/http3/internal/quic/buffer.go:180-210 | one call of add is one step of the runs below |
| `QuicAckRun.ArriveKeeps` | go/http3/internal/quic/buffer.go:180-210 | every arrival keeps: above the highest number ever forgotten, the ranges hold exactly what was accepted |
| `QuicAckRun.AcceptedOnce` | go/http3/internal/quic/buffer.go:180-210 | in every run of arrivals, numbers above the highest one ever forgotten are accepted at most once |
| `QuicAckRun.RepeatIff` | go/http3/internal/quic/buffer.go:180-210 | in every run, a number accepted before is accepted again if and only if it is at most the highest one forgotten, no longer held, and not below a full set |
| `QuicAckRun.AcceptedTwice` | go/http3/internal/quic/buffer.go:205-207 | a run of 35 arrivals that accepts its first number twice |
| `QuicAck.AppendAck` | go/http3/internal/quic/frames.go:94-114 | writes the frame type and the encoding of the ranges, highest first; no difference underflows |
| `QuicAck.AppendRanges` | go/http3/internal/quic/frames.go:107-113 | the loop over the lower ranges |
| `QuicAck.RangesRoundTrip` | go/http3/internal/quic/frames.go:107-113 | gaps and lengths decode to the same ranges |
| `QuicAck.AckRoundTrip` | go/http3/internal/quic/frames.go:94-114 | parsing what appendAck wrote gives back the delay and exactly the same ranges, for every list of up to 32 ranges |
| `QuicAck.NextRanges` | go/http3/internal/quic/frames.go:308-316 | the loop accepts exactly what the reference parser accepts |
| `QuicAck.HandleAckFrame` | go/http3/internal/quic/frames.go:297-324 | fails exactly on malformed frames, and the ranges it accepts descend as loss recovery needs |
| `QuicAck.AcceptedRangesOk` | go/http3/internal/quic/frames.go:297-324 | for arbitrary bytes, accepted ranges are non-empty, ordered and not adjacent: the precondition of `QuicRecovery.ScanAcked` |
| `QuicAckFields.AckIff` | go/http3/internal/quic/frames.go:297-316 | arbitrary bytes are accepted with these ranges and this delay if and only if the integers in them are largest, delay, count, first range, and for each further range the numbers missing above it and the numbers in it, both less one |
| `QuicAckFields.EcnIff` | go/http3/internal/quic/frames.go:317-324 | and with ECN if and only if three integers more follow |
| `QuicAckFields.WritesFields` | go/http3/internal/quic/frames.go:94-114 | what appendAck writes are these integers |
| `QuicStreamRecv.ConsumedKeeps` | go/http3/internal/quic/stream.go:369-385 | giving credit back keeps read, received and limit in order on stream and connection; limits only grow, lie within one window of what was read, and leave at least half a window |
| `QuicStreamRecv.StreamFrameKeeps` | go/http3/internal/quic/stream.go:309-358 | an accepted STREAM frame keeps all counters exact, limits only grow and a final size stays |
| `QuicStreamRecv.ResetStreamKeeps` | go/http3/internal/quic/stream.go:387-415 | an accepted RESET_STREAM does too, and accounts for everything up to the final size |
| `QuicStreamRecv.CreditAtReset` | go/http3/internal/quic/stream.go:387-415 | a stream that the peer resets has always given back all its credit |
| `QuicStreamRecv.CreditAtEnd` | go/http3/internal/quic/stream.go:335-357 | the frame that ends a stream leaves all its credit given back if and only if the reader had not stopped, or the frame reaches the highest byte received, or everything was read before |
| `QuicStreamRecv.StoppedStreamKeepsCredit` | go/http3/internal/quic/stream.go:335-343 | a run of four steps after which a stream whose reader stopped has ended with nine bytes of credit kept |
| `QuicStreamRecv.BooksBalance` | go/http3/internal/quic/stream.go:309-415 | in every run over any number of streams, recvData and recvConsumed are the sums over the streams, the peer is within every limit given, and every open stream and the connection leave it at least half a window beyond what was read |
| `QuicStreamRecv.LimitsGrow` | go/http3/internal/quic/stream.go:369-415 | no step lowers a limit or changes a known final size |
| `QuicAdmission.DataIsTotal` | go/http3/internal/quic/stream.go:328-334 | in every run recvData is the sum over the streams of the highest offset any frame reached |
| `QuicAdmission.Verdict` | go/http3/internal/quic/stream.go:309-415 | in every run a STREAM or RESET_STREAM frame closes the connection exactly if it breaks a rule, with the code of the first rule it breaks: beyond 2^62 - 1 (STREAM only), at odds with an earlier frame about the final size, over the limit of the stream, or the highest offsets adding up to more than the limit of the connection |
| `QuicAdmission.HonestStaysOpen` | go/http3/internal/quic/stream.go:309-415 | a peer whose frames are pieces of one byte sequence per stream, ended or reset at its length and within the limits in force, is never disconnected |
| `QuicArrival.GivenAsItCame` | go/http3/internal/quic/stream.go:335-358 | in every run, for a stream neither reset nor stopped, exactly the bytes before the first that no frame brought have been read, and it is done if and only if a frame told the final size and every byte before it has come |
| `QuicArrival.GivenUpCountsAsRead` | go/http3/internal/quic/stream.go:335-343 | in every run a frame of a stream that was reset or stopped counts as read at once and adds nothing; a stopped stream is done with the first frame after its final size is known |
| `QuicArrival.ResetDrops` | go/http3/internal/quic/stream.go:402-414 | in every run an accepted reset counts the whole stream as read and drops what waits, unless the stream was done or reset before |
| `QuicArrival.NothingKept` | go/http3/internal/quic/stream.go:335-415 | in every run nothing is kept for a stream that was reset or whose reader stopped |
| `QuicArrival.StopIs` | go/http3/internal/quic/stream.go:136-145 | in every run a reader that stops before the end has stopped, and nothing else about the stream changes but what waits |
| `QuicWindows.LimitsFollowReading` | go/http3/internal/quic/stream.go:369-385 | in every run a limit rises only when less than half of its window is left, and then to a whole window beyond an offset reached in that step |
| `QuicReceiver.ReceivingStream.MarkConsumed` | go/http3/internal/quic/stream.go:369-385 | refines `Consumed` |
| `QuicReceiver.ReceivingStream.AdmitFrame` | go/http3/internal/quic/stream.go:310-334 | the checks, with the error code each one gives |
| `QuicReceiver.ReceivingStream.DeliverAll` | go/http3/internal/quic/stream.go:345-351 | the chunks handed on are the next bytes of the stream, and the loop stops only at a byte that has not come |
| `QuicReceiver.ReceivingStream.OnFrame` | go/http3/internal/quic/stream.go:309-358 | refines `OnStreamFrame`; what is handed on are the bytes of the stream between old and new offset, and the end is reported exactly when the offset reaches the final size |
| `QuicReceiver.ReceivingStream.OnReset` | go/http3/internal/quic/stream.go:387-415 | refines `OnResetStream`, with its error codes |
| `QuicReceiver.ReceivingStream.AskToStop` | go/http3/internal/quic/stream.go:136-145 | refines `StopSending` |
| `QuicPacketNumber.PnLen` | go/http3/internal/quic/packet.go:134-152 | the fewest bytes, at most four, that tell apart twice as many numbers as are unacknowledged |
| `QuicPacketNumber.DecodePNIff` | go/http3/internal/quic/packet.go:154-169 | a truncated number decodes to the full one if and only if it is within half a window of the expected one or at an end of the number space |
| `QuicPacketNumber.PnRoundTrip` | go/http3/internal/quic/packet.go:134-169 | with the length pnLen chooses, every receiver between the largest acknowledged number and pn recovers pn, up to 2^31 + 1 unacknowledged numbers |
| `QuicPacketNumber.PnRoundTripBound` | go/http3/internal/quic/packet.go:134-169 | one more unacknowledged number and a receiver that saw only what was acknowledged recovers another one |
| `QuicPeerStreams.PeerFrameKeeps` | go/http3/internal/quic/conn.go:471-507 | a frame for a peer stream opens only numbers that were never open, finds what it reports, and keeps the table exact |
| `QuicPeerStreams.FinishesKeeps` | go/http3/internal/quic/conn.go:509-534 | finishing a stream keeps the table and the quotas exact and never lowers a limit |
| `QuicPeerStreams.OpensKeeps` | go/http3/internal/quic/conn.go:419-446 | opening an own stream does not touch the quotas of the peer |
| `QuicPeerStreams.OpenCount` | go/http3/internal/quic/conn.go:471-534 | open and finished streams of a kind add up to the numbers used |
| `QuicPeerStreams.PeerIsBoundedAndNeverLockedOut` | go/http3/internal/quic/conn.go:471-534 | in every run the peer has at most its maximum open, and its limit always leaves room for more than half of it |
| `QuicPeerStreams.StreamTable.OpenUpTo` | go/http3/internal/quic/conn.go:503-505 | the loop creates every stream up to the one asked for |
| `QuicPeerStreams.StreamTable.Find` | go/http3/internal/quic/conn.go:471-507 | refines `PeerStream`, with each of its errors |
| `QuicPeerStreams.StreamTable.FinishStream` | go/http3/internal/quic/conn.go:509-534 | refines `Finish` |
| `QuicPeerStreams.StreamTable.OpenOwn` | go/http3/internal/quic/conn.go:419-446 | refines `OpenLocal`, and the number is four times how many of the kind were opened before, plus the bits of the kind |
| `QuicStreamLookup.FoundIs` | go/http3/internal/quic/conn.go:471-507 | in every run, exactly when a frame is an error of state (wrong direction, or an own stream never opened), an error of limits (of the peer, never opened, at or beyond the limit), late (finished), or finds its stream |
| `QuicStreamLookup.OpensUpTo` | go/http3/internal/quic/conn.go:496-506 | in every run a frame that opens a stream opens exactly those of its kind up to it that were never open |
| `QuicStreamLookup.LimitsRise` | go/http3/internal/quic/conn.go:509-534 | in every run a limit changes only when a stream of the peer finishes, and rises to the maximum beyond those done exactly when no more than half of it is left |
| `QuicStreamLookup.OpensNext` | go/http3/internal/quic/conn.go:419-446 | in every run an own stream gets the next number of its kind, which no stream had |
| `TaskPool.AdaptivePool.EnqueueLocked` | go/taskpool/adaptive.go:206-213 | the ring gets the task at its end |
| `TaskPool.AdaptivePool.DequeueLocked` | go/taskpool/adaptive.go:345-351 | the ring gives its first task |
| `TaskPool.AdaptivePool.SpawnLocked` | go/taskpool/adaptive.go:220-227 | refines `Spawn` |
| `TaskPool.AdaptivePool.ClaimLocked` | go/taskpool/adaptive.go:238-246 | refines `Claim` |
| `TaskPool.AdaptivePool.OfferLocked` | go/taskpool/adaptive.go:276-282 | refines `Offer`: queue, then claim or else start a worker |
| `TaskPool.AdaptivePool.FillLocked` | go/taskpool/adaptive.go:305-324 | the loop of submitBatch up to a full queue refines the recursive `Fill` |
| `TaskPool.AdaptivePool.AwaitRoomLocked` | go/taskpool/adaptive.go:257-262 | refines `AwaitRoom` |
| `TaskPool.AdaptivePool.RoundLocked` | go/taskpool/adaptive.go:337-374 | one round of worker refines `Round` |
| `TaskPool.AdaptivePool.AwakeLocked` | go/taskpool/adaptive.go:375-383 | refines `Awake` |
| `TaskPool.AdaptivePool.ExitLocked` | go/taskpool/adaptive.go:390-397 | refines `Exit` |
| `TaskPool.AdaptivePool.ShrinkLocked` | go/taskpool/adaptive.go:401-413 | refines `Shrink`, and how many workers it wakes |
| `TaskPool.AdaptivePool.ResizeLocked` | go/taskpool/adaptive.go:418-431 | the loop starts exactly the missing workers |
| `TaskPool.SharesAddUp` | go/taskpool/adaptive.go:100-108 | the parts of all shards add up to the total |
| `TaskPool.SharesKeepOrder` | go/taskpool/adaptive.go:140-144 | no shard gets a floor above its ceiling |
| `TaskPoolSafety.FillQueue` | go/taskpool/adaptive.go:305-324 | a batch is queued in order |
| `TaskPoolSafety.RoundKeeps` | go/taskpool/adaptive.go:334-385 | a round of a worker keeps the balance of idle, signals, workers and waiters |
| `TaskPoolSafety.RegionKeeps` | go/taskpool/adaptive.go:266-332 | so does every critical region of submit and submitBatch |
| `TaskPoolSafety.StepKeeps` | go/taskpool/adaptive.go:199-451 | so does every step of any number of workers, submitters, resizes, shrinks and stop, in any order |
| `TaskPoolTheorems.NoLostWakeUp` | go/taskpool/adaptive.go:175-183 | in every run idle plus signals are the workers parked or waking, a queued task has a worker that will look at the queue, and a parked submitter with room has one about to wake it |
| `TaskPoolTheorems.PendingIsExact` | go/taskpool/adaptive.go:275-326 | in every run pending is queued plus running plus reserved tasks, so the WaitGroup never goes negative |
| `TaskPoolTheorems.FirstInFirstOut` | go/taskpool/adaptive.go:293-360 | in every run tasks start once each, in the order of acceptance, and each call had its first tasks accepted in order |
| `TaskPoolTheorems.StopDrains` | go/taskpool/adaptive.go:439-451 | in every run stop returns only when all accepted tasks have run; after stop nothing is parked |
| `TaskPoolTheorems.ServedKept` | go/taskpool/adaptive.go:415-431 | below the ceiling every queued task has its own worker coming; a step destroys that if and only if it is a resize that raises the ceiling over a backlog its floor does not cover |
| `TaskPoolTheorems.NoTaskHeldBack` | go/taskpool/adaptive.go:175-180 | in every run without such a resize no task waits behind running ones below the ceiling |
| `TaskPoolTheorems.ResizeLeavesBacklog` | go/taskpool/adaptive.go:415-431 | five concrete steps after which such a resize leaves a task queued below the ceiling with nothing on its way to it |
| `TaskPoolSize.StepSized` | go/taskpool/adaptive.go:199-451 | no step but a resize starts a worker above the ceiling, and a worker leaves only above the ceiling, after stop, or idle and above the floor |
| `TaskPoolSize.NeverBelowFloor` | go/taskpool/adaptive.go:399-431 | in every run a shard has its floor of workers until it is stopped |
| `TaskPoolSize.CeilingKept` | go/taskpool/adaptive.go:215-227 | no step adds to workers beyond the ceiling |
| `TaskPoolSize.NeverAboveCeiling` | go/taskpool/adaptive.go:215-227 | in every run that never lowers the ceiling there are never more workers than it |
| `TaskPoolSize.LowIdleIsFewest` | go/taskpool/adaptive.go:192-194 | in every run since a shrink, lowIdle is the fewest workers parked and unclaimed at any moment |
| `TaskPoolSize.ShrinkAsksHalf` | go/taskpool/adaptive.go:399-413 | a shrink asks half of those to leave, rounded up, or as many as the floor allows |
| `TaskPoolSize.FullQueueGrows` | go/taskpool/adaptive.go:254-262 | a call waits only for a full queue, and only after a worker was started or with the ceiling reached |
| `TaskPoolSize.ExcessLeaves` | go/taskpool/adaptive.go:334-343 | with more workers than the ceiling, a worker that comes to the mutex leaves even with tasks queued, and no task is started |
| `TaskPoolRetire.HeardKept` | go/taskpool/adaptive.go:334-431 | while workers are parked, as many threads are about to act as requests to leave can be met, or a broadcast is; a step destroys that if and only if it is a resize that lowers the floor under parked workers with too few threads about |
| `TaskPoolRetire.RequestsAreMet` | go/taskpool/adaptive.go:334-431 | in every run without such a resize, once nothing moves there are at most as many workers as the ceiling, and no request to leave is open unless the floor is reached |
| `TaskPoolRetire.RequestStaysOpen` | go/taskpool/adaptive.go:399-431 | nine concrete steps after which such a resize leaves a parked worker above the floor and asked to leave |
| `TaskPoolProgress.StepSpends` | go/taskpool/adaptive.go:199-451 | every internal step lowers a bound |
| `TaskPoolProgress.ComesToRest` | go/taskpool/adaptive.go:199-451 | so no run without new calls is longer than the bound |
| `TaskPoolProgress.RestIsDone` | go/taskpool/adaptive.go:199-451 | where no step is left, every accepted task has run, no submitter waits, and after stop no worker is left and stop has returned |
| `Huffman.DecodeIffCodes` | go/internal/hpack/huffman.go:32-92 | decoding gives s if and only if the input is the encoding of s with its padding of ones, and s is not too long; longer strings give ErrStringTooLong |
| `Huffman.DecodeOfCodes` | go/internal/hpack/huffman.go:32-64 | every encoding decodes |
| `Huffman.CodesOfDecode` | go/internal/hpack/huffman.go:32-64 | whatever decodes is the one encoding of what it decodes to |
| `HuffmanEncoder.Drain` | go/internal/hpack/huffman.go:83-86 | whole bytes leave the accumulator, and no bit is lost |
| `HuffmanEncoder.AppendWords` | go/internal/hpack/huffman.go:76-87 | the bits written and held are those of all words, for an accumulator of 38 bits or more |
| `HuffmanEncoder.Append` | go/internal/hpack/huffman.go:75-92 | what is appended is the encoding |
| `HuffmanEncoder.Length` | go/internal/hpack/huffman.go:66-73 | the rounded sum of word lengths |
| `HuffmanEncoder.LengthIsExact` | go/internal/hpack/huffman.go:66-92 | which is the length of the encoding |
| `HuffmanDecoder.Insert` | go/internal/hpack/huffman.go:16-28 | inserting a word keeps the tree a tree of words and adds the symbol |
| `HuffmanDecoder.Build` | go/internal/hpack/huffman.go:13-30 | the tree holds exactly the starts of words, with symbols at their ends, and fits 16-bit node numbers |
| `HuffmanDecoder.ReadByte` | go/internal/hpack/huffman.go:41-58 | eight bits of the walk |
| `HuffmanDecoder.HuffmanDecode` | go/internal/hpack/huffman.go:32-64 | the walk over the tree is the decoding function |
| `HuffmanTiling.TiledIsShaped` | go/internal/hpack/tables.go:71-349 | a code that tiles the unit interval is prefix free, goes on with a zero after every proper start, and has padding as a proper start |
| `HuffmanTable.RfcIsShaped` | go/internal/hpack/tables.go:71-349 | the 256 words of the table are such a code |
| `HpackInt.IntRoundTrip` | go/internal/hpack/hpack.go:222-262 | for every value and prefix width, reading what was written gives the value back below the limit and an overflow error from there on |
| `HpackInt.AppendInt` | go/internal/hpack/hpack.go:248-262 | the loop writes the reference encoding |
| `HpackInt.ReadPrefixed` | go/internal/hpack/hpack.go:222-246 | the loop is the reference reader, with both errors |
| `HpackChoice.GroupAt` | go/internal/hpack/hpack.go:248-262 | byte i after the prefix has bits 7i to 7i + 6, and the high bit on all but the last |
| `HpackChoice.GroupCount` | go/internal/hpack/hpack.go:248-262 | and there are as few bytes as hold the number |
| `HpackChoice.ReadIntIff` | go/internal/hpack/hpack.go:222-246 | for arbitrary bytes: an integer is read if and only if the prefix is not all ones or one to eight bytes follow of which only the last is below 128, and is then the prefix, or with it the sum of their groups of seven bits |
| `HpackChoice.Example1337` | go/internal/hpack/hpack.go:248-262 | the example of section C.1.2 of RFC 7541 |
| `HpackString.StringRoundTrip` | go/internal/hpack/hpack.go:198-220 | a string comes back whether it was Huffman coded or not, unless it is longer than allowed |
| `HpackString.AppendString` | go/internal/hpack/hpack.go:351-359 | writes the shorter form |
| `HpackChoice.ShortestString` | go/internal/hpack/hpack.go:351-359 | a string is Huffman coded if and only if that is shorter, so never takes more bytes than as it is |
| `HpackString.TakeString` | go/internal/hpack/hpack.go:198-220 | is the reference reader, with each error |
| `HpackTable.EvictKeeps` | go/internal/hpack/hpack.go:58-74 | eviction keeps the longest suffix that fits |
| `HpackTable.EvictTwice` | go/internal/hpack/hpack.go:53-74 | of several evictions only the smallest size counts |
| `HpackTable.EvictThenAdd` | go/internal/hpack/hpack.go:47-74 | evicting before adding changes nothing |
| `HpackTable.DynamicTable.Evict` | go/internal/hpack/hpack.go:58-74 | the loop evicts that much, and the running size stays exact |
| `HpackTable.DynamicTable.AddEntry` | go/internal/hpack/hpack.go:47-51 | refines `Add` |
| `HpackTable.DynamicTable.SetMaxSize` | go/internal/hpack/hpack.go:53-56 | refines `SetMax` |
| `HpackTable.DynamicTable.FieldAt` | go/internal/hpack/hpack.go:76-89 | static entries first, then the newest dynamic one |
| `HpackChoice.NewestFirst` | go/internal/hpack/hpack.go:76-89 | the entry added last has the first index after the static table, and adding moves the others up by one |
| `HpackChoice.AddedIfFits` | go/internal/hpack/hpack.go:47-74 | an added entry is in the table if and only if it fits alone; otherwise the table is empty |
| `HpackSync.FieldsRoundTrip` | go/internal/hpack/hpack.go:111-174 | the fields of a block come back in order while encoder and decoder tables move together |
| `HpackChoice.Chosen` | go/internal/hpack/hpack.go:312-344 | a field in a table goes by its least index; any other as a literal with the least index of its name if there is one, never indexed exactly if sensitive, indexed exactly if it is not and takes at most half of the table |
| `HpackChoice.FirstByteTells` | go/internal/hpack/hpack.go:312-344 | the same on the wire: which of the four representations of section 6 of RFC 7541 the first byte announces, and exactly when |
| `HpackChoice.Announces` | go/internal/hpack/hpack.go:299-310 | a block begins with a size update exactly if a change is pending, with the smallest size since the last block first if it is below the last |
| `HpackChoice.PendingIff` | go/internal/hpack/hpack.go:282-310 | in every run a change is pending exactly if since the last block a size was set that was not the size then, and the smallest of those is remembered |
| `HpackBlocks.BlockMeans` | go/internal/hpack/hpack.go:111-196 | for blocks of any encoder: the decoder makes of every sequence of representations what it means, the fields before an error included, with an error exactly at a reference to no entry, a size update after a field, or a size over the limit |
| `HpackBlocks.RealBlockMeans` | go/internal/hpack/hpack.go:111-196 | the same with the real tables and coders |
| `HpackSync.FieldsBehind` | go/internal/hpack/hpack.go:111-174 | against a decoder that holds less than the encoder, they come back if and only if every reference is to an entry it still has |
| `HpackSync.ResizeKeeps` | go/internal/hpack/hpack.go:282-297 | any number of size changes between blocks keeps the two tables in step |
| `HpackSync.BeginRoundTrip` | go/internal/hpack/hpack.go:299-310 | announcing the smallest and the last size, within the limit, brings the decoder to the table of the encoder |
| `HpackSync.BeginRefused` | go/internal/hpack/hpack.go:145-159 | announcing a size above the limit ends the block with an error |
| `HpackSync.BlockRoundTrip` | go/internal/hpack/hpack.go:264-349 | one block, against any limit: it decodes if and only if it fits, and then all fields come back and the tables are in step |
| `HpackSync.InStepIsEqual` | go/internal/hpack/hpack.go:105-109 | in step with a decoder whose limit the encoder keeps to means equal tables |
| `HpackSync.AlwaysInStep` | go/internal/hpack/hpack.go:92-349 | in every run of size changes and blocks, against a decoder with any limit, all blocks decode if and only if they fit, and then the fields received are the fields sent |
| `HpackSync.ToldRunsFit` | go/internal/hpack/hpack.go:276-310 | all blocks fit when the limit is 4096 or more, or the encoder is told of a size within it before the first block and of no other |
| `HpackSync.UntoldFails` | go/internal/hpack/hpack.go:276-349 | without that, the second block with any field that is indexed and larger than the limit is refused |
| `HpackSync.EmptyDecoderFails` | go/internal/hpack/hpack.go:105-109 | a concrete field and a decoder that keeps no table |
| `Hpack.RealWireIsFaithful` | go/internal/hpack/hpack.go:198-262 | the integer and string coders with the real Huffman table meet what these theorems need |
| `Hpack.HeadersComeBack` | go/internal/hpack/hpack.go:92-349 | the same with the real tables and coders, for every limit: decoded if and only if it fits, received equals sent, and equal tables after every block once the encoder keeps to the limit |
| `Hpack.UntoldEncoderFails` | go/internal/hpack/hpack.go:92-349 | the failing family with the real tables |
| `HpackCoders.BuildIndex` | go/internal/hpack/hpack.go:361-373 | the maps lead to the first static entry of each pair and name |
| `HpackCoders.HeaderEncoder.SetMaxSize` | go/internal/hpack/hpack.go:282-297 | refines `SetMaxTableSize` |
| `HpackCoders.HeaderEncoder.Begin` | go/internal/hpack/hpack.go:299-310 | writes the pending size updates |
| `HpackCoders.HeaderEncoder.Find` | go/internal/hpack/hpack.go:321-333 | the loop finds the newest entry that matches, else a name |
| `HpackCoders.HeaderEncoder.AppendField` | go/internal/hpack/hpack.go:312-349 | writes the instruction that `Choose` picks and applies it to the table |
| `HpackCoders.HeaderEncoder.EncodeBlock` | go/internal/hpack/hpack.go:299-349 | a block is written as the reference says |
| `HpackCoders.HeaderDecoder.TakeLiteral` | go/internal/hpack/hpack.go:176-196 | refines `ReadLiteral`, with each error |
| `HpackCoders.HeaderDecoder.TakeOne` | go/internal/hpack/hpack.go:117-173 | one representation refines `Get`, with each error; an error leaves the table alone |
| `HpackCoders.HeaderDecoder.DecodeBlock` | go/internal/hpack/hpack.go:111-174 | the loop refines `Decode` |
| `HpackSecrets.FieldsEnter` | go/internal/hpack/hpack.go:334-344 | whatever a block adds to the table was in it unmarked and takes no more than half of the table |
| `HpackSecrets.SecretsStayOut` | go/internal/hpack/hpack.go:334-344 | in every run the table of the encoder holds only fields that were sent without being marked sensitive |
| `HpackSecrets.DecoderIsOpen` | go/internal/hpack/hpack.go:111-174 | so does the table of a decoder with any limit |
| `HpackSecrets.BothTablesAreOpen` | go/internal/hpack/hpack.go:92-349 | both, with the real tables and coders |
| `HpackExchange.RealWireIsCoded` | go/internal/hpack/hpack.go:198-262 | what the theorems say about the wire holds of what the encoder and decoder objects write and read |
| `HpackExchange.Exchange` | go/internal/hpack/hpack.go:92-349 | one block through both objects: decoded if and only if it fits, what was sent comes out, and the two are in step again |
| `Poly1305.AddBlock` | go/http3/internal/quic/chacha.go:101-104 | limbs with carries add the block |
| `Poly1305.Multiply` | go/http3/internal/quic/chacha.go:106-123 | the partial products add up to h times r; every dropped carry is zero |
| `Poly1305.Reduce` | go/http3/internal/quic/chacha.go:125-136 | folding the high part back five times, and the accumulator stays short |
| `Poly1305.ReduceIsModular` | go/http3/internal/quic/chacha.go:125-136 | which keeps the value modulo 2^130 - 5 |
| `Poly1305.Absorb` | go/http3/internal/quic/chacha.go:98-137 | one block is one step of Horner modulo 2^130 - 5 |
| `Poly1305.HornerIsPolynomial` | go/http3/internal/quic/chacha.go:98-137 | Horner steps are the polynomial over all blocks |
| `Poly1305.Tag` | go/http3/internal/quic/chacha.go:153-165 | one conditional subtraction reduces completely, and s is added modulo 2^128 |
| `Poly1305.Authenticator.constructor` | go/http3/internal/quic/chacha.go:89-96 | r0 and r1 are the bitwise and of the two words of the key with 0x0ffffffc0fffffff and 0x0ffffffc0ffffffc, together the clamped key of RFC 8439; and s |
| `Poly1305.ClampedWords` | go/http3/internal/quic/chacha.go:89-96 | the words and the masks: bitwise and clears the top four bits of bytes 3, 7, 11 and 15 and the low two of bytes 4, 8 and 12 |
| `Words.AndBit` | go/http3/internal/quic/chacha.go:91-92 | bit k of the bitwise and is set exactly if it is set in both |
| `Poly1305.NumberCount` | go/http3/internal/quic/chacha.go:139-151 | and there are no more of them than the data needs |
| `Poly1305.NumberAt` | go/http3/internal/quic/chacha.go:139-151 | number k of writePadded is bytes 16k to 16k + 15 of the data, lowest first, as far as they go, plus 2^128 |
| `Poly1305.Authenticator.Block` | go/http3/internal/quic/chacha.go:98-137 | the accumulator stands for one more block |
| `Poly1305.Authenticator.WritePadded` | go/http3/internal/quic/chacha.go:139-151 | the blocks of the data, the last one filled with zeros |
| `Poly1305.Authenticator.Sum` | go/http3/internal/quic/chacha.go:153-165 | the tag is the polynomial over all blocks at r modulo 2^130 - 5, plus s, modulo 2^128, little endian |
| `Utf8.AcceptsWellFormed` | go/websocket/utf8.go:55-85 | the step automaton accepts and ends on a boundary exactly for well-formed UTF-8 (table 3-7 of the Unicode standard) |
| `Utf8Scalars.BadIff` | go/websocket/utf8.go:55-85 | the step automaton refuses bytes exactly if nothing after them can make them well formed |
| `Utf8Scalars.WellFormedIff` | go/websocket/utf8.go:55-85 | bytes are well formed if and only if they spell Unicode scalar values, each as RFC 3629 has it |
| `Utf8.BulkIsRun` | go/websocket/utf8.go:17-48 | checking the bulk at once and stepping through the tail is stepping through everything |
| `Utf8.Validator.TakeByte` | go/websocket/utf8.go:55-85 | refines one step |
| `Utf8.Validator.FindTail` | go/websocket/utf8.go:30-38 | the search back for the start of an incomplete sequence |
| `Utf8.Validator.Write` | go/websocket/utf8.go:17-48 | accepts what the steps accept, and ends where they end |
| `WsMask.XorTwice` | go/websocket/frame.go:578-588 | masking twice changes nothing |
| `WsMask.XorBit` | go/websocket/frame.go:578-588 | bit k of the exclusive or is set exactly if it is set in one of the two |
| `WsMask.WordIsBytes` | go/websocket/frame.go:578-588 | exclusive or of little-endian words is exclusive or of their bytes |
| `WsMask.ApplyMask` | go/websocket/frame.go:578-588 | words and then single bytes give the mask repeated over the payload |
| `WsFrame.HeaderStays` | go/websocket/frame.go:342-413 | a complete header is not changed by what follows |
| `WsFrame.VerdictStays` | go/websocket/frame.go:342-507 | no verdict but waiting is changed by what follows, early refusals of text included |
| `WsFrame.ParseThen` | go/websocket/frame.go:195-247 | parsing some bytes first makes no difference |
| `WsFrame.CutsDoNotMatter` | go/websocket/frame.go:131-157 | every cut of a stream into reads gives the same events and the same first error |
| `WsFrame.TextIsWellFormed` | go/websocket/frame.go:465-506 | every text event is well-formed UTF-8 |
| `WsParser.TakeHeader` | go/websocket/frame.go:342-413 | the checks in their order, with each error |
| `WsParser.CheckPartial` | go/websocket/frame.go:549-576 | unmasking in chunks and validating is validating the rest of the payload |
| `WsParser.AppendCurrentFrame` | go/websocket/frame.go:288-305 | completes the frame at the head and keeps the rest apart, and loses nothing |
| `WsParser.ExactFrame` | go/websocket/frame.go:307-340 | a buffer of exactly its frame size never leaves the parser waiting |
| `WsParser.Parser.NextPartial` | go/websocket/frame.go:417-422 | text that cannot become valid fails before its frame is complete |
| `WsParser.Parser.NextControl` | go/websocket/frame.go:441-452 | control frames with their close-code and UTF-8 checks |
| `WsParser.Parser.NextFirst` | go/websocket/frame.go:453-485 | the first frame of a message |
| `WsParser.Parser.NextContinuation` | go/websocket/frame.go:486-506 | later frames of a message |
| `WsParser.Parser.OpenFrame` | go/websocket/frame.go:423-439 | the unmasked payload, in place if borrowed, with the rest of the buffer as it was |
| `WsParser.Parser.Next` | go/websocket/frame.go:342-507 | refines the verdict of the reference and leaves the rest of the buffer |
| `WsParser.Parser.FindEvent` | go/websocket/frame.go:215-246 | the loop finds the first event or error of all that is pending |
| `WsParser.Parser.FeedOne` | go/websocket/frame.go:195-247 | the first event or error of what was pending and the new data, borrowed or copied; a call that gives no event leaves nothing in a read buffer |
| `WsParser.Parser.Feed` | go/websocket/frame.go:131-144 | all events of the pending bytes and the new ones, and nothing left in a read buffer |
| `WsParser.Parser.ReleaseBorrowed` | go/websocket/frame.go:159-178 | the parser no longer refers to the read buffer, and after a call that gave no event nothing is lost |
| `WsParser.Parser.ServeFrames` | go/websocket/handler.go:390-420 | the events of a read up to a close or a failed answer to a ping, all of them without either, and the read buffer let go in every case |
| `WsParser.Parser.FeedPieces` | go/websocket/frame.go:131-178 | a stream in any pieces and any mix of modes, with the read buffer released after each borrowed piece, gives the events and the first error of the whole |
| `WsMarshal.MarshalFrame` | go/websocket/frame.go:623-678 | refuses exactly unknown opcodes and long control payloads; otherwise header and payload |
| `WsMarshal.FrameRoundTrip` | go/websocket/frame.go:623-678 | a client parser reads exactly the event back if and only if size, UTF-8 and close code are acceptable |
| `WsMarshal.PutBigAt` | go/websocket/frame.go:642-648 | byte i of n of a length counts 256 to the power of n - 1 - i |
| `WsMessage.FrameHeader` | go/websocket/frame.go:656-678 | refuses what MarshalFrame refuses, and writes the same header |
| `WsMessage.SendFrame` | go/websocket/handler.go:192-215 | a server sends header and payload, a client sets the mask bit, adds its key and combines byte i of the payload with byte i modulo 4 of it |
| `WsMessage.WireBack` | go/websocket/frame.go:342-440 | a frame, masked with any key or not, whatever follows it, is read for its flag, opcode and payload, or is too big |
| `WsMessage.OnlyWire` | go/websocket/frame.go:342-440 | and nothing else is read as a frame: what is accepted of arbitrary bytes is the wire form of a frame that may come now |
| `WsMessage.PartOfFrame` | go/websocket/frame.go:417-422 | of a frame that has come in part, text is refused at once exactly if nothing after it can make the message well formed; all else waits |
| `WsMessage.MaskedRoundTrip` | go/websocket/frame.go:342-485 | for every key, opcode, payload and rest, a message in one frame gives exactly that event if and only if size, UTF-8 and close code are acceptable |
| `WsMessage.MessageBack` | go/websocket/frame.go:441-506 | a message cut into any pieces, each with any key, with any control frames between them, gives their events, then one event with the opcode of the first frame and the pieces joined |
| `WsMessage.MessageRefused` | go/websocket/frame.go:342-506 | a message that is too long or not well-formed text ends the parse before it is given, with the error that applies |
| `SendQueue.QueueCopyAdds` | go/connection.go:197-226 | queueing, merged into the last buffer or not, appends exactly the data |
| `SendQueue.ConsumeIs` | go/connection.go:163-195 | consuming n removes exactly the first n bytes |
| `SendQueue.ConsumeInMemory` | go/connection.go:163-195 | and lowers the bytes in memory by n when they come from memory |
| `SendQueue.BatchIs` | go/connection.go:734-752 | a batch is a prefix of buffers in memory |
| `SendQueueRun.SendKeeps` | go/connection.go:334-393 | a send keeps order and count, written directly or queued |
| `SendQueueRun.PartsAreOne` | go/connection.go:395-456 | SendParts does what one send of the concatenation does |
| `SendQueueRun.SendFileKeeps` | go/sendfile_native.go:22-62 | a file segment keeps its place among the bytes and does not count as memory |
| `SendQueueRun.OfferedIsThere` | go/connection.go:725-757 | no call offers more than is queued |
| `SendQueueRun.TookKeeps` | go/connection.go:758-762 | what the socket took leaves queue and counts together, and the clamp of subPending never fires |
| `SendQueueRun.FlushRoundKeeps` | go/connection.go:696-802 | a round of flushOutput keeps order and counts, for full and short writes |
| `SendQueueRun.DropKeeps` | go/engine.go:534-573 | closing gives the share of the budget back |
| `SendQueueRun.OneStreamPerConnection` | go/connection.go:280-456 | in every run over any number of connections, wire plus queue is what was accepted, pendingBytes is the bytes in memory, and pendingTotal is their sum |
| `SendQueueClose.BatchIsFull` | go/connection.go:734-752 | one writev takes as many items as it may, up to the first file |
| `SendQueueClose.AlwaysCloses` | go/connection.go:101-114 | in every run a connection told to close after sending, with nothing left to send, is being flushed or closing |
| `SendQueueClose.ClosesNow` | go/connection.go:101-114 | told to close after sending, a connection is closing at once exactly if everything is on the wire and no flush is at work |
| `SendQueueClose.CanDrain` | go/connection.go:696-757 | from every state a run reaches, rounds in which the socket takes what it is offered put all that was accepted on the wire, and then the connection closes if and only if it was told to |
| `SendQueueClose.NothingCutOff` | go/connection.go:101-114 | in every run without an outright close, a connection that is closing has everything on the wire |
| `SendQueueClose.TakesAll` | go/connection.go:334-456 | a call takes all of its data, or none of it exactly if the connection is closing, closed or told to close |
| `SendQueueClose.StaysShut` | go/connection.go:334-456 | a connection that takes no data never takes any again |
| `SendQueueClose.WritesDirectly` | go/connection.go:126-130 | a call writes to the socket itself only if nothing is queued, no flush is at work and output is not held back |
| `SendQueueClose.RoundWrites` | go/connection.go:758-802 | a round moves the wire on by exactly what the socket took, and goes on exactly if it took all it was offered |
| `SendQueueConn.OutputQueue.QueueLocked` | go/connection.go:197-226 | refines `QueueCopy` |
| `SendQueueConn.OutputQueue.QueueOwnedLocked` | go/connection.go:228-236 | refines `QueueOwned` |
| `SendQueueConn.OutputQueue.QueueFile` | go/sendfile_native.go:22-62 | appends the segment |
| `SendQueueConn.OutputQueue.ConsumeLocked` | go/connection.go:163-195 | the loop over the ring of items refines `Consume` |
| `SendQueueConn.OutputQueue.Gather` | go/connection.go:735-752 | the buffers of one writev are the bytes of the batch, and their number is what is attempted |
| `SendQueueConn.Connection.Add` | go/connection.go:277-286 | refines `AddPending` on connection and engine |
| `SendQueueConn.Connection.Sub` | go/connection.go:288-302 | refines `SubPending` |
| `SendQueueConn.Connection.SendData` | go/connection.go:334-393 | refines `Send`, and fails exactly on a closing connection |
| `SendQueueConn.Connection.FlushOnce` | go/connection.go:696-802 | refines `FlushRound` |
| `SendQueueConn.Connection.CloseNow` | go/engine.go:534-573 | refines `Drop` |

## Left out

- Sockets, pollers, listeners, dialing, timers and clocks: what a socket takes, when a timer fires, and the time are parameters of the steps.
- TLS, key derivation, header protection, sealing and opening of packets, the ChaCha20 stream and the comparison of tags.
- DEFLATE: a WebSocket parser without permessage-deflate, so a frame with RSV1 set is a protocol error; `inflate`, its window and its pooled arrays are not modelled.
- HTTP/1, HTTP/2 and HTTP/3 servers and clients, QPACK, transport parameters, connection IDs and path validation.
- The other task pools, the sharded backend and its janitor (a resize or shrink of one shard is a step), and the C server, which has the design of the Go engine.
- A theorem that no read event is lost in `Connection.process`, which rests on the behaviour of the kernel.
- RTT estimation, the loss and probe deadlines and which space a timer picks: the loss delay and the space are parameters of the steps, so the safety theorems hold for every choice; nothing is said about when a timer is due.
- The size of packets and the congestion gate of `buildPacket`: a packet carries any sequence of takes, so the theorems hold for every choice the code can make; that resent data fits the packet is not claimed.
- QuicHeld.FrameLost: frames other than STREAM, CRYPTO and RESET_STREAM are one kind, `Control`, that is acknowledged and lost without effect; the flags that queue limits, STOP_SENDING, HANDSHAKE_DONE and retired connection IDs again are not modelled.
- Offsets, counters and packet numbers are unbounded where the protocol keeps them below 2^62. Wrap-around is modelled where it can happen: varints, packet numbers, the Huffman accumulator and the limbs of Poly1305.
- Masks, shifts and exclusive or are written as arithmetic on numbers.
- Go slices are sequences: that compaction of `s.sent`, `addSpan` and `rangeSet.add` reuse their arrays is not modelled. In-place unmasking of a borrowed WebSocket payload is.
- ACK frames for a space that has been discarded.
- The order in which a condition variable wakes its waiters is arbitrary; the WaitGroup of the backend is not modelled. The atomic counters of the output queue change in one step with the mutex that guards them.
- Staged file chunks of the Windows backend.
- Errors that the callback of `Decode` returns: every field is taken.
- QuicPacketNumber.PnRoundTrip: holds up to 2^31 + 1 unacknowledged numbers, because pnLen never uses more than four bytes; `PnRoundTripBound` shows that the bound is exact and `DecodePNIff` is the condition without a bound.
- QuicAck.AckRoundTrip: for at most 32 ranges and numbers of at most 62 bits, which is what rangeSet and the packet number space allow.
- HpackString.StringRoundTrip: for strings shorter than the largest length the integer reader accepts, about 2^56 bytes.
- Hpack.HeadersComeBack: for fields whose name and value are within the decoder's string limit, as the encoder does not know it.
- WsMarshal.FrameRoundTrip: for payloads below 2^63 bytes, the longest a Go slice can be; so are `WsMessage.SendFrame`, `WsMessage.MaskedRoundTrip` and the pieces of `WsMessage.MessageBack`.
- WsMessage.MessageRefused: which error ends a text that is both too long and not well formed is left open.
- WsMessage.SendFrame: the key of a client is a parameter; that it cannot be predicted is not modelled.
- HpackBlocks.BlockMeans: for integers below 65536 written in the fewest bytes and strings within the string limit; longer forms of an integer, which `HpackChoice.ReadIntIff` covers, are not part of it.
- QuicSenderProgress.CanComplete: says that a way on exists, for a peer that raises its limits and acknowledges; not that the timers of the code take it.
- Poly1305.Authenticator.Block: only with hibit 1, the only value the code passes; `AddBlock` and `Absorb` cover both.
- WsParser.Parser.ServeFrames: what handlers do with an event is not modelled; which answer to a ping fails is a parameter.
- SendQueueConn.Connection.SendData: the number of bytes the socket takes is a parameter; errors of the socket end the connection and are the step `Closes`.
