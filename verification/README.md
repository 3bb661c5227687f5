# Verification of the camera board's MQTT client and UART protocol

A Dafny 4.11 model of the vendored MQTT client (`components/mqtt`) and of two small parts
around it, with proofs. The loops, buffers, outbox nodes and fields that the C code changes in
place are changed in place here (the topic-alias list and the lists of events are values held in
fields that are reassigned); each such method is proved against a specification function, and
what the program promises is proved about those functions.

`dafny verify dfyconfig.toml` checks the whole project.

## What is modelled

| files | what |
|---|---|
| `Bytes`, `VarInt`, `Packet` | bytes, the variable-length integer and its loops, MQTT 3.1.1 packets |
| `Connect`, `Connection` | CONNECT with an independent reader, and the packet builders writing into one fixed buffer |
| `Decode` | the index loops of the 3.1.1 decoders, as functions of the bytes they may look at |
| `Transport` | reads and writes of any positive size, time-outs and failures, left open |
| `Sender`, `Receiver`, `EndToEnd` | fragmented sending, resumable receiving, data events, and both ends together |
| `OutboxModel`, `Outbox` | the outbox as a sequence, and as a linked STAILQ with real nodes |
| `Session`, `SessionInvariants`, `SessionRuns`, `PacketIds` | the client as a state machine over its outbox, what each step keeps, and theorems over whole runs |
| `SessionEffects` | what each step does to the stored messages, entry by entry |
| `Client` | publish, enqueue, subscribe, acknowledgements, resending and expiry on the real buffers and list; each method takes a state of `Session` to the next one |
| `Exchange` | whole exchanges: a packet read by the task and its effect on outbox, events and wire; a message sent again and received |
| `Keepalive` | the keep-alive timer |
| `Properties`, `Builder5`, `Parser5`, `RoundTrip5` | the MQTT 5.0 PUBLISH: layout, builder, parser, and when the second undoes the first |
| `Forwarded5` | the parser on a PUBLISH as any peer may write it, byte by byte |
| `TopicAlias` | the topic-alias table as a map |
| `Uart` | the frame receiver and register file of `main/protocol.c` |
| `PercentDecode` | the in-place percent decoder |

A C `uint8_t` is an integer below 256, and bit operations are written as the arithmetic they
stand for. 16-bit identifiers and lengths wrap or are cut explicitly. `size_t` offsets that the
program lets go below zero (`fragmented_msg_data_offset`) are integers. A C string is absent
(NULL) or a sequence of bytes without NUL. The API lock makes each operation one step; event
handlers do nothing. Clock, randomness and the transport's choices are parameters or left open.

The memory of the caller of publish is flat: the payload is preceded by the bytes `before`, which
matter only when a payload offset left behind takes the send loop's pointer in front of the
payload. Sending is modelled where those bytes are there to be read; for a payload that is NULL
there are none. The transport keeps a log of what each read returned and a count of the writes
that failed, so that it can be said when the receiver gives up, when a payload arrives whole and
when something is sent.

A state of `Session` also records the history of its run: every message ever stored and where
it went. `Clients.Client.Is` ties a client object to such a state, and the contracts of its
methods name the step taken (`PublishStep`, `AckStep`, ...). `SessionRuns.OperationsAreSteps`,
`SessionRuns.PassLeads` and `Exchanges.HandledLeads` say that these are steps of the session, and `SessionRuns.RunGoesOn` that
such steps at the end of a run make a longer one; so what `SessionRuns` proves of all runs holds
of an object that gets where it is by these operations.

## Where the code does not do what one would expect

These are proved, with the exact condition under which the code is right.

- A payload offset left behind by an earlier message makes the send loop repeat the end of the
  payload (`EndToEnd.WireIsPacket`), or more than all of it (`EndToEnd.WireBeyondPayload`);
  enqueueing a long message leaves such an offset (`EndToEnd.ShortAfterLong`). A fragment total
  left behind makes the next packet's remaining length wrong (`Packet.StaleTotal`,
  `EndToEnd.AnswerAfterLoss`); `esp_mqtt_client_enqueue` with QoS 0 and without `store` leaves
  one exactly if the message does not fit (`Clients.Client.Enqueue`).
- The receiver gives a connection up when a call that begins in the middle of a packet finds
  nothing to read (`Receivers.Receiver.ReceivePacket`). A time-out between two pieces of an
  over-long payload ends its delivery as if it were complete: the payload is whole if and only
  if every read of the delivery returned something (`Receivers.Receiver.DeliverPublish`). The
  message is acknowledged all the same, and the rest of its payload is read as packets
  (`Exchanges.ReceivePublish`, `Exchanges.PeerFallsSilent`, `Exchanges.AnsweredShort`).
- A packet of four or five bytes can be overread into the next one when its last read is cut
  short (`Receivers.LoopStaysInside`, `Receivers.LoopLeavesPacket`,
  `Receivers.Receiver.ReceiveOverread`), for instance a PUBACK whose identifier has the top bit
  of both bytes set (`Receivers.AckOverreads`).
- The room check for over-long PUBLISH packets forgets the topic length field
  (`EndToEnd.FrontBeyondBuffer`, `EndToEnd.FrontBeyondSixteen`).
- The v5 parser keeps the length of the property section in 16 bits, and caps some strings that
  the builder does not cap (`RoundTrip5.PublishRoundTrip`, `RoundTrip5.LongResponseTopic`,
  `RoundTrip5.LongSection`). It takes the lengths of correlation data and content type on trust:
  such a field can leave the message (`Properties.OverrunExactly`, `Properties.StrayInput`), or
  end behind its section and take the payload along (`Properties.SpillsExactly`,
  `Properties.PayloadIntact`, `Properties.SpillInput`). The v5 builder cuts the last character of a response
  topic with response information (`Properties.SlashJoinedIsCut`).
- `mqtt_get_id` finds the identifier of a SUBACK only if its body has fewer than 128 bytes; the
  SUBACK of a subscription to 126 filters or more leaves the SUBSCRIBE in the outbox
  (`Exchanges.FrontId`, `Exchanges.SubackTooLong`). A subscription identifier above 65535 loses
  its upper bits (`Forwarded5.TurnSubscription`).
- Unsubscribing ignores the outbox limit (`SessionRuns.UnsubscribeBounded`,
  `SessionRuns.UnsubscribeExceeds`).
- The topic-alias table compares topics only up to a NUL (`TopicAliases.ReboundExactly`).
- A UART response whose address, data or checksum equals `$` or newline is never accepted
  (`Uart.ResponseOverTheLine`).
- Identifiers are random unless `MQTT_MSG_ID_INCREMENTAL` is set; uniqueness, forward-only
  states and first-in-first-out resending are proved for incremental ones, as long as no stored
  message is 65535 draws old, and `PacketIds.IdsRepeat` shows that this bound is sharp.
- The comment at mqtt_client.c:1476 speaks of two length bytes; the code accepts four, and so
  does the model.

## Model

| member | source | states |
|---|---|---|
| EndToEnd.PublishReachesPeer | components/mqtt/mqtt_client.c:2510-2608 | the bytes one client writes for a PUBLISH go out exactly if everything before the payload fits and no write fails; however writes and reads are cut, they become DATA events at the peer with this topic, id, QoS, DUP and RETAIN, contiguous offsets, `total` equal to the payload length and data that concatenates to a prefix of the payload, which is all of it exactly if no read of the delivery came to nothing; the bytes behind stay unread; or the receiver gives up before any event, exactly if a call stalls in the middle of the packet |
| EndToEnd.WireIsPacket | components/mqtt/mqtt_client.c:2577-2608 | for every payload offset left behind by an earlier message, the send loop puts exactly the packet on the wire if and only if the message is fragmented or that offset is not beyond this payload's position |
| EndToEnd.WireBeyondPayload | components/mqtt/mqtt_client.c:2585-2597 | an offset beyond the end of this payload makes the second piece start in front of the caller's data: that many bytes of the caller's memory follow the packet, and then the payload again |
| EndToEnd.ShortAfterLong | components/mqtt/mqtt_client.c:2486-2504 | a connected client gets there: a long message is enqueued with QoS 1, then a short one is published, and, exactly if no write fails, at least 95 bytes from in front of its payload go out with it |
| EndToEnd.AnswerAfterLoss | components/mqtt/lib/mqtt_msg.c:71-81 | a long message enqueued with QoS 0 and not stored leaves its total behind, and the next PUBACK claims that length |
| EndToEnd.FrontBeyondBuffer | components/mqtt/mqtt_client.c:1527-1537 | the room check for an over-long PUBLISH forgets the two bytes of the topic length: a front that passes it but exceeds the buffer either loses its topic or is reported with a wrong total, and its identifier, if it has one, is looked for behind the buffer |
| EndToEnd.IdInBuffer | components/mqtt/mqtt_client.c:1600-1612 | the identifier of an over-long PUBLISH, looked for with the length of the whole message, lies inside the input buffer if and only if there is none or the whole front does |
| EndToEnd.FrontBeyondSixteen | components/mqtt/mqtt_client.c:1527-1537 | a topic of 12 bytes with QoS 1 and a buffer of 16 bytes is such a packet |
| EndToEnd.PublishNotOverread | components/mqtt/mqtt_client.c:1472-1492 | no PUBLISH, with or without DUP, topic or payload, can be overread by the resumed length loop |
| EndToEnd.PublishAcceptable | components/mqtt/mqtt_client.c:1500-1544 | a PUBLISH is acceptable exactly if it fits the input buffer, or its bytes before the payload do but for the two that the check forgets |
| EndToEnd.BuiltIsStored | components/mqtt/mqtt_client.c:2486-2505 | the outbound message together with the payload passed to the outbox is the packet an unbounded buffer would hold, fragmented or not |
| EndToEnd.BuiltIsLoaded | components/mqtt/mqtt_client.c:2577-2603 | whatever `mqtt_msg_publish` built and whatever payload offset was left behind, the length arithmetic of the send loop is about exactly the bytes `WireBytes` says it still has to write, as far as the caller's memory reaches |
| Sender.SendLoop | components/mqtt/mqtt_client.c:2577-2608 | the loop that sends a long PUBLISH through the short buffer terminates, having written the whole stream, or a proper prefix of it exactly if a write failed |
| Sender.Write | components/mqtt/mqtt_client.c:818-844 | `esp_mqtt_write` writes the outbound message in pieces of the transport's choice: all of it exactly if no write of a piece failed, and otherwise a proper prefix |
| Sender.Advance | components/mqtt/mqtt_client.c:2585-2604 | after each piece the remaining length and the payload position again describe exactly what is still to be written |
| Receivers.Receiver.ReceivePacket | components/mqtt/mqtt_client.c:1574-1590 | for a well-formed packet that the buffer can take, `mqtt_process_receive` called again and again fails if and only if one of the calls stalled (it began inside the packet and its first read timed out); otherwise it ends, after any sequence of short reads and time-outs, with exactly that packet (or a full buffer of it) in the buffer, the right `message_length`, and nothing of the next packet read; nothing is lost from the stream either way |
| Receivers.Receiver.ProcessReceive | components/mqtt/mqtt_client.c:1574-1600 | one call waits, gives up or has received; unless the packet is rejected it gives up exactly if it stalled |
| Receivers.Receiver.MessageReceive | components/mqtt/mqtt_client.c:1439-1572 | one call leaves the stream unchanged; it returns 1 only with the packet or a full buffer of it, never for a packet that is to be rejected, and on a transport without errors it returns -2 only for those |
| Receivers.LoopStaysInside | components/mqtt/mqtt_client.c:1472-1492 | resumed anywhere, the length loop never reads past the packet, unless `Overreads` holds of it |
| Receivers.LoopLeavesPacket | components/mqtt/mqtt_client.c:1472-1473 | every packet that `Overreads` describes (four or five bytes, the last two of its body with the top bit set) loses the first byte of its successor when a read ends just before its last byte |
| Receivers.OverreadGoal | components/mqtt/mqtt_client.c:1472-1563 | the read length is then beyond the end of the packet |
| Receivers.Receiver.LoseSuccessor | components/mqtt/mqtt_client.c:1472-1806 | a call that finishes such a packet leaves the stream behind the first bytes of its successor, which are lost; otherwise the call stalled, or waits for more of the successor |
| Receivers.Receiver.ReceiveOverread | components/mqtt/mqtt_client.c:1574-1806 | after a read that ended just before the last byte of such a packet, the successor loses exactly the bytes up to where the loop ends, at least one; unless a call stalls, exactly when the connection is given up |
| Receivers.AckOverreads | components/mqtt/mqtt_client.c:1472-1473 | among PUBACK, PUBREC, PUBREL and PUBCOMP these packets are exactly the ones whose identifier has the top bit of both bytes set |
| Receivers.PacketGoal | components/mqtt/mqtt_client.c:1472-1563 | a call resumed at any byte of a packet aims at exactly the end of that packet, or at a full buffer |
| Receivers.NotRejected | components/mqtt/mqtt_client.c:1500-1544 | such a call does not give the connection up |
| Receivers.RejectedExactly | components/mqtt/mqtt_client.c:1500-1544 | of the well-formed packets a call gives up exactly those that exceed the buffer and are no PUBLISH, or whose topic is too long |
| Receivers.ValidHeaders | components/mqtt/lib/mqtt_msg.c:593-640 | the first bytes that are accepted, one by one |
| Receivers.FrameReceivable | components/mqtt/mqtt_client.c:1439-1563 | around any body below 2^28 bytes, a frame is well formed exactly if its first byte is accepted, and can be overread exactly if the body has two or three bytes and its last two have the top bit set |
| Receivers.BrokerPackets | components/mqtt/mqtt_client.c:1439-1563 | PINGRESP and CONNACK are well formed and never overread; UNSUBACK can be for an identifier with both top bits set, SUBACK also with one return code of 0x80 behind an identifier with the lower top bit set |
| Receivers.Receiver.DeliverPublish | components/mqtt/mqtt_client.c:1252-1353 | the DATA events of one PUBLISH carry its topic, id, QoS, DUP, RETAIN and total; offsets have no gap or overlap and the data concatenates to what was read of the payload. That is all of it if and only if each read of the delivery returned something, and the delivery succeeds if and only if the last one did not fail: a time-out ends it as if it were complete |
| Receivers.Receiver.FirstEvent | components/mqtt/mqtt_client.c:1276-1319 | the first event holds topic, id, flags, offset 0, the full total and the part of the payload that is in the buffer |
| Receivers.Receiver.NextEvent | components/mqtt/mqtt_client.c:1322-1348 | each further read that returns something makes one event with the next piece of the payload at the right offset; one that returns nothing leaves the stream alone |
| VarInt.EncodeMinimal | components/mqtt/lib/mqtt_msg.c:86-96 | no byte sequence that reads as a length is shorter than its encoding |
| VarInt.EncodePrefixFree | components/mqtt/lib/mqtt_msg.c:86-96 | the encoding is injective and no encoding is a prefix of another |
| VarInt.EncodeFourBytes | components/mqtt/lib/mqtt_msg.c:98-101 | four length bytes suffice exactly for lengths below 2^28 |
| VarInt.EncodeTable | components/mqtt/lib/mqtt_msg.c:86-96 | the one to four bytes of every length, as in the table of section 2.2.3 of MQTT 3.1.1 |
| VarInt.ScanEncode | components/mqtt/lib/mqtt_msg.c:119-140 | reading undoes writing and stops exactly behind what was written, whatever follows |
| VarInt.ScanThenEncode | components/mqtt/lib/mqtt_msg.c:119-140 | a reading that uses the least number of bytes was of the encoding itself |
| VarInt.GenerateVariableLen | components/mqtt/lib/mqtt5_msg.c:42-58 | the encoding loop, shared by both `fini_message`s, writes the encoding |
| VarInt.ReadVariable | components/mqtt/lib/mqtt_msg.c:119-133 | the accumulating loop returns the value, the number of bytes used and whether the length ended, for every input |
| Decode.HeaderAgreement | components/mqtt/lib/mqtt_msg.c:119-311 | in a packet with remaining length below 2^28 the loops of `mqtt_get_total_length`, `mqtt_get_publish_topic`, `mqtt_get_publish_data` and `mqtt_get_id` stop at the same place with the same value |
| RoundTrip5.LengthReadersAgree | components/mqtt/lib/mqtt5_msg.c:60-84 | `get_variable_len` and `mqtt_get_total_length` read the same length from the same number of bytes, for every input, exactly unless four bytes pass without an end |
| Packet.FramedInjective | components/mqtt/lib/mqtt_msg.c:103-114 | a frame determines its header byte, its remaining length and its body |
| Packet.UnframeWhole | components/mqtt/lib/mqtt_msg.c:71-117 | a finished packet read by section 2.2 of MQTT 3.1.1 gives back header and body |
| Packet.StaleTotal | components/mqtt/lib/mqtt_msg.c:78-81 | a builder called with a fragment total left over from another message makes the intended packet if and only if that total is 0 or by chance the right one |
| Packet.HeaderFields | components/mqtt/lib/include/mqtt_msg.h:71-98 | type, DUP, QoS and RETAIN are read back from the header byte as they were put in |
| Packet.SetDup | components/mqtt/lib/include/mqtt_msg.h:87-90 | sets DUP and leaves type, QoS and RETAIN alone |
| Packet.MarkPublish | components/mqtt/lib/include/mqtt_msg.h:87-90 | setting DUP in the first byte of a PUBLISH gives the packet with DUP and the same everything else |
| Packet.PublishOnWire | components/mqtt/lib/mqtt_msg.c:435-477 | a PUBLISH byte by byte: 0x30 with the flags, the remaining length, the topic with its length, the identifier for QoS 1 and 2, and the payload |
| Packet.AckOnWire | components/mqtt/lib/mqtt_msg.c:479-521 | PUBACK, PUBREC, PUBREL and PUBCOMP byte by byte |
| Packet.HeadersOnWire | components/mqtt/lib/mqtt_msg.c:571-587 | PINGREQ and DISCONNECT byte by byte, and the first bytes of CONNECT, SUBSCRIBE and UNSUBSCRIBE |
| Packet.FiltersRead | components/mqtt/lib/mqtt_msg.c:523-550 | a reader of section 3.8.3 recovers filters and QoS from the payload of a SUBSCRIBE, in order |
| Decode.GetTotalLength | components/mqtt/lib/mqtt_msg.c:119-140 | the loop computes total and fixed length as functions of the bytes at hand, for every input |
| Decode.GetPublishTopic | components/mqtt/lib/mqtt_msg.c:176-201 | the topic's place in the buffer, or NULL, for every input |
| Decode.GetPublishData | components/mqtt/lib/mqtt_msg.c:203-254 | the payload's place in the buffer, or NULL, for every input |
| Decode.GetId | components/mqtt/lib/mqtt_msg.c:269-333 | the identifier, or 0, for every input whose identifier lies inside the bytes at hand |
| Decode.PublishDecoded | components/mqtt/lib/mqtt_msg.c:176-254 | the front of a PUBLISH with any first part of its payload: topic and payload are found where they were written, and the total length is that of the whole packet |
| Decode.PublishIdDecoded | components/mqtt/lib/mqtt_msg.c:269-311 | the identifier is found also when the packet is longer than the bytes at hand, and without looking outside them |
| Decode.AckIdDecoded | components/mqtt/lib/mqtt_msg.c:313-328 | the identifier of a built acknowledgement is read back |
| Connections.Connection.AppendString | components/mqtt/lib/mqtt_msg.c:24-35 | appends the length-prefixed string if it fits and changes nothing otherwise |
| Connections.Connection.AppendMessageId | components/mqtt/lib/mqtt_msg.c:37-56 | an identifier that is 0 is replaced by a fresh non-zero one; with incremental identifiers one is used up even if the buffer then turns out to be full |
| Connections.Connection.FreshId | components/mqtt/lib/mqtt_msg.c:41-47 | the incremental counter yields its non-zero successor modulo 2^16; otherwise some non-zero identifier |
| Connections.Connection.FiniMessage | components/mqtt/lib/mqtt_msg.c:71-117 | right-aligns header byte and length in front of the body: the outbound message is the frame, its end does not move, and the payload offset is adjusted by the start |
| Connections.Connection.AppendPayload | components/mqtt/lib/mqtt_msg.c:460-474 | the payload is copied whole, or as much as the buffer holds, with the fragment total and offset that say so |
| Connections.Connection.MsgPublish | components/mqtt/lib/mqtt_msg.c:435-477 | succeeds exactly if everything before the payload fits; the outbound message is then the packet an unbounded buffer would give, or a prefix of it up to the end of the buffer |
| Connections.WholeOrFront | components/mqtt/lib/mqtt_msg.c:460-476 | what the buffer holds of a fragmented packet is a prefix of the whole packet |
| Connections.Connection.MsgAck | components/mqtt/lib/mqtt_msg.c:479-521 | PUBACK, PUBREC, PUBREL or PUBCOMP with the identifier given |
| Connections.Connection.MsgSubscribe | components/mqtt/lib/mqtt_msg.c:523-550 | succeeds exactly if no filter is empty and all fit; the packet holds the identifier and the filters in order with their QoS |
| Connections.Connection.MsgUnsubscribe | components/mqtt/lib/mqtt_msg.c:552-569 | succeeds exactly if the filter is given and fits; the packet holds the identifier and the filter |
| Connections.Connection.MsgEmpty | components/mqtt/lib/mqtt_msg.c:571-587 | PINGREQ, PINGRESP and DISCONNECT: a header without body |
| Connections.Connection.MsgConnect | components/mqtt/lib/mqtt_msg.c:335-433 | succeeds exactly if the body fits; the packet is the CONNECT body of the configuration, flags patched in place included |
| Connect.ConnectRoundTrip | components/mqtt/lib/mqtt_msg.c:335-433 | a reader written from section 3.1 of MQTT 3.1.1 recovers from the body exactly the client id, will topic, message, QoS and retain, user name, password, keep-alive and clean-session flag that were configured |
| Connect.ConnectPacketFaithful | components/mqtt/lib/mqtt_msg.c:335-433 | the same for the framed packet |
| Connect.FlagBits | components/mqtt/lib/mqtt_msg.c:373-430 | each connect flag is set if and only if its field is on the wire, with the will's QoS and retain |
| Connect.PasswordNeedsUsername | components/mqtt/lib/mqtt_msg.c:413-430 | the password flag implies the user name flag, also without a user name |
| Outboxes.Outbox.Enqueue | components/mqtt/lib/mqtt_outbox.c:47-73 | appends one entry holding its own copy of message and remaining data, queued, with the tick given |
| Outboxes.Outbox.Relink | components/mqtt/lib/mqtt_outbox.c:134-142 | STAILQ_REMOVE: afterwards the links from the head visit exactly the other items in order, and the tail pointer is right, also for the first and the last item |
| Outboxes.Outbox.Get | components/mqtt/lib/mqtt_outbox.c:75-84 | the first item with the identifier |
| Outboxes.Outbox.Dequeue | components/mqtt/lib/mqtt_outbox.c:86-99 | the first item in the given state, and its tick; nothing is removed |
| Outboxes.Outbox.DeleteItem | components/mqtt/lib/mqtt_outbox.c:101-116 | removes exactly that item, found by identity, or nothing |
| Outboxes.Outbox.Delete | components/mqtt/lib/mqtt_outbox.c:131-145 | removes exactly the first item with identifier and type, or nothing |
| Outboxes.Outbox.SetPending | components/mqtt/lib/mqtt_outbox.c:147-157 | changes the state of the first item with the identifier and nothing else |
| Outboxes.Outbox.SetTick | components/mqtt/lib/mqtt_outbox.c:168-178 | changes the tick of the first item with the identifier and nothing else |
| Outboxes.Outbox.DeleteSingleExpired | components/mqtt/lib/mqtt_outbox.c:180-196 | removes the first expired item and returns its identifier, or -1 |
| Outboxes.Outbox.DeleteExpired | components/mqtt/lib/mqtt_outbox.c:198-213 | one pass, deleting while it walks, leaves exactly the unexpired items in order and counts the others |
| Outboxes.Outbox.DeleteExpiredReporting | components/mqtt/mqtt_client.c:1868-1881 | the loop that deletes one expired message at a time terminates, leaves the same outbox as the single pass, and reports exactly the expired ones in order |
| OutboxModel.StrategiesAgree | components/mqtt/mqtt_client.c:1865-1885 | both compile-time strategies leave the order-preserving filter of the unexpired entries and remove the same ones in the same order |
| Outboxes.Outbox.SizeIsSum | components/mqtt/lib/mqtt_outbox.c:215-218 | the running total is the sum of the stored lengths |
| Outboxes.Outbox.DeleteAllItems | components/mqtt/lib/mqtt_outbox.c:220-231 | empties the list |
| Outboxes.Outbox.MarkDup | components/mqtt/lib/include/mqtt_msg.h:87-90 | `mqtt_set_dup` on a stored block sets DUP in that entry and changes no other |
| Clients.Client.Publish | components/mqtt/mqtt_client.c:2510-2635 | with QoS 1 or 2 and room under the limit, stores the whole packet first; then, if connected, sends the same bytes (plus the stray end of `WireBytes`) and leaves the message TRANSMITTED with the later tick (the first entry with its identifier; no other changes), or aborts exactly if a write failed and leaves it QUEUED; with QoS 0 nothing is stored; returns the identifier, -1 or -2 |
| SessionEffects.PublishRecords | components/mqtt/mqtt_client.c:2555-2622 | in the outbox a publish leaves the old entries and the new message: QUEUED with the tick of storing, or, once sent, the first entry with its identifier TRANSMITTED with the tick of sending |
| SessionEffects.PublishUnique | components/mqtt/mqtt_client.c:2555-2622 | with unique identifiers a sent publish appends its message, TRANSMITTED with the tick of sending, and changes no other entry |
| Clients.Client.EnqueuePublish | components/mqtt/mqtt_client.c:2474-2508 | what is stored is the packet an unbounded buffer would have produced, for every buffer that holds the part before the payload; the connection is ready to send it; the fragment total is cleared exactly if the message was stored or fits |
| Clients.Client.Enqueue | components/mqtt/mqtt_client.c:2637-2681 | stores without sending; QoS 0 without `store` reports failure, and leaves a fragment total behind exactly if the message does not fit the buffer |
| SessionEffects.EnqueueRecords | components/mqtt/mqtt_client.c:2474-2508 | the outbox is the old one and the new message, QUEUED |
| Clients.Client.Subscribe | components/mqtt/mqtt_client.c:2298-2374 | an identifier is drawn even for a packet that does not fit; otherwise the packet is stored, marked as transmitted and only then written; the result is then -1 exactly if a write failed |
| SessionEffects.SubscribeRecords | components/mqtt/mqtt_client.c:2344-2360 | the first entry with the new identifier is TRANSMITTED before anything is written; its tick stays |
| Clients.Client.Unsubscribe | components/mqtt/mqtt_client.c:2381-2440 | the same for UNSUBSCRIBE, with the pending fields reset and no limit checked |
| Clients.Client.ProcessAck | components/mqtt/mqtt_client.c:1402-1411 | an acknowledgement deletes the first stored message with its identifier and type, and is reported exactly if there is one |
| SessionEffects.AckRemoves | components/mqtt/mqtt_client.c:1402-1411 | SUBACK takes out the first SUBSCRIBE, UNSUBACK the first UNSUBSCRIBE, PUBACK and PUBCOMP the first PUBLISH with the identifier; only the last counts as published |
| Clients.Client.ProcessPubrec | components/mqtt/mqtt_client.c:1711-1731 | PUBREC: the PUBREL with this identifier is built first; only if that succeeds the first message with the identifier becomes ACKNOWLEDGED, everything else in the outbox staying as it is, and the PUBREL is written, unless a write fails, which changes nothing |
| SessionEffects.PubrecRecords | components/mqtt/mqtt_client.c:1711-1731 | with room for the PUBREL the first entry with the identifier is ACKNOWLEDGED, its other fields and all other entries are the same; without room the outbox is unchanged and the connection is given up |
| SessionEffects.PubrecForGood | components/mqtt/mqtt_client.c:1711-1731 | after a PUBREC, in every later state of a run with unique identifiers, that message is still ACKNOWLEDGED if it is there, and is neither the first queued nor the first transmitted one: its PUBLISH is not sent again |
| Clients.Client.Respond | components/mqtt/mqtt_client.c:1653-1688 | PUBACK, PUBREC or PUBCOMP with the identifier given goes out whole exactly if no write fails; identifier 0 is replaced by a new one |
| Clients.Client.HandlePacket | components/mqtt/mqtt_client.c:1600-1806 | a packet in the input buffer has the step and the answer that its type, QoS and identifier call for; an answer that can be built is written exactly if no write fails; which answers must be written and which only built decides whether the task goes on |
| Clients.AnswersOnWire | components/mqtt/mqtt_client.c:1653-1765 | byte by byte: a PUBLISH with QoS 1 is answered by PUBACK (0x40), one with QoS 2 by PUBREC (0x50), a PUBREC by PUBREL (0x62), a PUBREL by PUBCOMP (0x70), each with two bytes of identifier, and anything else by nothing |
| Clients.HandledRemoves | components/mqtt/mqtt_client.c:1690-1775 | packets of types 4, 7, 9 and 11 take the message they are for out of the outbox |
| Clients.HandledMarks | components/mqtt/mqtt_client.c:1635-1775 | type 5 marks the first message with its identifier as ACKNOWLEDGED, and no other type changes the outbox |
| Clients.AckBytesExactly | components/mqtt/lib/mqtt_msg.c:71-81 | an answer is the acknowledgement if and only if no fragment total was left behind, or by chance the right one |
| Exchanges.ReceivePlain | components/mqtt/mqtt_client.c:1574-1806 | a packet other than a PUBLISH that the task reads has exactly the effect of its own type and identifier on the outbox and the wire; its answer, given byte by byte, is written exactly if no write fails, and the stream goes on with the next packet; or a call stalls and nothing has happened |
| Exchanges.AckIsPlain | components/mqtt/mqtt_client.c:1690-1765 | acknowledgements are such packets, standing for the identifier they were built with |
| Exchanges.FrontId | components/mqtt/lib/mqtt_msg.c:313-328 | the identifier in front of an acknowledgement, SUBACK or UNSUBACK is found exactly if the body has fewer than 128 bytes |
| Exchanges.SubackDeletes | components/mqtt/mqtt_client.c:1616-1634 | a SUBACK with fewer than 126 return codes takes out the first SUBSCRIBE with the identifier in its bytes |
| Exchanges.UnsubackDeletes | components/mqtt/mqtt_client.c:1635-1650 | an UNSUBACK takes out the first UNSUBSCRIBE with the identifier in its bytes |
| Exchanges.SubackTooLong | components/mqtt/lib/mqtt_msg.c:313-328 | one with 126 or more changes nothing: the SUBSCRIBE stays |
| Exchanges.ReceivePublish | components/mqtt/mqtt_client.c:1635-1686 | a PUBLISH that the task reads becomes events that carry it, whole exactly if no read of the delivery came to nothing, and is answered with its own identifier, byte by byte PUBACK for QoS 1, PUBREC for QoS 2 and nothing for QoS 0, also when the buffer holds only part of it and when the events are cut short |
| Exchanges.PeerFallsSilent | components/mqtt/mqtt_client.c:1322-1343 | any PUBLISH longer than the input buffer, from a peer that falls silent when the buffer is full: exactly what is in the buffer is delivered, the PUBLISH is answered, and the rest of its payload is left on the stream |
| Exchanges.AnsweredShort | components/mqtt/mqtt_client.c:1322-1343 | such an input: of a payload of 100 bytes 9 are delivered, and unless a write fails the PUBACK goes out |
| Exchanges.HandledLeads | components/mqtt/mqtt_client.c:1635-1765 | what a received packet does to the session is a sequence of its steps, or nothing |
| Clients.Client.SendQueued | components/mqtt/mqtt_client.c:2024-2047 | the first queued message is sent as stored, then deleted (QoS 0) or marked as transmitted; exactly if a write fails, the connection is aborted and the outbox is unchanged |
| SessionEffects.QueuedSentUnique | components/mqtt/mqtt_client.c:2024-2047 | with unique identifiers it is the message sent that is TRANSMITTED, and no other changes |
| SessionEffects.QueuedFailed | components/mqtt/mqtt_client.c:2024-2030 | after a failed write only the connection state has changed |
| Clients.Client.SendTransmitted | components/mqtt/mqtt_client.c:2049-2066 | the first transmitted message, if old enough, is sent again with DUP set in the stored block itself; the connection is aborted exactly if a write fails |
| SessionEffects.TransmittedAgain | components/mqtt/mqtt_client.c:2049-2066 | bit 3 of the first byte of that PUBLISH is set, and nothing else in the outbox changes, whether or not the write succeeds |
| Exchanges.ResentIsMarked | components/mqtt/mqtt_client.c:1816-1822 | what the resend path writes for a stored PUBLISH is its packet with DUP set, also the second time |
| Exchanges.ResendReachesPeer | components/mqtt/mqtt_client.c:2049-2066 | a message sent again arrives at the peer as the same message with DUP set, under the same exact conditions as the first time |
| Clients.Client.SendPubrel | components/mqtt/mqtt_client.c:2068-2084 | for the first acknowledged message, if old enough, the PUBREL with its identifier is written again, or the connection is aborted, exactly if a write fails; the outbox does not change |
| Clients.Client.Expire | components/mqtt/mqtt_client.c:1865-1885 | either strategy removes exactly the expired messages; the reporting one reports their identifiers |
| SessionEffects.ExpireLeaves | components/mqtt/lib/mqtt_outbox.c:198-213 | what is left is exactly the messages that are not too old, in their order |
| Clients.Client.ConnectedPass | components/mqtt/mqtt_client.c:2024-2086 | one pass of the task in a connected client is expiry, then the first queued message, or else, when due, the first transmitted and the first acknowledged one, as steps of the session; exactly the bytes of these messages go out, unless a write fails, and only then the step aborts; the session invariant holds of the real objects afterwards |
| Clients.QueuedFirst | components/mqtt/mqtt_client.c:2024-2047 | a pass with a message queued writes the first one, as it is stored, and nothing else |
| Clients.DueWrites | components/mqtt/mqtt_client.c:2049-2084 | without one, a pass that is due writes the first transmitted message, with DUP, and the PUBREL of the first acknowledged one, each if it is old enough, byte by byte |
| SessionEffects.PassWithQueued | components/mqtt/mqtt_client.c:2024-2047 | a queued PUBLISH that was written is gone (QoS 0), or the first entry with its identifier is TRANSMITTED |
| SessionEffects.PassWithoutQueued | components/mqtt/mqtt_client.c:2049-2084 | with nothing queued a pass sets DUP in the first transmitted PUBLISH, if it is time, and changes nothing else in the outbox |
| Clients.Client.Abort | components/mqtt/mqtt_client.c:959-971 | an abort changes nothing but the connection state |
| Clients.BlocksAreFaithful | components/mqtt/mqtt_client.c:1810-1833 | as long as the session invariant holds, each stored block is the original encoding up to the DUP bit, although resending writes to it through an alias |
| SessionInvariants.StepKeeps | components/mqtt/mqtt_client.c:2024-2086 | every step of the client keeps: the outbox holds stored messages in order, with their bytes up to DUP, every message ever stored is in one place, and identifiers follow the counter |
| SessionRuns.RunConserves | components/mqtt/mqtt_client.c:1402-1411 | conservation over every run: PUBLISH messages stored = PUBLISHED events + QoS 0 messages deleted after sending + expired ones + those still in the outbox, and each single message is in exactly one of these places |
| SessionRuns.RunKeepsBytes | components/mqtt/mqtt_client.c:1810-1833 | in every reachable state a stored message differs from its original encoding at most in DUP, and DUP implies a PUBLISH with QoS above 0 that is not queued (sections 3.3.1.1 and 4.4 of MQTT 3.1.1) |
| SessionRuns.RunForward | components/mqtt/mqtt_client.c:2024-2086 | over every run no message returns to QUEUED or loses its DUP bit; if identifiers are unique, no state ever goes back |
| SessionRuns.YoungRunUnique | components/mqtt/lib/mqtt_msg.c:37-56 | with incremental identifiers and no stored message older than 65535 draws, non-zero identifiers in the outbox are unique in every reachable state |
| SessionRuns.YoungRunForward | components/mqtt/mqtt_client.c:2024-2086 | in such runs states move only QUEUED, TRANSMITTED, ACKNOWLEDGED |
| SessionRuns.YoungRunFifo | components/mqtt/mqtt_client.c:2024-2040 | in such runs messages first sent by the resend path go out in the order in which they were enqueued |
| SessionRuns.RunBounded | components/mqtt/mqtt_client.c:2548-2553 | over every run without unsubscribe, the outbox never exceeds its limit by more than the output buffer's length |
| SessionRuns.UnsubscribeBounded | components/mqtt/mqtt_client.c:2381-2440 | an unsubscribe keeps that bound exactly if there happens to be room |
| SessionRuns.UnsubscribeExceeds | components/mqtt/mqtt_client.c:2381-2440 | for every bound, whatever the limit, there is a run whose unsubscribes make the outbox larger |
| SessionRuns.RunGoesOn | components/mqtt/mqtt_client.c:2024-2086 | steps taken at the end of a run make a longer run, so what holds in every run holds after them |
| SessionRuns.PassLeads | components/mqtt/mqtt_client.c:2024-2086 | what a pass of the task does to the outbox is such a sequence of steps |
| SessionInvariants.AbortKeeps | components/mqtt/mqtt_client.c:959-971 | aborting a connection changes neither the outbox nor its history |
| SessionInvariants.YoungIsUnique | components/mqtt/lib/mqtt_msg.c:37-56 | identifiers of messages that are less than 65535 draws old are distinct |
| PacketIds.IdsDistinct | components/mqtt/lib/mqtt_msg.c:41-47 | any 65535 consecutive identifiers are non-zero and pairwise distinct across the 16-bit wrap |
| PacketIds.IdsRepeat | components/mqtt/lib/mqtt_msg.c:41-47 | the next one is the first again, so 65535 is exact |
| Keepalive.DeadPeerNoticed | components/mqtt/mqtt_client.c:787-816 | if the task looks at least every half interval, a peer that answers nothing is noticed by the first look after the whole interval |
| Keepalive.SilenceDetected | components/mqtt/mqtt_client.c:787-816 | two looks, one at `tick + ms / 2` or later and one at `tick + ms` or later, are enough |
| Keepalive.NoFalseAlarm | components/mqtt/mqtt_client.c:787-816 | while every look comes less than an interval after the last answer and pings can be written, the connection is not given up |
| Keepalive.Timer.ProcessKeepalive | components/mqtt/mqtt_client.c:787-816 | the timer's step on the real fields; a ping is sent exactly if none is awaited, half the interval is over and no write of the PINGREQ fails, and one that fails ends the connection; without a fragment total left behind it is the PINGREQ packet |
| RoundTrip5.PublishRoundTrip | components/mqtt/lib/mqtt5_msg.c:1063-1173 | a v5 PUBLISH is received as the same topic, scalar and string properties, user properties in order and payload if and only if its property section is shorter than 65536 bytes and the response topic, keys and values are within 16 KiB |
| RoundTrip5.LongResponseTopic | components/mqtt/lib/mqtt5_msg.c:439-455 | a response topic of 16385 bytes is not received |
| RoundTrip5.LongSection | components/mqtt/lib/mqtt5_msg.c:402-404 | four user properties within the cap make a section over 16 bits, and the message is not received |
| RoundTrip5.BuiltRoundTrip | components/mqtt/lib/mqtt5_msg.c:374-558 | the same for what the builder leaves in the connection for a message that fits the buffer |
| RoundTrip5.WalkSection | components/mqtt/lib/mqtt5_msg.c:404-547 | the property loop over a section as it is written ends at its end with the properties asked for, or rejects one over the cap |
| RoundTrip5.WalkUsers | components/mqtt/lib/mqtt5_msg.c:484-526 | user properties are received in order; the first one over the cap stops the parser |
| RoundTrip5.FinishElsewhere | components/mqtt/lib/mqtt5_msg.c:402-404 | with a section of 65536 bytes or more, something else than the payload is taken for it |
| Forwarded5.AnyPublishReceived | components/mqtt/lib/mqtt5_msg.c:374-558 | a PUBLISH with any properties in any order, given byte by byte, subscription identifiers and reason strings among them, is received as its topic, what the properties say one after another, and its payload, if and only if the section is shorter than 65536 bytes and the capped strings are within 16 KiB |
| Forwarded5.ForwardedReceived | components/mqtt/lib/mqtt5_msg.c:374-558 | so is a PUBLISH of this client with properties that a broker has added behind its own |
| Forwarded5.TurnSubscription | components/mqtt/lib/mqtt5_msg.c:465-473 | a subscription identifier of one to four bytes is told modulo 2^16, whatever was told before |
| Forwarded5.TurnReason | components/mqtt/lib/mqtt5_msg.c:527-541 | a reason string within the cap is passed over, one over it rejected |
| Forwarded5.OthersRejected | components/mqtt/lib/mqtt5_msg.c:542-546 | a property with any other identifier stops the parser |
| Forwarded5.SectionSent | components/mqtt/lib/mqtt5_msg.c:1091-1150 | the section of the builder, byte by byte, and that it tells exactly what was asked for |
| Builder5.UpdatePropertyLenValue | components/mqtt/lib/mqtt5_msg.c:91-115 | in place, the one-byte placeholder becomes the variable byte integer followed by the unchanged property bytes, everything before it is untouched, and the length grows by exactly the extra bytes; if that does not fit, nothing is written |
| Builder5.ShiftUp | components/mqtt/lib/mqtt5_msg.c:103-108 | the overlapping shift, last byte first, moves the section without losing a byte and touches nothing else |
| Builder5.AppendProperty | components/mqtt/lib/mqtt5_msg.c:117-150 | appends type, fixed-width field and data if all of it fits and changes nothing otherwise |
| Builder5.AddProperties | components/mqtt/lib/mqtt5_msg.c:1091-1150 | all requested properties are appended in order, and this succeeds exactly if there is room for all of them |
| Builder5.MsgPublish5 | components/mqtt/lib/mqtt5_msg.c:1063-1173 | succeeds exactly if a topic or alias is given and everything before the payload fits; the outbound message is the packet, or the front of it that fills the buffer; the server's response information goes behind the response topic |
| Properties.SlashJoinedIsCut | components/mqtt/lib/mqtt5_msg.c:1107-1127 | a response topic with response information is never sent as meant: a NUL takes the place of its last character |
| Parser5.GetVariableLen | components/mqtt/lib/mqtt5_msg.c:60-84 | at most four bytes are read, and four bytes without an end count as none |
| Parser5.WalkProperties | components/mqtt/lib/mqtt5_msg.c:404-547 | the loop with its moving 16-bit offset terminates and computes the specification's walk, for every input |
| Parser5.GetPublishPropertyPayload | components/mqtt/lib/mqtt5_msg.c:374-558 | the parser computes the specification's result for every input: accepted, rejected, or outside the message |
| Properties.OverrunExactly | components/mqtt/lib/mqtt5_msg.c:404-547 | the property loop leaves the message or wraps its offset if and only if it meets correlation data or a content type whose length goes beyond the message or 16 bits |
| Properties.SpillsExactly | components/mqtt/lib/mqtt5_msg.c:404-547 | a loop that is not stopped ends elsewhere than at the end of the section if and only if it meets correlation data or a content type that lies inside the message but ends behind the section |
| Properties.PayloadIntact | components/mqtt/lib/mqtt5_msg.c:374-558 | an accepted message is received with exactly the bytes behind its property section as payload if and only if it has no such property |
| Properties.Decode5Overruns | components/mqtt/lib/mqtt5_msg.c:374-558 | nothing is claimed of a message exactly if it ends before its topic length or inside its property section, or the loop meets such a property, or the message ends before its payload begins |
| Properties.OpenOverruns | components/mqtt/lib/mqtt5_msg.c:374-404 | opening a message leaves it exactly if it ends before its topic length or inside its property section |
| Properties.StrayInput | components/mqtt/lib/mqtt5_msg.c:457-482 | correlation data of claimed length 65535 in a message of 9 bytes |
| Properties.SpillInput | components/mqtt/lib/mqtt5_msg.c:457-482 | correlation data that takes the two bytes of payload along |
| TopicAliases.MeaningIsLastBound | components/mqtt/mqtt5_client.c:151-173 | after any sequence of received PUBLISHes with topics without NUL, an alias stands for the topic last bound to it (section 3.3.2.3.4 of MQTT 5.0) |
| TopicAliases.ReboundExactly | components/mqtt/mqtt5_client.c:432-439 | a new topic is lost if and only if it has the length of the old one and differs from it, but only behind a NUL that both share |
| TopicAliases.SameExactly | components/mqtt/mqtt5_client.c:433 | the comparison takes two topics of the same length for the same if and only if they are equal or agree up to and including a NUL |
| TopicAliases.NulLosesTopic | components/mqtt/mqtt5_client.c:433 | such a topic is lost |
| TopicAliases.Pigeonhole | components/mqtt/mqtt5_client.c:420-455 | with one entry per alias and aliases from 1 to the maximum, the list is never longer than the maximum |
| TopicAliases.AliasTable.Bounded | components/mqtt/mqtt5_client.c:420-455 | in every state of the table its length is at most the maximum |
| TopicAliases.AliasTable.Update | components/mqtt/mqtt5_client.c:420-455 | the list keeps one entry per alias, and each alias its meaning |
| TopicAliases.AliasTable.Get | components/mqtt/mqtt5_client.c:457-469 | look-up returns the meaning of the alias, or nothing |
| TopicAliases.AliasTable.Receive | components/mqtt/mqtt5_client.c:151-173 | the topic to report: the one received, or the alias's; failure for an alias over the maximum or never bound |
| Uart.StateAfter | main/protocol.c:207-236 | after any stream of bytes the receiver's state is determined by what follows the last `$` |
| Uart.FrameDelivered | main/protocol.c:207-236 | after any stream, a frame whose inner bytes contain neither `$` nor newline is handed on intact if it has at most 16 bytes and dropped otherwise |
| Uart.CorruptionDetected | main/protocol.c:98-178 | after any stream, a valid frame of which one byte between `$` and newline was replaced causes nothing to be accepted, not even if the new byte is `$` or newline |
| Uart.ChangedIsRejected | main/protocol.c:98-140 | replacing any one inner byte of an accepted frame makes it unacceptable |
| Uart.AcceptExactly | main/protocol.c:98-140 | the accepted packets byte by byte: writes of 7 bytes and reads of 6 for this device, with the sum of what is between `$` and the checksum |
| Uart.ResponseAccepted | main/protocol.c:75-91 | a response is accepted by the device exactly if it is a write frame with the device's own id |
| Uart.ResponseOverTheLine | main/protocol.c:75-91 | sent over the line after any stream, a write response is accepted exactly if none of its inner bytes is `$` or newline; otherwise nothing is accepted |
| Uart.CalculateChecksum | main/protocol.c:60-69 | the sum of the bytes modulo 256 |
| Uart.Device.ProcessPacket | main/protocol.c:98-178 | an accepted packet is published, and a write to a register below 16 is stored; anything else changes nothing |
| Uart.Device.Receive | main/protocol.c:207-236 | after every byte, frame buffer and index are the function of the whole stream, and each register equals the data of the last accepted write to it |
| PercentDecode.DecodeExactly | components/mqtt/lib/mqtt_utils/mqtt_utils.c:27-54 | decoding yields a text exactly if the input is an encoding of it, whichever bytes the encoder chose to escape besides `%` and NUL |
| PercentDecode.FailsExactly | components/mqtt/lib/mqtt_utils/mqtt_utils.c:38-42 | decoding fails if and only if a left-to-right scan meets a `%` without two hexadecimal digits behind it |
| PercentDecode.HexDigits | components/mqtt/lib/mqtt_utils/mqtt_utils.c:38-42 | the digits are 0 to 9, A to F and a to f, with their values |
| PercentDecode.DecodePercentEncoded | components/mqtt/lib/mqtt_utils/mqtt_utils.c:27-54 | the in-place loop returns the decoded bytes and their length, terminated by NUL, or -1; the write pointer never passes the read index and nothing behind the terminator changes |

## Left out

- Camera, BLE, WiFi, HTTP and `mqtt_cam.c`: driver calls without an invariant of their own.
- TLS, transport creation, URI parsing, `esp_mqtt_set_config` and `esp_mqtt_destroy_config`: plumbing over libraries that are not part of this model.
- CONNACK parsing, the reason codes, SUBACK and UNSUBACK payloads, and the user-property API of MQTT 5.0: long but shallow switches and copies.
- The MQTT 5.0 acknowledgement, SUBSCRIBE and CONNECT builders: the same `append_property` calls as the PUBLISH builder.
- The Receive Maximum counter of MQTT 5.0: the program does not enforce a bound on it (`esp_mqtt5_client_publish_check` compares with `>`, and resending never asks).
- FreeRTOS scheduling, logging and event-loop internals; user event handlers do nothing here.
- Failing memory allocation: every allocation succeeds.
- `components/mqtt/test` and `custom_outbox.cpp`: tests and example code.
- `outbox_delete_all_items` at the end of the task is modelled in the outbox but is not a step of `Session`, whose runs end there.
- The session (`Session`, `Client`) is the one of MQTT 3.1.1; of MQTT 5.0 only the PUBLISH codec and the alias table are modelled.
- Clients.Client.Publish: requires the whole packet to be shorter than 2^28 bytes, a length that agrees with the data, and, for a message without data, no fragment total left behind; the first two are what the packet format and the API documentation demand (a length of 0 with data means `strlen` there, and is taken as already replaced here), the last is the case `Packet.StaleTotal` describes. In a connected client Publish also requires that the caller's memory in front of the data is there as far as the send loop goes back to it; where it is not, C leaves the outcome undefined. Publish while not connected needs no such memory.
- Clients.Client.EnqueuePublish: requires the same of its arguments as Publish, and no such memory.
- Clients.Client.Enqueue: requires the same as EnqueuePublish.
- EndToEnd.WireIsPacket: requires that memory too (`Readable`), for the same reason; it always exists for offsets up to the end of the payload.
- Clients.Client.HandlePacket: the step and the answer only. A SUBACK without reason codes makes the program fail after the deletion, PINGRESP resets the keep-alive timer (`Keepalive`), and a PUBLISH is answered only after its delivery (`Exchanges.ReceivePublish`).
- Decode.GetId: requires the identifier to lie inside the bytes at hand if the message is longer than they are; `EndToEnd.IdInBuffer` says when it does, and otherwise the program reads behind its buffer.
- Clients.Client.Expire: the program reads the clock anew in each turn of the reporting loop; here one call has one time.
- Clients.Client.SendQueued: requires stored messages to be non-empty, which `SessionInvariants.GoodIsSound` derives from the invariant of every run; the same holds of SendTransmitted and SendPubrel.
- Connections.Connection.FreshId: without incremental identifiers the random generator is any choice among the non-zero values below 65535.
- Connections.Connection.MsgConnect: requires an output buffer below 2^28 bytes; longer packets could not state their length.
- Receivers.Receiver.ReceivePacket: requires an input buffer of at least 9 bytes, and a transport whose reads do not fail and whose peer has not fallen silent for good.
- EndToEnd.PublishReachesPeer: the payload offset left behind must be one with which `EndToEnd.WireIsPacket` gives the packet, and the input buffer must hold everything before the payload.
- Parser5.GetPublishPropertyPayload: where the program would read outside the message or wrap its 16-bit property offset (correlation data and content type are not checked against the section), or is told of a section longer than the message, the result is `Overrun` and nothing is claimed; `Properties.Decode5Overruns` says exactly when that is.
- Builder5.AppendProperty: fields of fixed width only; the variable-width form is used by SUBSCRIBE.
- TopicAliases.AliasTable.Receive: the maximum is fixed, as it is during a connection.
- Uart.Device.ProcessPacket: the JSON text handed to `mqtt_cam_publish_uart` is represented by the command it describes.
- Keepalive.Timer.ProcessKeepalive: a timer of its own beside `Client`; its abort is the step `Abort` of the session.
