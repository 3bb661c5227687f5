/**
 * Whole exchanges between the stream from the peer and the client: a packet is read through
 * the input buffer by `mqtt_process_receive`, and what it does to the outbox, the events and
 * the wire follows from the packet alone.
 */
module Exchanges {
  import opened Bytes
  import opened VarInt
  import opened Packet
  import opened Decode
  import opened Connections
  import opened Transport
  import opened Receivers
  import opened EndToEnd
  import opened OutboxModel
  import opened Session
  import opened SessionEffects
  import opened SessionInvariants
  import opened SessionRuns
  import opened Clients

  /** The receiver's buffer is not one of the client's blocks; the transport is the same. */
  ghost predicate Apart(c: Client, receiver: Receiver)
    reads c.outbox
  {
    receiver.inBuffer != c.conn.buffer && receiver.inBuffer !in c.outbox.blocks && receiver.link == c.link
  }

  /** What had been written, how many writes had failed, and the fragment total left behind. */
  datatype Before = Before(sent: seq<byte>, refused: nat, total: nat)

  ghost function Now(c: Client): Before
    reads c, c.conn, c.link
  {
    Before(c.link.sent, c.link.refused, c.conn.fragTotal)
  }

  /** A packet of this type, QoS and identifier has been acted on. The answer it calls for is
      written exactly if it can be built and no write of a piece of it fails. */
  ghost predicate ActedOn(c: Client, was: Before, kind: nat, qos: nat, id: nat, drawn: nat, written: bool, t: State)
    reads c, c.conn, c.outbox, c.outbox.nodes, c.outbox.blocks, c.link
  {
    && c.conn.Valid() && c.conn.fragTotal == was.total
    && t.lastId < 65536 && Drawn(c.cfg, t, drawn) && c.Handled(kind, qos, id, drawn, t)
    && (written ==> c.link.sent == was.sent + HandledBytes(kind, qos, id, drawn, c.cfg.room, was.total))
    && (Answerless(kind, qos, c.conn.buffer.Length) ==>
          (written <==> AnswerTo(kind, qos) == 0) && c.link.sent == was.sent)
    && c.link.refused == was.refused + Failures(kind, qos, c.conn.buffer.Length, written)
  }

  /** Byte by byte: the answer that was written, if no fragment total was left behind. */
  ghost predicate AnsweredBy(c: Client, was: Before, answer: seq<byte>, written: bool)
    reads c.link
  {
    written && was.total == 0 && c.cfg.room >= 7 ==> c.link.sent == was.sent + answer
  }

  lemma AnswerWritten(c: Client, was: Before, kind: nat, qos: nat, id: nat, drawn: nat, written: bool, t: State)
    requires id < 65536 && ActedOn(c, was, kind, qos, id, drawn, written, t)
    ensures AnsweredBy(c, was, WireAnswer(kind, qos, if id == 0 then drawn else id), written)
  {
    if c.cfg.room >= 7 { AnswersOnWire(kind, qos, id, drawn, c.cfg.room); }
  }

  /** ... for a packet that is not a PUBLISH. */
  ghost predicate PacketDone(c: Client, was: Before, packet: seq<byte>, drawn: nat, written: bool, t: State)
    requires packet != []
    reads c, c.conn, c.outbox, c.outbox.nodes, c.outbox.blocks, c.link
  {
    ActedOn(c, was, TypeOf(packet[0]), QosOf(packet[0]), IdOf(packet, |packet|), drawn, written, t)
  }

  /**
   * A packet other than a PUBLISH that the task reads has the effect that its type and its
   * identifier call for, and leaves the stream at the next packet; or the connection is given
   * up for a stalled call, and nothing has happened.
   */
  method ReceivePlain(c: Client, receiver: Receiver, ghost packet: seq<byte>, ghost rest: seq<byte>, ghost t: State)
    returns (received: bool, ghost calls: seq<seq<Attempt>>, ghost drawn: nat, ghost written: bool)
    requires c.Is(t) && c.phase == Connected && Apart(c, receiver)
    requires receiver.Valid() && receiver.link.reliable && !receiver.link.silent
    requires receiver.readLen < |packet| <= receiver.inBuffer.Length
    requires WellFormed(packet) && !Overreads(packet) && TypeOf(packet[0]) != PUBLISH
    requires receiver.Stream() == packet + rest
    modifies receiver`readLen, receiver`messageLength, receiver.inBuffer, c.link`incoming, c.link`patience, c.link`log,
             c.link`sent, c.link`refused, c`phase, c.conn, c.conn.buffer, c.outbox, c.outbox.nodes
    ensures c.link.log == old(c.link.log) + Flatten(calls)
    ensures received <==> !AnyStalls(calls, |packet| + |rest|)
    ensures received ==>
              && PacketDone(c, old(Now(c)), packet, drawn, written, t)
              && AnsweredBy(c, old(Now(c)), PlainAnswer(packet, drawn), written)
              && receiver.readLen == 0 && receiver.link.incoming == rest
    ensures !received ==> c.Is(t) && c.link.sent == old(c.link.sent) && c.link.refused == old(c.link.refused)
  {
    drawn, written := 0, false;
    received, calls := receiver.ReceivePacket(packet, rest);
    if received {
      drawn, written := Act(c, receiver, packet, rest, t);
      PlainAnswered(c, old(Now(c)), packet, drawn, written, t);
    }
  }

  /** The answer to a packet of this type with this identifier. */
  function PlainAnswer(packet: seq<byte>, drawn: nat): seq<byte>
    requires packet != [] && drawn < 65536
  {
    var id := IdOf(packet, |packet|);
    WireAnswer(packet[0] / 16, packet[0] / 2 % 4, if id == 0 then drawn else id)
  }

  lemma PlainAnswered(c: Client, was: Before, packet: seq<byte>, drawn: nat, written: bool, t: State)
    requires packet != [] && PacketDone(c, was, packet, drawn, written, t)
    ensures drawn < 65536 && AnsweredBy(c, was, PlainAnswer(packet, drawn), written)
  {
    AnswerWritten(c, was, TypeOf(packet[0]), QosOf(packet[0]), IdOf(packet, |packet|), drawn, written, t);
  }

  method Act(c: Client, receiver: Receiver, ghost packet: seq<byte>, ghost rest: seq<byte>, ghost t: State)
    returns (ghost drawn: nat, ghost written: bool)
    requires c.Is(t) && c.phase == Connected && Apart(c, receiver)
    requires receiver.Valid() && 0 < |packet| <= receiver.inBuffer.Length && receiver.Holds(packet, rest)
    modifies receiver`readLen, c.link`sent, c.link`refused, c`phase, c.conn, c.conn.buffer, c.outbox,
             c.outbox.nodes
    ensures PacketDone(c, old(Now(c)), packet, drawn, written, t)
    ensures receiver.readLen == 0 && receiver.link.incoming == rest
  {
    WholeInBuffer(receiver.inBuffer[..], packet);
    drawn, written := Handle(c, receiver, packet, t);
    receiver.Finish();
  }

  method Handle(c: Client, receiver: Receiver, ghost packet: seq<byte>, ghost t: State)
    returns (ghost drawn: nat, ghost written: bool)
    requires c.Is(t) && c.phase == Connected && Apart(c, receiver)
    requires 0 < |packet| == receiver.messageLength <= receiver.inBuffer.Length
    requires TypeOf(receiver.inBuffer[0]) == TypeOf(packet[0]) && QosOf(receiver.inBuffer[0]) == QosOf(packet[0])
    requires IdOf(receiver.inBuffer[..], |packet|) == IdOf(packet, |packet|)
    modifies c.link`sent, c.link`refused, c`phase, c.conn, c.conn.buffer, c.outbox, c.outbox.nodes
    ensures PacketDone(c, old(Now(c)), packet, drawn, written, t)
  {
    var ok;
    ok, written, drawn := c.HandlePacket(receiver.inBuffer, receiver.messageLength, t);
  }

  lemma WholeInBuffer(s: seq<byte>, packet: seq<byte>)
    requires 0 < |packet| <= |s| && s[..|packet|] == packet
    ensures s[0] == packet[0] && IdOf(s, |packet|) == IdOf(packet, |packet|)
  {
    CutWhole(s, |packet|);
    assert s[0] == s[..|packet|][0];
  }

  /** The steps of the session behind a received packet. */
  function HandledLabels(kind: nat, qos: nat, id: nat, drawn: nat): seq<Label> {
    if Acknowledges(kind) then [Acked(kind, id)]
    else if kind == PUBREC then [Pubrec(id, drawn)]
    else if AnswerTo(kind, qos) != 0 && id == 0 then [IdWasted(drawn)]
    else []
  }

  lemma HandledLeads(cfg: Config, s: State, kind: nat, qos: nat, id: nat, drawn: nat)
    requires s.lastId < 65536 && s.phase == Connected && Drawn(cfg, s, drawn)
    ensures Leads(cfg, s, HandledLabels(kind, qos, id, drawn), HandledStep(cfg, s, kind, qos, id, drawn))
  {
    var labels := HandledLabels(kind, qos, id, drawn);
    if labels != [] { assert labels[1..] == []; }
  }

  /** Among these packets are the acknowledgements: each stands for the identifier it was built
      with, except that the ones with both top bits set may be overread. */
  lemma AckIsPlain(kind: nat, id: nat)
    requires kind == PUBACK || kind == PUBREC || kind == PUBREL || kind == PUBCOMP
    requires 1 <= id < 65536
    ensures var p := AckPacket(kind, id);
      && WellFormed(p) && TypeOf(p[0]) == kind && IdOf(p, |p|) == id
      && (Overreads(p) <==> id / 256 >= 128 && id % 256 >= 128)
  {
    AckOverreads(kind, id);
    AckIdDecoded(kind, id);
    AckType(kind, id);
  }

  lemma AckType(kind: nat, id: nat)
    requires kind < 16
    ensures AckPacket(kind, id) != [] && TypeOf(AckPacket(kind, id)[0]) == kind
  {
    FramedHead(kind, 0, if kind == PUBREL then 1 else 0, 0, 2, U16(id));
  }

  // ----- packets with an identifier in front -----

  /** The identifier in front of the body is found exactly if the body has fewer than 128 bytes,
      whichever of these types it is: PUBACK to PUBCOMP, SUBSCRIBE, SUBACK, UNSUBSCRIBE, UNSUBACK. */
  lemma FrontId(header: byte, id: nat, rest: seq<byte>)
    requires 4 <= header / 16 <= 11 && id < 65536 && |rest| + 2 < LIMIT
    ensures var p := Whole(header, [id / 256, id % 256] + rest);
      p[0] == header && IdOf(p, |p|) == if |rest| < 126 then id else 0
  {
    var body := [id / 256, id % 256] + rest;
    var p := Whole(header, body);
    if |body| < 128 {
      assert p == [header] + [|body|] + body;
    } else {
      LongHead(header, body);
    }
  }

  lemma LongHead(header: byte, body: seq<byte>)
    requires |body| >= 128
    ensures |Whole(header, body)| >= 4 && Whole(header, body)[1] >= 128
  {
    EncodeTwo(|body|, |body| / 128);
    assert Whole(header, body)[1] == Encode(|body|)[0];
  }

  /** A SUBACK takes out the first SUBSCRIBE with its identifier, if it has fewer than 126 return
      codes, and an UNSUBACK the first UNSUBSCRIBE. */
  lemma SubackDeletes(cfg: Config, s: State, id: nat, codes: seq<byte>, drawn: nat, k: nat)
    requires id < 65536 && |codes| < 126 && FirstOf(s.outbox, id, 8, k)
    ensures var p := Whole(0x90, [id / 256, id % 256] + codes);
      HandledStep(cfg, s, p[0] / 16, p[0] / 2 % 4, IdOf(p, |p|), drawn).outbox == s.outbox[..k] + s.outbox[k + 1..]
  {
    FrontId(0x90, id, codes);
    HandledRemoves(cfg, s, 9, 0, id, drawn, k);
  }

  lemma UnsubackDeletes(cfg: Config, s: State, id: nat, drawn: nat, k: nat)
    requires id < 65536 && FirstOf(s.outbox, id, 10, k)
    ensures var p := Whole(0xB0, [id / 256, id % 256]);
      HandledStep(cfg, s, p[0] / 16, p[0] / 2 % 4, IdOf(p, |p|), drawn).outbox == s.outbox[..k] + s.outbox[k + 1..]
  {
    FrontId(0xB0, id, []);
    assert [id / 256, id % 256] + [] == [id / 256, id % 256];
    HandledRemoves(cfg, s, 11, 0, id, drawn, k);
  }

  /** A SUBACK with 126 or more return codes is not matched: the SUBSCRIBE stays. */
  lemma SubackTooLong(cfg: Config, s: State, id: nat, codes: seq<byte>, drawn: nat)
    requires id < 65536 && 126 <= |codes| && |codes| + 2 < LIMIT && Good(s.outbox, s.births)
    ensures var p := Whole(0x90, [id / 256, id % 256] + codes);
      HandledStep(cfg, s, p[0] / 16, p[0] / 2 % 4, IdOf(p, |p|), drawn) == s
  {
    FrontId(0x90, id, codes);
    forall k | 0 <= k < |s.outbox| ensures !(s.outbox[k].id == 0 && s.outbox[k].kind % 256 == 8) {
      GoodIndex(s, k);
    }
    AckIgnored(s, 9, 0);
  }

  // ----- a PUBLISH and its answer -----

  /** The identifier and QoS of a PUBLISH in the buffer, also when the buffer holds only part of it. */
  method PublishFields(receiver: Receiver, ghost p: PublishSpec, ghost rest: seq<byte>) returns (qos: nat, id: nat)
    requires receiver.Valid() && p.Sendable() && |p.Front()| <= receiver.readLen && receiver.Holds(p.Packet(), rest)
    ensures qos == p.qos && id == p.id
  {
    p.Layout(receiver.readLen);
    ghost var part := p.payload[..receiver.readLen - |p.Front()|];
    QosInBuffer(receiver.inBuffer[..], receiver.readLen, p, part);
    IdInFront(receiver.inBuffer[..], receiver.readLen, p, part, receiver.messageLength);
    qos := QosOf(receiver.inBuffer[0]);
    id := GetId(receiver.inBuffer, receiver.messageLength);
  }

  lemma QosInBuffer(s: seq<byte>, k: nat, p: PublishSpec, part: seq<byte>)
    requires p.Sendable() && k <= |s| && s[..k] == p.Front() + part
    ensures s != [] && QosOf(s[0]) == p.qos
  {
    FrontLayout(p.topic, p.payload, p.dup, p.qos, p.retain, p.id, part);
    assert s[0] == s[..k][0];
  }

  lemma IdInFront(s: seq<byte>, k: nat, p: PublishSpec, part: seq<byte>, length: nat)
    requires p.Sendable() && part <= p.payload && k <= |s| && s[..k] == p.Front() + part
    requires length == |p.Front()| + |p.payload| && (k == |s| || k == length)
    ensures (length <= |s| || IdReachable(s)) && IdOf(s, length) == p.id
  {
    PublishIdDecoded(p.topic, p.payload, p.dup, p.qos, p.retain, p.id, part, length);
    if k == |s| { assert s[..k] == s; } else { CutWhole(s, k); }
  }

  ghost predicate Answered(c: Client, was: Before, p: PublishSpec, drawn: nat, written: bool, t: State)
    reads c, c.conn, c.outbox, c.outbox.nodes, c.outbox.blocks, c.link
  {
    ActedOn(c, was, PUBLISH, p.qos, p.id, drawn, written, t)
  }

  lemma PublishAnswered(c: Client, was: Before, p: PublishSpec, drawn: nat, written: bool, t: State)
    requires p.Sendable() && Answered(c, was, p, drawn, written, t)
    ensures AnsweredBy(c, was, WireAnswer(3, p.qos, p.id), written)
  {
    AnswerWritten(c, was, PUBLISH, p.qos, p.id, drawn, written, t);
    assert WireAnswer(3, 0, drawn) == WireAnswer(3, 0, 0) == [];
  }

  /**
   * A PUBLISH that the task reads becomes events that carry it, and is answered with its own
   * identifier as its QoS demands. A read between two pieces of the payload that times out cuts
   * the events short; the PUBLISH is answered all the same, and what is left of its payload is
   * taken for the next packet.
   */
  method ReceivePublish(c: Client, receiver: Receiver, everyTopic: bool, ghost p: PublishSpec, ghost rest: seq<byte>,
                        ghost t: State)
    returns (received: bool, ghost calls: seq<seq<Attempt>>, ghost more: seq<Attempt>, ghost n: nat, ghost drawn: nat,
             ghost written: bool)
    requires c.Is(t) && c.phase == Connected && Apart(c, receiver)
    requires receiver.Valid() && receiver.link.reliable && !receiver.link.silent && receiver.readLen < |p.Packet()|
    requires p.Sendable() && |p.Front()| <= receiver.inBuffer.Length
    requires receiver.Stream() == p.Packet() + rest
    modifies receiver`readLen, receiver`messageLength, receiver`events, receiver.inBuffer, c.link`incoming,
             c.link`patience, c.link`log, c.link`sent, c.link`refused, c`phase, c.conn, c.conn.buffer, c.outbox,
             c.outbox.nodes
    ensures c.link.log == old(c.link.log) + Flatten(calls) + more
    ensures received <==> !AnyStalls(calls, |p.Packet()| + |rest|)
    ensures received ==>
              && old(receiver.events) <= receiver.events
              && Carries(receiver.events[|old(receiver.events)|..], p, everyTopic, n)
              && Answered(c, old(Now(c)), p, drawn, written, t)
              && AnsweredBy(c, old(Now(c)), WireAnswer(3, p.qos, p.id), written)
              && (n == |p.payload| <==> Uninterrupted(more))
              && receiver.readLen == 0 && receiver.link.incoming == p.payload[n..] + rest
    ensures !received ==>
              && c.Is(t) && receiver.events == old(receiver.events)
              && c.link.sent == old(c.link.sent) && c.link.refused == old(c.link.refused)
  {
    drawn, written, n, more := 0, false, 0, [];
    PublishReceivable(p, receiver.inBuffer.Length);
    received, calls := receiver.ReceivePacket(p.Packet(), rest);
    assert c.link.log + [] == c.link.log;
    if received {
      n, more, drawn, written := DeliverAndAnswer(c, receiver, everyTopic, p, rest, t);
      PublishAnswered(c, old(Now(c)), p, drawn, written, t);
    }
  }

  /** The events so far, the reads so far, and how much of the packet is in the buffer. */
  datatype Position = Position(events: seq<DataEvent>, log: seq<Attempt>, readLen: nat)

  ghost function Seen(receiver: Receiver): Position
    reads receiver, receiver.link
  {
    Position(receiver.events, receiver.link.log, receiver.readLen)
  }

  /** The first `n` bytes of the payload have been delivered, which took the reads `more`; they
      are the whole payload exactly if none of these reads came to nothing. */
  ghost predicate Delivered(receiver: Receiver, was: Position, everyTopic: bool, p: PublishSpec, rest: seq<byte>,
                            n: nat, more: seq<Attempt>)
    requires p.Sendable()
    reads receiver`events, receiver.link
  {
    && was.events <= receiver.events && Carries(receiver.events[|was.events|..], p, everyTopic, n)
    && receiver.link.log == was.log + more && (n == |p.payload| <==> Uninterrupted(more))
    && (receiver.link.silent ==> n == was.readLen - |p.Front()|)
    && receiver.link.incoming == p.payload[n..] + rest
  }

  method DeliverAndAnswer(c: Client, receiver: Receiver, everyTopic: bool, ghost p: PublishSpec, ghost rest: seq<byte>,
                          ghost t: State)
    returns (ghost n: nat, ghost more: seq<Attempt>, ghost drawn: nat, ghost written: bool)
    requires c.Is(t) && c.phase == Connected && Apart(c, receiver)
    requires receiver.Valid() && receiver.link.reliable && p.Sendable()
    requires receiver.Holds(p.Packet(), rest) && |p.Front()| <= receiver.readLen
    modifies receiver`readLen, receiver`events, receiver.inBuffer, c.link`incoming, c.link`patience, c.link`log,
             c.link`sent, c.link`refused, c`phase, c.conn, c.conn.buffer, c.outbox, c.outbox.nodes
    ensures Delivered(receiver, old(Seen(receiver)), everyTopic, p, rest, n, more)
    ensures Answered(c, old(Now(c)), p, drawn, written, t) && receiver.readLen == 0
  {
    var qos, id;
    qos, id, n, more := DeliverOnly(c, receiver, everyTopic, p, rest, t);
    drawn, written := AnswerLast(c, receiver, qos, id, p, t);
  }

  /** The identifier is read before the first event: later pieces of the payload overwrite it. */
  method Deliver(receiver: Receiver, everyTopic: bool, ghost p: PublishSpec, ghost rest: seq<byte>)
    returns (qos: nat, id: nat, ghost n: nat, ghost more: seq<Attempt>)
    requires receiver.Valid() && receiver.link.reliable && p.Sendable()
    requires receiver.Holds(p.Packet(), rest) && |p.Front()| <= receiver.readLen
    modifies receiver`events, receiver.inBuffer, receiver.link`incoming, receiver.link`patience, receiver.link`log
    ensures qos == p.qos && id == p.id
    ensures Delivered(receiver, old(Seen(receiver)), everyTopic, p, rest, n, more)
  {
    qos, id := PublishFields(receiver, p, rest);
    var delivered;
    delivered, n, more := receiver.DeliverPublish(everyTopic, p, rest);
  }

  /** Events do not touch the client. */
  method DeliverOnly(c: Client, receiver: Receiver, everyTopic: bool, ghost p: PublishSpec, ghost rest: seq<byte>,
                     ghost t: State)
    returns (qos: nat, id: nat, ghost n: nat, ghost more: seq<Attempt>)
    requires c.Is(t) && Apart(c, receiver)
    requires receiver.Valid() && receiver.link.reliable && p.Sendable()
    requires receiver.Holds(p.Packet(), rest) && |p.Front()| <= receiver.readLen
    modifies receiver`events, receiver.inBuffer, c.link`incoming, c.link`patience, c.link`log
    ensures qos == p.qos && id == p.id < 65536 && c.Is(t) && Now(c) == old(Now(c))
    ensures Delivered(receiver, old(Seen(receiver)), everyTopic, p, rest, n, more)
  {
    qos, id, n, more := Deliver(receiver, everyTopic, p, rest);
  }

  /** The answer, and then the buffer is free for the next packet. */
  method AnswerLast(c: Client, receiver: Receiver, qos: nat, id: nat, ghost p: PublishSpec, ghost t: State)
    returns (ghost drawn: nat, ghost written: bool)
    requires c.Is(t) && c.phase == Connected && receiver.Valid() && qos == p.qos && id == p.id < 65536
    modifies receiver`readLen, c.link`sent, c.link`refused, c`phase, c.conn, c.conn.buffer, c.outbox, c.outbox.nodes
    ensures Answered(c, old(Now(c)), p, drawn, written, t) && receiver.readLen == 0
  {
    drawn, written := AnswerPublish(c, qos, id, p, t);
    receiver.Finish();
  }

  method AnswerPublish(c: Client, qos: nat, id: nat, ghost p: PublishSpec, ghost t: State)
    returns (ghost drawn: nat, ghost written: bool)
    requires c.Is(t) && c.phase == Connected && qos == p.qos && id == p.id < 65536
    modifies c.link`sent, c.link`refused, c`phase, c.conn, c.conn.buffer, c.outbox, c.outbox.nodes
    ensures Answered(c, old(Now(c)), p, drawn, written, t)
  {
    var ok;
    ok, written, drawn := c.HandleTyped(PUBLISH, qos, id, t);
  }

  /**
   * Any PUBLISH that is longer than the input buffer, from a peer that falls silent when the
   * buffer is full: what is in the buffer is delivered, and the PUBLISH is answered.
   */
  method PeerFallsSilent(c: Client, receiver: Receiver, ghost p: PublishSpec, ghost t: State)
    returns (ghost n: nat, ghost drawn: nat, ghost written: bool)
    requires c.Is(t) && c.phase == Connected && Apart(c, receiver)
    requires c.link.reliable && !c.link.silent && c.link.patience == 0 && c.link.incoming == p.Packet()
    requires receiver.Valid() && receiver.readLen == 0 && receiver.events == []
    requires p.Sendable() && |p.Front()| <= receiver.inBuffer.Length < |p.Packet()|
    modifies receiver`readLen, receiver`messageLength, receiver`events, receiver.inBuffer, c.link, c`phase, c.conn,
             c.conn.buffer, c.outbox, c.outbox.nodes
    ensures n == receiver.inBuffer.Length - |p.Front()| < |p.payload|
    ensures Carries(receiver.events, p, false, n) && c.link.incoming == p.payload[n..]
    ensures Answered(c, old(Now(c)), p, drawn, written, t)
  {
    Fill(receiver, p);
    c.link.silent := true;
    ghost var more;
    n, more, drawn, written := DeliverAndAnswer(c, receiver, false, p, [], t);
    assert receiver.events[0..] == receiver.events && p.payload[n..] + [] == p.payload[n..];
  }

  /** Receives the first part of such a PUBLISH. */
  method Fill(receiver: Receiver, ghost p: PublishSpec)
    requires receiver.link.reliable && !receiver.link.silent && receiver.link.patience == 0
    requires receiver.link.incoming == p.Packet() && receiver.Valid() && receiver.readLen == 0
    requires p.Sendable() && |p.Front()| <= receiver.inBuffer.Length < |p.Packet()|
    modifies receiver`readLen, receiver`messageLength, receiver.inBuffer, receiver.link`incoming,
             receiver.link`patience, receiver.link`log
    ensures receiver.Valid() && receiver.Holds(p.Packet(), []) && receiver.readLen == receiver.inBuffer.Length
    ensures |p.Packet()| == |p.Front()| + |p.payload|
  {
    PublishReceivable(p, receiver.inBuffer.Length);
    p.Layout(|p.Packet()|);
    assert receiver.Stream() == p.Packet() + [];
    var received;
    ghost var calls;
    received, calls := receiver.ReceivePacket(p.Packet(), []);
  }

  /** A PUBLISH of 107 bytes, QoS 1. */
  function LongPublish(): PublishSpec { PublishSpec([97], seq(100, _ => 0), 0, 1, 0, 1) }

  lemma LongPublishFront()
    ensures var p := LongPublish(); p.Sendable() && |p.Front()| == 7 && |p.Packet()| == 107
  {
    var p := LongPublish();
    assert Encode(105) == [105];
    p.Layout(|p.Packet()|);
  }

  /** A client that has just connected, and a peer that is about to send this. */
  method Fresh(stream: seq<byte>, room: nat) returns (link: Link, c: Client, receiver: Receiver)
    requires room >= 9
    ensures fresh(link) && fresh(c) && fresh(c.conn) && fresh(c.conn.buffer) && fresh(c.outbox) && fresh(receiver)
    ensures fresh(receiver.inBuffer) && c.outbox.nodes == {} && c.link == link && Apart(c, receiver)
    ensures c.Is(Start(0).(phase := Connected)) && c.cfg.room == 128 && c.conn.fragTotal == 0
    ensures link.incoming == stream && link.patience == 0 && link.reliable && !link.silent
    ensures link.sent == [] && link.refused == 0
    ensures receiver.Valid() && receiver.inBuffer.Length == room && receiver.readLen == 0 && receiver.events == []
  {
    link := new Link(stream, 0, true);
    c := new Client(128, 0, 0, true, link);
    c.EnterPhase(Connected, Start(0));
    receiver := new Receiver(room, link);
  }

  /** With an input buffer of 16 bytes the client delivers 9 of the 100 bytes of payload and
      acknowledges the PUBLISH; the other 91 bytes are before it on the stream, and it will take
      them for packets. */
  method AnsweredShort() returns (link: Link, events: seq<DataEvent>)
    ensures Carries(events, LongPublish(), false, 9) && link.incoming == LongPublish().payload[9..]
    ensures link.refused == 0 ==> link.sent == AckPacket(PUBACK, 1)
  {
    ghost var p := LongPublish();
    LongPublishFront();
    var c, receiver;
    link, c, receiver := Fresh(LongPublish().Packet(), 16);
    ghost var n, drawn, written;
    n, drawn, written := PeerFallsSilent(c, receiver, p, Start(0).(phase := Connected));
    events := receiver.events;
    AckSent(c, p, drawn, written, Start(0).(phase := Connected));
  }

  /** The answer of a client that had written nothing, to a PUBLISH with QoS 1. */
  lemma AckSent(c: Client, p: PublishSpec, drawn: nat, written: bool, t: State)
    requires Answered(c, Before([], 0, 0), p, drawn, written, t) && p.qos == 1 && 1 <= p.id && c.cfg.room >= 7
    ensures c.link.refused == 0 ==> c.link.sent == AckPacket(PUBACK, p.id)
  {
    AckBytesExactly(PUBACK, p.id, 0);
    assert [] + AckBytes(PUBACK, p.id, 0) == AckBytes(PUBACK, p.id, 0);
  }

  // ----- a message sent again -----

  /** An entry holds this PUBLISH, sent before or not. */
  ghost predicate Stores(e: Entry, p: PublishSpec) {
    && e.kind == PUBLISH && e.qos == p.qos > 0
    && (e.bytes == p.(dup := 0).Packet() || e.bytes == p.(dup := 1).Packet())
  }

  /** What the resend path writes for it is the packet with DUP. */
  lemma ResentIsMarked(e: Entry, p: PublishSpec)
    requires Stores(e, p)
    ensures Resent(e).bytes == p.(dup := 1).Packet()
  {
    MarkPublish(p.topic, p.payload, p.qos, p.retain, p.id);
    var first := p.(dup := 0).Packet();
    if e.bytes != first { MarkAgain(first); }
  }

  lemma MarkAgain(s: seq<byte>)
    requires s != []
    ensures var t := s[0 := SetDup(s[0])]; t[0 := SetDup(t[0])] == t
  {
  }

  /** It is this PUBLISH's turn to be sent again. */
  ghost predicate Due(t: State, now: int, timeout: int, p: PublishSpec) {
    var k := First(t.outbox, ByPending(Transmitted));
    k < |t.outbox| && now - t.outbox[k].tick > timeout && Stores(t.outbox[k], p)
  }

  method ResendStored(c: Client, now: int, timeout: int, ghost p: PublishSpec, ghost t: State) returns (ok: bool)
    requires c.Is(t) && Sound(t.outbox) && c.link.sent == [] && p.dup == 1 && Due(t, now, timeout, p)
    modifies c, c.link`sent, c.link`refused, c.conn`data, c.conn`start, c.conn`length, c.outbox.blocks
    ensures c.Is(ResendTransmittedStep(t, now, timeout, ok)) && (ok <==> c.link.refused == old(c.link.refused))
    ensures ok ==> c.link.sent == p.Packet()
  {
    ResentIsMarked(t.outbox[First(t.outbox, ByPending(Transmitted))], p);
    ok := c.SendTransmitted(now, timeout, t);
  }

  /**
   * A stored message that is sent again arrives at the peer as the same message with DUP set,
   * under the same conditions as the first time.
   */
  method ResendReachesPeer(c: Client, now: int, timeout: int, room: nat, timeouts: nat, rest: seq<byte>,
                           everyTopic: bool, ghost p: PublishSpec, ghost t: State)
    returns (ok: bool, gaveUp: bool, events: seq<DataEvent>, peer: Link,
             ghost calls: seq<seq<Attempt>>, ghost more: seq<Attempt>, ghost n: nat)
    requires c.Is(t) && Sound(t.outbox) && c.link.sent == [] && Due(t, now, timeout, p)
    requires p.dup == 1 && p.Sendable() && room >= 9 && |p.Front()| <= room
    modifies c, c.link`sent, c.link`refused, c.conn`data, c.conn`start, c.conn`length, c.outbox.blocks
    ensures c.Is(ResendTransmittedStep(t, now, timeout, ok)) && (ok <==> c.link.refused == old(c.link.refused))
    ensures ok ==> fresh(peer) && peer.log == Flatten(calls) + more
    ensures ok ==> (gaveUp <==> AnyStalls(calls, |p.Packet()| + |rest|))
    ensures ok && gaveUp ==> events == [] && timeouts > 0
    ensures ok && !gaveUp ==> Carries(events, p, everyTopic, n) && peer.incoming == p.payload[n..] + rest
    ensures ok && !gaveUp ==> (n == |p.payload| <==> Uninterrupted(more))
    ensures ok && !gaveUp && (timeouts == 0 || |p.Packet()| <= room) ==> n == |p.payload|
  {
    events, gaveUp, calls, more, n, peer := [], false, [], [], 0, c.link;
    ok := ResendStored(c, now, timeout, p, t);
    if !ok { return; }
    gaveUp, events, peer, calls, more, n := ReceiveFrom(c.link.sent + rest, room, timeouts, everyTopic, p, rest);
  }
}
