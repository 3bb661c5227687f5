/**
 * From the publish call of one client to the data events of another, over any transport
 * and any buffer sizes.
 */
module EndToEnd {
  import opened Bytes
  import opened VarInt
  import opened Packet
  import opened Decode
  import opened Connections
  import opened Transport
  import opened Sender
  import opened Receivers

  // ----- what a publish puts on the wire -----

  /** The whole packet, and the space kept for its header, fit the buffer. */
  predicate FitsRoom(topic: seq<byte>, payload: seq<byte>, qos: nat, id: nat, room: nat) {
    5 + |PublishHead(topic, qos, id)| + |payload| <= room
  }

  /** How far a payload offset left behind by an earlier message is beyond the place of this
      one's payload in the buffer. That much the send loop believes to be still unsent. */
  function Overshoot(topic: seq<byte>, payload: seq<byte>, qos: nat, id: nat, room: nat, stale: int): nat {
    var position := 5 + |PublishHead(topic, qos, id)|;
    if FitsRoom(topic, payload, qos, id, room) && stale > position then stale - position else 0
  }

  /** The bytes in front of the payload in the caller's memory reach as far back as the send
      loop's pointer goes. */
  predicate Readable(topic: seq<byte>, payload: seq<byte>, qos: nat, id: nat, room: nat, stale: int,
                     before: seq<byte>)
  {
    Overshoot(topic, payload, qos, id, room, stale) <= |before| + |payload|
  }

  /** The bytes the send loop writes for a built PUBLISH: after an offset left behind, the packet
      and then again the end of the payload, or more than all of it and the caller's memory
      in front of it. */
  function WireBytes(topic: seq<byte>, payload: seq<byte>, qos: nat, retain: nat, id: nat, room: nat, stale: int,
                     before: seq<byte>): seq<byte>
    requires Readable(topic, payload, qos, id, room, stale, before)
  {
    var memory := before + payload;
    PublishPacket(topic, payload, qos, retain, id)
    + memory[|memory| - Overshoot(topic, payload, qos, id, room, stale)..]
  }

  /** The wire carries exactly the packet if and only if the message is fragmented or the
      offset left behind is not beyond this payload's position in the buffer. */
  lemma WireIsPacket(topic: seq<byte>, payload: seq<byte>, qos: nat, retain: nat, id: nat, room: nat, stale: int,
                     before: seq<byte>)
    requires Readable(topic, payload, qos, id, room, stale, before)
    ensures WireBytes(topic, payload, qos, retain, id, room, stale, before)
            == PublishPacket(topic, payload, qos, retain, id)
            <==> !FitsRoom(topic, payload, qos, id, room) || stale <= 5 + |PublishHead(topic, qos, id)|
  {
    var whole := PublishPacket(topic, payload, qos, retain, id);
    var w := WireBytes(topic, payload, qos, retain, id, room, stale, before);
    assert |w| == |whole| + Overshoot(topic, payload, qos, id, room, stale);
    if Overshoot(topic, payload, qos, id, room, stale) == 0 { assert w == whole + []; }
  }

  /** An offset beyond the end of this payload makes the second piece start in front of the
      caller's data, by as much as it is beyond. */
  lemma WireBeyondPayload(topic: seq<byte>, payload: seq<byte>, qos: nat, retain: nat, id: nat, room: nat, stale: int,
                  before: seq<byte>)
    requires Readable(topic, payload, qos, id, room, stale, before)
    requires Overshoot(topic, payload, qos, id, room, stale) >= |payload|
    ensures var n := Overshoot(topic, payload, qos, id, room, stale) - |payload|;
      WireBytes(topic, payload, qos, retain, id, room, stale, before)
      == PublishPacket(topic, payload, qos, retain, id) + before[|before| - n..] + payload
  {
    var n := Overshoot(topic, payload, qos, id, room, stale) - |payload|;
    DropConcat(before, payload, |before| - n);
    Assoc(PublishPacket(topic, payload, qos, retain, id), before[|before| - n..], payload);
  }

  /** A built PUBLISH is what the send loop needs. */
  lemma BuiltIsLoaded(conn: Connection, topic: seq<byte>, payload: seq<byte>, qos: nat, retain: nat, id: nat,
                      stale: int, before: seq<byte>)
    requires conn.HasOutbound() && conn.BuiltPublish(topic, payload, qos, retain, id, stale)
    requires Readable(topic, payload, qos, id, conn.buffer.Length, stale, before)
    ensures Loaded(conn, WireBytes(topic, payload, qos, retain, id, conn.buffer.Length, stale, before), 0,
                   before + payload, |before|, |payload|)
  {
    var whole := PublishPacket(topic, payload, qos, retain, id);
    var stream := WireBytes(topic, payload, qos, retain, id, conn.buffer.Length, stale, before);
    var included := conn.length - conn.fragOffset;
    assert whole[..|whole|] == whole;
    if FitsRoom(topic, payload, qos, id, conn.buffer.Length) {
      assert included == 5 + |PublishHead(topic, qos, id)| + |payload| - stale;
      var n := Overshoot(topic, payload, qos, id, conn.buffer.Length, stale);
      AfterWhole(whole, (before + payload)[|before + payload| - n..]);
    } else {
      assert stream == whole;
      assert whole == Front(topic, payload, 0, qos, retain, id) + payload;
      TakeConcat(Front(topic, payload, 0, qos, retain, id), payload, conn.length);
      DropPast(before, payload, included);
    }
  }

  lemma AfterWhole(a: seq<byte>, b: seq<byte>)
    ensures (a + b)[..|a|] == a && (a + b)[|a|..] == b
  {
  }

  lemma DropPast(a: seq<byte>, b: seq<byte>, n: nat)
    requires n <= |b|
    ensures (a + b)[|a| + n..] == b[n..]
  {
  }

  /** The outbound message and the payload behind it are the whole packet. */
  lemma BuiltIsStored(conn: Connection, topic: seq<byte>, payload: seq<byte>, qos: nat, retain: nat, id: nat,
                      stale: int)
    requires conn.HasOutbound() && conn.BuiltPublish(topic, payload, qos, retain, id, stale)
    ensures var whole := PublishPacket(topic, payload, qos, retain, id);
      var included := conn.length - conn.fragOffset;
      if conn.fragTotal == 0 then conn.Outbound() == whole
      else 0 <= included <= |payload| && conn.Outbound() + payload[included..] == whole
  {
    if conn.fragTotal != 0 {
      var front := Front(topic, payload, 0, qos, retain, id);
      FrontThenPayload(topic, payload, 0, qos, retain, id);
      TakeConcat(front, payload, conn.length);
      var n := conn.length - |front|;
      Assoc(front, payload[..n], payload[n..]);
      assert payload[..n] + payload[n..] == payload;
    }
  }

  /** A PUBLISH without payload, when no fragment total was left behind. */
  lemma EmptyIsLoaded(conn: Connection, topic: seq<byte>, qos: nat, retain: nat, id: nat, stale: int, before: seq<byte>)
    requires conn.HasOutbound() && conn.start + conn.length <= conn.buffer.Length
    requires var head := PublishHead(topic, qos, id);
      && conn.Outbound() == Framed(HeaderByte(PUBLISH, 0, qos, retain), |head|, head)
      && conn.fragOffset == stale - conn.start && conn.start + conn.length == 5 + |head|
    requires Readable(topic, [], qos, id, conn.buffer.Length, stale, before)
    ensures conn.Outbound() == PublishPacket(topic, [], qos, retain, id)
    ensures Loaded(conn, WireBytes(topic, [], qos, retain, id, conn.buffer.Length, stale, before), 0,
                   before + [], |before|, 0)
  {
    EmptyIsPacket(topic, qos, retain, id);
    var n := Overshoot(topic, [], qos, id, conn.buffer.Length, stale);
    AfterWhole(conn.Outbound(), (before + [])[|before + []| - n..]);
  }

  /**
   * How a connected client gets there: a long message is enqueued, which clears the fragment
   * total but not the offset, and before it is sent a short one is published. At least 95 bytes
   * of the caller's memory in front of the short message's payload go out behind it.
   */
  method ShortAfterLong(link: Link, before: seq<byte>) returns (ok: bool, id: nat, ghost n: nat)
    requires |before| >= 128
    modifies link`sent, link`refused
    ensures ok <==> link.refused == old(link.refused)
    ensures ok ==>
              && 95 <= n <= |before|
              && link.sent == old(link.sent) + (PublishPacket([97], [98], 1, 0, id) + before[|before| - n..] + [98])
  {
    var conn := new Connection(128, true);
    LongOffset(conn);
    ghost var stale := conn.fragOffset;
    id := conn.MsgPublish(Some([97]), Some([98]), 1, 1, 0);
    BuiltIsLoaded(conn, [97], [98], 1, 0, id, stale, before);
    WireBeyondPayload([97], [98], 1, 0, id, 128, stale, before);
    n := Overshoot([97], [98], 1, id, 128, stale) - 1;
    ghost var done;
    ok, done := SendLoop(conn, link, before + [98], |before|, 1, WireBytes([97], [98], 1, 0, id, 128, stale, before));
  }

  /** Builds a message of 404 bytes behind its fixed header, and forgets its total as storing does. */
  method LongOffset(conn: Connection)
    requires conn.Valid() && conn.buffer.Length == 128
    modifies conn, conn.buffer
    ensures conn.Valid() && conn.fragTotal == 0 && 106 <= conn.fragOffset <= 109
  {
    var topic, payload: seq<byte> := seq(100, _ => 97), seq(300, _ => 0);
    var id := conn.MsgPublish(Some(topic), Some(payload), 300, 1, 0);
    EncodeFourBytes(404);
    FrontThenPayload(topic, payload, 0, 1, 0, id);
    assert |Front(topic, payload, 0, 1, 0, id)| == 1 + |Encode(404)| + 104;
    conn.fragTotal := 0;
  }

  /**
   * The same for the total: a long message enqueued with QoS 0 and without storing leaves it
   * behind, and the next acknowledgement claims to be that long.
   */
  method AnswerAfterLoss() returns (conn: Connection)
    ensures conn.HasOutbound() && conn.length > 0 && conn.Outbound() != AckPacket(PUBACK, 7)
    ensures conn.Outbound() == Framed(HeaderByte(PUBACK, 0, 0, 0), 402, U16(7))
  {
    conn := new Connection(128, true);
    var topic, payload: seq<byte> := seq(100, _ => 97), seq(300, _ => 0);
    var id := conn.MsgPublish(Some(topic), Some(payload), 300, 0, 0);
    assert conn.fragTotal == 407;
    id := conn.MsgAck(PUBACK, 7);
    StaleTotal(HeaderByte(PUBACK, 0, 0, 0), 407, U16(7));
  }

  lemma EmptyIsPacket(topic: seq<byte>, qos: nat, retain: nat, id: nat)
    ensures var head := PublishHead(topic, qos, id);
      Framed(HeaderByte(PUBLISH, 0, qos, retain), |head|, head) == PublishPacket(topic, [], qos, retain, id)
  {
    assert PublishHead(topic, qos, id) + [] == PublishHead(topic, qos, id);
  }

  // ----- the round trip -----

  lemma PublishWellFormed(topic: seq<byte>, payload: seq<byte>, dup: nat, qos: nat, retain: nat, id: nat)
    requires Expressible(topic, payload, dup, qos, retain)
    ensures var p := MarkedPacket(topic, payload, dup, qos, retain, id);
      WellFormed(p) && FixedLen(p) == 1 + |Encode(|PublishHead(topic, qos, id)| + |payload|)|
  {
    var header := HeaderByte(PUBLISH, dup, qos, retain);
    var body := PublishHead(topic, qos, id) + payload;
    UnframeWhole(header, body);
    HeaderFields(PUBLISH, dup, qos, retain);
    HeaderAgreement(header, |body|, body, 4);
  }

  /** No PUBLISH can be overread, not even the smallest. */
  lemma PublishNotOverread(topic: seq<byte>, payload: seq<byte>, dup: nat, qos: nat, retain: nat, id: nat)
    requires Expressible(topic, payload, dup, qos, retain)
    ensures var p := MarkedPacket(topic, payload, dup, qos, retain, id); WellFormed(p) && !Overreads(p)
  {
    PublishWellFormed(topic, payload, dup, qos, retain, id);
    var body := PublishHead(topic, qos, id) + payload;
    if |body| <= 3 {
      TinyTopic(topic, if qos > 0 then U16(id) else [], payload);
      TinyBody(HeaderByte(PUBLISH, dup, qos, retain), body);
    }
  }

  lemma TinyTopic(topic: seq<byte>, id: seq<byte>, payload: seq<byte>)
    requires |topic| <= 1
    ensures var body := Str(topic) + id + payload; |body| >= 2 && body[1] < 128
  {
  }

  lemma TinyBody(header: byte, body: seq<byte>)
    requires 2 <= |body| <= 3 && body[1] < 128 && WellFormed(Whole(header, body))
    ensures !Overreads(Whole(header, body))
  {
    assert Encode(|body|) == [|body|];
    var p := Whole(header, body);
    assert p == [header] + [|body|] + body;
    assert p[3] == body[1];
  }

  /** With room for its whole front, an over-long PUBLISH is not rejected. */
  lemma PublishAcceptable(p: PublishSpec, room: nat)
    requires p.Sendable()
    ensures WellFormed(p.Packet())
    ensures Acceptable(p.Packet(), room) <==> |p.Packet()| <= room || |p.Front()| <= room + 2
  {
    PublishWellFormed(p.topic, p.payload, p.dup, p.qos, p.retain, p.id);
    p.Layout(|p.Packet()|);
    assert p.payload[..|p.payload|] == p.payload;
    FrontLayout(p.topic, p.payload, p.dup, p.qos, p.retain, p.id, p.payload);
  }

  /** The payload offset left behind does no harm to this message: `WireIsPacket`. */
  predicate Harmless(topic: seq<byte>, payload: seq<byte>, qos: nat, room: nat, stale: int) {
    !FitsRoom(topic, payload, qos, 0, room) || stale <= 5 + |PublishHead(topic, qos, 0)|
  }

  /** Publishes on a connection in a clean state. All of it is written exactly if it can be
      built and no write of a piece of it fails. */
  method Send(conn: Connection, link: Link, topic: seq<byte>, payload: seq<byte>, qos: nat, retain: nat)
    returns (ok: bool, id: nat)
    requires conn.Valid() && Harmless(topic, payload, qos, conn.buffer.Length, conn.fragOffset)
    requires qos < 3 && retain < 2 && |topic| + 4 + |payload| < LIMIT
    modifies conn, conn.buffer, link`sent, link`refused
    ensures conn.Valid()
    ensures ok <==> && Publishable(Some(topic), Some(payload), |payload|, qos, conn.buffer.Length)
                    && link.refused == old(link.refused)
    ensures ok ==> if qos > 0 then 1 <= id < 65536 else id == 0
    ensures ok ==> link.sent == old(link.sent) + PublishPacket(topic, payload, qos, retain, id)
    ensures ok ==> conn.fragTotal == 0 && conn.fragOffset == 0
  {
    id := conn.MsgPublish(Some(topic), Some(payload), |payload|, qos, retain);
    if conn.length == 0 { return false, id; }
    BuiltIsLoaded(conn, topic, payload, qos, retain, id, old(conn.fragOffset), []);
    WireIsPacket(topic, payload, qos, retain, id, conn.buffer.Length, old(conn.fragOffset), []);
    assert [] + payload == payload;
    ghost var n;
    ok, n := SendLoop(conn, link, payload, 0, |payload|, PublishPacket(topic, payload, qos, retain, id));
  }

  lemma PublishReceivable(p: PublishSpec, room: nat)
    requires p.Sendable() && |p.Front()| <= room
    ensures 0 < |p.Front()| <= |p.Packet()|
    ensures WellFormed(p.Packet()) && !Overreads(p.Packet()) && Acceptable(p.Packet(), room)
  {
    PublishNotOverread(p.topic, p.payload, p.dup, p.qos, p.retain, p.id);
    PublishAcceptable(p, room);
    FrontThenPayload(p.topic, p.payload, p.dup, p.qos, p.retain, p.id);
  }

  /**
   * Receives one PUBLISH from the front of a stream. The connection is given up exactly if one
   * of the calls stalled in the middle of the packet, and then there are no events.
   */
  method ReceiveFrom(stream: seq<byte>, room: nat, timeouts: nat, everyTopic: bool,
                     ghost p: PublishSpec, ghost rest: seq<byte>)
    returns (gaveUp: bool, events: seq<DataEvent>, peer: Link,
             ghost calls: seq<seq<Attempt>>, ghost more: seq<Attempt>, ghost n: nat)
    requires p.Sendable() && room >= 9 && |p.Front()| <= room
    requires stream == p.Packet() + rest
    ensures fresh(peer) && peer.log == Flatten(calls) + more
    ensures gaveUp <==> AnyStalls(calls, |stream|)
    ensures gaveUp ==> events == [] && timeouts > 0
    ensures !gaveUp ==> Carries(events, p, everyTopic, n) && peer.incoming == p.payload[n..] + rest
    ensures !gaveUp ==> (n == |p.payload| <==> Uninterrupted(more))
    ensures !gaveUp && (timeouts == 0 || |p.Packet()| <= room) ==> n == |p.payload|
  {
    peer := new Link(stream, timeouts, true);
    var receiver := new Receiver(room, peer);
    PublishReceivable(p, room);
    assert receiver.Stream() == stream;
    events, n, more := [], 0, [];
    var ok;
    ok, calls := receiver.ReceivePacket(p.Packet(), rest);
    gaveUp := !ok;
    assert peer.log == Flatten(calls) + [];
    if !ok { return; }
    var delivered;
    delivered, n, more := receiver.DeliverPublish(everyTopic, p, rest);
    events := receiver.events;
    assert events == events[0..];
  }

  /** The bytes of a PUBLISH before its payload do not depend on the identifier's value. */
  function FrontLen(topic: seq<byte>, payload: seq<byte>, qos: nat): nat {
    |Front(topic, payload, 0, qos, 0, 0)|
  }

  /**
   * The bytes one client writes for a PUBLISH, received by another in reads of any size with
   * any time-outs between them, become events that carry exactly this topic, identifier, QoS,
   * RETAIN and payload, and what follows on the stream is untouched; or the receiver gives the
   * connection up before any event, which it does exactly if a call stalls in the middle of
   * the packet. The events are cut short exactly if a read between two pieces of a payload that
   * exceeds the input buffer returns nothing; the rest of the payload then stays on the stream.
   */
  method PublishReachesPeer(conn: Connection, link: Link, topic: seq<byte>, payload: seq<byte>, qos: nat, retain: nat,
                            room: nat, timeouts: nat, rest: seq<byte>, everyTopic: bool)
    returns (ok: bool, gaveUp: bool, events: seq<DataEvent>, id: nat, peer: Link,
             ghost calls: seq<seq<Attempt>>, ghost more: seq<Attempt>, ghost n: nat)
    requires conn.Valid() && Harmless(topic, payload, qos, conn.buffer.Length, conn.fragOffset) && link.sent == []
    requires qos < 3 && retain < 2 && |topic| < 65536 && |topic| + 4 + |payload| < LIMIT
    requires room >= 9 && FrontLen(topic, payload, qos) <= room
    modifies conn, conn.buffer, link`sent, link`refused
    ensures ok <==> && Publishable(Some(topic), Some(payload), |payload|, qos, conn.buffer.Length)
                    && link.refused == old(link.refused)
    ensures ok ==> fresh(peer) && peer.log == Flatten(calls) + more
    ensures ok ==> (gaveUp <==> AnyStalls(calls, |link.sent| + |rest|))
    ensures ok && gaveUp ==> events == [] && timeouts > 0
    ensures ok && !gaveUp ==> Carries(events, PublishSpec(topic, payload, 0, qos, retain, id), everyTopic, n)
    ensures ok && !gaveUp ==> peer.incoming == payload[n..] + rest && (n == |payload| <==> Uninterrupted(more))
    ensures ok && !gaveUp && (timeouts == 0 || |link.sent| <= room) ==> n == |payload| && peer.incoming == rest
  {
    events, gaveUp, calls, more, n, peer := [], false, [], [], 0, link;
    ok, id := Send(conn, link, topic, payload, qos, retain);
    if !ok { return; }
    ghost var p := PublishSpec(topic, payload, 0, qos, retain, id);
    assert link.sent == p.Packet();
    gaveUp, events, peer, calls, more, n := ReceiveFrom(link.sent + rest, room, timeouts, everyTopic, p, rest);
    assert payload[|payload|..] + rest == rest;
  }

  // ----- the header that just does not fit -----

  /**
   * The room check for an over-long PUBLISH forgets the two bytes of the topic length. A
   * front that passes the check but exceeds the buffer by one or two bytes is then either
   * given up for lack of its topic, or reported with a total that is not the payload's. If it
   * carries an identifier, that is looked for behind the buffer.
   */
  lemma FrontBeyondBuffer(p: PublishSpec, room: nat)
    requires p.Sendable() && room >= 9
    requires WellFormed(p.Packet()) && Acceptable(p.Packet(), room)
    requires |p.Packet()| > room && |p.Front()| > room
    ensures var s := p.Packet()[..room];
      && (TopicOf(s).Null? || (DataOf(s).Null? && 0 + |p.Packet()| - room != |p.payload|))
      && (p.qos > 0 ==> !IdReachable(s))
  {
    var s := p.Packet()[..room];
    CutFront(p, room);
    p.Layout(|p.Packet()|);
    IdInBuffer(p, room);
  }

  /** What the decoders see of a PUBLISH that was cut at the end of the buffer. */
  lemma CutFront(p: PublishSpec, room: nat)
    requires p.Sendable() && 9 <= room <= |p.Packet()|
    ensures var s := p.Packet()[..room];
      var i := 1 + |Encode(|PublishHead(p.topic, p.qos, p.id)| + |p.payload|)|;
      && HeaderEnd(s, 4) == i == HeaderEnd(s, room) && i + 2 <= 7 && Scan(s[1..], room).ended
      && TopicLen(s, i) == |p.topic| && QosOf(s[0]) == p.qos && TypeOf(s[0]) == PUBLISH
      && |p.Front()| == i + |PublishHead(p.topic, p.qos, p.id)|
  {
    var i := WholeFront(p);
    CutHeader(p.Packet(), room);
    CutFields(p.Packet(), i, room);
  }

  /** The same of the whole packet. */
  lemma WholeFront(p: PublishSpec) returns (i: nat)
    requires p.Sendable()
    ensures var s := p.Packet();
      && i == 1 + |Encode(|PublishHead(p.topic, p.qos, p.id)| + |p.payload|)| <= 5
      && WellFormed(s) && FixedLen(s) == i && i + 2 <= |s|
      && TopicLen(s, i) == |p.topic| && QosOf(s[0]) == p.qos && TypeOf(s[0]) == PUBLISH
      && |p.Front()| == i + |PublishHead(p.topic, p.qos, p.id)|
  {
    i := WholeFields(p);
    PublishWellFormed(p.topic, p.payload, p.dup, p.qos, p.retain, p.id);
  }

  lemma WholeFields(p: PublishSpec) returns (i: nat)
    requires p.Sendable()
    ensures var s := p.Packet();
      && i == 1 + |Encode(|PublishHead(p.topic, p.qos, p.id)| + |p.payload|)| <= 5 && i + 2 <= |s|
      && TopicLen(s, i) == |p.topic| && QosOf(s[0]) == p.qos && TypeOf(s[0]) == PUBLISH
      && |p.Front()| == i + |PublishHead(p.topic, p.qos, p.id)|
  {
    EncodeFourBytes(|PublishHead(p.topic, p.qos, p.id)| + |p.payload|);
    FrontThenPayload(p.topic, p.payload, p.dup, p.qos, p.retain, p.id);
    i := 1 + |Encode(|PublishHead(p.topic, p.qos, p.id)| + |p.payload|)|;
    TopicInFront(p, p.payload, i);
    FlagsInFront(p, p.payload);
  }

  lemma TopicInFront(p: PublishSpec, part: seq<byte>, i: nat)
    requires p.Sendable() && i == 1 + |Encode(|PublishHead(p.topic, p.qos, p.id)| + |p.payload|)|
    ensures i + 2 <= |p.Front() + part| && TopicLen(p.Front() + part, i) == |p.topic|
    ensures |p.Front()| == i + |PublishHead(p.topic, p.qos, p.id)|
  {
    FrontTopic(p.topic, p.payload, p.dup, p.qos, p.retain, p.id, part);
  }

  lemma FlagsInFront(p: PublishSpec, part: seq<byte>)
    requires p.Sendable()
    ensures var s := p.Front() + part; QosOf(s[0]) == p.qos && TypeOf(s[0]) == PUBLISH
  {
    HeaderFields(PUBLISH, p.dup, p.qos, p.retain);
  }

  lemma CutFields(s: seq<byte>, i: nat, room: nat)
    requires i <= 5 && 9 <= room <= |s|
    ensures TopicLen(s[..room], i) == TopicLen(s, i) && s[..room][0] == s[0]
  {
  }

  /** The identifier of an over-long PUBLISH is inside the input buffer exactly if there is
      none or the whole front is. */
  lemma IdInBuffer(p: PublishSpec, room: nat)
    requires p.Sendable() && 9 <= room <= |p.Packet()|
    ensures IdReachable(p.Packet()[..room]) <==> p.qos == 0 || |p.Front()| <= room
  {
    CutFront(p, room);
  }

  /** Cutting a packet behind its fixed header does not change what the header loops find. */
  lemma CutHeader(packet: seq<byte>, room: nat)
    requires WellFormed(packet) && 9 <= room <= |packet|
    ensures HeaderEnd(packet[..room], 4) == FixedLen(packet) == HeaderEnd(packet[..room], room)
    ensures Scan(packet[..room][1..], room).ended
  {
    HeaderBytes(packet);
    ScanPrefix(packet[1..], packet[..room][1..], 4);
    ScanEnough(packet[..room][1..], 4, room);
  }

  lemma {:induction false} ScanEnough(s: seq<byte>, max: nat, more: nat)
    requires Scan(s, max).ended && max <= more
    ensures Scan(s, more) == Scan(s, max)
    decreases max
  {
    if s[0] >= 128 { ScanEnough(s[1..], max - 1, more - 1); }
  }

  /** Such a packet: a topic of 12 bytes and a payload of 100 with QoS 1, and 16 bytes of buffer. */
  lemma FrontBeyondSixteen()
    ensures var p := PublishSpec(seq(12, _ => 97), seq(100, _ => 0), 0, 1, 0, 1);
      && p.Sendable() && WellFormed(p.Packet()) && Acceptable(p.Packet(), 16) && |p.Front()| == 18
      && !IdReachable(p.Packet()[..16])
  {
    var p := PublishSpec(seq(12, _ => 97), seq(100, _ => 0), 0, 1, 0, 1);
    PublishWellFormed(p.topic, p.payload, 0, 1, 0, 1);
    assert Encode(116) == [116];
    CutFront(p, 16);
    assert TopicLen(p.Packet(), 2) == TopicLen(p.Packet()[..16], 2);
    FrontBeyondBuffer(p, 16);
  }
}
