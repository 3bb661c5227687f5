/**
 * Receiving one packet through the fixed input buffer: `mqtt_message_receive` and
 * `deliver_publish` of components/mqtt/mqtt_client.c.
 *
 * `mqtt_message_receive` may return in the middle of a packet and is then called again; what
 * it has read so far is in the buffer and only `readLen` says how far it got.
 */
module Receivers {
  import opened Bytes
  import opened VarInt
  import opened Packet
  import opened Decode
  import opened Transport

  /** `mqtt_has_valid_msg_hdr`, sections 2.2.2 and 3.3.1 of MQTT 3.1.1. */
  predicate ValidHeader(b: byte) {
    var kind := TypeOf(b);
    if kind == PUBLISH then QosOf(b) < 3 && (QosOf(b) > 0 || DupOf(b) == 0)
    else if kind == PUBREL || kind == SUBSCRIBE || kind == UNSUBSCRIBE then b % 16 == 2
    else 1 <= kind <= 14 && b % 16 == 0
  }

  /** A packet whose remaining length field is right and at most four bytes long. */
  predicate WellFormed(packet: seq<byte>) {
    Unframe(packet).Some? && ValidHeader(packet[0])
  }

  /** The size of its fixed header. */
  function FixedLen(packet: seq<byte>): nat {
    HeaderEnd(packet, 4)
  }

  /** Where the length loop leaves `readLen` when entered with `k` bytes read: at least one
      byte is read, then more while the last one has its top bit set, up to six in all. It is
      one more than there are bytes if the stream ends first. */
  function LoopEnd(s: seq<byte>, k: nat): nat
    requires k <= |s|
    decreases |s| - k
  {
    if k == |s| || s[k] < 128 || k + 1 >= 6 then k + 1 else LoopEnd(s, k + 1)
  }

  /** The loop is entered again on a resumed call. */
  predicate EntersLoop(s: seq<byte>, k: nat)
    requires 1 <= k <= |s|
  {
    k == 1 || (k < 6 && s[k - 1] >= 128)
  }

  /** A resumed call takes every byte of the packet it has left for a length byte and goes on
      into the next packet. Only a packet of four or five bytes can end like this. */
  predicate Overreads(packet: seq<byte>)
    requires WellFormed(packet)
  {
    FixedLen(packet) + 2 <= |packet| < 6 && packet[|packet| - 2] >= 128 && packet[|packet| - 1] >= 128
  }

  datatype DataEvent = DataEvent(
    topic: Option<seq<byte>>, data: seq<byte>, offset: nat, total: int,
    id: nat, qos: nat, dup: nat, retain: nat)

  lemma {:induction false} LoopEndBounds(s: seq<byte>, k: nat)
    requires k <= |s|
    ensures k < LoopEnd(s, k) <= |s| + 1
    ensures k < 6 ==> LoopEnd(s, k) <= 6
    ensures forall i :: k <= i < LoopEnd(s, k) - 1 ==> s[i] >= 128
    ensures LoopEnd(s, k) <= |s| ==> LoopEnd(s, k) >= 6 || s[LoopEnd(s, k) - 1] < 128
    decreases |s| - k
  {
    if !(k == |s| || s[k] < 128 || k + 1 >= 6) { LoopEndBounds(s, k + 1); }
  }

  /** The bytes of a well-formed packet's header. */
  lemma HeaderBytes(packet: seq<byte>)
    requires WellFormed(packet)
    ensures 2 <= FixedLen(packet) <= 5 && FixedLen(packet) <= |packet|
    ensures forall i :: 1 <= i < FixedLen(packet) - 1 ==> packet[i] >= 128
    ensures packet[FixedLen(packet) - 1] < 128
    ensures FixedLen(packet) + RemainingOf(packet) == |packet|
  {
    ScanShape(packet[1..], 4);
    var r := Scan(packet[1..], 4);
    assert packet[1..][r.used - 1] == packet[r.used];
    forall i | 1 <= i < FixedLen(packet) - 1
      ensures packet[i] >= 128
    {
      assert packet[i] == packet[1..][i - 1];
    }
  }

  /** However the reads were cut, the length loop stays inside the packet, unless the packet
      is one of the few that `Overreads` describes. */
  lemma LoopStaysInside(packet: seq<byte>, rest: seq<byte>, k: nat)
    requires WellFormed(packet) && !Overreads(packet)
    requires 1 <= k < |packet| && EntersLoop(packet + rest, k)
    ensures FixedLen(packet) <= LoopEnd(packet + rest, k) <= |packet|
  {
    var s := packet + rest;
    var f := FixedLen(packet);
    HeaderBytes(packet);
    LoopEndBounds(s, k);
    assert s[f - 1] == packet[f - 1] < 128;
    assert s[|packet| - 1] == packet[|packet| - 1] && s[|packet| - 2] == packet[|packet| - 2];
  }

  /** A packet that `Overreads` loses a byte of its successor when a read happens to end just
      before its last byte. */
  lemma LoopLeavesPacket(packet: seq<byte>, rest: seq<byte>)
    requires WellFormed(packet) && Overreads(packet)
    ensures var k := |packet| - 1;
      k >= 1 && EntersLoop(packet + rest, k) && LoopEnd(packet + rest, k) > |packet|
  {
    var s := packet + rest;
    var k := |packet| - 1;
    HeaderBytes(packet);
    LoopEndBounds(s, k + 1);
  }

  /** Among the acknowledgements these are the ones whose identifier has both top bits set, as
      65535 has. */
  lemma AckOverreads(kind: nat, id: nat)
    requires (kind == PUBACK || kind == PUBREC || kind == PUBREL || kind == PUBCOMP) && id < 65536
    ensures var p := AckPacket(kind, id);
      WellFormed(p) && (Overreads(p) <==> id / 256 >= 128 && id % 256 >= 128)
  {
    var h := AckHeader(kind, id);
    var u := AckBody(id);
    TwoByteBody(h, u);
  }

  lemma AckHeader(kind: nat, id: nat) returns (h: byte)
    requires kind == PUBACK || kind == PUBREC || kind == PUBREL || kind == PUBCOMP
    ensures AckPacket(kind, id) == Whole(h, U16(id)) && ValidHeader(h)
  {
    var flags := if kind == PUBREL then 1 else 0;
    h := HeaderByte(kind, 0, flags, 0);
    assert kind % 16 == kind && flags % 4 == flags;
    Nibbles(kind, 2 * flags);
    KnownHeader(kind, h);
  }

  lemma AckBody(id: nat) returns (u: seq<byte>)
    requires id < 65536
    ensures u == U16(id) && u[0] == id / 256 && u[1] == id % 256
  {
    u := U16(id);
  }

  lemma Nibbles(high: nat, low: nat)
    requires high < 16 && low < 16
    ensures (16 * high + low) / 16 == high && (16 * high + low) % 16 == low
  {
  }

  lemma KnownHeader(kind: nat, b: byte)
    requires kind == PUBACK || kind == PUBREC || kind == PUBREL || kind == PUBCOMP
    requires TypeOf(b) == kind && b % 16 == if kind == PUBREL then 2 else 0
    ensures ValidHeader(b)
  {
  }

  lemma TwoByteBody(header: byte, body: seq<byte>)
    requires ValidHeader(header) && |body| == 2
    ensures var p := Whole(header, body);
      WellFormed(p) && (Overreads(p) <==> body[0] >= 128 && body[1] >= 128)
  {
    assert Encode(2) == [2];
    var p := [header] + [2] + body;
    assert Whole(header, body) == p;
    ScanStep(p, 1, 4);
  }

  // ----- which packets these are -----

  /** The first bytes that are accepted: each type with the flags that it must have, and a PUBLISH
      with any flags but QoS 3, or DUP with QoS 0. */
  lemma ValidHeaders(b: byte)
    ensures ValidHeader(b) <==>
            b in {0x10, 0x20, 0x30, 0x31, 0x32, 0x33, 0x34, 0x35, 0x3A, 0x3B, 0x3C, 0x3D, 0x40, 0x50, 0x62, 0x70, 0x82,
                  0x90, 0xA2, 0xB0, 0xC0, 0xD0, 0xE0}
  {
    var kind, low := b / 16, b % 16;
    assert b == 16 * kind + low;
    if kind == 3 { PublishFlags(b, low); }
  }

  lemma PublishFlags(b: byte, low: nat)
    requires b == 48 + low && low < 16
    ensures ValidHeader(b) <==> low in {0, 1, 2, 3, 4, 5, 10, 11, 12, 13}
  {
    LowBits(3, low / 8, low % 8);
    assert b == 16 * 3 + 8 * (low / 8) + low % 8;
    assert low % 8 / 2 == 3 <==> low == 6 || low == 7 || low == 14 || low == 15;
  }

  /** A frame around any body is well formed exactly if its first byte is one of these, and can be
      overread exactly if the body has two or three bytes and its last two have the top bit set. */
  lemma FrameReceivable(header: byte, body: seq<byte>)
    requires |body| < LIMIT
    ensures var p := Whole(header, body);
      && (WellFormed(p) <==> ValidHeader(header))
      && (WellFormed(p) ==>
            (Overreads(p) <==> 2 <= |body| <= 3 && body[|body| - 2] >= 128 && body[|body| - 1] >= 128))
  {
    var p := Whole(header, body);
    UnframeWhole(header, body);
    HeaderAgreement(header, |body|, body, 4);
    if |body| < 128 {
      assert p == [header] + [|body|] + body;
    } else {
      EncodeLong(|body|);
    }
  }

  lemma EncodeLong(n: nat)
    requires n >= 128
    ensures |Encode(n)| >= 2
  {
  }

  /** What a broker answers and the client did not build itself: PINGRESP and CONNACK, which are
      never overread, UNSUBACK, and SUBACK with its return codes. */
  lemma BrokerPackets(id: nat, codes: seq<byte>, present: byte, code: byte)
    requires id < 65536 && |codes| + 2 < LIMIT && present < 2
    ensures WellFormed([0xD0, 0]) && !Overreads([0xD0, 0])
    ensures WellFormed([0x20, 2, present, code]) && !Overreads([0x20, 2, present, code])
    ensures var u := [0xB0, 2, id / 256, id % 256];
      WellFormed(u) && (Overreads(u) <==> id / 256 >= 128 && id % 256 >= 128)
    ensures var s := Whole(0x90, [id / 256, id % 256] + codes);
      && WellFormed(s)
      && (Overreads(s) <==>
            if codes == [] then id / 256 >= 128 && id % 256 >= 128
            else |codes| == 1 && id % 256 >= 128 && codes[0] >= 128)
  {
    Short(0xD0, []);
    Short(0x20, [present, code]);
    Short(0xB0, [id / 256, id % 256]);
    FrameReceivable(0x90, [id / 256, id % 256] + codes);
    ValidHeaders(0x90);
  }

  lemma Short(header: byte, body: seq<byte>)
    requires |body| < 3 && header in {0xD0, 0x20, 0xB0}
    ensures var p := [header, |body|] + body;
      WellFormed(p) && (Overreads(p) <==> |body| == 2 && body[0] >= 128 && body[1] >= 128)
  {
    ValidHeaders(header);
    FrameReceivable(header, body);
    assert Encode(|body|) == [|body|];
    assert Whole(header, body) == [header, |body|] + body;
  }

  // ----- one call, as a function of the stream -----

  /** `readLen` when the remaining length has been read: `k` is `readLen` on entry and `s` the
      stream from the start of the packet. */
  function LenAt(s: seq<byte>, k: nat): (n: nat)
    requires k <= |s|
    ensures k <= n <= |s| + 1 && n >= 1
  {
    var k1 := if k == 0 then 1 else k;
    if k1 <= |s| && EntersLoop(s, k1) then
      LoopEndBounds(s, k1);
      LoopEnd(s, k1)
    else k1
  }

  /** `mqtt_get_total_length` of what has been read then. */
  function TotalAt(s: seq<byte>, k: nat): nat
    requires k <= |s| && LenAt(s, k) <= |s|
  {
    var h := s[..LenAt(s, k)];
    HeaderEnd(h, 4) + RemainingOf(h)
  }

  /** `readLen` when the call has all it wants: the packet, or a full buffer. */
  function Goal(s: seq<byte>, k: nat, room: nat): (n: nat)
    requires k <= |s|
    ensures n >= LenAt(s, k)
  {
    if LenAt(s, k) > |s| then LenAt(s, k)
    else
      var want := if TotalAt(s, k) <= room then TotalAt(s, k) else room;
      if want <= LenAt(s, k) then LenAt(s, k) else want
  }

  /** Where the topic length of an over-long PUBLISH makes the call give up. The two bytes of
      the topic length itself are not counted (mqtt_client.c:1529). */
  predicate TopicTooLong(s: seq<byte>, f: nat, room: nat) {
    f + 1 < |s| && f + TopicLen(s, f) + (if QosOf(s[0]) > 0 then 2 else 0) > room
  }

  /** A packet that exceeds the buffer and is not a PUBLISH, or one whose topic is too long. */
  predicate TooLong(s: seq<byte>, k: nat, room: nat)
    requires k <= |s| && LenAt(s, k) <= |s|
  {
    && TotalAt(s, k) > room
    && (TypeOf(s[0]) != PUBLISH || TopicTooLong(s, HeaderEnd(s[..LenAt(s, k)], 4), room))
  }

  predicate Rejects(s: seq<byte>, k: nat, room: nat)
    requires k <= |s|
  {
    s != [] && ((k == 0 && !ValidHeader(s[0])) || (LenAt(s, k) <= |s| && TooLong(s, k, room)))
  }

  /** The input buffer can hold the packet, or is long enough for the variable header of an
      over-long PUBLISH. */
  predicate Acceptable(packet: seq<byte>, room: nat)
    requires WellFormed(packet)
  {
    |packet| <= room || (TypeOf(packet[0]) == PUBLISH && !TopicTooLong(packet, FixedLen(packet), room))
  }

  /** A call resumed anywhere inside a packet aims at exactly that packet. */
  lemma PacketGoal(packet: seq<byte>, rest: seq<byte>, k: nat, room: nat)
    requires WellFormed(packet) && !Overreads(packet)
    requires k < |packet| && k <= room && room >= 9
    ensures var s := packet + rest;
      && LenAt(s, k) <= |packet| && LenAt(s, k) <= room
      && TotalAt(s, k) == |packet|
      && HeaderEnd(s[..LenAt(s, k)], 4) == FixedLen(packet)
      && Goal(s, k, room) == if |packet| <= room then |packet| else room
  {
    var s := packet + rest;
    var k1 := if k == 0 then 1 else k;
    var n := LenAt(s, k);
    HeaderBytes(packet);
    if EntersLoop(s, k1) {
      LoopStaysInside(packet, rest, k1);
      LoopEndBounds(s, k1);
    } else {
      assert s[k1 - 1] == packet[k1 - 1];
    }
    assert FixedLen(packet) <= n <= |packet|;
    ScanPrefix(packet[1..], s[..n][1..], 4);
  }

  lemma NotRejected(packet: seq<byte>, rest: seq<byte>, k: nat, room: nat)
    requires WellFormed(packet) && !Overreads(packet) && Acceptable(packet, room)
    requires k < |packet| && k <= room && room >= 9
    ensures !Rejects(packet + rest, k, room)
  {
    RejectedExactly(packet, rest, k, room);
  }

  /** Of the well-formed packets a call gives up exactly the ones that are longer than the buffer
      and not a PUBLISH, or whose topic is too long. */
  lemma RejectedExactly(packet: seq<byte>, rest: seq<byte>, k: nat, room: nat)
    requires WellFormed(packet) && !Overreads(packet) && k < |packet| && k <= room && room >= 9
    ensures Rejects(packet + rest, k, room) <==>
            |packet| > room && !(packet[0] / 16 == 3 && !TopicTooLong(packet, FixedLen(packet), room))
  {
    PacketGoal(packet, rest, k, room);
    var s := packet + rest;
    assert s[0] == packet[0];
    if |packet| > room {
      HeaderBytes(packet);
      var f := FixedLen(packet);
      assert s[f] == packet[f] && s[f + 1] == packet[f + 1];
    }
  }

  lemma SplitStream(a: seq<byte>, b: seq<byte>, p: seq<byte>, r: seq<byte>)
    requires a + b == p + r && |a| <= |p|
    ensures a == p[..|a|] && b == p[|a|..] + r
  {
    assert a == (a + b)[..|a|] && b == (a + b)[|a|..];
  }

  /** ... and then counts it as part of this packet, so that it is dropped with it. */
  lemma OverreadGoal(packet: seq<byte>, rest: seq<byte>, room: nat)
    requires WellFormed(packet) && Overreads(packet)
    ensures Goal(packet + rest, |packet| - 1, room) > |packet|
  {
    LoopLeavesPacket(packet, rest);
  }

  // ----- the data events of one PUBLISH -----

  /** Each of these reads returned something. */
  predicate Uninterrupted(more: seq<Attempt>) {
    forall k :: 0 <= k < |more| ==> more[k].got > 0
  }

  /** ... or none of them failed: the last one may have timed out. */
  predicate EndsWell(more: seq<Attempt>) {
    more == [] || more[|more| - 1].got >= 0
  }

  function Concat(events: seq<DataEvent>): seq<byte> {
    if events == [] then [] else Concat(events[..|events| - 1]) + events[|events| - 1].data
  }

  /** The events carry `payload[..n]`: same topic (on the first, or on all), id, QoS, DUP, RETAIN
      and total, offsets without gap or overlap. */
  ghost predicate Carries(events: seq<DataEvent>, p: PublishSpec, everyTopic: bool, n: nat) {
    && |events| >= 1 && n <= |p.payload| && Concat(events) == p.payload[..n]
    && forall k :: 0 <= k < |events| ==>
         events[k] == DataEvent(if k == 0 || everyTopic then Some(p.topic) else None, events[k].data,
                                |Concat(events[..k])|, |p.payload|, p.id, p.qos, p.dup, p.retain)
  }

  lemma CarriesMore(events: seq<DataEvent>, e: DataEvent, p: PublishSpec, everyTopic: bool, n: nat)
    requires Carries(events, p, everyTopic, n)
    requires n + |e.data| <= |p.payload| && e.data == p.payload[n..n + |e.data|]
    requires e == p.Event(everyTopic, e.data, n)
    ensures Carries(events + [e], p, everyTopic, n + |e.data|)
  {
    var all := events + [e];
    assert all[..|events|] == events;
    assert p.payload[..n] + p.payload[n..n + |e.data|] == p.payload[..n + |e.data|];
    forall k | 0 <= k < |events| ensures all[k] == events[k] && all[..k] == events[..k] {}
  }

  lemma {:induction false} LoopEndSame(s: seq<byte>, k: nat, j: nat)
    requires k <= j <= |s| && j < LoopEnd(s, k)
    ensures LoopEnd(s, j) == LoopEnd(s, k)
    decreases j - k
  {
    if k < j { LoopEndSame(s, k + 1, j); }
  }

  /** Resumed once more on its way behind the packet, the loop aims at the same place. */
  lemma OverreadOn(packet: seq<byte>, rest: seq<byte>, k: nat, room: nat)
    requires WellFormed(packet) && Overreads(packet) && room >= 9
    requires |packet| - 1 <= k < LoopEnd(packet + rest, |packet| - 1) <= |packet| + |rest|
    ensures var s := packet + rest;
      Goal(s, k, room) == LoopEnd(s, |packet| - 1) > |packet| && !Rejects(s, k, room)
  {
    var s := packet + rest;
    var e := LoopEnd(s, |packet| - 1);
    LoopLeavesPacket(packet, rest);
    LoopEndBounds(s, |packet| - 1);
    LoopEndSame(s, |packet| - 1, k);
    HeaderBytes(packet);
    assert s[|packet| - 1] == packet[|packet| - 1] && s[|packet| - 2] == packet[|packet| - 2];
    ScanPrefix(packet[1..], s[..e][1..], 4);
  }

  lemma OverreadCall(packet: seq<byte>, rest: seq<byte>, room: nat)
    requires WellFormed(packet) && Overreads(packet) && room >= 9
    ensures Goal(packet + rest, |packet| - 1, room) > |packet|
    ensures LoopEnd(packet + rest, |packet| - 1) <= |packet| + |rest| ==> !Rejects(packet + rest, |packet| - 1, room)
  {
    OverreadGoal(packet, rest, room);
    LoopLeavesPacket(packet, rest);
    if LoopEnd(packet + rest, |packet| - 1) <= |packet| + |rest| { OverreadOn(packet, rest, |packet| - 1, room); }
  }

  // ----- calls and what became of them -----

  datatype Status = Waiting | GivenUp | Received

  /** The call started in the middle of the packet, when fewer than all `total` bytes of the
      stream were to come, and its first read timed out. */
  predicate Stalls(call: seq<Attempt>, total: nat) {
    call != [] && call[0].left < total && call[0].got == 0
  }

  predicate AnyStalls(calls: seq<seq<Attempt>>, total: nat) {
    exists k :: 0 <= k < |calls| && Stalls(calls[k], total)
  }

  function Flatten(calls: seq<seq<Attempt>>): seq<Attempt> {
    if calls == [] then [] else Flatten(calls[..|calls| - 1]) + calls[|calls| - 1]
  }

  lemma CallAdded(log: seq<Attempt>, calls: seq<seq<Attempt>>, call: seq<Attempt>, total: nat)
    ensures log + Flatten(calls) + call == log + Flatten(calls + [call])
    ensures AnyStalls(calls + [call], total) <==> AnyStalls(calls, total) || Stalls(call, total)
  {
    var all := calls + [call];
    assert all[..|calls|] == calls;
    Assoc(log, Flatten(calls), call);
    if AnyStalls(calls, total) {
      var k :| 0 <= k < |calls| && Stalls(calls[k], total);
      assert all[k] == calls[k];
    }
    assert all[|calls|] == call;
  }

  class Receiver {
    const inBuffer: array<byte>
    const link: Link
    var readLen: nat
    var messageLength: nat
    var events: seq<DataEvent>   // MQTT_EVENT_DATA dispatched so far

    constructor (size: nat, link: Link)
      ensures inBuffer.Length == size && this.link == link && readLen == 0 && events == [] && fresh(inBuffer)
    {
      inBuffer := new byte[size](_ => 0);
      this.link, readLen, messageLength, events := link, 0, 0, [];
    }

    ghost predicate Valid()
      reads this
    {
      inBuffer.Length >= 9 && readLen <= inBuffer.Length
    }

    /** The stream from the start of the current packet. */
    ghost function Stream(): seq<byte>
      reads this, inBuffer, link
      requires readLen <= inBuffer.Length
    {
      inBuffer[..readLen] + link.incoming
    }

    /** The call has moved on, or used up one of the time-outs of a reliable link. What it
        returns follows from where it started and what its first read returned. */
    twostate predicate Moved(r: int)
      reads this, inBuffer, link
    {
      && link.patience <= old(link.patience) && old(readLen) <= readLen
      && (link.reliable && !link.silent && link.incoming != [] && (r == 0 || r == -1) ==>
            readLen > old(readLen) || link.patience < old(link.patience))
      && (r == -1 ==> readLen > 0)
      && (r == 0 && old(readLen) > 0 ==> readLen > old(readLen))
      && Logged(r)
    }

    /** The reads of this call are behind those of earlier ones in the log. */
    twostate predicate Logged(r: int)
      reads this, link
    {
      var n := |old(link.log)|;
      && n <= |link.log| && link.log[..n] == old(link.log)
      && (if n == |link.log| then (r == 1 || r == -2) && readLen == old(readLen) && link.incoming == old(link.incoming)
          else
            && link.log[n].left == |old(link.incoming)| && (link.reliable ==> link.log[n].got >= 0)
            && (if link.log[n].got <= 0 then readLen == old(readLen) && r <= 0
                else r == -2 || readLen > old(readLen)))
    }

    /** `esp_mqtt_handle_transport_read_error`. */
    method ReadError(err: int, midMessage: bool) returns (r: int)
      requires err <= 0
      ensures r == if err < 0 then -2 else if midMessage then -1 else 0
    {
      if err == 0 { return if midMessage then -1 else 0; }
      r := -2;
    }

    /** One read behind what is already in the buffer. */
    method Pull(max: nat) returns (r: int)
      requires 1 <= max && readLen + max <= inBuffer.Length
      modifies this`readLen, inBuffer, link`incoming, link`patience, link`log
      ensures readLen <= inBuffer.Length && Stream() == old(Stream())
      ensures r <= max && readLen == old(readLen) + if r > 0 then r else 0
      ensures link.log == old(link.log) + [Attempt(|old(link.incoming)|, r)]
      ensures link.patience <= old(link.patience)
      ensures link.reliable && r <= 0 ==>
                r == 0 && (!link.silent && link.incoming != [] ==> link.patience < old(link.patience))
    {
      ghost var before := inBuffer[..readLen];
      ghost var inc := link.incoming;
      r := link.Read(inBuffer, readLen, max);
      if r > 0 {
        assert inBuffer[..readLen + r] == before + inc[..r];
        assert inc == inc[..r] + link.incoming;
        Assoc(before, inc[..r], link.incoming);
        readLen := readLen + r;
      } else {
        assert inBuffer[..readLen] == before;
      }
    }

    /** The first byte: 1 if it is there and its flags are valid. An invalid byte is not
        counted in `readLen`; the connection is given up. */
    method ReadFirstByte() returns (r: int)
      requires Valid() && readLen == 0
      modifies this`readLen, inBuffer, link`incoming, link`patience, link`log
      ensures Valid() && Moved(r)
      ensures r == 1 || r == 0 || r == -2
      ensures r == 1 ==> readLen == 1 && Stream() == old(Stream()) && ValidHeader(Stream()[0])
      ensures r == 0 ==> readLen == 0 && Stream() == old(Stream())
      ensures r == -2 ==> readLen == 0
      ensures r == -2 && link.reliable ==> old(Stream()) != [] && !ValidHeader(old(Stream())[0])
    {
      var n := link.Read(inBuffer, 0, 1);
      if n <= 0 {
        r := ReadError(n, false);
        return;
      }
      assert old(Stream()) == old(link.incoming);
      assert inBuffer[0] == old(Stream())[0];
      if !ValidHeader(inBuffer[0]) { return -2; }
      readLen := readLen + 1;
      assert inBuffer[..1] + link.incoming == old(link.incoming);
      r := 1;
    }

    /** The do-while loop over the bytes of the remaining length. */
    method ReadLengthBytes() returns (r: int)
      requires Valid() && 1 <= readLen < 6 && EntersLoop(Stream(), readLen)
      modifies this`readLen, inBuffer, link`incoming, link`patience, link`log
      ensures Valid() && Stream() == old(Stream()) && Moved(r)
      ensures r == 1 || r == -1 || r == -2
      ensures readLen <= 6
      ensures r == 1 ==> readLen == LoopEnd(Stream(), old(readLen))
      ensures r != 1 ==> readLen < LoopEnd(Stream(), old(readLen))
      ensures r == -2 ==> !link.reliable
    {
      ghost var s := Stream();
      ghost var k := readLen;
      var more := true;
      LoopEndBounds(s, k);
      while more
        invariant Valid() && Stream() == s && k <= readLen <= 6
        invariant link.patience <= old(link.patience) && (readLen == k ==> link.log == old(link.log))
        invariant readLen == k ==> link.incoming == old(link.incoming)
        invariant readLen > k ==> Logged(1)
        invariant if more then readLen < 6 && LoopEnd(s, k) == LoopEnd(s, readLen)
                  else readLen > k && LoopEnd(s, k) == readLen
        decreases more, 6 - readLen
      {
        LoopEndBounds(s, readLen);
        var n := Pull(1);
        if n <= 0 {
          r := ReadError(n, true);
          return;
        }
        assert s[readLen - 1] == inBuffer[readLen - 1];
        more := readLen < 6 && inBuffer[readLen - 1] >= 128;
      }
      r := 1;
    }

    /** First byte and remaining length, or as far as they have arrived. */
    method ReadHeader() returns (r: int)
      requires Valid()
      modifies this`readLen, inBuffer, link`incoming, link`patience, link`log
      ensures Valid() && Moved(r)
      ensures r == 1 || r == -1 || r == 0 || r == -2
      ensures r != -2 ==> Stream() == old(Stream())
      ensures r == 1 ==> readLen == LenAt(Stream(), old(readLen)) && readLen >= 1
      ensures r == 1 && old(readLen) == 0 ==> ValidHeader(Stream()[0])
      ensures r == 0 || r == -1 ==> readLen < LenAt(Stream(), old(readLen))
      ensures r == -2 && link.reliable ==> Rejects(old(Stream()), old(readLen), inBuffer.Length)
    {
      if readLen == 0 {
        r := ReadFirstByte();
        if r != 1 { return; }
      }
      assert readLen >= 1 && inBuffer[readLen - 1] == Stream()[readLen - 1];
      if readLen == 1 || (readLen < 6 && inBuffer[readLen - 1] >= 128) {
        r := ReadLengthBytes();
      } else {
        r := 1;
      }
    }

    /** The part for a PUBLISH that is longer than the buffer: read the topic length, check
        that the topic fits, and settle for a full buffer. The number of bytes asked for
        grows where it should shrink, so up to three are read instead of the missing one or two. */
    method NarrowLongPublish(fixed: nat) returns (r: int)
      requires Valid() && 1 <= fixed <= 5 && fixed <= readLen
      modifies this`readLen, inBuffer, link`incoming, link`patience, link`log
      ensures Valid() && Stream() == old(Stream()) && Moved(r)
      ensures r == 1 || r == -1 || r == 0 || r == -2
      ensures r == 1 ==> TypeOf(Stream()[0]) == PUBLISH && !TopicTooLong(Stream(), fixed, inBuffer.Length)
      ensures r == 0 || r == -1 ==> readLen < fixed + 2
      ensures r == 0 ==> readLen > old(readLen)
      ensures r == -2 && link.reliable ==>
                TypeOf(Stream()[0]) != PUBLISH || TopicTooLong(Stream(), fixed, inBuffer.Length)
    {
      if TypeOf(inBuffer[0]) != PUBLISH { return -2; }
      if readLen < fixed + 2 {
        var n := Pull(readLen - fixed + 2);
        if n <= 0 {
          r := ReadError(n, true);
          return;
        }
        if readLen < fixed + 2 { return 0; }
      }
      var topicLen := FromU16(inBuffer[fixed], inBuffer[fixed + 1]);
      assert inBuffer[..readLen] == Stream()[..readLen];
      assert topicLen == TopicLen(Stream(), fixed);
      var total := fixed + topicLen + if QosOf(inBuffer[0]) > 0 then 2 else 0;
      if inBuffer.Length < total { return -2; }
      r := 1;
    }

    /** The rest of the packet, or of the buffer. */
    method ReadRest(total: nat) returns (r: int)
      requires Valid() && readLen >= 1 && total <= inBuffer.Length
      modifies this`readLen, inBuffer, link`incoming, link`patience, link`log
      ensures Valid() && Stream() == old(Stream()) && Moved(r)
      ensures r == 1 || r == -1 || r == 0 || r == -2
      ensures r == 1 ==> readLen == if old(readLen) < total then total else old(readLen)
      ensures r == 0 || r == -1 ==> old(readLen) <= readLen < total
      ensures r == 0 ==> readLen > old(readLen)
      ensures r == -2 ==> !link.reliable
    {
      if readLen < total {
        var n := Pull(total - readLen);
        if n <= 0 {
          r := ReadError(n, true);
          return;
        }
        if readLen < total { return 0; }
      }
      r := 1;
    }

    /** The part behind the remaining length; the call started with `k` bytes. */
    method ReadBody(ghost k: nat) returns (r: int)
      requires Valid() && k <= |Stream()| && readLen == LenAt(Stream(), k)
      modifies this`readLen, this`messageLength, inBuffer, link`incoming, link`patience, link`log
      ensures Valid() && Stream() == old(Stream()) && Moved(r)
      ensures r == 1 || r == -1 || r == 0 || r == -2
      ensures r == 0 || r == -1 ==> readLen < Goal(Stream(), k, inBuffer.Length)
      ensures r == 1 ==> readLen == Goal(Stream(), k, inBuffer.Length) && messageLength == TotalAt(Stream(), k)
      ensures r == 1 ==> !TooLong(Stream(), k, inBuffer.Length)
      ensures r == -2 && link.reliable ==> TooLong(Stream(), k, inBuffer.Length)
    {
      ghost var s := Stream();
      assert inBuffer[..readLen] == s[..readLen];
      var total, fixed := GetTotalLength(inBuffer, readLen);
      messageLength := total;
      if inBuffer.Length < total {
        r := NarrowLongPublish(fixed);
        if r != 1 { return; }
        total := inBuffer.Length;
      }
      r := ReadRest(total);
    }

    /** `mqtt_message_receive`: -2 failure, -1 time-out inside a packet, 0 not yet, 1 received. */
    method MessageReceive() returns (r: int)
      requires Valid()
      modifies this`readLen, this`messageLength, inBuffer, link`incoming, link`patience, link`log
      ensures Valid() && Moved(r)
      ensures r == 1 || r == -1 || r == 0 || r == -2
      ensures r != -2 ==> Stream() == old(Stream())
      ensures r == 0 || r == -1 ==> readLen < Goal(Stream(), old(readLen), inBuffer.Length)
      ensures r == 1 ==>
                && Stream() != []
                && readLen == Goal(Stream(), old(readLen), inBuffer.Length)
                && LenAt(Stream(), old(readLen)) <= |Stream()| && messageLength == TotalAt(Stream(), old(readLen))
                && (messageLength > inBuffer.Length ==> TypeOf(Stream()[0]) == PUBLISH)
                && !Rejects(Stream(), old(readLen), inBuffer.Length)
      ensures r == -2 && link.reliable ==> Rejects(old(Stream()), old(readLen), inBuffer.Length)
    {
      messageLength := 0;
      r := ReadHeader();
      if r != 1 { return; }
      r := ReadBody(old(readLen));
    }

    /** The packet, or as much of it as the buffer holds, is in the buffer; nothing behind it
        has been read. */
    ghost predicate Holds(packet: seq<byte>, rest: seq<byte>)
      reads this, inBuffer, link
    {
      && readLen <= inBuffer.Length
      && readLen == (if |packet| <= inBuffer.Length then |packet| else inBuffer.Length)
      && messageLength == |packet|
      && inBuffer[..readLen] == packet[..readLen]
      && link.incoming == packet[readLen..] + rest
    }

    /**
     * `mqtt_process_receive` up to the point where the packet is looked at: a time-out in the
     * middle of a packet gives the connection up if this call has read nothing new. Unless the
     * packet itself is rejected, that happens exactly to calls that stall.
     */
    method ProcessReceive() returns (status: Status, ghost call: seq<Attempt>)
      requires Valid()
      modifies this`readLen, this`messageLength, inBuffer, link`incoming, link`patience, link`log
      ensures Valid() && link.log == old(link.log) + call && old(readLen) <= readLen
      ensures link.patience <= old(link.patience)
      ensures status != GivenUp ==> Stream() == old(Stream()) && !Stalls(call, |Stream()|)
      ensures status == Received ==>
                && readLen == Goal(Stream(), old(readLen), inBuffer.Length)
                && LenAt(Stream(), old(readLen)) <= |Stream()| && messageLength == TotalAt(Stream(), old(readLen))
                && !Rejects(Stream(), old(readLen), inBuffer.Length)
      ensures status == Waiting ==> readLen < Goal(Stream(), old(readLen), inBuffer.Length)
      ensures status == Waiting && link.reliable && !link.silent && link.incoming != [] ==>
                readLen > old(readLen) || link.patience < old(link.patience)
      ensures status == GivenUp && link.reliable && !Rejects(old(Stream()), old(readLen), inBuffer.Length) ==>
                && Stream() == old(Stream()) && Stalls(call, |Stream()|)
                && 0 < readLen < Goal(Stream(), old(readLen), inBuffer.Length)
                && (!link.silent && link.incoming != [] ==> link.patience < old(link.patience))
    {
      var previous := readLen;
      ghost var was := link.log;
      ghost var left := |link.incoming|;
      var r := MessageReceive();
      call := link.log[|was|..];
      assert link.log == was + call;
      assert call != [] ==> call[0] == link.log[|was|];
      if r == 0 {
        status := Waiting;
      } else if r == -1 {
        status := if previous == readLen then GivenUp else Waiting;
      } else if r < 0 {
        status := GivenUp;
      } else {
        status := Received;
      }
    }

    /** The end of `mqtt_process_receive`: the next packet starts behind what was read. */
    method Finish()
      requires Valid()
      modifies this`readLen
      ensures Valid() && readLen == 0 && Stream() == old(Stream()[readLen..])
    {
      readLen := 0;
      assert inBuffer[..0] == [];
    }

    /**
     * `mqtt_process_receive` called again by the task until it has a packet or fails. Whatever
     * the sizes of the reads, it fails exactly if one of the calls stalled; otherwise it ends
     * with exactly the packet, and either way nothing is lost from the stream.
     */
    method ReceivePacket(ghost packet: seq<byte>, ghost rest: seq<byte>)
      returns (ok: bool, ghost calls: seq<seq<Attempt>>)
      requires Valid() && link.reliable && !link.silent
      requires WellFormed(packet) && !Overreads(packet) && Acceptable(packet, inBuffer.Length)
      requires readLen < |packet| && Stream() == packet + rest
      modifies this`readLen, this`messageLength, inBuffer, link`incoming, link`patience, link`log
      ensures Valid() && Stream() == old(Stream()) && link.patience <= old(link.patience)
      ensures link.log == old(link.log) + Flatten(calls)
      ensures ok <==> !AnyStalls(calls, |packet| + |rest|)
      ensures ok ==> Holds(packet, rest)
      ensures !ok ==> 0 < readLen < |packet| && link.patience < old(link.patience)
    {
      var status := Waiting;
      calls := [];
      ghost var total := |packet| + |rest|;
      ghost var goal := if |packet| <= inBuffer.Length then |packet| else inBuffer.Length;
      while status == Waiting
        invariant Valid() && Stream() == packet + rest && readLen <= goal && link.patience <= old(link.patience)
        invariant link.log == old(link.log) + Flatten(calls)
        invariant AnyStalls(calls, total) <==> status == GivenUp
        invariant status == Waiting ==> readLen < |packet|
        invariant status == Received ==> readLen == goal && messageLength == |packet|
        invariant status == GivenUp ==> 0 < readLen < |packet| && link.patience < old(link.patience)
        decreases status == Waiting, link.patience + goal - readLen
      {
        PacketGoal(packet, rest, readLen, inBuffer.Length);
        NotRejected(packet, rest, readLen, inBuffer.Length);
        ghost var call;
        status, call := ProcessReceive();
        CallAdded(old(link.log), calls, call, total);
        calls := calls + [call];
      }
      ok := status == Received;
      SplitStream(inBuffer[..readLen], link.incoming, packet, rest);
    }

    /**
     * A call that ends such a packet takes bytes of its successor along; one that does not has
     * stalled, or waits for more of the successor.
     */
    method LoseSuccessor(ghost packet: seq<byte>, ghost rest: seq<byte>)
      returns (status: Status, ghost call: seq<Attempt>)
      requires Valid() && WellFormed(packet) && Overreads(packet)
      requires readLen == |packet| - 1 && Stream() == packet + rest
      modifies this`readLen, this`messageLength, inBuffer, link`incoming, link`patience, link`log
      ensures Valid() && link.log == old(link.log) + call
      ensures status == Received ==> |Stream()| < |rest| && Stream() == rest[|rest| - |Stream()|..]
      ensures status == Waiting ==>
                && Stream() == packet + rest
                && |packet| - 1 <= readLen < Goal(packet + rest, |packet| - 1, inBuffer.Length)
      ensures link.reliable && LoopEnd(packet + rest, |packet| - 1) <= |packet| + |rest| ==>
                (status == GivenUp <==> Stalls(call, |packet| + |rest|))
    {
      OverreadCall(packet, rest, inBuffer.Length);
      status, call := FinishBehind(packet, rest, LoopEnd(packet + rest, |packet| - 1) <= |packet| + |rest|);
    }

    /** A call that aims behind the packet; `sound` if it can take what it finds there. */
    method FinishBehind(ghost packet: seq<byte>, ghost rest: seq<byte>, ghost sound: bool)
      returns (status: Status, ghost call: seq<Attempt>)
      requires Valid() && Stream() == packet + rest && Goal(packet + rest, readLen, inBuffer.Length) > |packet|
      requires sound ==> !Rejects(packet + rest, readLen, inBuffer.Length)
      modifies this`readLen, this`messageLength, inBuffer, link`incoming, link`patience, link`log
      ensures Valid() && link.log == old(link.log) + call
      ensures status == Received ==> |Stream()| < |rest| && Stream() == rest[|rest| - |Stream()|..]
      ensures status == Waiting ==>
                && Stream() == packet + rest
                && old(readLen) <= readLen < Goal(packet + rest, old(readLen), inBuffer.Length)
      ensures link.reliable && sound ==> (status == GivenUp <==> Stalls(call, |packet| + |rest|))
    {
      status, call := ProcessReceive();
      if status == Received {
        ghost var n := readLen;
        Finish();
        assert (packet + rest)[n..] == rest[n - |packet|..];
      }
    }

    /**
     * On a transport without errors, a read that ends just before the last byte of such a
     * packet costs its successor at least one byte, unless the connection is given up.
     */
    method ReceiveOverread(ghost packet: seq<byte>, ghost rest: seq<byte>)
      returns (ok: bool, ghost calls: seq<seq<Attempt>>, ghost lost: nat)
      requires Valid() && link.reliable && !link.silent
      requires WellFormed(packet) && Overreads(packet)
      requires readLen == |packet| - 1 && Stream() == packet + rest
      requires LoopEnd(packet + rest, |packet| - 1) <= |packet| + |rest|
      modifies this`readLen, this`messageLength, inBuffer, link`incoming, link`patience, link`log
      ensures Valid() && link.log == old(link.log) + Flatten(calls)
      ensures ok <==> !AnyStalls(calls, |packet| + |rest|)
      ensures lost == LoopEnd(packet + rest, |packet| - 1) - |packet| && 1 <= lost <= |rest|
      ensures ok ==> Stream() == rest[lost..]
    {
      var status := Waiting;
      calls := [];
      ghost var total, goal := |packet| + |rest|, LoopEnd(packet + rest, |packet| - 1);
      LoopLeavesPacket(packet, rest);
      lost := goal - |packet|;
      while status == Waiting
        invariant Valid() && Stream() == packet + rest && |packet| - 1 <= readLen <= goal
        invariant link.log == old(link.log) + Flatten(calls)
        invariant AnyStalls(calls, total) <==> status == GivenUp
        invariant status == Waiting ==> readLen < goal
        invariant status == Received ==> readLen == goal
        decreases status == Waiting, link.patience + goal - readLen
      {
        OverreadOn(packet, rest, readLen, inBuffer.Length);
        ghost var call;
        status, call := ProcessReceive();
        CallAdded(old(link.log), calls, call, total);
        calls := calls + [call];
      }
      ok := status == Received;
      if ok {
        Finish();
        assert (packet + rest)[goal..] == rest[lost..];
      }
    }

    /** The buffer holds the front of `p` and the first `part` of its payload. */
    ghost predicate Fronts(p: PublishSpec, part: seq<byte>)
      reads this, inBuffer
    {
      && p.Sendable() && part <= p.payload
      && readLen <= inBuffer.Length && readLen == |p.Front()| + |part|
      && inBuffer[..readLen] == p.Front() + part
    }

    method EventTopic(ghost p: PublishSpec, ghost part: seq<byte>) returns (topic: Option<seq<byte>>)
      requires Fronts(p, part)
      ensures topic == Some(p.topic)
    {
      var t := GetPublishTopic(inBuffer, readLen);
      ghost var s := inBuffer[..readLen];
      p.TopicIn(s, part);
      if t.Null? { return None; }
      topic := Some(inBuffer[..readLen][t.at..t.at + t.len]);
    }

    method EventData(ghost p: PublishSpec, ghost part: seq<byte>) returns (data: seq<byte>)
      requires Fronts(p, part)
      ensures data == part
    {
      var d := GetPublishData(inBuffer, readLen);
      p.DataIn(inBuffer[..readLen], part);
      data := Piece(d, p.Front(), part);
    }

    /** The bytes a slice points to. */
    method Piece(d: Slice, ghost front: seq<byte>, ghost part: seq<byte>) returns (data: seq<byte>)
      requires readLen <= inBuffer.Length && inBuffer[..readLen] == front + part
      requires d == if part == [] then Null else Slice(|front|, |part|)
      ensures data == part
    {
      if d.Null? { return []; }
      data := inBuffer[d.at..d.at + d.len];
      assert data == inBuffer[..readLen][|front|..];
    }

    method EventId(ghost p: PublishSpec, ghost part: seq<byte>) returns (id: nat)
      requires Fronts(p, part)
      ensures id == p.id
    {
      PublishIdDecoded(p.topic, p.payload, p.dup, p.qos, p.retain, p.id, part, readLen);
      CutWhole(inBuffer[..], readLen);
      id := GetId(inBuffer, readLen);
    }

    method EventFlags(ghost p: PublishSpec, ghost part: seq<byte>) returns (qos: nat, dup: nat, retain: nat)
      requires Fronts(p, part)
      ensures qos == p.qos && dup == p.dup && retain == p.retain
    {
      FrontLayout(p.topic, p.payload, p.dup, p.qos, p.retain, p.id, part);
      assert inBuffer[0] == inBuffer[..readLen][0];
      qos, dup, retain := QosOf(inBuffer[0]), DupOf(inBuffer[0]), RetainOf(inBuffer[0]);
    }

    /** What the first event says; None where `deliver_publish` gives up. */
    method FirstEvent(ghost p: PublishSpec, ghost part: seq<byte>) returns (e: Option<DataEvent>)
      requires Fronts(p, part) && messageLength == |p.Front()| + |p.payload|
      ensures e == Some(p.Event(true, part, 0))
    {
      var topic := EventTopic(p, part);
      if topic.None? { return None; }
      var data := EventData(p, part);
      var id := EventId(p, part);
      var qos, dup, retain := EventFlags(p, part);
      e := Some(DataEvent(topic, data, 0, |data| + messageLength - readLen, id, qos, dup, retain));
    }

    /** One more read into the front of the buffer, and the event for it. */
    method NextEvent(first: DataEvent, everyTopic: bool, want: nat, offset: nat, ghost p: PublishSpec,
                     ghost rest: seq<byte>)
      returns (r: int, e: DataEvent)
      requires Valid() && want >= 1 && offset + want == |p.payload|
      requires first == p.Event(true, first.data, 0)
      requires link.incoming == p.payload[offset..] + rest
      modifies inBuffer, link`incoming, link`patience, link`log
      ensures link.log == old(link.log) + [Attempt(|old(link.incoming)|, r)] && (link.silent ==> r <= 0)
      ensures r <= want && link.patience <= old(link.patience) && (link.reliable ==> r >= 0)
      ensures r <= 0 ==>
                && link.incoming == p.payload[offset..] + rest
                && (link.reliable && !link.silent ==> link.patience < old(link.patience))
      ensures r > 0 ==>
                && link.incoming == p.payload[offset + r..] + rest
                && e == p.Event(everyTopic, p.payload[offset..offset + r], offset)
    {
      e := first;
      r := link.Read(inBuffer, 0, if want > inBuffer.Length then inBuffer.Length else want);
      if r > 0 {
        var piece := inBuffer[..r];
        assert piece == (p.payload[offset..] + rest)[..r] == p.payload[offset..offset + r];
        assert link.incoming == p.payload[offset + r..] + rest;
        e := DataEvent(if everyTopic then first.topic else None, piece, offset, first.total,
                       first.id, first.qos, first.dup, first.retain);
      }
    }

    /**
     * `deliver_publish`. After the first event each further read, of any size, makes another.
     * The delivery is complete exactly if each of these reads returned something; the first
     * that does not ends it, and a time-out ends it as if it were complete.
     */
    method DeliverPublish(everyTopic: bool, ghost p: PublishSpec, ghost rest: seq<byte>)
      returns (ok: bool, ghost n: nat, ghost more: seq<Attempt>)
      requires Valid() && p.Sendable()
      requires Holds(p.Packet(), rest) && |p.Front()| <= readLen
      modifies this`events, inBuffer, link`incoming, link`patience, link`log
      ensures Valid() && old(events) <= events && link.log == old(link.log) + more
      ensures n == |p.payload| <==> Uninterrupted(more)
      ensures ok <==> EndsWell(more)
      ensures link.silent ==> n == readLen - |p.Front()|
      ensures Carries(events[|old(events)|..], p, everyTopic, n)
      ensures link.incoming == p.payload[n..] + rest
      ensures link.patience <= old(link.patience)
      ensures link.reliable && !link.silent && link.patience == old(link.patience) ==> ok && n == |p.payload|
      ensures |p.Packet()| <= inBuffer.Length ==> ok && n == |p.payload|
      ensures link.reliable ==> ok
    {
      p.Layout(readLen);
      var first := FirstEvent(p, p.payload[..readLen - |p.Front()|]);
      var offset := |first.value.data|;
      p.FirstCarries(first.value.data, everyTopic);
      events := events + [first.value];
      ghost var mine;
      ok, n, more, mine := DeliverRest(first.value, everyTopic, offset, old(events), p, rest);
      assert events[|old(events)|..] == mine;
    }

    /** One turn of the loop: the event is dispatched, unless the read returned nothing. */
    method DeliverNext(first: DataEvent, everyTopic: bool, want: nat, offset: nat, ghost before: seq<DataEvent>,
                       ghost mine: seq<DataEvent>, ghost p: PublishSpec, ghost rest: seq<byte>)
      returns (r: int, ghost mine': seq<DataEvent>)
      requires Valid() && want >= 1 && offset + want == |p.payload|
      requires first == p.Event(true, first.data, 0)
      requires events == before + mine && Carries(mine, p, everyTopic, offset)
      requires link.incoming == p.payload[offset..] + rest
      modifies this`events, inBuffer, link`incoming, link`patience, link`log
      ensures r <= want && link.log == old(link.log) + [Attempt(|old(link.incoming)|, r)]
      ensures events == before + mine' && Carries(mine', p, everyTopic, offset + if r > 0 then r else 0)
      ensures link.incoming == p.payload[offset + if r > 0 then r else 0..] + rest
      ensures link.patience <= old(link.patience) && (link.reliable ==> r >= 0) && (link.silent ==> r <= 0)
      ensures r <= 0 && link.reliable && !link.silent ==> link.patience < old(link.patience)
    {
      var e;
      r, e := NextEvent(first, everyTopic, want, offset, p, rest);
      mine' := mine;
      if r > 0 {
        CarriesMore(mine, e, p, everyTopic, offset);
        events := events + [e];
        mine' := mine + [e];
      }
    }

    /** The events after the first one. */
    method DeliverRest(first: DataEvent, everyTopic: bool, from: nat, ghost before: seq<DataEvent>,
                       ghost p: PublishSpec, ghost rest: seq<byte>)
      returns (ok: bool, ghost n: nat, ghost more: seq<Attempt>, ghost mine: seq<DataEvent>)
      requires Valid() && messageLength - readLen == |p.payload| - from && from <= |p.payload|
      requires first == p.Event(true, first.data, 0)
      requires |events| == |before| + 1 && events == before + [first]
      requires Carries([first], p, everyTopic, from)
      requires link.incoming == p.payload[from..] + rest
      modifies this`events, inBuffer, link`incoming, link`patience, link`log
      ensures events == before + mine && link.log == old(link.log) + more
      ensures n == |p.payload| <==> Uninterrupted(more)
      ensures ok <==> EndsWell(more)
      ensures link.silent ==> n == from
      ensures Carries(mine, p, everyTopic, n)
      ensures link.incoming == p.payload[n..] + rest
      ensures link.patience <= old(link.patience)
      ensures link.reliable && !link.silent && link.patience == old(link.patience) ==> ok && n == |p.payload|
      ensures from == |p.payload| ==> ok && n == |p.payload|
      ensures link.reliable ==> ok
    {
      var msgRead, offset := readLen, from;
      ok, n, more, mine := true, offset, [], [first];
      while msgRead < messageLength
        invariant messageLength - msgRead == |p.payload| - n
        invariant from <= n == offset <= |p.payload| && ok && events == before + mine
        invariant Carries(mine, p, everyTopic, n)
        invariant link.incoming == p.payload[n..] + rest
        invariant link.patience <= old(link.patience) && link.log == old(link.log) + more
        invariant Uninterrupted(more) && (link.silent ==> n == from)
      {
        var r;
        r, mine := DeliverNext(first, everyTopic, messageLength - msgRead, offset, before, mine, p, rest);
        more := more + [link.log[|link.log| - 1]];
        if r <= 0 {
          ok := r == 0;
          break;
        }
        offset := offset + r;
        msgRead := msgRead + r;
        n := offset;
      }
    }
  }

  lemma CutWhole(s: seq<byte>, n: nat)
    requires n <= |s|
    ensures IdOf(s, n) == IdOf(s[..n], n)
  {
    if 1 <= n < |s| {
      assert Cut(s, n) == s[..n];
      assert Cut(s[..n], n) == s[..n];
      SkipMore(s[..n], n, |s|);
    } else if n == |s| {
      assert s[..n] == s;
    }
  }

  /** One PUBLISH. */
  datatype PublishSpec = PublishSpec(topic: seq<byte>, payload: seq<byte>, dup: nat, qos: nat, retain: nat, id: nat) {
    function Packet(): seq<byte> { MarkedPacket(topic, payload, dup, qos, retain, id) }
    function Front(): seq<byte> { Decode.Front(topic, payload, dup, qos, retain, id) }
    predicate Sendable() { Decode.Sendable(topic, payload, dup, qos, retain, id) }

    /** The event for `data` at this offset. */
    function Event(withTopic: bool, data: seq<byte>, offset: nat): DataEvent {
      DataEvent(if withTopic then Some(topic) else None, data, offset, |payload|, id, qos, dup, retain)
    }

    /** The first `k` bytes of the packet, when they include its front. */
    lemma Layout(k: nat)
      requires |Front()| <= k <= |Packet()|
      ensures |Packet()| == |Front()| + |payload|
      ensures Packet()[..k] == Front() + payload[..k - |Front()|] && Packet()[k..] == payload[k - |Front()|..]
    {
      FrontThenPayload(topic, payload, dup, qos, retain, id);
      TakeConcat(Front(), payload, k);
    }

    lemma TopicIn(s: seq<byte>, part: seq<byte>)
      requires Sendable() && part <= payload && s == Front() + part
      ensures var t := TopicOf(s); t.Slice? && t.at + t.len <= |s| && s[t.at..t.at + t.len] == topic
    {
      PublishDecoded(topic, payload, dup, qos, retain, id, part);
    }

    lemma DataIn(s: seq<byte>, part: seq<byte>)
      requires Sendable() && part <= payload && s == Front() + part
      ensures DataOf(s) == if part == [] then Null else Slice(|Front()|, |part|)
    {
      PublishDecoded(topic, payload, dup, qos, retain, id, part);
    }

    lemma FirstCarries(part: seq<byte>, everyTopic: bool)
      requires part <= payload
      ensures Carries([Event(true, part, 0)], this, everyTopic, |part|)
    {
      var e := Event(true, part, 0);
      assert [e][..0] == [];
      assert Concat([e]) == Concat([]) + e.data;
    }
  }
}
