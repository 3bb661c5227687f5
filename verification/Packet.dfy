/**
 * Reference packets: what a builder with an unbounded buffer would put on the wire.
 * These functions are the specification of the builders in `Connection` and the input
 * of the decoders in `Decode` and of the receiver.
 */
module Packet {
  import opened Bytes
  import opened VarInt

  const CONNECT := 1
  const CONNACK := 2
  const PUBLISH := 3
  const PUBACK := 4
  const PUBREC := 5
  const PUBREL := 6
  const PUBCOMP := 7
  const SUBSCRIBE := 8
  const SUBACK := 9
  const UNSUBSCRIBE := 10
  const UNSUBACK := 11
  const PINGREQ := 12
  const PINGRESP := 13
  const DISCONNECT := 14

  /** Type, DUP, QoS and RETAIN, section 2.2 of MQTT 3.1.1. */
  function HeaderByte(kind: nat, dup: nat, qos: nat, retain: nat): byte {
    kind % 16 * 16 + dup % 2 * 8 + qos % 4 * 2 + retain % 2
  }

  function TypeOf(b: byte): nat { b / 16 }
  function DupOf(b: byte): nat { b / 8 % 2 }
  function QosOf(b: byte): nat { b / 2 % 4 }
  function RetainOf(b: byte): nat { b % 2 }

  lemma DupArithmetic(b: byte)
    ensures DupOf(b) == 0 ==>
              (b + 8) / 16 == b / 16 && (b + 8) / 8 % 2 == 1 && (b + 8) / 2 % 4 == b / 2 % 4 && (b + 8) % 2 == b % 2
    ensures DupOf(b) == 0 ==> b + 8 < 256
    ensures DupOf(b) == 1 ==>
              b >= 8 && (b - 8) / 16 == b / 16 && (b - 8) / 8 % 2 == 0 && (b - 8) / 2 % 4 == b / 2 % 4
                && (b - 8) % 2 == b % 2
  {
    var kind, low := b / 16, b % 8;
    assert b == 16 * kind + 8 * DupOf(b) + low;
    LowBits(kind, 0, low);
    LowBits(kind, 1, low);
  }

  /** Four fields side by side can be read back. */
  lemma LowBits(kind: nat, dup: nat, low: nat)
    requires dup < 2 && low < 8
    ensures var b := 16 * kind + 8 * dup + low;
      b / 16 == kind && b / 8 % 2 == dup && b / 2 % 4 == low / 2 && b % 2 == low % 2
  {
    var b := 16 * kind + 8 * dup + low;
    var q, r := low / 2, low % 2;
    assert q < 4 && r < 2 && low == 2 * q + r;
    assert b == 2 * (8 * kind + 4 * dup + q) + r;
    assert b / 2 == 8 * kind + 4 * dup + q && b % 2 == r;
    assert (4 * (2 * kind + dup) + q) % 4 == q;
    assert b / 8 == 2 * kind + dup && (2 * kind + dup) % 2 == dup;
  }

  /** `b | 0x08`. */
  function SetDup(b: byte): (r: byte)
    ensures DupOf(r) == 1
    ensures TypeOf(r) == TypeOf(b) && QosOf(r) == QosOf(b) && RetainOf(r) == RetainOf(b)
  {
    DupArithmetic(b);
    if DupOf(b) == 1 then b else b + 8
  }

  lemma HeaderFields(kind: nat, dup: nat, qos: nat, retain: nat)
    requires kind < 16 && dup < 2 && qos < 4 && retain < 2
    ensures var b := HeaderByte(kind, dup, qos, retain);
      TypeOf(b) == kind && DupOf(b) == dup && QosOf(b) == qos && RetainOf(b) == retain
  {
    assert kind % 16 == kind && dup % 2 == dup && qos % 4 == qos && retain % 2 == retain;
    LowBits(kind, dup, 2 * qos + retain);
    assert (2 * qos + retain) / 2 == qos && (2 * qos + retain) % 2 == retain;
  }

  /** A packet whose remaining length field says `remaining`. */
  function Framed(header: byte, remaining: nat, body: seq<byte>): seq<byte> {
    [header] + Encode(remaining) + body
  }

  lemma FramedHead(kind: nat, dup: nat, qos: nat, retain: nat, remaining: nat, body: seq<byte>)
    requires kind < 16 && dup < 2 && qos < 4 && retain < 2
    ensures var p := Framed(HeaderByte(kind, dup, qos, retain), remaining, body);
      p != [] && TypeOf(p[0]) == kind && DupOf(p[0]) == dup
  {
    var h := HeadOf(HeaderByte(kind, dup, qos, retain), remaining, body);
    HeaderFields(kind, dup, qos, retain);
  }

  lemma HeadOf(header: byte, remaining: nat, body: seq<byte>) returns (h: byte)
    ensures h == header && Framed(header, remaining, body) != [] && Framed(header, remaining, body)[0] == h
  {
    h := header;
  }

  function Whole(header: byte, body: seq<byte>): seq<byte> {
    Framed(header, |body|, body)
  }

  /** The variable header of a PUBLISH, section 3.3.2 of MQTT 3.1.1. */
  function PublishHead(topic: seq<byte>, qos: nat, id: nat): (s: seq<byte>)
    ensures |s| == |topic| + 2 + if qos > 0 then 2 else 0
  {
    Str(topic) + if qos > 0 then U16(id) else []
  }

  function PublishPacket(topic: seq<byte>, payload: seq<byte>, qos: nat, retain: nat, id: nat): seq<byte> {
    MarkedPacket(topic, payload, 0, qos, retain, id)
  }

  /** A PUBLISH with its DUP bit, which is 1 in a packet that is sent again. */
  function MarkedPacket(topic: seq<byte>, payload: seq<byte>, dup: nat, qos: nat, retain: nat, id: nat): seq<byte> {
    Whole(HeaderByte(PUBLISH, dup, qos, retain), PublishHead(topic, qos, id) + payload)
  }

  /** Setting DUP in the first byte of a PUBLISH gives the marked packet. */
  lemma MarkPublish(topic: seq<byte>, payload: seq<byte>, qos: nat, retain: nat, id: nat)
    ensures var p := PublishPacket(topic, payload, qos, retain, id);
      p != [] && p[0 := SetDup(p[0])] == MarkedPacket(topic, payload, 1, qos, retain, id)
  {
    var body := PublishHead(topic, qos, id) + payload;
    var h := HeaderByte(PUBLISH, 0, qos, retain);
    MarkHeader(qos, retain);
    assert ([h] + (Encode(|body|) + body))[0 := h + 8] == [h + 8] + (Encode(|body|) + body);
    Assoc([h], Encode(|body|), body);
    Assoc([h + 8], Encode(|body|), body);
  }

  lemma MarkHeader(qos: nat, retain: nat)
    ensures var h := HeaderByte(PUBLISH, 0, qos, retain);
      DupOf(h) == 0 && SetDup(h) == h + 8 == HeaderByte(PUBLISH, 1, qos, retain)
  {
    LowBits(PUBLISH, 0, qos % 4 * 2 + retain % 2);
  }

  /** PUBACK, PUBREC, PUBREL (flags 2) and PUBCOMP, sections 3.4 to 3.7. */
  function AckPacket(kind: nat, id: nat): seq<byte> {
    Whole(HeaderByte(kind, 0, if kind == PUBREL then 1 else 0, 0), U16(id))
  }

  /** The four of them byte by byte. */
  lemma AckOnWire(id: nat)
    requires id < 65536
    ensures AckPacket(PUBACK, id) == [0x40, 2, id / 256, id % 256]
    ensures AckPacket(PUBREC, id) == [0x50, 2, id / 256, id % 256]
    ensures AckPacket(PUBREL, id) == [0x62, 2, id / 256, id % 256]
    ensures AckPacket(PUBCOMP, id) == [0x70, 2, id / 256, id % 256]
  {
    assert HeaderByte(PUBACK, 0, 0, 0) == 0x40 && HeaderByte(PUBREC, 0, 0, 0) == 0x50;
    assert HeaderByte(PUBREL, 0, 1, 0) == 0x62 && HeaderByte(PUBCOMP, 0, 0, 0) == 0x70;
    assert Encode(2) == [2] && U16(id) == [id / 256, id % 256];
  }

  /** A PUBLISH byte by byte, its remaining length apart. */
  lemma PublishOnWire(topic: seq<byte>, payload: seq<byte>, dup: nat, qos: nat, retain: nat, id: nat)
    requires |topic| < 65536 && id < 65536 && dup < 2 && qos < 3 && retain < 2
    ensures var size := 2 + |topic| + (if qos > 0 then 2 else 0) + |payload|;
      MarkedPacket(topic, payload, dup, qos, retain, id) ==
      [0x30 + 8 * dup + 2 * qos + retain] + Encode(size)
      + ([|topic| / 256, |topic| % 256] + topic + (if qos > 0 then [id / 256, id % 256] else []) + payload)
  {
    PublishByte(dup, qos, retain);
    TwoBytes(|topic|);
    TwoBytes(id);
  }

  lemma PublishByte(dup: nat, qos: nat, retain: nat)
    requires dup < 2 && qos < 3 && retain < 2
    ensures HeaderByte(PUBLISH, dup, qos, retain) == 0x30 + 8 * dup + 2 * qos + retain
  {
  }

  lemma TwoBytes(n: nat)
    requires n < 65536
    ensures U16(n) == [n / 256, n % 256]
  {
  }

  function Filters(topics: seq<(seq<byte>, byte)>): seq<byte> {
    if topics == [] then []
    else Filters(topics[..|topics| - 1]) + Str(topics[|topics| - 1].0) + [topics[|topics| - 1].1]
  }

  function SubscribePacket(topics: seq<(seq<byte>, byte)>, id: nat): seq<byte> {
    Whole(HeaderByte(SUBSCRIBE, 0, 1, 0), U16(id) + Filters(topics))
  }

  function UnsubscribePacket(topic: seq<byte>, id: nat): seq<byte> {
    Whole(HeaderByte(UNSUBSCRIBE, 0, 1, 0), U16(id) + Str(topic))
  }

  /** The first bytes of what the client sends besides. */
  lemma HeadersOnWire()
    ensures HeaderByte(CONNECT, 0, 0, 0) == 0x10 && HeaderByte(SUBSCRIBE, 0, 1, 0) == 0x82
    ensures HeaderByte(UNSUBSCRIBE, 0, 1, 0) == 0xA2
    ensures Whole(HeaderByte(PINGREQ, 0, 0, 0), []) == [0xC0, 0]
    ensures Whole(HeaderByte(DISCONNECT, 0, 0, 0), []) == [0xE0, 0]
  {
    assert Encode(0) == [0];
  }

  /** A reader of the payload of a SUBSCRIBE, section 3.8.3: filters and requested QoS in turn. */
  function ReadFilters(s: seq<byte>): Option<seq<(seq<byte>, byte)>>
    decreases |s|
  {
    if s == [] then Some([])
    else if |s| < 2 || |s| < 3 + FromU16(s[0], s[1]) then None
    else
      var n := FromU16(s[0], s[1]);
      match ReadFilters(s[3 + n..])
      case None => None
      case Some(rest) => Some([(s[2..2 + n], s[2 + n])] + rest)
  }

  lemma {:induction false} FiltersFront(topics: seq<(seq<byte>, byte)>)
    requires topics != []
    ensures Filters(topics) == Str(topics[0].0) + [topics[0].1] + Filters(topics[1..])
    decreases |topics|
  {
    var n := |topics| - 1;
    if n == 0 {
      assert topics[..0] == [] && topics[1..] == [];
    } else {
      var front, first, last, mid := topics[..n], topics[0], topics[n], topics[1..n];
      FiltersFront(front);
      assert front[1..] == mid && front[0] == first;
      FiltersLast(topics, front, last);
      FiltersLast(topics[1..], mid, last);
      FourAssoc(Str(first.0) + [first.1], Filters(mid), Str(last.0), [last.1]);
    }
  }

  lemma FiltersLast(topics: seq<(seq<byte>, byte)>, front: seq<(seq<byte>, byte)>, last: (seq<byte>, byte))
    requires topics == front + [last]
    ensures Filters(topics) == Filters(front) + Str(last.0) + [last.1]
  {
    assert topics[..|topics| - 1] == front;
  }

  lemma FourAssoc(a: seq<byte>, b: seq<byte>, c: seq<byte>, d: seq<byte>)
    ensures a + b + c + d == a + (b + c + d)
  {
  }

  /** The payload of a SUBSCRIBE is read as the filters and QoS that were asked for, in order. */
  lemma {:induction false} FiltersRead(topics: seq<(seq<byte>, byte)>)
    requires forall k :: 0 <= k < |topics| ==> |topics[k].0| < 65536
    ensures ReadFilters(Filters(topics)) == Some(topics)
    decreases |topics|
  {
    if topics != [] {
      FiltersFront(topics);
      FiltersRead(topics[1..]);
      FilterRead(topics[0].0, topics[0].1, Filters(topics[1..]), topics[1..]);
      assert topics == [(topics[0].0, topics[0].1)] + topics[1..];
    }
  }

  lemma FilterRead(t: seq<byte>, q: byte, s: seq<byte>, rest: seq<(seq<byte>, byte)>)
    requires |t| < 65536 && ReadFilters(s) == Some(rest)
    ensures ReadFilters(Str(t) + [q] + s) == Some([(t, q)] + rest)
  {
    var all := Str(t) + [q] + s;
    U16RoundTrip(|t|);
    assert all[0] == U16(|t|)[0] && all[1] == U16(|t|)[1];
    assert all[2..2 + |t|] == t && all[2 + |t|] == q && all[3 + |t|..] == s;
  }

  /** A frame determines its header, its remaining length and, with that, its body. */
  lemma FramedInjective(h: byte, r: nat, b: seq<byte>, h': byte, r': nat, b': seq<byte>)
    requires Framed(h, r, b) == Framed(h', r', b')
    ensures h == h' && r == r' && b == b'
  {
    var p, q := Framed(h, r, b), Framed(h', r', b');
    assert p[0] == h && q[0] == h';
    assert p[1..] == Encode(r) + b && q[1..] == Encode(r') + b';
    EncodePrefixFree(r, r', b, b');
  }

  /** A framed packet read by section 2.2: header byte and body, if the length fits exactly. */
  function Unframe(s: seq<byte>): Option<(byte, seq<byte>)> {
    if s == [] then None
    else
      var r := Scan(s[1..], 4);
      if r.ended && 1 + r.used + r.value == |s| then Some((s[0], s[1 + r.used..])) else None
  }

  lemma UnframeWhole(header: byte, body: seq<byte>)
    requires |body| < LIMIT
    ensures Unframe(Whole(header, body)) == Some((header, body))
  {
    EncodeFourBytes(|body|);
    ScanEncode(|body|, body, 4);
    assert Whole(header, body)[1..] == Encode(|body|) + body;
    assert (Encode(|body|) + body)[|Encode(|body|)|..] == body;
  }

  /**
   * Every builder ends in `fini_message`, which takes the remaining length from the fragment
   * total when that is not zero. The packet is the intended one exactly when no total was
   * left behind, or by chance the right one.
   */
  lemma StaleTotal(header: byte, stored: nat, body: seq<byte>)
    requires stored == 0 || stored >= 5
    ensures Framed(header, if stored == 0 then |body| else stored - 5, body) == Whole(header, body)
            <==> stored == 0 || stored == 5 + |body|
  {
    if Framed(header, if stored == 0 then |body| else stored - 5, body) == Whole(header, body) {
      FramedInjective(header, if stored == 0 then |body| else stored - 5, body, header, |body|, body);
    }
  }
}
