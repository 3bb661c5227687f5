/**
 * The MQTT 3.1.1 decoders of components/mqtt/lib/mqtt_msg.c. Each is a function of the bytes
 * it may look at; the methods are the index loops of the source, proved equal to them for
 * every input, well-formed or not.
 */
module Decode {
  import opened Bytes
  import opened VarInt
  import opened Packet

  /** A pointer into the buffer and a length, or NULL. */
  datatype Slice = Null | Slice(at: nat, len: nat)

  /** The index just behind the remaining length, for a loop that looks at `max` bytes. */
  function HeaderEnd(s: seq<byte>, max: nat): (i: nat)
    ensures 1 <= i && (s != [] ==> i <= |s|)
  {
    if s == [] then 1 else 1 + Scan(s[1..], max).used
  }

  /** The remaining length as the loops accumulate it. */
  function RemainingOf(s: seq<byte>): nat {
    if s == [] then 0 else Scan(s[1..], 4).value
  }

  function TopicLen(s: seq<byte>, i: nat): nat
    requires i + 1 < |s|
  {
    FromU16(s[i], s[i + 1])
  }

  function TopicOf(s: seq<byte>): Slice {
    var i := HeaderEnd(s, |s|);
    if i + 2 >= |s| || i + 2 + TopicLen(s, i) > |s| then Null else Slice(i + 2, TopicLen(s, i))
  }

  function DataOf(s: seq<byte>): Slice {
    var i := HeaderEnd(s, 4);
    if i + 2 >= |s| then Null
    else
      var j := i + 2 + TopicLen(s, i);
      if j >= |s| then Null
      else if QosOf(s[0]) > 0 && j + 2 >= |s| then Null
      else
        var k := if QosOf(s[0]) > 0 then j + 2 else j;
        var total := i + RemainingOf(s);
        if total < k then Null
        else Slice(k, (if total <= |s| then total else |s|) - k)
  }

  /** `mqtt_get_id`, told that the packet has `length` bytes. */
  function IdOf(s: seq<byte>, length: nat): (id: nat)
    requires length <= |s| || IdReachable(s)
    ensures id < 65536
  {
    if length < 1 then 0
    else if TypeOf(s[0]) == PUBLISH then PublishId(s, length)
    else if CarriesId(TypeOf(s[0])) then
      if length >= 4 && s[1] < 128 then FromU16(s[2], s[3]) else 0
    else 0
  }

  function Cut(s: seq<byte>, length: nat): seq<byte> {
    if length < |s| then s[..length] else s
  }

  /** The types whose identifier is in bytes 2 and 3. */
  predicate CarriesId(kind: nat) {
    || kind == PUBACK || kind == PUBREC || kind == PUBREL || kind == PUBCOMP
    || kind == SUBACK || kind == UNSUBACK || kind == SUBSCRIBE || kind == UNSUBSCRIBE
  }

  function PublishId(s: seq<byte>, length: nat): nat
    requires 1 <= length && (length <= |s| || (|s| >= 4 && TypeOf(s[0]) == PUBLISH && IdReachable(s)))
  {
    var i := HeaderEnd(Cut(s, length), |s|);
    if i + 2 >= length then 0
    else
      var j := i + 2 + TopicLen(s, i);
      if j > length || QosOf(s[0]) == 0 || j + 2 > length then 0 else FromU16(s[j], s[j + 1])
  }

  /** Everything `mqtt_get_id` looks at lies inside the bytes at hand, although the packet is
      longer than they are. */
  predicate IdReachable(s: seq<byte>) {
    && |s| >= 4
    && (TypeOf(s[0]) == PUBLISH ==>
          && Scan(s[1..], |s|).ended
          && HeaderEnd(s, |s|) + 2 <= |s|
          && (QosOf(s[0]) > 0 ==> HeaderEnd(s, |s|) + 4 + TopicLen(s, HeaderEnd(s, |s|)) <= |s|))
  }

  // ----- the loops -----

  /** A skip loop: past bytes with the top bit set, stopping behind the first without. */
  method SkipLength(buffer: array<byte>, length: nat) returns (i: nat)
    requires length <= buffer.Length
    ensures i == HeaderEnd(buffer[..length], length)
  {
    i := 1;
    ghost var s := buffer[..length];
    while i < length
      invariant 1 <= i && if length >= 1 then i <= length else i == 1
      invariant length >= 1 ==> SkipGoal(s, i, length)
    {
      SkipStep(s, i, length);
      if buffer[i] < 128 {
        i := i + 1;
        return;
      }
      i := i + 1;
    }
    assert length == 0 ==> s == [];
    assert length > 0 ==> s[i..] == [];
  }

  /** The bytes before `i` all had the top bit set. */
  ghost predicate SkipGoal(s: seq<byte>, i: nat, max: nat)
    requires 1 <= i <= |s| && i <= max + 1
  {
    HeaderEnd(s, max) == i + Scan(s[i..], max - i + 1).used
  }

  lemma SkipStep(s: seq<byte>, i: nat, max: nat)
    requires 1 <= i < |s| && i <= max && SkipGoal(s, i, max)
    ensures if s[i] < 128 then HeaderEnd(s, max) == i + 1 else SkipGoal(s, i + 1, max)
  {
    ScanStep(s, i, max - i + 1);
  }

  method GetTotalLength(buffer: array<byte>, length: nat) returns (total: nat, fixed: nat)
    requires length <= buffer.Length
    ensures fixed == HeaderEnd(buffer[..length], 4)
    ensures total == RemainingOf(buffer[..length]) + fixed
  {
    if length == 0 { return 1, 1; }
    var used, ended;
    total, used, ended := ReadVariable(buffer, 1, length, 4);
    assert buffer[..length][1..] == buffer[1..length];
    fixed := 1 + used;
    total := total + fixed;
  }

  method GetPublishTopic(buffer: array<byte>, length: nat) returns (r: Slice)
    requires length <= buffer.Length
    ensures r == TopicOf(buffer[..length])
  {
    var i := SkipLength(buffer, length);
    if i + 2 >= length { return Null; }
    var topicLen := FromU16(buffer[i], buffer[i + 1]);
    i := i + 2;
    if i + topicLen > length { return Null; }
    r := Slice(i, topicLen);
  }

  method GetPublishData(buffer: array<byte>, length: nat) returns (r: Slice)
    requires length <= buffer.Length
    ensures r == DataOf(buffer[..length])
  {
    var total, i := GetTotalLength(buffer, length);
    if i + 2 >= length { return Null; }
    var topicLen := FromU16(buffer[i], buffer[i + 1]);
    i := i + 2;
    if i + topicLen >= length { return Null; }
    i := i + topicLen;
    if QosOf(buffer[0]) > 0 {
      if i + 2 >= length { return Null; }
      i := i + 2;
    }
    if total < i { return Null; }
    r := Slice(i, (if total <= length then total else length) - i);
  }

  /** The PUBLISH case of `mqtt_get_id`. */
  method GetPublishId(buffer: array<byte>, length: nat) returns (id: nat)
    requires 1 <= length && (length <= buffer.Length || (buffer.Length >= 4 && IdReachable(buffer[..])))
    requires length > buffer.Length ==> TypeOf(buffer[0]) == PUBLISH
    ensures id == PublishId(buffer[..], length)
  {
    var known := if length <= buffer.Length then length else buffer.Length;
    assert buffer[..known] == Cut(buffer[..], length);
    var i := SkipLength(buffer, known);
    SkipMore(buffer[..known], known, buffer.Length);
    if i + 2 >= length { return 0; }
    var topicLen := FromU16(buffer[i], buffer[i + 1]);
    i := i + 2;
    if i + topicLen > length { return 0; }
    i := i + topicLen;
    if QosOf(buffer[0]) == 0 { return 0; }
    if i + 2 > length { return 0; }
    id := FromU16(buffer[i], buffer[i + 1]);
  }

  method GetId(buffer: array<byte>, length: nat) returns (id: nat)
    requires length <= buffer.Length || IdReachable(buffer[..])
    ensures id == IdOf(buffer[..], length)
  {
    if length < 1 { return 0; }
    var kind := TypeOf(buffer[0]);
    if kind == PUBLISH {
      id := GetPublishId(buffer, length);
      return;
    }
    if CarriesId(kind) {
      if length >= 4 && buffer[1] < 128 { return FromU16(buffer[2], buffer[3]); }
    }
    id := 0;
  }

  /** Allowing a scan more bytes than there are changes nothing. */
  lemma {:induction false} ScanMore(s: seq<byte>, max: nat, more: nat)
    requires |s| <= max <= more
    ensures Scan(s, max) == Scan(s, more)
    decreases |s|
  {
    if s != [] && s[0] >= 128 { ScanMore(s[1..], max - 1, more - 1); }
  }

  lemma SkipMore(s: seq<byte>, max: nat, more: nat)
    requires |s| <= max <= more
    ensures HeaderEnd(s, max) == HeaderEnd(s, more)
  {
    if s != [] { ScanMore(s[1..], max, more); }
  }

  // ----- what the decoders find in built packets -----

  /** The bytes of a PUBLISH before its payload. */
  function Front(topic: seq<byte>, payload: seq<byte>, dup: nat, qos: nat, retain: nat, id: nat): seq<byte> {
    [HeaderByte(PUBLISH, dup, qos, retain)] + Encode(|PublishHead(topic, qos, id)| + |payload|)
      + PublishHead(topic, qos, id)
  }

  /** What a PUBLISH must satisfy for its fields to have a representation at all. */
  predicate Expressible(topic: seq<byte>, payload: seq<byte>, dup: nat, qos: nat, retain: nat) {
    && |topic| < 65536 && qos < 3 && retain < 2 && (dup == 0 || (dup == 1 && qos > 0))
    && |topic| + 4 + |payload| < LIMIT
  }

  /** ... and for a client to send it: a topic, and an identifier as its QoS demands. */
  predicate Sendable(topic: seq<byte>, payload: seq<byte>, dup: nat, qos: nat, retain: nat, id: nat) {
    && Expressible(topic, payload, dup, qos, retain) && topic != []
    && (if qos > 0 then 1 <= id < 65536 else id == 0)
  }

  lemma FrontThenPayload(topic: seq<byte>, payload: seq<byte>, dup: nat, qos: nat, retain: nat, id: nat)
    ensures MarkedPacket(topic, payload, dup, qos, retain, id) == Front(topic, payload, dup, qos, retain, id) + payload
  {
  }

  /** All header loops stop at the same place in a framed packet, however much of it is there. */
  lemma HeaderAgreement(header: byte, n: nat, rest: seq<byte>, max: nat)
    requires n < LIMIT && max >= 4
    ensures var s := Framed(header, n, rest);
      HeaderEnd(s, max) == 1 + |Encode(n)| && RemainingOf(s) == n && Scan(s[1..], max).ended
  {
    var s := Framed(header, n, rest);
    EncodeFourBytes(n);
    assert s[1..] == Encode(n) + rest;
    ScanEncode(n, rest, max);
    ScanEncode(n, rest, 4);
  }

  /** A two-byte field in the middle of a sequence. */
  lemma FieldAt(a: seq<byte>, n: nat, b: seq<byte>)
    requires n < 65536
    ensures var s := a + U16(n) + b; FromU16(s[|a|], s[|a| + 1]) == n
  {
    U16RoundTrip(n);
  }

  lemma Regroup(a: seq<byte>, b: seq<byte>, c: seq<byte>, d: seq<byte>, e: seq<byte>)
    ensures a + (b + c + d) + e == a + b + (c + (d + e))
  {
    assert a + (b + c + d) + e == a + b + c + d + e;
    assert a + b + (c + (d + e)) == a + b + c + d + e;
  }

  /** The front of a PUBLISH with any first part of its payload behind it. */
  lemma FrontTopic(topic: seq<byte>, payload: seq<byte>, dup: nat, qos: nat, retain: nat, id: nat, part: seq<byte>)
    requires Sendable(topic, payload, dup, qos, retain, id)
    ensures var s := Front(topic, payload, dup, qos, retain, id) + part;
      var n := |PublishHead(topic, qos, id)| + |payload|;
      var i := 1 + |Encode(n)|;
      && s == Framed(HeaderByte(PUBLISH, dup, qos, retain), n, PublishHead(topic, qos, id) + part)
      && i + 2 + |topic| <= |s| && s[i + 2..i + 2 + |topic|] == topic
      && TopicLen(s, i) == |topic|
  {
    var n := |PublishHead(topic, qos, id)| + |payload|;
    var a := [HeaderByte(PUBLISH, dup, qos, retain)] + Encode(n);
    var tail := if qos > 0 then U16(id) else [];
    Assoc(a, PublishHead(topic, qos, id), part);
    Regroup(a, U16(|topic|), topic, tail, part);
    FieldAt(a, |topic|, topic + (tail + part));
    TopicAt(a, U16(|topic|), topic, tail + part);
  }

  lemma TopicAt(a: seq<byte>, b: seq<byte>, c: seq<byte>, d: seq<byte>)
    ensures (a + b + (c + d))[|a| + |b|..|a| + |b| + |c|] == c
  {
  }

  lemma FrontId(topic: seq<byte>, payload: seq<byte>, dup: nat, qos: nat, retain: nat, id: nat, part: seq<byte>)
    requires Sendable(topic, payload, dup, qos, retain, id) && qos > 0
    ensures var s := Front(topic, payload, dup, qos, retain, id) + part;
      var j := 3 + |Encode(|PublishHead(topic, qos, id)| + |payload|)| + |topic|;
      j + 2 <= |s| && FromU16(s[j], s[j + 1]) == id
  {
    var n := |PublishHead(topic, qos, id)| + |payload|;
    var a := [HeaderByte(PUBLISH, dup, qos, retain)] + Encode(n) + Str(topic);
    Assoc([HeaderByte(PUBLISH, dup, qos, retain)] + Encode(n), Str(topic), U16(id));
    FieldAt(a, id, part);
  }

  lemma FrontLayout(topic: seq<byte>, payload: seq<byte>, dup: nat, qos: nat, retain: nat, id: nat, part: seq<byte>)
    requires Sendable(topic, payload, dup, qos, retain, id)
    ensures var s := Front(topic, payload, dup, qos, retain, id) + part;
      var n := |PublishHead(topic, qos, id)| + |payload|;
      var i := 1 + |Encode(n)|;
      && s == Framed(HeaderByte(PUBLISH, dup, qos, retain), n, PublishHead(topic, qos, id) + part)
      && n < LIMIT && |s| >= 4 && i + 2 <= |s|
      && TypeOf(s[0]) == PUBLISH && QosOf(s[0]) == qos && RetainOf(s[0]) == retain && DupOf(s[0]) == dup
      && TopicLen(s, i) == |topic|
      && i + 2 + |topic| <= |s| && s[i + 2..i + 2 + |topic|] == topic
      && (qos > 0 ==> i + 4 + |topic| <= |s| && FromU16(s[i + 2 + |topic|], s[i + 3 + |topic|]) == id)
      && |Front(topic, payload, dup, qos, retain, id)| == i + |PublishHead(topic, qos, id)|
  {
    HeaderFields(PUBLISH, dup, qos, retain);
    FrontTopic(topic, payload, dup, qos, retain, id, part);
    if qos > 0 { FrontId(topic, payload, dup, qos, retain, id, part); }
  }

  lemma FrontHeaderEnd(topic: seq<byte>, payload: seq<byte>, dup: nat, qos: nat, retain: nat, id: nat, part: seq<byte>)
    requires Sendable(topic, payload, dup, qos, retain, id)
    ensures var s := Front(topic, payload, dup, qos, retain, id) + part;
      var n := |PublishHead(topic, qos, id)| + |payload|;
      && HeaderEnd(s, 4) == HeaderEnd(s, |s|) == 1 + |Encode(n)| && RemainingOf(s) == n
      && |s| >= 4 && Scan(s[1..], |s|).ended
  {
    var s := Front(topic, payload, dup, qos, retain, id) + part;
    var n := |PublishHead(topic, qos, id)| + |payload|;
    var h := HeaderByte(PUBLISH, dup, qos, retain);
    Assoc([h] + Encode(n), PublishHead(topic, qos, id), part);
    HeaderAgreement(h, n, PublishHead(topic, qos, id) + part, |s|);
    HeaderAgreement(h, n, PublishHead(topic, qos, id) + part, 4);
  }

  /** Topic, data and identifier are found where the builder put them. */
  lemma PublishDecoded(topic: seq<byte>, payload: seq<byte>, dup: nat, qos: nat, retain: nat, id: nat, part: seq<byte>)
    requires Sendable(topic, payload, dup, qos, retain, id) && part <= payload
    ensures var front := Front(topic, payload, dup, qos, retain, id);
      var s := front + part;
      && TopicOf(s).Slice? && TopicOf(s).at + TopicOf(s).len <= |s|
      && s[TopicOf(s).at..TopicOf(s).at + TopicOf(s).len] == topic
      && DataOf(s) == (if part == [] then Null else Slice(|front|, |part|))
      && HeaderEnd(s, 4) + RemainingOf(s) == |front| + |payload|
  {
    var s, i, f := FrontParts(topic, payload, dup, qos, retain, id, part);
    TopicFound(s, i, topic);
    DataFound(s, i, |topic|, f, RemainingOf(s));
  }

  /** What the decoders meet: the fixed header ends at `i`, and the payload starts at `f`. */
  lemma FrontParts(topic: seq<byte>, payload: seq<byte>, dup: nat, qos: nat, retain: nat, id: nat, part: seq<byte>)
    returns (s: seq<byte>, i: nat, f: nat)
    requires Sendable(topic, payload, dup, qos, retain, id)
    ensures s == Front(topic, payload, dup, qos, retain, id) + part && f + |part| == |s| && i + 2 < |s|
    ensures HeaderEnd(s, 4) == HeaderEnd(s, |s|) == i && i + RemainingOf(s) == f + |payload|
    ensures TopicLen(s, i) == |topic| && i + 2 + |topic| <= |s| && s[i + 2..i + 2 + |topic|] == topic
    ensures f == i + 2 + |topic| + if QosOf(s[0]) > 0 then 2 else 0
  {
    s := Front(topic, payload, dup, qos, retain, id) + part;
    i := 1 + |Encode(|PublishHead(topic, qos, id)| + |payload|)|;
    f := i + |PublishHead(topic, qos, id)|;
    FrontLayout(topic, payload, dup, qos, retain, id, part);
    FrontHeaderEnd(topic, payload, dup, qos, retain, id, part);
  }

  /** `TopicOf` once the end of the fixed header is known. */
  lemma TopicFound(s: seq<byte>, i: nat, topic: seq<byte>)
    requires i + 2 < |s| && HeaderEnd(s, |s|) == i && TopicLen(s, i) == |topic|
    requires i + 2 + |topic| <= |s| && s[i + 2..i + 2 + |topic|] == topic
    ensures TopicOf(s) == Slice(i + 2, |topic|)
  {
  }

  /** `DataOf` likewise: `f` is where the payload starts. */
  lemma DataFound(s: seq<byte>, i: nat, topicLen: nat, f: nat, remaining: nat)
    requires i + 2 < |s| && HeaderEnd(s, 4) == i && RemainingOf(s) == remaining && TopicLen(s, i) == topicLen
    requires f == i + 2 + topicLen + (if QosOf(s[0]) > 0 then 2 else 0) <= |s| <= i + remaining
    ensures DataOf(s) == if f == |s| then Null else Slice(f, |s| - f)
  {
  }

  /** ... also when the packet is longer than the bytes at hand. */
  lemma PublishIdDecoded(topic: seq<byte>, payload: seq<byte>, dup: nat, qos: nat, retain: nat, id: nat,
                         part: seq<byte>, length: nat)
    requires Sendable(topic, payload, dup, qos, retain, id) && part <= payload
    requires var front := Front(topic, payload, dup, qos, retain, id);
      length == |front| + |part| || length == |front| + |payload|
    ensures var s := Front(topic, payload, dup, qos, retain, id) + part;
      (length <= |s| || IdReachable(s)) && IdOf(s, length) == id
  {
    var front := Front(topic, payload, dup, qos, retain, id);
    var s := front + part;
    var n := |PublishHead(topic, qos, id)| + |payload|;
    FrontLayout(topic, payload, dup, qos, retain, id, part);
    FrontHeaderEnd(topic, payload, dup, qos, retain, id, part);
    assert |front| == 1 + |Encode(n)| + |PublishHead(topic, qos, id)|;
    PublishIdAt(s, length, 1 + |Encode(n)|, id);
  }

  /** `PublishId` once the end of the fixed header is known. */
  lemma PublishIdAt(s: seq<byte>, length: nat, i: nat, id: nat)
    requires |s| >= 4 && length >= |s| && i + 2 <= |s| && (length <= |s| || IdReachable(s))
    requires TypeOf(s[0]) == PUBLISH
    requires HeaderEnd(s, |s|) == i
    requires TopicLen(s, i) >= 1 && i + 2 + TopicLen(s, i) <= |s|
    requires QosOf(s[0]) == 0 ==> id == 0
    requires QosOf(s[0]) > 0 ==>
               i + 4 + TopicLen(s, i) <= |s| && FromU16(s[i + 2 + TopicLen(s, i)], s[i + 3 + TopicLen(s, i)]) == id
    ensures IdOf(s, length) == id
  {
    assert PublishId(s, length) == id;
  }

  /** Acknowledgements carry the identifier they were built with. */
  lemma AckIdDecoded(kind: nat, id: nat)
    requires CarriesId(kind) && 1 <= id < 65536
    ensures IdOf(AckPacket(kind, id), |AckPacket(kind, id)|) == id
  {
    var h := HeaderByte(kind, 0, if kind == PUBREL then 1 else 0, 0);
    HeaderFields(kind, 0, if kind == PUBREL then 1 else 0, 0);
    FramedId(h, U16(id));
    U16RoundTrip(id);
  }

  lemma FramedId(h: byte, body: seq<byte>)
    requires |body| == 2 && CarriesId(TypeOf(h))
    ensures var s := Whole(h, body); |s| == 4 && IdOf(s, 4) == FromU16(body[0], body[1])
  {
    assert Encode(2) == [2];
    assert Whole(h, body) == [h] + [2] + body;
  }
}
