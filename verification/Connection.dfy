/**
 * The outgoing half of `mqtt_connection_t` and the MQTT 3.1.1 packet builders of
 * components/mqtt/lib/mqtt_msg.c, which write into one fixed buffer in place.
 */
module Connections {
  import opened Bytes
  import opened VarInt
  import opened Packet
  import opened Connect

  /** `++last_message_id` in 16 bits, repeated while it is zero. */
  function NextId(last: nat): (id: nat)
    requires last < 65536
    ensures 1 <= id < 65536
  {
    if last == 65535 then 1 else last + 1
  }

  /** `memcpy` into a buffer. */
  method CopyIn(dst: array<byte>, at: nat, src: seq<byte>)
    requires at + |src| <= dst.Length
    modifies dst
    ensures dst[..] == old(dst[..at]) + src + old(dst[at + |src|..])
  {
    forall k | 0 <= k < |src| { dst[at + k] := src[k]; }
  }

  /** `mqtt_msg_publish` gets as far as asking for an identifier. */
  predicate DrawsId(topic: Option<seq<byte>>, data: Option<seq<byte>>, dataLength: int, qos: nat, room: nat) {
    topic.Some? && topic.value != [] && (data.None? ==> dataLength <= 0) && qos > 0 && 7 + |topic.value| <= room
  }

  /** `mqtt_msg_publish` succeeds: everything before the payload fits. */
  predicate Publishable(topic: Option<seq<byte>>, data: Option<seq<byte>>, dataLength: int, qos: nat, room: nat) {
    && topic.Some? && topic.value != []
    && (data.None? ==> dataLength <= 0)
    && 5 + |PublishHead(topic.value, qos, 0)| <= room
  }

  /** What the builder of an acknowledgement leaves: the packet, unless a fragment total of an
      earlier message is still there. */
  function AckBytes(kind: nat, id: nat, total: nat): seq<byte>
    requires total == 0 || total >= 5
  {
    Framed(HeaderByte(kind, 0, if kind == PUBREL then 1 else 0, 0), if total == 0 then 2 else total - 5, U16(id))
  }

  class Connection {
    const buffer: array<byte>
    const incremental: bool       // MQTT_MSG_ID_INCREMENTAL

    // outbound_message: a pointer (block and offset), its length and the two fragment fields.
    // The block is `buffer` except while an outbox item is being resent. `fragOffset` is a
    // size_t used modulo 2^32; here it is the integer it stands for.
    var data: array<byte>
    var start: nat
    var length: nat
    var fragTotal: nat
    var fragOffset: int
    var lastId: nat

    ghost predicate Valid()
      reads this
    {
      && (fragTotal == 0 || 5 <= fragTotal < LIMIT + 5)
      && lastId < 65536
    }

    ghost predicate HasOutbound()
      reads `data, `start, `length
    {
      start + length <= data.Length
    }

    /** The bytes `esp_mqtt_write` would send. */
    ghost function Outbound(): seq<byte>
      reads `data, `start, `length, data
      requires HasOutbound()
    {
      data[start..start + length]
    }

    constructor (size: nat, incremental: bool)
      ensures Valid() && fresh(buffer) && buffer.Length == size && this.incremental == incremental
      ensures data == buffer && start == 0 && length == 0 && fragTotal == 0 && fragOffset == 0 && lastId == 0
    {
      buffer := new byte[size](_ => 0);
      this.incremental := incremental;
      data := buffer;
      start, length, fragTotal, fragOffset, lastId := 0, 0, 0, 0, 0;
    }

    /** `mqtt_reset_pending_message`, as far as it concerns the connection. */
    method ResetFragment()
      modifies this`fragTotal, this`fragOffset
      ensures fragTotal == 0 && fragOffset == 0
    {
      fragTotal, fragOffset := 0, 0;
    }

    /** `outbound_message.data = outbox_item_get_data(...)`: the block itself, not a copy. */
    method PointAt(block: array<byte>)
      modifies this`data, this`start, this`length
      ensures data == block && start == 0 && length == block.Length
      ensures HasOutbound() && Outbound() == block[..]
    {
      data, start, length := block, 0, block.Length;
      assert block[0..block.Length] == block[..];
    }

    method AppendString(s: seq<byte>) returns (r: int)
      modifies this`length, buffer
      ensures old(length) + |s| + 2 > buffer.Length ==>
                r == -1 && length == old(length) && buffer[..] == old(buffer[..])
      ensures old(length) + |s| + 2 <= buffer.Length ==>
                && r == |s| + 2 && length == old(length) + |s| + 2
                && buffer[..length] == old(buffer[..length]) + Str(s)
    {
      if length + |s| + 2 > buffer.Length { return -1; }
      ghost var before := buffer[..length];
      buffer[length] := |s| / 256 % 256;
      length := length + 1;
      buffer[length] := |s| % 256;
      length := length + 1;
      assert buffer[..length] == before + U16(|s|);
      CopyIn(buffer, length, s);
      length := length + |s|;
      assert buffer[..length] == (before + U16(|s|)) + s;
      r := |s| + 2;
    }

    method FreshId() returns (id: nat)
      requires Valid()
      modifies this`lastId
      ensures Valid() && 1 <= id < 65536
      ensures incremental ==> id == lastId == NextId(old(lastId))
      ensures !incremental ==> lastId == old(lastId)
    {
      id := 0;
      if incremental {
        while id == 0
          invariant lastId < 65536 && id < 65536
          invariant id == 0 ==> lastId == old(lastId) || (lastId == 0 && old(lastId) == 65535)
          invariant id != 0 ==> id == lastId == NextId(old(lastId))
          decreases if id == 0 then 65536 - (if lastId == 65535 then -1 else lastId) else 0
        {
          lastId := (lastId + 1) % 65536;
          id := lastId;
        }
      } else {
        // esp_random() % 65535, drawn again while it is zero
        var drawn: nat :| 1 <= drawn < 65535;
        id := drawn;
      }
    }

    /** `append_message_id`: a zero argument asks for a new identifier, and uses one up
        even when the buffer then turns out to be full. */
    method AppendMessageId(given: nat) returns (id: nat)
      requires Valid() && given < 65536
      modifies this`length, this`lastId, buffer
      ensures Valid()
      ensures incremental && given == 0 ==> lastId == NextId(old(lastId))
      ensures !(incremental && given == 0) ==> lastId == old(lastId)
      ensures old(length) + 2 > buffer.Length ==> id == 0 && length == old(length)
      ensures old(length) + 2 <= buffer.Length ==>
                && 1 <= id < 65536 && (given != 0 ==> id == given)
                && (incremental && given == 0 ==> id == lastId)
                && length == old(length) + 2
                && buffer[..length] == old(buffer[..length]) + U16(id)
    {
      id := given;
      if id == 0 { id := FreshId(); }
      if length + 2 > buffer.Length { return 0; }
      buffer[length] := id / 256 % 256;
      length := length + 1;
      buffer[length] := id % 256;
      length := length + 1;
      assert buffer[..length] == old(buffer[..length]) + U16(id);
    }

    method SetMessageHeaderSize()
      modifies this`length
      ensures length == 5
    {
      length := 5;
    }

    method FailMessage()
      modifies this`data, this`start, this`length
      ensures data == buffer && start == 0 && length == 0
    {
      data, start, length := buffer, 0, 0;
    }

    /** What `fini_message` writes into the remaining length field. */
    ghost function Remaining(): int
      reads this
    {
      (if fragTotal != 0 then fragTotal else length) - 5
    }

    /** Right-aligns type, flags and remaining length in the five bytes left free. */
    method FiniMessage(kind: nat, dup: nat, qos: nat, retain: nat)
      requires Valid() && 5 <= length <= buffer.Length && Remaining() < LIMIT
      modifies this`data, this`start, this`length, this`fragOffset, buffer
      ensures data == buffer && HasOutbound()
      ensures Outbound() == Framed(HeaderByte(kind, dup, qos, retain), old(Remaining()), old(buffer[5..length]))
      ensures start == 4 - |Encode(old(Remaining()))| && start + length == old(length)
      ensures fragOffset == old(fragOffset) - start
    {
      var messageLength := length - 5;
      var totalLength := messageLength;
      if fragTotal != 0 { totalLength := fragTotal - 5; }
      EncodeFourBytes(totalLength);
      var lens := new byte[4](_ => 0);
      var lenBytes := GenerateVariableLen(totalLength, lens);
      length := messageLength + lenBytes + 1;
      var offs := 4 - lenBytes;
      data, start := buffer, offs;
      fragOffset := fragOffset - offs;
      PutHeader(offs, HeaderByte(kind, dup, qos, retain), lens[..lenBytes]);
      assert buffer[5..offs + length] == old(buffer[5..length]);
      assert data[start..start + length] == buffer[offs..5] + buffer[5..offs + length];
    }

    /** The type byte at `offs` and the length bytes after it, up to the body at 5. */
    method PutHeader(offs: nat, header: byte, lens: seq<byte>)
      requires offs + 1 + |lens| == 5 <= buffer.Length
      modifies buffer
      ensures buffer[offs..5] == [header] + lens
      ensures forall i :: 5 <= i < buffer.Length ==> buffer[i] == old(buffer[i])
    {
      buffer[offs] := header;
      var j := 0;
      while j < |lens|
        invariant 0 <= j <= |lens|
        invariant buffer[offs] == header
        invariant forall k :: 0 <= k < j ==> buffer[offs + 1 + k] == lens[k]
        invariant forall i :: 5 <= i < buffer.Length ==> buffer[i] == old(buffer[i])
      {
        buffer[offs + 1 + j] := lens[j];
        j := j + 1;
      }
    }

    /** The payload step of `mqtt_msg_publish`: copy it all, or fill the buffer with its front. */
    method AppendPayload(payload: seq<byte>)
      requires 5 <= length <= buffer.Length && length + |payload| < LIMIT + 5
      modifies this`length, this`fragTotal, this`fragOffset, buffer
      ensures var n := if old(length) + |payload| > buffer.Length then buffer.Length - old(length) else |payload|;
        length == old(length) + n && buffer[5..length] == old(buffer[5..length]) + payload[..n]
      ensures if old(length) + |payload| > buffer.Length
              then fragTotal == old(length) + |payload| && fragOffset == old(length)
              else fragTotal == 0 && fragOffset == old(fragOffset)
    {
      ghost var front := buffer[..length];
      ghost var n := if length + |payload| > buffer.Length then buffer.Length - length else |payload|;
      if length + |payload| > buffer.Length {
        fragOffset := length;
        CopyIn(buffer, length, payload[..buffer.Length - length]);
        length := buffer.Length;
        fragTotal := |payload| + fragOffset;
      } else {
        CopyIn(buffer, length, payload);
        length := length + |payload|;
        fragTotal := 0;
      }
      assert buffer[..length] == front + payload[..n];
      DropConcat(front, payload[..n], 5);
    }

    /** Topic and identifier of a PUBLISH, or false where `mqtt_msg_publish` fails. */
    method AppendPublishHead(topic: Option<seq<byte>>, data: Option<seq<byte>>, dataLength: int, qos: nat)
      returns (ok: bool, id: nat)
      requires Valid()
      modifies this`length, this`lastId, buffer
      ensures Valid()
      ensures ok == Publishable(topic, data, dataLength, qos, buffer.Length)
      ensures incremental ==>
                lastId == if DrawsId(topic, data, dataLength, qos, buffer.Length) then NextId(old(lastId))
                          else old(lastId)
      ensures ok ==>
                && length == 5 + |PublishHead(topic.value, qos, id)| <= buffer.Length
                && buffer[5..length] == PublishHead(topic.value, qos, id)
                && (if qos > 0 then 1 <= id < 65536 else id == 0)
                && (incremental && qos > 0 ==> id == lastId)
    {
      id := 0;
      SetMessageHeaderSize();
      if topic.None? || topic.value == [] { return false, 0; }
      var r := AppendString(topic.value);
      if r < 0 { return false, 0; }
      assert buffer[5..length] == buffer[..length][5..] == Str(topic.value);
      if data.None? && dataLength > 0 { return false, 0; }
      if qos > 0 {
        id := AppendMessageId(0);
        if id == 0 { return false, 0; }
        assert buffer[5..length] == buffer[..length][5..] == Str(topic.value) + U16(id);
      }
      ok := true;
    }

    /**
     * `mqtt_msg_publish`. A payload that does not fit is cut at the end of the buffer; what
     * is there is then a prefix of the packet an unbounded buffer would have given, and
     * `fragOffset` is where the payload starts in it. Without payload (`data` NULL) the
     * fragment total of an earlier message is left in place.
     */
    method MsgPublish(topic: Option<seq<byte>>, data: Option<seq<byte>>, dataLength: int, qos: nat, retain: nat)
      returns (id: nat)
      requires Valid() && qos < 4 && retain < 2
      requires data.Some? ==> dataLength == |data.value|
      requires topic.Some? ==> |topic.value| + 4 + (if data.Some? then |data.value| else 0) < LIMIT
      modifies this, buffer
      ensures Valid() && this.data == buffer && HasOutbound()
      ensures incremental ==>
                lastId == if DrawsId(topic, data, dataLength, qos, buffer.Length) then NextId(old(lastId))
                          else old(lastId)
      ensures !Publishable(topic, data, dataLength, qos, buffer.Length) ==> length == 0 && fragTotal == old(fragTotal)
      ensures Publishable(topic, data, dataLength, qos, buffer.Length) ==>
                && (if qos > 0 then 1 <= id < 65536 else id == 0)
                && length > 0
                && (incremental && qos > 0 ==> id == lastId)
                && (data.None? ==>
                    && fragTotal == old(fragTotal)
                    && Outbound() == Framed(HeaderByte(PUBLISH, 0, qos, retain),
                                            if fragTotal == 0 then |PublishHead(topic.value, qos, id)|
                                            else fragTotal - 5,
                                            PublishHead(topic.value, qos, id))
                    && fragOffset == old(fragOffset) - start
                    && start + length == 5 + |PublishHead(topic.value, qos, id)|)
                && (data.Some? ==> BuiltPublish(topic.value, data.value, qos, retain, id, old(fragOffset)))
    {
      var ok;
      ok, id := AppendPublishHead(topic, data, dataLength, qos);
      if !ok {
        FailMessage();
        return;
      }
      if data.Some? {
        FinishPublish(topic.value, data.value, qos, retain, id);
      } else {
        FiniMessage(PUBLISH, 0, qos, retain);
      }
    }

    /** Payload and fixed header behind a topic and identifier already in the buffer. */
    method FinishPublish(ghost topic: seq<byte>, payload: seq<byte>, qos: nat, retain: nat, ghost id: nat)
      requires Valid() && length == 5 + |PublishHead(topic, qos, id)| <= buffer.Length
      requires buffer[5..length] == PublishHead(topic, qos, id)
      requires |topic| + 4 + |payload| < LIMIT
      modifies this`data, this`start, this`length, this`fragTotal, this`fragOffset, buffer
      ensures Valid() && data == buffer && HasOutbound() && length > 0
      ensures BuiltPublish(topic, payload, qos, retain, id, old(fragOffset))
    {
      ghost var head := PublishHead(topic, qos, id);
      AppendPayload(payload);
      ghost var n := length - 5 - |head|;
      EncodeFourBytes(Remaining());
      FiniMessage(PUBLISH, 0, qos, retain);
      WholeOrFront(HeaderByte(PUBLISH, 0, qos, retain), head, payload, n);
    }

    /** The two shapes of a built PUBLISH with payload. */
    ghost predicate BuiltPublish(topic: seq<byte>, payload: seq<byte>, qos: nat, retain: nat, id: nat, oldOffset: int)
      reads this, data
      requires HasOutbound()
    {
      var whole := PublishPacket(topic, payload, qos, retain, id);
      var head := |PublishHead(topic, qos, id)|;
      if 5 + head + |payload| <= buffer.Length then
        && fragTotal == 0 && Outbound() == whole
        && fragOffset == oldOffset - start && start + length == 5 + head + |payload|
      else
        && fragTotal == 5 + head + |payload|
        && fragOffset == |whole| - |payload|
        && fragOffset <= length < |whole|
        && Outbound() == whole[..length]
    }

    /** `mqtt_msg_puback`, `_pubrec`, `_pubrel`, `_pubcomp`: one identifier. An identifier 0
        is replaced by a new one; a fragment total left by an earlier message is believed. */
    method MsgAck(kind: nat, given: nat) returns (id: nat)
      requires Valid() && given < 65536
      modifies this`data, this`start, this`length, this`fragOffset, this`lastId, buffer
      ensures Valid() && data == buffer && HasOutbound()
      ensures incremental ==> lastId == if given == 0 then NextId(old(lastId)) else old(lastId)
      ensures 7 > buffer.Length ==> length == 0
      ensures 7 <= buffer.Length ==>
                && 1 <= id < 65536 && (given != 0 ==> id == given) && length > 0
                && (incremental && given == 0 ==> id == lastId)
                && Outbound() == AckBytes(kind, id, fragTotal)
    {
      SetMessageHeaderSize();
      id := AppendMessageId(given);
      if id == 0 {
        FailMessage();
        return;
      }
      assert buffer[5..length] == buffer[..length][5..] == U16(id);
      FiniMessage(kind, 0, if kind == PUBREL then 1 else 0, 0);
    }

    /** `mqtt_msg_pingreq`, `_pingresp`, `_disconnect`: no body. */
    method MsgEmpty(kind: nat)
      requires Valid() && buffer.Length >= 5
      modifies this`data, this`start, this`length, this`fragOffset, buffer
      ensures Valid() && data == buffer && HasOutbound() && length > 0
      ensures Outbound() == Framed(HeaderByte(kind, 0, 0, 0), if fragTotal == 0 then 0 else fragTotal - 5, [])
    {
      SetMessageHeaderSize();
      FiniMessage(kind, 0, 0, 0);
      assert old(buffer[5..5]) == [];
    }

    /** One topic filter with its requested QoS byte; false where `mqtt_msg_subscribe` fails. */
    method AppendFilter(filter: seq<byte>, qos: byte) returns (ok: bool)
      requires 5 <= length <= buffer.Length
      modifies this`length, buffer
      ensures 5 <= length <= buffer.Length
      ensures ok <==> filter != [] && old(length) + |filter| + 3 <= buffer.Length
      ensures ok ==> buffer[5..length] == old(buffer[5..length]) + Str(filter) + [qos]
    {
      if filter == [] { return false; }
      ghost var before := buffer[..length];
      var r := AppendString(filter);
      if r < 0 { return false; }
      if length + 1 > buffer.Length { return false; }
      buffer[length] := qos;
      length := length + 1;
      assert buffer[..length] == before + Str(filter) + [qos];
      assert buffer[5..length] == before[5..] + Str(filter) + [qos];
      ok := true;
    }

    /** The loop of `mqtt_msg_subscribe` over its topic list. */
    method AppendFilters(topics: seq<(seq<byte>, byte)>) returns (ok: bool)
      requires 5 <= length <= buffer.Length
      modifies this`length, buffer
      ensures ok <==>
                && (forall k :: 0 <= k < |topics| ==> topics[k].0 != [])
                && old(length) + |Filters(topics)| <= buffer.Length
      ensures ok ==> 5 <= length <= buffer.Length && buffer[5..length] == old(buffer[5..length]) + Filters(topics)
    {
      assert topics[..0] == [];
      ghost var front := buffer[5..length];
      var number := 0;
      while number < |topics|
        invariant 0 <= number <= |topics|
        invariant 5 <= length <= buffer.Length
        invariant buffer[5..length] == front + Filters(topics[..number])
        invariant forall k :: 0 <= k < number ==> topics[k].0 != []
      {
        ghost var before := buffer[5..length];
        ok := AppendFilter(topics[number].0, topics[number].1);
        assert topics[..number + 1][..number] == topics[..number];
        if !ok {
          FiltersGrow(topics, number + 1);
          return;
        }
        assert before + Str(topics[number].0) + [topics[number].1] == front + Filters(topics[..number + 1]);
        number := number + 1;
      }
      assert topics[..number] == topics;
      ok := true;
    }

    /** `mqtt_msg_subscribe`. */
    method MsgSubscribe(topics: seq<(seq<byte>, byte)>) returns (id: nat)
      requires Valid() && buffer.Length < LIMIT
      modifies this`data, this`start, this`length, this`fragOffset, this`lastId, buffer
      ensures Valid() && data == buffer && HasOutbound()
      ensures incremental ==> lastId == NextId(old(lastId))
      ensures length > 0 <==> Subscribable(topics, buffer.Length)
      ensures length > 0 ==>
                && 1 <= id < 65536 && (incremental ==> id == lastId)
                && Outbound() == Framed(HeaderByte(SUBSCRIBE, 0, 1, 0),
                                        if fragTotal == 0 then 2 + |Filters(topics)| else fragTotal - 5,
                                        U16(id) + Filters(topics))
    {
      SetMessageHeaderSize();
      id := AppendMessageId(0);
      if id == 0 {
        FailMessage();
        return;
      }
      assert buffer[5..length] == buffer[..length][5..] == U16(id);
      var ok := AppendFilters(topics);
      if !ok {
        FailMessage();
        return;
      }
      FiniMessage(SUBSCRIBE, 0, 1, 0);
    }

    /** `mqtt_msg_unsubscribe`. */
    method MsgUnsubscribe(topic: Option<seq<byte>>) returns (id: nat)
      requires Valid() && buffer.Length < LIMIT
      modifies this`data, this`start, this`length, this`fragOffset, this`lastId, buffer
      ensures Valid() && data == buffer && HasOutbound()
      ensures incremental ==> lastId == if Given(topic) then NextId(old(lastId)) else old(lastId)
      ensures length > 0 <==> Given(topic) && 9 + |topic.value| <= buffer.Length
      ensures length > 0 ==>
                && 1 <= id < 65536 && (incremental ==> id == lastId)
                && Outbound() == Framed(HeaderByte(UNSUBSCRIBE, 0, 1, 0),
                                        if fragTotal == 0 then 4 + |topic.value| else fragTotal - 5,
                                        U16(id) + Str(topic.value))
    {
      id := 0;
      SetMessageHeaderSize();
      if topic.None? || topic.value == [] {
        FailMessage();
        return;
      }
      id := AppendMessageId(0);
      if id == 0 {
        FailMessage();
        return;
      }
      ghost var before := buffer[..length];
      var r := AppendString(topic.value);
      if r < 0 {
        FailMessage();
        return;
      }
      assert buffer[5..length] == (before + Str(topic.value))[5..] == U16(id) + Str(topic.value);
      FiniMessage(UNSUBSCRIBE, 0, 1, 0);
    }

    // ----- CONNECT -----

    /** What `mqtt_msg_connect` has written: protocol, the flags so far, keep-alive, fields. */
    ghost predicate Begun(version31: bool, flags: byte, keepalive: nat, fields: seq<byte>)
      reads this, buffer
    {
      && 0 <= flags < 256
      && 5 <= length <= buffer.Length
      && buffer[5..length] == Protocol(version31) + [flags] + U16(keepalive) + fields
    }

    /** The 10 or 12 byte variable header with flags 0, then clean session. */
    method BeginConnect(info: ConnectInfo) returns (ok: bool)
      modifies this`length, buffer
      ensures ok <==> 5 + |Protocol(info.version31)| + 3 <= buffer.Length
      ensures ok ==> length == 5 + |Protocol(info.version31)| + 3
      ensures ok ==> Begun(info.version31, if info.cleanSession then 2 else 0, info.keepalive, [])
    {
      SetMessageHeaderSize();
      var headerLen := if info.version31 then 12 else 10;
      if length + headerLen > buffer.Length { return false; }
      var at := length;
      length := length + headerLen;
      CopyIn(buffer, at, Protocol(info.version31) + [0] + U16(info.keepalive));
      assert buffer[5..length] == Protocol(info.version31) + [0] + U16(info.keepalive);
      if info.cleanSession {
        buffer[5 + |Protocol(info.version31)|] := 2;
        assert buffer[5..length] == Protocol(info.version31) + [2] + U16(info.keepalive);
      }
      ok := true;
    }

    /** A string field. */
    method AddField(s: seq<byte>, ghost version31: bool, ghost flags: byte, ghost keepalive: nat,
                    ghost fields: seq<byte>)
      returns (ok: bool)
      requires Begun(version31, flags, keepalive, fields)
      modifies this`length, buffer
      ensures ok <==> old(length) + |s| + 2 <= buffer.Length
      ensures ok ==> length == old(length) + |s| + 2 && Begun(version31, flags, keepalive, fields + Str(s))
    {
      ghost var before := buffer[..length];
      var r := AppendString(s);
      ok := r >= 0;
      if ok {
        assert buffer[5..length] == before[5..] + Str(s);
        assert before[5..] + Str(s) == Protocol(version31) + [flags] + U16(keepalive) + (fields + Str(s));
      }
    }

    /** `variable_header[flags_offset] |= bits`, for bits not yet set. */
    method AddFlags(version31: bool, bits: nat, ghost flags: byte, ghost keepalive: nat, ghost fields: seq<byte>)
      requires Begun(version31, flags, keepalive, fields) && flags + bits < 256
      modifies buffer
      ensures Begun(version31, flags + bits, keepalive, fields)
    {
      var at := 5 + |Protocol(version31)|;
      assert buffer[5..length][|Protocol(version31)|] == flags == buffer[at];
      ghost var before := buffer[5..length];
      buffer[at] := buffer[at] + bits;
      assert buffer[5..length] == before[|Protocol(version31)| := (flags + bits) as byte];
    }

    /** The will bits of the flags byte. */
    method AddWillFlags(info: ConnectInfo, ghost flags: byte, ghost fields: seq<byte>)
      requires Begun(info.version31, flags, info.keepalive, fields)
      requires Given(info.willTopic) && flags + WillFlags(info) < 256
      modifies buffer
      ensures Begun(info.version31, flags + WillFlags(info), info.keepalive, fields)
    {
      ghost var f: byte := flags + 4;
      AddFlags(info.version31, 4, flags, info.keepalive, fields);
      if info.willRetain {
        AddFlags(info.version31, 32, f, info.keepalive, fields);
        f := f + 32;
      }
      AddFlags(info.version31, info.willQos % 4 * 8, f, info.keepalive, fields);
    }

    /** Will topic, will message and the will bits. */
    method AddWill(info: ConnectInfo, ghost flags: byte, ghost fields: seq<byte>) returns (ok: bool)
      requires Begun(info.version31, flags, info.keepalive, fields) && flags + WillFlags(info) < 256
      modifies this`length, buffer
      ensures ok <==> old(length) + |WillFields(info)| <= buffer.Length
      ensures ok ==>
                && length == old(length) + |WillFields(info)|
                && Begun(info.version31, flags + WillFlags(info), info.keepalive, fields + WillFields(info))
    {
      ok := true;
      if info.willTopic.None? || info.willTopic.value == [] {
        assert fields + [] == fields;
        return;
      }
      ok := AddField(info.willTopic.value, info.version31, flags, info.keepalive, fields);
      if !ok { return; }
      ok := AddField(info.willMessage, info.version31, flags, info.keepalive, fields + Str(info.willTopic.value));
      if !ok { return; }
      Assoc(fields, Str(info.willTopic.value), Str(info.willMessage));
      AddWillFlags(info, flags, fields + WillFields(info));
    }

    /** A user name, or the empty one a lone password needs, with its flag. */
    method AddFlagged(s: seq<byte>, bit: nat, version31: bool, ghost flags: byte, ghost keepalive: nat,
                      ghost fields: seq<byte>)
      returns (ok: bool)
      requires Begun(version31, flags, keepalive, fields) && flags + bit < 256
      modifies this`length, buffer
      ensures ok <==> old(length) + |s| + 2 <= buffer.Length
      ensures ok ==> length == old(length) + |s| + 2 && Begun(version31, flags + bit, keepalive, fields + Str(s))
    {
      ok := AddField(s, version31, flags, keepalive, fields);
      if ok { AddFlags(version31, bit, flags, keepalive, fields + Str(s)); }
    }

    /** User name and password; a password alone brings an empty user name with it. */
    method AddUser(info: ConnectInfo, ghost flags: byte, ghost fields: seq<byte>) returns (ok: bool)
      requires Begun(info.version31, flags, info.keepalive, fields) && flags < 64
      modifies this`length, buffer
      ensures ok <==> old(length) + |UserFields(info)| <= buffer.Length
      ensures ok ==>
                && Begun(info.version31,
                         flags + (if SendsUsername(info) then 128 else 0) + (if Given(info.password) then 64 else 0),
                         info.keepalive, fields + UserFields(info))
    {
      ok := true;
      var named := info.username.Some? && info.username.value != [];
      var secret := info.password.Some? && info.password.value != [];
      if named || secret {
        ok := AddFlagged(if named then info.username.value else [], 128, info.version31, flags, info.keepalive, fields);
        if !ok { return; }
      }
      if secret {
        ok := AddFlagged(info.password.value, 64, info.version31, flags + 128, info.keepalive,
                         fields + Str(Content(info.username)));
        Assoc(fields, Str(Content(info.username)), Str(info.password.value));
      } else {
        assert fields + Str(Content(info.username)) + [] == fields + Str(Content(info.username));
        assert fields + [] == fields;
        assert UserFields(info) == if named then Str(Content(info.username)) else [];
      }
    }

    /** The client identifier, always there. */
    method AddClientId(info: ConnectInfo, ghost flags: byte) returns (ok: bool)
      requires Begun(info.version31, flags, info.keepalive, [])
      modifies this`length, buffer
      ensures ok <==> old(length) + |Str(Content(info.clientId))| <= buffer.Length
      ensures ok ==>
                && length == old(length) + |Str(Content(info.clientId))|
                && Begun(info.version31, flags, info.keepalive, Str(Content(info.clientId)))
    {
      var clientId := if info.clientId.Some? && info.clientId.value != [] then info.clientId.value else [];
      assert [] + Str(clientId) == Str(Content(info.clientId));
      ok := AddField(clientId, info.version31, flags, info.keepalive, []);
    }

    /** The payload of CONNECT. */
    method AddConnectFields(info: ConnectInfo) returns (ok: bool)
      requires Begun(info.version31, if info.cleanSession then 2 else 0, info.keepalive, [])
      modifies this`length, buffer
      ensures ok <==> old(length) + |ConnectFields(info)| <= buffer.Length
      ensures ok ==> Begun(info.version31, Flags(info), info.keepalive, ConnectFields(info))
    {
      ghost var clean, will := FlagsSum(info);
      ghost var first := Str(Content(info.clientId));
      ok := AddClientId(info, clean);
      if !ok { return; }
      ok := AddWill(info, clean, first);
      if !ok { return; }
      ok := AddUser(info, will, first + WillFields(info));
    }

    /** `mqtt_msg_connect`. */
    method MsgConnect(info: ConnectInfo)
      requires Valid() && buffer.Length < LIMIT
      modifies this`data, this`start, this`length, this`fragOffset, buffer
      ensures Valid() && data == buffer && HasOutbound()
      ensures length > 0 <==> 5 + |ConnectBody(info)| <= buffer.Length
      ensures length > 0 ==>
                Outbound() == Framed(HeaderByte(CONNECT, 0, 0, 0),
                                     if fragTotal == 0 then |ConnectBody(info)| else fragTotal - 5, ConnectBody(info))
    {
      var ok := BeginConnect(info);
      if ok { ok := AddConnectFields(info); }
      if !ok {
        FailMessage();
        return;
      }
      FiniMessage(CONNECT, 0, 0, 0);
    }
  }

  /** The buffer's part of a packet is a prefix of it. */
  lemma WholeOrFront(header: byte, head: seq<byte>, payload: seq<byte>, n: nat)
    requires n <= |payload|
    ensures var f := Framed(header, |head| + |payload|, head + payload[..n]);
      var whole := Whole(header, head + payload);
      |f| == |whole| - |payload| + n && f == whole[..|f|] && (n == |payload| ==> f == whole)
  {
    var f := Framed(header, |head| + |payload|, head + payload[..n]);
    var whole := Whole(header, head + payload);
    var start := [header] + Encode(|head| + |payload|) + head;
    Assoc([header] + Encode(|head| + |payload|), head, payload[..n]);
    Assoc([header] + Encode(|head| + |payload|), head, payload);
    TakeConcat(start, payload, |f|);
    assert n == |payload| ==> payload[..n] == payload;
  }

  /** `mqtt_msg_subscribe` succeeds. */
  ghost predicate Subscribable(topics: seq<(seq<byte>, byte)>, room: nat) {
    && 7 <= room
    && (forall k :: 0 <= k < |topics| ==> topics[k].0 != [])
    && 7 + |Filters(topics)| <= room
  }

  lemma {:induction false} FiltersGrow(topics: seq<(seq<byte>, byte)>, n: nat)
    requires n <= |topics|
    ensures |Filters(topics[..n])| <= |Filters(topics)|
    decreases |topics| - n
  {
    if n < |topics| {
      assert topics[..n + 1][..n] == topics[..n];
      FiltersGrow(topics, n + 1);
    } else {
      assert topics[..n] == topics;
    }
  }
}
