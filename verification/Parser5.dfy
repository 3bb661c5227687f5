/**
 * The MQTT 5.0 PUBLISH parser of components/mqtt/lib/mqtt5_msg.c, which walks over the
 * property section with a moving offset.
 */
module Parser5 {
  import opened Bytes
  import opened VarInt
  import opened Packet
  import opened Properties

  /** `get_variable_len`. */
  method GetVariableLen(buffer: array<byte>, offset: nat, length: nat) returns (len: nat, lenBytes: nat)
    requires offset <= length <= buffer.Length
    ensures (len, lenBytes) == VarLen(buffer[offset..length])
  {
    var ended;
    len, lenBytes, ended := ReadVariable(buffer, offset, length, 4);
    if lenBytes == 4 && !ended { len, lenBytes := 0, 0; }
  }

  /** A string that is checked against the section and against the cap. */
  method ReadCapped(buffer: array<byte>, length: nat, at: nat, n: nat, off: nat) returns (p: Parse<(seq<byte>, nat)>)
    requires length <= buffer.Length && at + n <= length
    ensures p == Capped(buffer[..length], at, n, off)
  {
    if !HasBytes(off, 2, n) { return Rejected; }
    var len := FromU16(buffer[at + off], buffer[at + off + 1]);
    if len > MAX_STRING || !HasBytes(off + 2, len, n) { return Rejected; }
    p := Done((buffer[at + off + 2..at + off + 2 + len], off + 2 + len));
    assert buffer[at + off + 2..at + off + 2 + len] == buffer[..length][at + off + 2..at + off + 2 + len];
  }

  /** A field whose length is taken on trust. */
  method ReadTrusted(buffer: array<byte>, length: nat, at: nat, off: nat) returns (p: Parse<(seq<byte>, nat)>)
    requires length <= buffer.Length
    ensures p == Trusted(buffer[..length], at, off)
  {
    if at + off + 2 > length { return Overrun; }
    var len := FromU16(buffer[at + off], buffer[at + off + 1]);
    if off + 2 + len >= 65536 || at + off + 2 + len > length { return Overrun; }
    p := Done((buffer[at + off + 2..at + off + 2 + len], off + 2 + len));
    assert buffer[at + off + 2..at + off + 2 + len] == buffer[..length][at + off + 2..at + off + 2 + len];
  }

  /** The fixed-width properties. */
  method ReadScalar(buffer: array<byte>, length: nat, at: nat, n: nat, id: byte, off: nat, r: Received)
    returns (p: Parse<Cursor>)
    requires length <= buffer.Length && at + n <= length && off <= n < 65536
    requires id == FORMAT_INDICATOR || id == EXPIRY_INTERVAL || id == TOPIC_ALIAS || id == SUBSCRIBE_IDENTIFIER
    ensures p == Property(buffer[..length], at, n, id, off, r)
  {
    if id == FORMAT_INDICATOR {
      if !HasBytes(off, 1, n) { return Rejected; }
      p := Done(Cursor(off + 1, r.(formatIndicator := buffer[at + off] != 0)));
    } else if id == EXPIRY_INTERVAL {
      if !HasBytes(off, 4, n) { return Rejected; }
      var value := FromU32(buffer[at + off], buffer[at + off + 1], buffer[at + off + 2], buffer[at + off + 3]);
      p := Done(Cursor(off + 4, r.(expiry := value)));
    } else if id == TOPIC_ALIAS {
      if !HasBytes(off, 2, n) { return Rejected; }
      p := Done(Cursor(off + 2, r.(alias := FromU16(buffer[at + off], buffer[at + off + 1]))));
    } else {
      var value, used := GetVariableLen(buffer, at + off, at + n);
      assert buffer[at + off..at + n] == buffer[..length][at + off..at + n];
      p := Done(Cursor(off + used, r.(subscribeId := value % 65536)));
    }
  }

  /** Key and value of a user property. */
  method ReadUserProperty(buffer: array<byte>, length: nat, at: nat, n: nat, off: nat, r: Received)
    returns (p: Parse<Cursor>)
    requires length <= buffer.Length && at + n <= length && off <= n < 65536
    ensures p == UserProperty(buffer[..length], at, n, off, r)
  {
    var key := ReadCapped(buffer, length, at, n, off);
    if !key.Done? { return if key.Rejected? then Rejected else Overrun; }
    var value := ReadCapped(buffer, length, at, n, key.value.1);
    if !value.Done? { return if value.Rejected? then Rejected else Overrun; }
    p := Done(Cursor(value.value.1, r.(users := r.users + [(key.value.0, value.value.0)])));
  }

  /** The switch in the property loop. */
  method ReadProperty(buffer: array<byte>, length: nat, at: nat, n: nat, id: byte, off: nat, r: Received)
    returns (p: Parse<Cursor>)
    requires length <= buffer.Length && at + n <= length && off <= n < 65536
    ensures p == Property(buffer[..length], at, n, id, off, r)
  {
    if id == FORMAT_INDICATOR || id == EXPIRY_INTERVAL || id == TOPIC_ALIAS || id == SUBSCRIBE_IDENTIFIER {
      p := ReadScalar(buffer, length, at, n, id, off, r);
    } else if id == RESPONSE_TOPIC || id == REASON_STRING {
      var f := ReadCapped(buffer, length, at, n, off);
      if !f.Done? { return if f.Rejected? then Rejected else Overrun; }
      p := Done(Cursor(f.value.1, if id == RESPONSE_TOPIC then r.(responseTopic := Some(f.value.0)) else r));
    } else if id == CORRELATION_DATA || id == CONTENT_TYPE {
      var f := ReadTrusted(buffer, length, at, off);
      if !f.Done? { return if f.Rejected? then Rejected else Overrun; }
      var now := if id == CORRELATION_DATA then r.(correlation := Some(f.value.0))
                 else r.(contentType := Some(f.value.0));
      p := Done(Cursor(f.value.1, now));
    } else if id == USER_PROPERTY {
      p := ReadUserProperty(buffer, length, at, n, off, r);
    } else {
      p := Rejected;
    }
  }

  /** The property loop. */
  method WalkProperties(buffer: array<byte>, length: nat, at: nat, n: nat) returns (q: Parse<Cursor>)
    requires length <= buffer.Length && at + n <= length && n < 65536
    ensures q == Walk(buffer[..length], at, n, 0, NOTHING)
  {
    ghost var m := buffer[..length];
    var off, r := 0, NOTHING;
    while off < n
      invariant 0 <= off < 65536
      invariant Walk(m, at, n, off, r) == Walk(m, at, n, 0, NOTHING)
      decreases if off < n then n - off else 0
    {
      var id := buffer[at + off];
      var p := ReadProperty(buffer, length, at, n, id, off + 1, r);
      match p {
        case Rejected => return Rejected;
        case Overrun => return Overrun;
        case Done(c) => off, r := c.off, c.r;
      }
    }
    q := Done(Cursor(off, r));
  }

  /** `mqtt5_get_publish_property_payload`. */
  method GetPublishPropertyPayload(buffer: array<byte>, length: nat) returns (p: Parse<Publish5>)
    requires length <= buffer.Length
    ensures p == Decode5(buffer[..length])
  {
    var o := OpenMessage(buffer, length);
    match o {
      case Rejected => return Rejected;
      case Overrun => return Overrun;
      case Done(o) =>
        DecodeOpening(buffer[..length], o);
        var q := WalkProperties(buffer, length, o.at, o.n);
        if !q.Done? { return if q.Rejected? then Rejected else Overrun; }
        var start := o.at + q.value.off;
        var end := if o.total <= length then o.total else length;
        if start > end { return Overrun; }
        p := Done(Publish5(o.topic, q.value.r, buffer[start..end]));
        assert buffer[start..end] == buffer[..length][start..end];
    }
  }

  /** Up to the property section. */
  method OpenMessage(buffer: array<byte>, length: nat) returns (p: Parse<Opening>)
    requires length <= buffer.Length
    ensures p == Open(buffer[..length])
  {
    if length < 1 {
      assert buffer[..length] == [];
      return Overrun;
    }
    p := OpenNonEmpty(buffer, length);
  }

  method OpenNonEmpty(buffer: array<byte>, length: nat) returns (p: Parse<Opening>)
    requires 1 <= length <= buffer.Length
    ensures p == Open(buffer[..length])
  {
    var value, used := RemainingLength(buffer, length);
    p := OpenAtLength(buffer, length, value, used);
  }

  method OpenAtLength(buffer: array<byte>, length: nat, value: nat, used: nat) returns (p: Parse<Opening>)
    requires 1 <= length <= buffer.Length
    ensures p == OpenBehind(buffer[..length], (value, used))
  {
    p := OpenAtTopic(buffer, length, 1 + used + value, 1 + used);
  }

  method RemainingLength(buffer: array<byte>, length: nat) returns (value: nat, used: nat)
    requires 1 <= length <= buffer.Length
    ensures (value, used) == VarLen(buffer[..length][1..])
  {
    value, used := GetVariableLen(buffer, 1, length);
    assert buffer[1..length] == buffer[..length][1..];
  }

  method OpenAtTopic(buffer: array<byte>, length: nat, total: nat, offset: nat) returns (p: Parse<Opening>)
    requires 1 <= length <= buffer.Length
    ensures p == OpenTopic(buffer[..length], total, offset)
  {
    if offset + 2 > length { return Overrun; }
    var behind := offset + 2 + FromU16(buffer[offset], buffer[offset + 1]);
    if behind >= length { return Rejected; }
    assert buffer[offset + 2..behind] == buffer[..length][offset + 2..behind];
    var topic := buffer[offset + 2..behind];
    if QosOf(buffer[0]) > 0 {
      if behind + 2 >= length { return Rejected; }
      behind := behind + 2;
    }
    p := OpenProperties(buffer, length, total, topic, behind);
  }

  /** The length of the property section, cut to 16 bits. */
  method OpenProperties(buffer: array<byte>, length: nat, total: nat, topic: seq<byte>, offset: nat)
    returns (p: Parse<Opening>)
    requires offset < length <= buffer.Length
    ensures p == OpenSection(buffer[..length], total, topic, offset)
  {
    assert buffer[offset..length] == buffer[..length][offset..];
    var n, nUsed := GetVariableLen(buffer, offset, length);
    var at := offset + nUsed;
    if at + n % 65536 > length { return Overrun; }
    p := Done(Opening(total, topic, at, n % 65536));
  }
}
