/**
 * The MQTT 5.0 PUBLISH builder of components/mqtt/lib/mqtt5_msg.c. Its functions work on the
 * same connection as the 3.1.1 builders; the property section is written behind one byte
 * that is left for its length, and moved up in place if the length needs more.
 */
module Builder5 {
  import opened Bytes
  import opened VarInt
  import opened Packet
  import opened Connections
  import opened Properties

  // ----- growing the length field -----

  /**
   * `update_property_len_value`: the section of `propertyLen` bytes is behind the byte at
   * `propertyOffset`. The shift starts at the end, so that no byte is overwritten before it
   * has been moved.
   */
  method UpdatePropertyLenValue(conn: Connection, propertyLen: nat, propertyOffset: nat) returns (r: int)
    requires propertyLen < LIMIT && conn.length == propertyOffset + 1 + propertyLen
    requires propertyLen > 0 ==> conn.length <= conn.buffer.Length
    modifies conn`length, conn.buffer
    ensures conn.length == propertyOffset + |Encode(propertyLen)| + propertyLen
    ensures conn.length > conn.buffer.Length ==> r == -1 && conn.buffer[..] == old(conn.buffer[..])
    ensures conn.length <= conn.buffer.Length ==>
              && r == |Encode(propertyLen)| - 1
              && conn.buffer[..conn.length] ==
                 old(conn.buffer[..propertyOffset]) + Encode(propertyLen)
                   + old(conn.buffer[propertyOffset + 1..conn.length])
  {
    EncodeFourBytes(propertyLen);
    var lens := new byte[4](_ => 0);
    var lenBytes := GenerateVariableLen(propertyLen, lens);
    var offset := lenBytes - 1;
    conn.length := conn.length + offset;
    if conn.length > conn.buffer.Length { return -1; }
    Grow(conn.buffer, propertyOffset, propertyLen, lens[..lenBytes]);
    r := offset;
  }

  /** The part of `update_property_len_value` that writes. */
  method Grow(buffer: array<byte>, at: nat, n: nat, lens: seq<byte>)
    requires lens != [] && at + |lens| + n <= buffer.Length
    modifies buffer
    ensures buffer[..at + |lens| + n] == old(buffer[..at]) + lens + old(buffer[at + 1..at + 1 + n])
  {
    ghost var was := buffer[..];
    if |lens| > 1 { ShiftUp(buffer, at + 1, n, |lens| - 1); }
    ghost var shifted := buffer[..];
    PutLength(buffer, at, lens);
    Grown(was, shifted, buffer[..], at, n, lens);
  }

  /** The buffer before the shift, after it, and after the length has been written. */
  lemma Grown(was: seq<byte>, shifted: seq<byte>, now: seq<byte>, at: nat, n: nat, lens: seq<byte>)
    requires |was| == |shifted| == |now| && lens != [] && at + |lens| + n <= |now|
    requires shifted[..at + 1] == was[..at + 1]
    requires shifted[at + |lens|..at + |lens| + n] == was[at + 1..at + 1 + n]
    requires now[..at] == shifted[..at] && now[at..at + |lens|] == lens
    requires now[at + |lens|..] == shifted[at + |lens|..]
    ensures now[..at + |lens| + n] == was[..at] + lens + was[at + 1..at + 1 + n]
  {
    var b := at + |lens|;
    SliceOfSlice(now, b, |now|, 0, n);
    SliceOfSlice(shifted, b, |now|, 0, n);
    SliceOfSlice(was, 0, at + 1, 0, at);
    SliceOfSlice(shifted, 0, at + 1, 0, at);
    Joined(now, at, b, b + n);
  }

  lemma Joined(s: seq<byte>, a: nat, b: nat, c: nat)
    requires a <= b <= c <= |s|
    ensures s[..c] == s[..a] + s[a..b] + s[b..c]
  {
  }

  /** The shifting loop: `n` bytes from `from` go `up` places up, last byte first. */
  method ShiftUp(buffer: array<byte>, from: nat, n: nat, up: nat)
    requires from + n + up <= buffer.Length && from >= 1 && up >= 1
    modifies buffer
    ensures buffer[from + up..from + up + n] == old(buffer[from..from + n])
    ensures buffer[..from] == old(buffer[..from]) && buffer[from + up + n..] == old(buffer[from + up + n..])
  {
    ghost var was := buffer[..];
    var at := from - 1 + n;
    for i := 0 to n
      invariant at == from - 1 + n - i
      invariant forall k :: at < k < from + n ==> buffer[k + up] == was[k]
      invariant forall k :: 0 <= k <= at || from + up + n <= k < buffer.Length ==> buffer[k] == was[k]
    {
      buffer[at + up] := buffer[at];
      at := at - 1;
    }
    Shifted(buffer[..], was, from, n, up);
  }

  lemma Shifted(now: seq<byte>, was: seq<byte>, from: nat, n: nat, up: nat)
    requires |now| == |was| && from + n + up <= |was|
    requires forall k :: from <= k < from + n ==> now[k + up] == was[k]
    requires forall k :: 0 <= k < from || from + up + n <= k < |was| ==> now[k] == was[k]
    ensures now[from + up..from + up + n] == was[from..from + n]
    ensures now[..from] == was[..from] && now[from + up + n..] == was[from + up + n..]
  {
    var x, y := now[from + up..from + up + n], was[from..from + n];
    forall k | 0 <= k < n ensures x[k] == y[k] {
      assert now[(from + k) + up] == was[from + k];
    }
  }

  /** The length bytes, over the placeholder and the space that was made. */
  method PutLength(buffer: array<byte>, at: nat, lens: seq<byte>)
    requires at + |lens| <= buffer.Length
    modifies buffer
    ensures buffer[at..at + |lens|] == lens
    ensures buffer[..at] == old(buffer[..at]) && buffer[at + |lens|..] == old(buffer[at + |lens|..])
  {
    for i := 0 to |lens|
      invariant forall k :: 0 <= k < i ==> buffer[at + k] == lens[k]
      invariant forall k :: 0 <= k < at || at + |lens| <= k < buffer.Length ==> buffer[k] == old(buffer[k])
    {
      buffer[at + i] := lens[i];
    }
  }

  // ----- appending -----

  /** What one call of `append_property` adds. */
  function Piece(kind: byte, occupy: nat, data: Option<seq<byte>>, dataLen: nat): (s: seq<byte>)
    ensures |s| == (if kind != 0 then 1 else 0) + occupy + |Content(data)|
  {
    (if kind != 0 then [kind] else []) + Field(dataLen, occupy) + Content(data)
  }

  /** `append_property`, for a length or value field of fixed width. */
  method AppendProperty(conn: Connection, kind: byte, occupy: nat, data: Option<seq<byte>>, dataLen: nat)
    returns (r: int)
    requires occupy >= 1 && (data.Some? ==> dataLen == |data.value|)
    modifies conn`length, conn.buffer
    ensures var s := Piece(kind, occupy, data, dataLen);
      if old(conn.length) + |s| > conn.buffer.Length then
        r == -1 && conn.length == old(conn.length) && conn.buffer[..] == old(conn.buffer[..])
      else
        && r == |s| && conn.length == old(conn.length) + |s|
        && conn.buffer[..conn.length] == old(conn.buffer[..conn.length]) + s
  {
    var need := conn.length + occupy + |Content(data)| + if kind != 0 then 1 else 0;
    if need > conn.buffer.Length { return -1; }
    ghost var before := conn.buffer[..conn.length];
    var origin := conn.length;
    if kind != 0 {
      conn.buffer[conn.length] := kind;
      conn.length := conn.length + 1;
    }
    ghost var front := before + if kind != 0 then [kind] else [];
    assert conn.buffer[..conn.length] == front;
    AppendField(conn, dataLen, occupy);
    if data.Some? {
      CopyIn(conn.buffer, conn.length, data.value);
      conn.length := conn.length + |data.value|;
    }
    assert conn.buffer[..conn.length] == front + Field(dataLen, occupy) + Content(data);
    AssocPiece(before, if kind != 0 then [kind] else [], Field(dataLen, occupy), Content(data));
    r := conn.length - origin;
  }

  lemma AssocPiece(a: seq<byte>, b: seq<byte>, c: seq<byte>, d: seq<byte>)
    ensures a + b + c + d == a + (b + c + d)
  {
  }

  /** The loop over the bytes of a fixed-width field, most significant first. */
  method AppendField(conn: Connection, value: nat, occupy: nat)
    requires conn.length + occupy <= conn.buffer.Length
    modifies conn`length, conn.buffer
    ensures conn.length == old(conn.length) + occupy
    ensures conn.buffer[..conn.length] == old(conn.buffer[..conn.length]) + Field(value, occupy)
    ensures conn.buffer[conn.length..] == old(conn.buffer[conn.length + occupy..])
  {
    ghost var before := conn.buffer[..conn.length];
    for i := 0 to occupy
      invariant conn.length == old(conn.length) + i
      invariant conn.buffer[..conn.length] + Field(value, occupy - i) == before + Field(value, occupy)
      invariant forall k :: old(conn.length) + occupy <= k < conn.buffer.Length ==>
                conn.buffer[k] == old(conn.buffer[k])
    {
      ghost var b := value / Pow256(occupy - i - 1) % 256;
      ghost var sofar := conn.buffer[..conn.length];
      conn.buffer[conn.length] := value / Pow256(occupy - i - 1) % 256;
      conn.length := conn.length + 1;
      assert conn.buffer[..conn.length] == sofar + [b];
      Assoc(sofar, [b], Field(value, occupy - i - 1));
    }
    assert conn.buffer[..conn.length] + [] == conn.buffer[..conn.length];
  }

  // ----- the section -----

  /** The variable header `front` is in the buffer from 5 to `off`, one byte is left free at
      `off`, and the properties written so far are behind it. */
  ghost predicate Sectioned(conn: Connection, off: nat, front: seq<byte>, section: seq<byte>)
    reads conn, conn.buffer
  {
    && conn.length == off + 1 + |section| && 5 <= off <= conn.buffer.Length
    && conn.buffer[5..off] == front
    && (section != [] ==> conn.length <= conn.buffer.Length)
    && (conn.length <= conn.buffer.Length ==> conn.buffer[off + 1..conn.length] == section)
  }

  /** One more piece; false where the builder fails. */
  method AddPiece(conn: Connection, kind: byte, occupy: nat, data: Option<seq<byte>>, dataLen: nat,
                  ghost off: nat, ghost front: seq<byte>, ghost section: seq<byte>) returns (ok: bool)
    requires Sectioned(conn, off, front, section) && occupy >= 1 && (data.Some? ==> dataLen == |data.value|)
    modifies conn`length, conn.buffer
    ensures var x := Piece(kind, occupy, data, dataLen);
      && (ok <==> off + 1 + |section + x| <= conn.buffer.Length)
      && (ok ==> Sectioned(conn, off, front, section + x))
  {
    ghost var was := conn.length;
    var r := AppendProperty(conn, kind, occupy, data, dataLen);
    ok := r != -1;
    if ok { SectionGrows(conn, old(conn.buffer[..]), was, off, front, section, Piece(kind, occupy, data, dataLen)); }
  }

  /** What has been appended to the buffer has been appended to the section. */
  lemma SectionGrows(conn: Connection, before: seq<byte>, was: nat, off: nat, front: seq<byte>, section: seq<byte>,
                     x: seq<byte>)
    requires was == off + 1 + |section| && was + |x| == conn.length <= conn.buffer.Length == |before| && 5 <= off
    requires x != [] && before[5..off] == front && before[off + 1..was] == section
    requires conn.buffer[..conn.length] == before[..was] + x
    ensures Sectioned(conn, off, front, section + x)
  {
    Appended(conn.buffer[..conn.length], before[..was], off, front, section, x);
  }

  method AddScalar(conn: Connection, present: bool, kind: byte, occupy: nat, n: nat,
                   ghost off: nat, ghost front: seq<byte>, ghost section: seq<byte>) returns (ok: bool)
    requires Sectioned(conn, off, front, section) && occupy >= 1 && kind != 0
    modifies conn`length, conn.buffer
    ensures Added(conn, ok, off, front, section, Optional(present, kind, Field(n, occupy)))
  {
    ok := true;
    assert section + [] == section;
    if present {
      assert Piece(kind, occupy, None, n) == [kind] + Field(n, occupy);
      ok := AddPiece(conn, kind, occupy, None, n, off, front, section);
    }
  }

  method AddString(conn: Connection, present: bool, kind: byte, s: Option<seq<byte>>,
                   ghost off: nat, ghost front: seq<byte>, ghost section: seq<byte>) returns (ok: bool)
    requires Sectioned(conn, off, front, section) && kind != 0 && (present ==> s.Some?)
    modifies conn`length, conn.buffer
    ensures Added(conn, ok, off, front, section, Optional(present, kind, Str(Content(s))))
  {
    ok := true;
    assert section + [] == section;
    if present {
      PieceIsStr(kind, s.value);
      ok := AddPiece(conn, kind, 2, s, |s.value|, off, front, section);
    }
  }

  lemma PieceIsStr(kind: byte, s: seq<byte>)
    ensures Piece(kind, 2, Some(s), |s|) == (if kind != 0 then [kind] else []) + Str(s)
  {
    FieldTwo(|s|);
    Assoc(if kind != 0 then [kind] else [], U16(|s|), s);
  }

  /** The outcome of adding `x`: it succeeds exactly if there is room for it. */
  ghost predicate Added(conn: Connection, ok: bool, off: nat, front: seq<byte>, section: seq<byte>, x: seq<byte>)
    reads conn, conn.buffer
  {
    && (ok <==> x == [] || off + 1 + |section| + |x| <= conn.buffer.Length)
    && (ok ==> Sectioned(conn, off, front, section + x))
  }

  /** `x` and then `y`. */
  lemma AddedBoth(conn: Connection, ok: bool, off: nat, front: seq<byte>, section: seq<byte>, x: seq<byte>,
                  y: seq<byte>)
    requires x == [] || off + 1 + |section| + |x| <= conn.buffer.Length
    requires Added(conn, ok, off, front, section + x, y)
    ensures Added(conn, ok, off, front, section, x + y)
  {
    Assoc(section, x, y);
  }

  method AddScalars(conn: Connection, p: Wanted, ghost off: nat, ghost front: seq<byte>, ghost section: seq<byte>)
    returns (ok: bool)
    requires Sectioned(conn, off, front, section)
    modifies conn`length, conn.buffer
    ensures Added(conn, ok, off, front, section, Scalars(p))
  {
    ghost var a := Optional(p.formatIndicator, FORMAT_INDICATOR, Field(1, 1));
    ghost var b := Optional(p.expiry != 0, EXPIRY_INTERVAL, Field(p.expiry, 4));
    ghost var c := Optional(p.alias != 0, TOPIC_ALIAS, Field(p.alias, 2));
    ok := AddScalar(conn, p.formatIndicator, FORMAT_INDICATOR, 1, 1, off, front, section);
    if !ok { return; }
    ok := AddScalar(conn, p.expiry != 0, EXPIRY_INTERVAL, 4, p.expiry, off, front, section + a);
    AddedBoth(conn, ok, off, front, section, a, b);
    if !ok { return; }
    ok := AddScalar(conn, p.alias != 0, TOPIC_ALIAS, 2, p.alias, off, front, section + (a + b));
    AddedBoth(conn, ok, off, front, section, a + b, c);
  }

  method AddStrings(conn: Connection, p: Wanted, ghost off: nat, ghost front: seq<byte>, ghost section: seq<byte>)
    returns (ok: bool)
    requires Sectioned(conn, off, front, section)
    modifies conn`length, conn.buffer
    ensures Added(conn, ok, off, front, section, Strings(p))
  {
    ghost var a := Optional(p.responseTopic.Some?, RESPONSE_TOPIC, Str(Content(p.responseTopic)));
    ghost var b := Optional(Given(p.correlation), CORRELATION_DATA, Str(Content(p.correlation)));
    ok := AddString(conn, p.responseTopic.Some?, RESPONSE_TOPIC, p.responseTopic, off, front, section);
    if !ok { return; }
    ok := AddString(conn, Given(p.correlation), CORRELATION_DATA, p.correlation, off, front, section + a);
    AddedBoth(conn, ok, off, front, section, a, b);
  }

  method AddUser(conn: Connection, u: (seq<byte>, seq<byte>), ghost off: nat, ghost front: seq<byte>,
                 ghost section: seq<byte>)
    returns (ok: bool)
    requires Sectioned(conn, off, front, section)
    modifies conn`length, conn.buffer
    ensures Added(conn, ok, off, front, section, User(u))
  {
    ghost var a := [USER_PROPERTY] + Str(u.0);
    PieceIsStr(USER_PROPERTY, u.0);
    PieceIsStr(0, u.1);
    assert [] + Str(u.1) == Str(u.1);
    ok := AddPiece(conn, USER_PROPERTY, 2, Some(u.0), |u.0|, off, front, section);
    if !ok { return; }
    ok := AddPiece(conn, 0, 2, Some(u.1), |u.1|, off, front, section + a);
    AddedBoth(conn, ok, off, front, section, a, Str(u.1));
  }

  /** The loop over the user properties. */
  method AddUsers(conn: Connection, us: seq<(seq<byte>, seq<byte>)>, ghost off: nat, ghost front: seq<byte>,
                  ghost section: seq<byte>)
    returns (ok: bool)
    requires Sectioned(conn, off, front, section)
    modifies conn`length, conn.buffer
    ensures Added(conn, ok, off, front, section, Users(us))
  {
    ghost var done: seq<byte> := [];
    assert section + [] == section && us[0..] == us && [] + Users(us) == Users(us);
    for k := 0 to |us|
      invariant Sectioned(conn, off, front, section + done)
      invariant done + Users(us[k..]) == Users(us)
      invariant done == [] || off + 1 + |section| + |done| <= conn.buffer.Length
    {
      assert us[k..][1..] == us[k + 1..];
      ok := AddUser(conn, us[k], off, front, section + done);
      Assoc(done, User(us[k]), Users(us[k + 1..]));
      if !ok { return; }
      AddedBoth(conn, ok, off, front, section, done, User(us[k]));
      done := done + User(us[k]);
    }
    assert done + [] == done;
    ok := true;
  }

  /** All properties, in order. */
  method AddProperties(conn: Connection, p: Wanted, ghost off: nat, ghost front: seq<byte>) returns (ok: bool)
    requires Sectioned(conn, off, front, [])
    modifies conn`length, conn.buffer
    ensures Added(conn, ok, off, front, [], Section(p))
  {
    ghost var a, b, c := Scalars(p), Strings(p), Users(p.users);
    assert [] + a == a;
    ok := AddScalars(conn, p, off, front, []);
    if !ok { return; }
    ok := AddStrings(conn, p, off, front, [] + a);
    AddedBoth(conn, ok, off, front, [], a, b);
    if !ok { return; }
    ok := AddUsers(conn, p.users, off, front, [] + (a + b));
    AddedBoth(conn, ok, off, front, [], a + b, c);
    if !ok { return; }
    ok := AddString(conn, p.contentType.Some?, CONTENT_TYPE, p.contentType, off, front, [] + (a + b + c));
    ghost var d := Type(p);
    AddedBoth(conn, ok, off, front, [], a + b + c, d);
  }

  lemma Appended(now: seq<byte>, was: seq<byte>, off: nat, front: seq<byte>, section: seq<byte>, x: seq<byte>)
    requires now == was + x && |was| == off + 1 + |section| && 5 <= off && was[5..off] == front
    requires was[off + 1..] == section
    ensures now[5..off] == front && now[off + 1..] == section + x
  {
    DropConcat(was, x, off + 1);
  }

  // ----- the packet -----

  /** `mqtt5_msg_publish` gets as far as asking for an identifier. */
  predicate DrawsId5(topic: Option<seq<byte>>, data: Option<seq<byte>>, dataLength: int, qos: nat, p: Wanted,
                     room: nat)
  {
    && (Given(topic) || p.alias != 0) && 7 + |Content(topic)| <= room
    && (data.None? ==> dataLength <= 0) && qos > 0
  }

  /** `mqtt5_msg_publish` succeeds: everything before the payload fits. */
  predicate Publishable5(topic: Option<seq<byte>>, data: Option<seq<byte>>, dataLength: int, qos: nat, p: Wanted,
                         room: nat)
  {
    && (Given(topic) || p.alias != 0) && (data.None? ==> dataLength <= 0)
    && 5 + |Head5(Content(topic), qos, 0, p)| <= room
  }

  /** The two shapes of a built packet: all of it, or as much as the buffer holds. */
  ghost predicate BuiltWhole(conn: Connection, header: byte, head: seq<byte>, payload: seq<byte>, oldOffset: int)
    reads conn, conn.data
  {
    var whole := Whole(header, head + payload);
    && conn.HasOutbound() && conn.length > 0
    && if 5 + |head| + |payload| <= conn.buffer.Length then
      && conn.fragTotal == 0 && conn.Outbound() == whole
      && conn.fragOffset == oldOffset - conn.start && conn.start + conn.length == 5 + |head| + |payload|
    else
      && conn.fragTotal == 5 + |head| + |payload| && conn.fragOffset == |whole| - |payload|
      && conn.fragOffset <= conn.length < |whole| && conn.Outbound() == whole[..conn.length]
  }

  /** Payload and fixed header, behind a variable header that is in the buffer. */
  method FinishPacket(conn: Connection, kind: nat, qos: nat, retain: nat, ghost head: seq<byte>, payload: seq<byte>)
    requires conn.Valid() && conn.length == 5 + |head| <= conn.buffer.Length && conn.buffer[5..conn.length] == head
    requires |head| + |payload| < LIMIT
    modifies conn`data, conn`start, conn`length, conn`fragTotal, conn`fragOffset, conn.buffer
    ensures conn.Valid() && conn.data == conn.buffer
    ensures BuiltWhole(conn, HeaderByte(kind, 0, qos, retain), head, payload, old(conn.fragOffset))
  {
    conn.AppendPayload(payload);
    ghost var n := conn.length - 5 - |head|;
    EncodeFourBytes(conn.Remaining());
    conn.FiniMessage(kind, 0, qos, retain);
    WholeOrFront(HeaderByte(kind, 0, qos, retain), head, payload, n);
  }

  /** Topic and identifier. */
  method BeginPublish5(conn: Connection, topic: Option<seq<byte>>, data: Option<seq<byte>>, dataLength: int, qos: nat,
                       p: Wanted)
    returns (ok: bool, id: nat)
    requires conn.Valid()
    modifies conn`length, conn`lastId, conn.buffer
    ensures conn.Valid()
    ensures conn.incremental ==>
              conn.lastId ==
              if DrawsId5(topic, data, dataLength, qos, p, conn.buffer.Length) then NextId(old(conn.lastId))
              else old(conn.lastId)
    ensures ok <==>
            (Given(topic) || p.alias != 0) && (data.None? ==> dataLength <= 0)
            && 5 + |PublishHead(Content(topic), qos, id)| <= conn.buffer.Length
    ensures ok ==>
              && conn.length == 5 + |PublishHead(Content(topic), qos, id)|
              && conn.buffer[5..conn.length] == PublishHead(Content(topic), qos, id)
              && (if qos > 0 then 1 <= id < 65536 && (conn.incremental ==> id == conn.lastId) else id == 0)
  {
    id := 0;
    conn.SetMessageHeaderSize();
    if !Given(topic) && p.alias == 0 { return false, 0; }
    ghost var t := Content(topic);
    PieceIsStr(0, t);
    assert [] + Str(t) == Str(t);
    var r := AppendProperty(conn, 0, 2, topic, |Content(topic)|);
    if r == -1 { return false, 0; }
    assert conn.buffer[5..conn.length] == conn.buffer[..conn.length][5..] == Str(t);
    if data.None? && dataLength > 0 { return false, 0; }
    if qos > 0 {
      id := conn.AppendMessageId(0);
      if id == 0 { return false, 0; }
      assert conn.buffer[5..conn.length] == conn.buffer[..conn.length][5..] == Str(t) + U16(id);
    }
    ok := true;
  }

  /** The property section with its length. */
  method AppendSection(conn: Connection, p: Wanted, ghost front: seq<byte>) returns (ok: bool)
    requires conn.length == 5 + |front| <= conn.buffer.Length < LIMIT && conn.buffer[5..conn.length] == front
    modifies conn`length, conn.buffer
    ensures var head := front + Encode(|Section(p)|) + Section(p);
      && (ok <==> 5 + |head| <= conn.buffer.Length)
      && (ok ==> conn.length == 5 + |head| && conn.buffer[5..conn.length] == head)
  {
    var off := conn.length;
    conn.length := conn.length + 1;
    ok := AddProperties(conn, p, off, front);
    if !ok { return; }
    assert [] + Section(p) == Section(p);
    ghost var was := conn.buffer[..];
    var r := UpdatePropertyLenValue(conn, conn.length - off - 1, off);
    ok := r != -1;
    if ok { HeadBuilt(conn.buffer[..conn.length], was, off, front, Section(p)); }
  }

  lemma HeadBuilt(now: seq<byte>, was: seq<byte>, off: nat, front: seq<byte>, section: seq<byte>)
    requires off <= |was| && (section != [] ==> off + 1 + |section| <= |was|)
    requires off == 5 + |front| && was[5..off] == front
    requires section != [] ==> was[off + 1..off + 1 + |section|] == section
    requires now == was[..off] + Encode(|section|) + (if section == [] then [] else was[off + 1..off + 1 + |section|])
    ensures now[5..] == front + Encode(|section|) + section
  {
    DropConcat(was[..off], Encode(|section|) + section, 5);
    Assoc(was[..off], Encode(|section|), section);
    Assoc(front, Encode(|section|), section);
    assert was[..off][5..] == front;
  }

  /** What `mqtt5_msg_publish` leaves behind: `lastId` and `offset` were the last identifier and
      the payload offset before. */
  ghost predicate Published5(conn: Connection, topic: Option<seq<byte>>, data: Option<seq<byte>>, dataLength: int,
                             qos: nat, retain: nat, p: Wanted, id: nat, lastId: nat, offset: int)
    reads conn, conn.data
    requires lastId < 65536
  {
    var room := conn.buffer.Length;
    && (conn.incremental ==>
          conn.lastId == if DrawsId5(topic, data, dataLength, qos, p, room) then NextId(lastId) else lastId)
    && (conn.length > 0 <==> Publishable5(topic, data, dataLength, qos, p, room))
    && (conn.length > 0 ==>
          && (if qos > 0 then 1 <= id < 65536 && (conn.incremental ==> id == conn.lastId) else id == 0)
          && BuiltWhole(conn, HeaderByte(PUBLISH, 0, qos, retain), Head5(Content(topic), qos, id, p), Content(data),
                        offset))
  }

  /** Everything before the payload. */
  method BuildHead5(conn: Connection, topic: Option<seq<byte>>, data: Option<seq<byte>>, dataLength: int, qos: nat,
                    p: Wanted)
    returns (ok: bool, id: nat)
    requires conn.Valid() && conn.buffer.Length < LIMIT
    modifies conn`length, conn`lastId, conn.buffer
    ensures conn.Valid()
    ensures conn.incremental ==>
              conn.lastId ==
              if DrawsId5(topic, data, dataLength, qos, p, conn.buffer.Length) then NextId(old(conn.lastId))
              else old(conn.lastId)
    ensures ok <==> Publishable5(topic, data, dataLength, qos, p, conn.buffer.Length)
    ensures ok ==>
              && (if qos > 0 then 1 <= id < 65536 && (conn.incremental ==> id == conn.lastId) else id == 0)
              && conn.length == 5 + |Head5(Content(topic), qos, id, p)| <= conn.buffer.Length
              && conn.buffer[5..conn.length] == Head5(Content(topic), qos, id, p)
  {
    ok, id := BeginPublish5(conn, topic, data, dataLength, qos, p);
    if ok { ok := AppendSection(conn, p, PublishHead(Content(topic), qos, id)); }
  }

  /** The property section and payload of a PUBLISH with these properties. */
  method BuildPublish5(conn: Connection, topic: Option<seq<byte>>, data: Option<seq<byte>>, dataLength: int,
                       qos: nat, retain: nat, p: Wanted)
    returns (id: nat)
    requires conn.Valid() && qos < 4 && retain < 2
    requires if data.Some? then dataLength == |data.value| else dataLength >= 0
    requires conn.buffer.Length + |Content(data)| < LIMIT
    modifies conn, conn.buffer
    ensures conn.Valid() && conn.data == conn.buffer && conn.HasOutbound()
    ensures Published5(conn, topic, data, dataLength, qos, retain, p, id, old(conn.lastId), old(conn.fragOffset))
  {
    var ok;
    ok, id := BuildHead5(conn, topic, data, dataLength, qos, p);
    if !ok {
      conn.FailMessage();
      return;
    }
    FinishPacket(conn, PUBLISH, qos, retain, Head5(Content(topic), qos, id, p), Content(data));
  }

  /** `mqtt5_msg_publish`, with the response information of the server. */
  method MsgPublish5(conn: Connection, topic: Option<seq<byte>>, data: Option<seq<byte>>, dataLength: int,
                     qos: nat, retain: nat, property: Option<Wanted>, respInfo: Option<seq<byte>>)
    returns (id: nat)
    requires conn.Valid() && qos < 4 && retain < 2
    requires if data.Some? then dataLength == |data.value| else dataLength >= 0
    requires conn.buffer.Length + |Content(data)| < LIMIT
    modifies conn, conn.buffer
    ensures conn.Valid() && conn.data == conn.buffer && conn.HasOutbound()
    ensures var p := if property.Some? then Answerable(property.value, respInfo) else UNSET;
      Published5(conn, topic, data, dataLength, qos, retain, p, id, old(conn.lastId), old(conn.fragOffset))
  {
    var p := UNSET;
    if property.Some? {
      p := property.value;
      if p.responseTopic.Some? && Given(respInfo) {
        p := p.(responseTopic := Some(SlashJoined(p.responseTopic.value, respInfo.value)));
      }
    }
    id := BuildPublish5(conn, topic, data, dataLength, qos, retain, p);
  }
}
