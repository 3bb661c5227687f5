/**
 * The property section of an MQTT 5.0 PUBLISH: how components/mqtt/lib/mqtt5_msg.c lays it
 * out, how the same file takes it apart again, and when the second undoes the first.
 */
module Properties {
  import opened Bytes
  import opened VarInt
  import opened Packet

  const FORMAT_INDICATOR: byte := 0x01
  const EXPIRY_INTERVAL: byte := 0x02
  const CONTENT_TYPE: byte := 0x03
  const RESPONSE_TOPIC: byte := 0x08
  const CORRELATION_DATA: byte := 0x09
  const SUBSCRIBE_IDENTIFIER: byte := 0x0B
  const REASON_STRING: byte := 0x1F
  const TOPIC_ALIAS: byte := 0x23
  const USER_PROPERTY: byte := 0x26

  const MAX_STRING: nat := 16 * 1024

  /** What the application asks for: `esp_mqtt5_publish_property_config_t`. */
  datatype Wanted = Wanted(
    formatIndicator: bool,
    expiry: nat,
    alias: nat,
    responseTopic: Option<seq<byte>>,
    correlation: Option<seq<byte>>,
    users: seq<(seq<byte>, seq<byte>)>,
    contentType: Option<seq<byte>>)

  /** What the receiver learns: `esp_mqtt5_publish_resp_property_t` and the user properties. */
  datatype Received = Received(
    formatIndicator: bool,
    expiry: nat,
    alias: nat,
    responseTopic: Option<seq<byte>>,
    correlation: Option<seq<byte>>,
    contentType: Option<seq<byte>>,
    subscribeId: nat,
    users: seq<(seq<byte>, seq<byte>)>)

  const NOTHING := Received(false, 0, 0, None, None, None, 0, [])
  const UNSET := Wanted(false, 0, 0, None, None, [], None)

  // ----- the response topic -----

  const SLASH: byte := 0x2F

  /** `"%s/%s"` printed into a block whose size, kept in 16 bits, counts the characters but not
      the NUL: the last character gives way to it, and all of the block is sent. */
  function SlashJoined(a: seq<byte>, b: seq<byte>): seq<byte> {
    var size := (|a| + |b| + 1) % 65536;
    if size == 0 then [] else (a + [SLASH] + b)[..size - 1] + [0]
  }

  /** So the topic that was meant is never sent; what is sent lacks its last character. */
  lemma SlashJoinedIsCut(a: seq<byte>, b: seq<byte>)
    requires b != [] && 0 !in b
    ensures SlashJoined(a, b) != a + [SLASH] + b
    ensures |a| + |b| + 1 < 65536 ==> SlashJoined(a, b) == a + [SLASH] + b[..|b| - 1] + [0]
  {
    var whole := a + [SLASH] + b;
    assert whole[|whole| - 1] == b[|b| - 1] && b[|b| - 1] in b;
    if |whole| < 65536 {
      assert whole[..|whole| - 1] == a + [SLASH] + b[..|b| - 1];
    }
  }

  /** The properties with the server's response information behind the response topic. */
  function Answerable(p: Wanted, respInfo: Option<seq<byte>>): Wanted {
    if p.responseTopic.Some? && Given(respInfo)
    then p.(responseTopic := Some(SlashJoined(p.responseTopic.value, respInfo.value))) else p
  }

  // ----- layout -----

  function Pow256(k: nat): (w: nat)
    ensures w >= 1
  {
    if k == 0 then 1 else 256 * Pow256(k - 1)
  }

  /** The low k bytes of n, most significant first. */
  function Field(n: nat, k: nat): (s: seq<byte>)
    ensures |s| == k
  {
    if k == 0 then [] else [n / Pow256(k - 1) % 256] + Field(n, k - 1)
  }

  lemma FieldOne(n: nat)
    ensures Field(n, 1) == [n % 256]
  {
    assert Pow256(0) == 1 && Field(n, 0) == [];
  }

  lemma FieldTwo(n: nat)
    ensures Field(n, 2) == U16(n)
  {
    FieldOne(n);
    assert Pow256(1) == 256 * Pow256(0);
  }

  lemma FieldFour(n: nat)
    requires n < 0x1_0000_0000
    ensures var f := Field(n, 4); FromU32(f[0], f[1], f[2], f[3]) == n
  {
    FieldTwo(n);
    assert Pow256(2) == 256 * Pow256(1) && Pow256(1) == 256 * Pow256(0);
    assert Pow256(3) == 256 * Pow256(2);
    assert Field(n, 4) == [n / 0x100_0000 % 256] + Field(n, 3);
    assert Field(n, 3) == [n / 0x1_0000 % 256] + Field(n, 2);
    FourDigits(n);
  }

  lemma FourDigits(n: nat)
    requires n < 0x1_0000_0000
    ensures FromU32(n / 0x100_0000 % 256, n / 0x1_0000 % 256, n / 256 % 256, n % 256) == n
  {
    var a, b, c := n / 256, n / 0x1_0000, n / 0x100_0000;
    assert b == a / 256 && c == b / 256;
  }

  /** One property, if it is to be there. */
  function Optional(present: bool, kind: byte, value: seq<byte>): seq<byte> {
    if present then [kind] + value else []
  }

  function User(u: (seq<byte>, seq<byte>)): seq<byte> {
    [USER_PROPERTY] + Str(u.0) + Str(u.1)
  }

  function Users(us: seq<(seq<byte>, seq<byte>)>): seq<byte> {
    if us == [] then [] else User(us[0]) + Users(us[1..])
  }

  function Scalars(p: Wanted): seq<byte> {
    Optional(p.formatIndicator, FORMAT_INDICATOR, Field(1, 1))
    + Optional(p.expiry != 0, EXPIRY_INTERVAL, Field(p.expiry, 4))
    + Optional(p.alias != 0, TOPIC_ALIAS, Field(p.alias, 2))
  }

  function Strings(p: Wanted): seq<byte> {
    Optional(p.responseTopic.Some?, RESPONSE_TOPIC, Str(Content(p.responseTopic)))
    + Optional(Given(p.correlation), CORRELATION_DATA, Str(Content(p.correlation)))
  }

  function Type(p: Wanted): seq<byte> {
    Optional(p.contentType.Some?, CONTENT_TYPE, Str(Content(p.contentType)))
  }

  /** The properties in the order in which `mqtt5_msg_publish` appends them. */
  function Section(p: Wanted): seq<byte> {
    Scalars(p) + Strings(p) + Users(p.users) + Type(p)
  }

  /** The variable header of a PUBLISH, section 3.3.2 of MQTT 5.0. */
  function Head5(topic: seq<byte>, qos: nat, id: nat, p: Wanted): seq<byte> {
    PublishHead(topic, qos, id) + Encode(|Section(p)|) + Section(p)
  }

  function Packet5(topic: seq<byte>, payload: seq<byte>, qos: nat, retain: nat, id: nat, p: Wanted): seq<byte> {
    Whole(HeaderByte(PUBLISH, 0, qos, retain), Head5(topic, qos, id, p) + payload)
  }

  /** Values within the widths of their C fields. */
  predicate Sized(p: Wanted) {
    p.expiry < 0x1_0000_0000 && p.alias < 65536
  }

  // ----- parsing -----

  /** `get_variable_len`: at most four bytes; four bytes without an end count as none. */
  function VarLen(s: seq<byte>): (r: (nat, nat))
    ensures r.1 <= |s| && r.1 <= 4
  {
    var r := Scan(s, 4);
    if r.used == 4 && !r.ended then (0, 0) else (r.value, r.used)
  }

  /** The outcome of parsing. Where the program would read outside the message or wrap its
      16-bit offset, nothing is claimed about it (`Overrun`). */
  datatype Parse<+T> = Done(value: T) | Rejected | Overrun

  datatype Cursor = Cursor(off: nat, r: Received)

  predicate HasBytes(off: nat, needed: nat, n: nat) {
    off <= n && needed <= n - off
  }

  /** A length-prefixed field inside the section: its bytes, and where it ends. */
  function Capped(m: seq<byte>, at: nat, n: nat, off: nat): (p: Parse<(seq<byte>, nat)>)
    requires at + n <= |m|
    ensures p.Done? ==> off < p.value.1 <= n
  {
    if !HasBytes(off, 2, n) then Rejected
    else
      var len := FromU16(m[at + off], m[at + off + 1]);
      if len > MAX_STRING || !HasBytes(off + 2, len, n) then Rejected
      else Done((m[at + off + 2..at + off + 2 + len], off + 2 + len))
  }

  /** A length-prefixed field that the program takes on trust. */
  function Trusted(m: seq<byte>, at: nat, off: nat): (p: Parse<(seq<byte>, nat)>)
    ensures p.Done? ==> off < p.value.1 < 65536
  {
    if at + off + 2 > |m| then Overrun
    else
      var len := FromU16(m[at + off], m[at + off + 1]);
      if off + 2 + len >= 65536 || at + off + 2 + len > |m| then Overrun
      else Done((m[at + off + 2..at + off + 2 + len], off + 2 + len))
  }

  /** One turn of the property loop, behind the property's identifier. */
  function Property(m: seq<byte>, at: nat, n: nat, id: byte, off: nat, r: Received): (p: Parse<Cursor>)
    requires at + n <= |m| && off <= n < 65536
    ensures p.Done? ==> off <= p.value.off < 65536
  {
    if id == FORMAT_INDICATOR then
      if !HasBytes(off, 1, n) then Rejected
      else Done(Cursor(off + 1, r.(formatIndicator := m[at + off] != 0)))
    else if id == EXPIRY_INTERVAL then
      if !HasBytes(off, 4, n) then Rejected
      else Done(Cursor(off + 4, r.(expiry := FromU32(m[at + off], m[at + off + 1], m[at + off + 2], m[at + off + 3]))))
    else if id == TOPIC_ALIAS then
      if !HasBytes(off, 2, n) then Rejected
      else Done(Cursor(off + 2, r.(alias := FromU16(m[at + off], m[at + off + 1]))))
    else if id == RESPONSE_TOPIC then
      match Capped(m, at, n, off)
      case Done(f) => Done(Cursor(f.1, r.(responseTopic := Some(f.0))))
      case Rejected => Rejected
      case Overrun => Overrun
    else if id == CORRELATION_DATA then
      match Trusted(m, at, off)
      case Done(f) => Done(Cursor(f.1, r.(correlation := Some(f.0))))
      case Rejected => Rejected
      case Overrun => Overrun
    else if id == SUBSCRIBE_IDENTIFIER then
      var v := VarLen(m[at + off..at + n]);
      Done(Cursor(off + v.1, r.(subscribeId := v.0 % 65536)))
    else if id == CONTENT_TYPE then
      match Trusted(m, at, off)
      case Done(f) => Done(Cursor(f.1, r.(contentType := Some(f.0))))
      case Rejected => Rejected
      case Overrun => Overrun
    else if id == USER_PROPERTY then UserProperty(m, at, n, off, r)
    else if id == REASON_STRING then
      match Capped(m, at, n, off)
      case Done(f) => Done(Cursor(f.1, r))
      case Rejected => Rejected
      case Overrun => Overrun
    else Rejected
  }

  function UserProperty(m: seq<byte>, at: nat, n: nat, off: nat, r: Received): (p: Parse<Cursor>)
    requires at + n <= |m| && off <= n < 65536
    ensures p.Done? ==> off <= p.value.off <= n
  {
    match Capped(m, at, n, off)
    case Rejected => Rejected
    case Overrun => Overrun
    case Done(key) =>
      match Capped(m, at, n, key.1)
      case Rejected => Rejected
      case Overrun => Overrun
      case Done(value) => Done(Cursor(value.1, r.(users := r.users + [(key.0, value.0)])))
  }

  /** The property loop. */
  function Walk(m: seq<byte>, at: nat, n: nat, off: nat, r: Received): (p: Parse<Cursor>)
    requires at + n <= |m| && n < 65536 && off < 65536
    ensures p.Done? ==> n <= p.value.off < 65536
    decreases if off < n then n - off else 0
  {
    if off >= n then Done(Cursor(off, r))
    else
      match Property(m, at, n, m[at + off], off + 1, r)
      case Done(c) => Walk(m, at, n, c.off, c.r)
      case Rejected => Rejected
      case Overrun => Overrun
  }

  // ----- when the loop stays inside the message -----

  /** A length-prefixed field ends inside the message, and before the 16-bit offset wraps. */
  predicate FieldInside(m: seq<byte>, at: nat, off: nat) {
    at + off + 2 <= |m| &&
    var len := FromU16(m[at + off], m[at + off + 1]);
    off + 2 + len < 65536 && at + off + 2 + len <= |m|
  }

  /** Where the loop is after `k` properties, if it gets that far. */
  function After(m: seq<byte>, at: nat, n: nat, off: nat, r: Received, k: nat): (c: Option<Cursor>)
    requires at + n <= |m| && n < 65536 && off < 65536
    ensures c.Some? ==> c.value.off < 65536
    decreases k
  {
    if k == 0 then Some(Cursor(off, r))
    else if off >= n then None
    else
      match Property(m, at, n, m[at + off], off + 1, r)
      case Done(c) => After(m, at, n, c.off, c.r, k - 1)
      case Rejected => None
      case Overrun => None
  }

  /** The property after the first `k` is correlation data or a content type that does not end
      where it should. */
  predicate Strays(m: seq<byte>, at: nat, n: nat, off: nat, r: Received, k: nat)
    requires at + n <= |m| && n < 65536 && off < 65536
  {
    var c := After(m, at, n, off, r, k);
    && c.Some? && c.value.off < n
    && (m[at + c.value.off] == CORRELATION_DATA || m[at + c.value.off] == CONTENT_TYPE)
    && !FieldInside(m, at, c.value.off + 1)
  }

  /** The loop leaves the message, or wraps its offset, exactly if it meets such a property; all
      other properties are checked against the section. */
  lemma {:induction false} OverrunExactly(m: seq<byte>, at: nat, n: nat, off: nat, r: Received)
    requires at + n <= |m| && n < 65536 && off < 65536
    ensures Walk(m, at, n, off, r) == Overrun <==> exists k: nat :: Strays(m, at, n, off, r, k)
    decreases if off < n then n - off else 0
  {
    if off < n {
      var next := OneTurn(m, at, n, off, r);
      if next.Some? { OverrunExactly(m, at, n, next.value.off, next.value.r); }
    }
  }

  /** One turn of the loop: either it goes on elsewhere, or the question is settled. */
  lemma OneTurn(m: seq<byte>, at: nat, n: nat, off: nat, r: Received) returns (next: Option<Cursor>)
    requires at + n <= |m| && off < n < 65536
    ensures next.Some? ==>
              && off < next.value.off < 65536
              && Walk(m, at, n, off, r) == Walk(m, at, n, next.value.off, next.value.r)
              && ((exists k: nat :: Strays(m, at, n, off, r, k)) <==>
                  exists k: nat :: Strays(m, at, n, next.value.off, next.value.r, k))
    ensures next.None? ==> (Walk(m, at, n, off, r) == Overrun <==> exists k: nat :: Strays(m, at, n, off, r, k))
  {
    next := None;
    PropertyOverruns(m, at, n, m[at + off], off + 1, r);
    match Property(m, at, n, m[at + off], off + 1, r) {
      case Done(c) =>
        StraysLater(m, at, n, off, r, c);
        next := Some(c);
      case Rejected =>
      case Overrun => assert Strays(m, at, n, off, r, 0);
    }
  }

  /** Behind a property that was read, the loop strays as if it had started there. */
  lemma StraysLater(m: seq<byte>, at: nat, n: nat, off: nat, r: Received, c: Cursor)
    requires at + n <= |m| && off < n < 65536 && Property(m, at, n, m[at + off], off + 1, r) == Done(c)
    requires !Strays(m, at, n, off, r, 0)
    ensures c.off < 65536
    ensures (exists k: nat :: Strays(m, at, n, off, r, k)) <==> exists k: nat :: Strays(m, at, n, c.off, c.r, k)
  {
    if k: nat :| Strays(m, at, n, c.off, c.r, k) { StraysNext(m, at, n, off, r, c, k); }
    if k: nat :| Strays(m, at, n, off, r, k) { StraysNext(m, at, n, off, r, c, k - 1); }
  }

  lemma StraysNext(m: seq<byte>, at: nat, n: nat, off: nat, r: Received, c: Cursor, k: nat)
    requires at + n <= |m| && off < n < 65536 && Property(m, at, n, m[at + off], off + 1, r) == Done(c)
    ensures c.off < 65536 && Strays(m, at, n, off, r, k + 1) == Strays(m, at, n, c.off, c.r, k)
  {
    assert After(m, at, n, off, r, k + 1) == After(m, at, n, c.off, c.r, k);
  }

  lemma PropertyOverruns(m: seq<byte>, at: nat, n: nat, id: byte, off: nat, r: Received)
    requires at + n <= |m| && off <= n < 65536
    ensures Property(m, at, n, id, off, r) == Overrun <==>
            (id == CORRELATION_DATA || id == CONTENT_TYPE) && !FieldInside(m, at, off)
  {
    CappedStays(m, at, n, off);
  }

  /** A capped field is accepted or rejected, but never leaves the section. */
  lemma CappedStays(m: seq<byte>, at: nat, n: nat, off: nat)
    requires at + n <= |m|
    ensures Capped(m, at, n, off) != Overrun
  {
  }

  // ----- when it stays inside the section -----

  /** The property after the first `k` is correlation data or a content type that ends inside the
      message, but behind the section. */
  predicate Spills(m: seq<byte>, at: nat, n: nat, off: nat, r: Received, k: nat)
    requires at + n <= |m| && n < 65536 && off < 65536
  {
    var c := After(m, at, n, off, r, k);
    && c.Some? && c.value.off < n
    && (m[at + c.value.off] == CORRELATION_DATA || m[at + c.value.off] == CONTENT_TYPE)
    && FieldInside(m, at, c.value.off + 1) && FieldEnd(m, at, c.value.off + 1) > n
  }

  function FieldEnd(m: seq<byte>, at: nat, off: nat): nat
    requires at + off + 2 <= |m|
  {
    off + 2 + FromU16(m[at + off], m[at + off + 1])
  }

  /** A loop that is not stopped ends behind the section exactly if it meets such a property, and
      at its end otherwise. */
  lemma {:induction false} SpillsExactly(m: seq<byte>, at: nat, n: nat, off: nat, r: Received)
    requires at + n <= |m| && off <= n < 65536 && Walk(m, at, n, off, r).Done?
    ensures Walk(m, at, n, off, r).value.off != n <==> exists k: nat :: Spills(m, at, n, off, r, k)
    decreases n - off
  {
    if off < n {
      var c := SpillTurn(m, at, n, off, r);
      if c.off <= n { SpillsExactly(m, at, n, c.off, c.r); }
    }
  }

  /** One turn of such a loop. */
  lemma SpillTurn(m: seq<byte>, at: nat, n: nat, off: nat, r: Received) returns (c: Cursor)
    requires at + n <= |m| && off < n < 65536 && Walk(m, at, n, off, r).Done?
    ensures off < c.off < 65536 && Walk(m, at, n, off, r) == Walk(m, at, n, c.off, c.r)
    ensures c.off > n ==> Spills(m, at, n, off, r, 0)
    ensures c.off <= n ==>
              ((exists k: nat :: Spills(m, at, n, off, r, k)) <==> exists k: nat :: Spills(m, at, n, c.off, c.r, k))
  {
    c := Property(m, at, n, m[at + off], off + 1, r).value;
    PropertyEnds(m, at, n, m[at + off], off + 1, r, c);
    if c.off <= n { SpillsLater(m, at, n, off, r, c); }
  }

  lemma SpillsLater(m: seq<byte>, at: nat, n: nat, off: nat, r: Received, c: Cursor)
    requires at + n <= |m| && off < n < 65536 && Property(m, at, n, m[at + off], off + 1, r) == Done(c)
    requires !Spills(m, at, n, off, r, 0)
    ensures c.off < 65536
    ensures (exists k: nat :: Spills(m, at, n, off, r, k)) <==> exists k: nat :: Spills(m, at, n, c.off, c.r, k)
  {
    if k: nat :| Spills(m, at, n, c.off, c.r, k) { SpillsNext(m, at, n, off, r, c, k); }
    if k: nat :| Spills(m, at, n, off, r, k) { SpillsNext(m, at, n, off, r, c, k - 1); }
  }

  lemma SpillsNext(m: seq<byte>, at: nat, n: nat, off: nat, r: Received, c: Cursor, k: nat)
    requires at + n <= |m| && off < n < 65536 && Property(m, at, n, m[at + off], off + 1, r) == Done(c)
    ensures c.off < 65536 && Spills(m, at, n, off, r, k + 1) == Spills(m, at, n, c.off, c.r, k)
  {
    assert After(m, at, n, off, r, k + 1) == After(m, at, n, c.off, c.r, k);
  }

  /** Where a property ends that was read. */
  lemma PropertyEnds(m: seq<byte>, at: nat, n: nat, id: byte, off: nat, r: Received, c: Cursor)
    requires at + n <= |m| && off <= n < 65536 && Property(m, at, n, id, off, r) == Done(c)
    ensures c.off > n <==>
              (id == CORRELATION_DATA || id == CONTENT_TYPE) && FieldInside(m, at, off) && FieldEnd(m, at, off) > n
  {
  }

  /** A received PUBLISH. */
  datatype Publish5 = Publish5(topic: seq<byte>, properties: Received, payload: seq<byte>)

  /** What is known before the property loop: how long the message says it is, the topic,
      and where the property section lies (its length is kept in 16 bits). */
  datatype Opening = Opening(total: nat, topic: seq<byte>, at: nat, n: nat)

  function Open(m: seq<byte>): (p: Parse<Opening>)
    ensures p.Done? ==> p.value.at + p.value.n <= |m| && p.value.n < 65536
  {
    if m == [] then Overrun else OpenBehind(m, VarLen(m[1..]))
  }

  /** ... behind a remaining length of this value and width. */
  function OpenBehind(m: seq<byte>, v: (nat, nat)): (p: Parse<Opening>)
    requires m != []
    ensures p.Done? ==> p.value.at + p.value.n <= |m| && p.value.n < 65536
  {
    OpenTopic(m, 1 + v.1 + v.0, 1 + v.1)
  }

  /** From the topic length at `at`, in a message that says it is `total` bytes long. */
  function OpenTopic(m: seq<byte>, total: nat, at: nat): (p: Parse<Opening>)
    requires m != []
    ensures p.Done? ==> p.value.at + p.value.n <= |m| && p.value.n < 65536
  {
    if at + 2 > |m| then Overrun
    else
      var behind := at + 2 + FromU16(m[at], m[at + 1]);
      if behind >= |m| || (QosOf(m[0]) > 0 && behind + 2 >= |m|) then Rejected
      else OpenSection(m, total, m[at + 2..behind], behind + if QosOf(m[0]) > 0 then 2 else 0)
  }

  function OpenSection(m: seq<byte>, total: nat, topic: seq<byte>, off: nat): (p: Parse<Opening>)
    requires off < |m|
    ensures p.Done? ==> p.value.at + p.value.n <= |m| && p.value.n < 65536
  {
    var v := VarLen(m[off..]);
    var at, n := off + v.1, v.0 % 65536;
    if at + n > |m| then Overrun else Done(Opening(total, topic, at, n))
  }

  /** `mqtt5_get_publish_property_payload`. */
  function Decode5(m: seq<byte>): Parse<Publish5> {
    match Open(m)
    case Rejected => Rejected
    case Overrun => Overrun
    case Done(o) => Finish(m, o.total, o.topic, o.at, Walk(m, o.at, o.n, 0, NOTHING))
  }

  /** The payload starts where the property loop ended. */
  function Finish(m: seq<byte>, total: nat, topic: seq<byte>, at: nat, q: Parse<Cursor>): Parse<Publish5> {
    match q
    case Rejected => Rejected
    case Overrun => Overrun
    case Done(c) =>
      var start := at + c.off;
      var end := if total <= |m| then total else |m|;
      if start > end then Overrun else Done(Publish5(topic, c.r, m[start..end]))
  }

  /** Where the payload of an accepted message ends, as the parser sees it. */
  function MessageEnd(m: seq<byte>, o: Opening): nat {
    if o.total <= |m| then o.total else |m|
  }

  /** `Decode5` once the message has been opened. */
  lemma DecodeOpening(m: seq<byte>, o: Opening)
    requires Open(m) == Done(o)
    ensures o.at + o.n <= |m| && o.n < 65536
    ensures Decode5(m) == Finish(m, o.total, o.topic, o.at, Walk(m, o.at, o.n, 0, NOTHING))
  {
  }

  /** The topic with its length at `at`, and an identifier if there is one. */
  predicate ReadsTopic(m: seq<byte>, at: nat, topic: seq<byte>, off: nat) {
    && m != [] && at + 2 + |topic| <= |m| && off < |m|
    && FromU16(m[at], m[at + 1]) == |topic| && m[at + 2..at + 2 + |topic|] == topic
    && off == at + 2 + |topic| + (if QosOf(m[0]) > 0 then 2 else 0)
  }

  /** What is read from a message on the way: its length (in `e` bytes), topic, identifier ... */
  predicate ReadsHead(m: seq<byte>, e: nat, topic: seq<byte>, off: nat) {
    ReadsTopic(m, 1 + e, topic, off) && VarLen(m[1..]) == (|m| - 1 - e, e)
  }

  /** ... then the length of the section, in `v` bytes. */
  predicate ReadsLength(m: seq<byte>, off: nat, n: nat, v: nat) {
    off < |m| && VarLen(m[off..]) == (n, v) && off + v + n <= |m|
  }

  predicate Opens(m: seq<byte>, topic: seq<byte>, at: nat, n: nat) {
    Open(m) == Done(Opening(|m|, topic, at, n % 65536))
  }

  /** Opening a message, from what is read on the way. */
  lemma OpenFrom(m: seq<byte>, e: nat, topic: seq<byte>, off: nat, n: nat, v: nat)
    requires ReadsHead(m, e, topic, off) && ReadsLength(m, off, n, v)
    ensures Opens(m, topic, off + v, n)
  {
    OpenBehindFrom(m, (|m| - 1 - e, e), topic, off, n, v);
  }

  lemma OpenBehindFrom(m: seq<byte>, length: (nat, nat), topic: seq<byte>, off: nat, n: nat, v: nat)
    requires ReadsTopic(m, 1 + length.1, topic, off) && ReadsLength(m, off, n, v)
    requires 1 + length.1 + length.0 == |m|
    ensures OpenBehind(m, length) == Done(Opening(|m|, topic, off + v, n % 65536))
  {
    OpenTopicFrom(m, 1 + length.1, topic, off, n, v);
  }

  lemma OpenTopicFrom(m: seq<byte>, at: nat, topic: seq<byte>, off: nat, n: nat, v: nat)
    requires ReadsTopic(m, at, topic, off) && ReadsLength(m, off, n, v)
    ensures OpenTopic(m, |m|, at) == Done(Opening(|m|, topic, off + v, n % 65536))
  {
    OpenSectionFrom(m, topic, off, n, v);
  }

  lemma OpenSectionFrom(m: seq<byte>, topic: seq<byte>, off: nat, n: nat, v: nat)
    requires ReadsLength(m, off, n, v)
    ensures OpenSection(m, |m|, topic, off) == Done(Opening(|m|, topic, off + v, n % 65536))
  {
    SmallLength(n);
  }

  lemma SmallLength(n: nat)
    ensures n % 65536 <= n
    ensures n < 65536 ==> n % 65536 == n
  {
  }

  /** Where the property length is, in a message whose topic length is at `t`. */
  function SectionAt(m: seq<byte>, t: nat): nat
    requires m != [] && t + 2 <= |m|
  {
    t + 2 + FromU16(m[t], m[t + 1]) + if QosOf(m[0]) > 0 then 2 else 0
  }

  /** The message ends before its topic length does, or before its property section, whose length
      is cut to 16 bits. */
  predicate EndsEarly(m: seq<byte>) {
    || m == []
    || (var t := 1 + VarLen(m[1..]).1;
        || t + 2 > |m|
        || (var s := SectionAt(m, t);
            s < |m| && s + VarLen(m[s..]).1 + VarLen(m[s..]).0 % 65536 > |m|))
  }

  lemma OpenOverruns(m: seq<byte>)
    ensures Open(m) == Overrun <==> EndsEarly(m)
  {
  }

  /** A message is `Overrun` exactly if it ends early, if the loop strays, or if it ends before
      the payload starts. */
  lemma Decode5Overruns(m: seq<byte>)
    ensures Decode5(m) == Overrun <==>
            || EndsEarly(m)
            || (Open(m).Done? &&
                var o := Open(m).value;
                var q := Walk(m, o.at, o.n, 0, NOTHING);
                || (exists k: nat :: Strays(m, o.at, o.n, 0, NOTHING, k))
                || (q.Done? && o.at + q.value.off > MessageEnd(m, o)))
  {
    OpenOverruns(m);
    if Open(m).Done? {
      var o := Open(m).value;
      DecodeOpening(m, o);
      OverrunExactly(m, o.at, o.n, 0, NOTHING);
    }
  }

  /** An accepted message is received with all that follows its property section, unless a field
      spills over the section's end: that field is then received with the first bytes of the
      payload, and the payload without them. */
  lemma PayloadIntact(m: seq<byte>)
    requires Decode5(m).Done?
    ensures Open(m).Done?
    ensures var o := Open(m).value;
      && o.at + o.n <= MessageEnd(m, o) <= |m|
      && (Decode5(m).value.payload == m[o.at + o.n..MessageEnd(m, o)] <==>
          !exists k: nat :: Spills(m, o.at, o.n, 0, NOTHING, k))
  {
    var o := Open(m).value;
    var q := Walk(m, o.at, o.n, 0, NOTHING);
    SpillsExactly(m, o.at, o.n, 0, NOTHING);
    assert |Decode5(m).value.payload| == MessageEnd(m, o) - (o.at + q.value.off);
  }

  /** A topic "a", QoS 0, and a property section of three bytes: `[9, 255, 255]` strays. */
  lemma StrayInput()
    ensures Decode5([0x30, 7, 0, 1, 97, 3, 9, 255, 255]) == Overrun
  {
    var m: seq<byte> := [0x30, 7, 0, 1, 97, 3, 9, 255, 255];
    OpensShort(m);
    OnlyCorrelation(m, 65535);
  }

  /** `[9, 0, 2]` spills: the two bytes of payload are received as correlation data. */
  lemma SpillInput()
    ensures Decode5([0x30, 9, 0, 1, 97, 3, 9, 0, 2, 1, 2])
            == Done(Publish5([97], NOTHING.(correlation := Some([1, 2])), []))
  {
    var m: seq<byte> := [0x30, 9, 0, 1, 97, 3, 9, 0, 2, 1, 2];
    SpillsAll(m);
    assert m[9..] == [1, 2];
  }

  /** However long the payload is, if the field says that it has that length. */
  lemma SpillsAll(m: seq<byte>)
    requires 9 <= |m| < 130 && m[0] == 0x30 && m[1] == |m| - 2 && m[2] == 0 && m[3] == 1 && m[4] == 97 && m[5] == 3
    requires m[6] == CORRELATION_DATA && FromU16(m[7], m[8]) == |m| - 9
    ensures Decode5(m) == Done(Publish5([97], NOTHING.(correlation := Some(m[9..])), []))
  {
    OpensShort(m);
    OnlyCorrelation(m, |m| - 9);
    assert m[9..|m|] == m[9..] && m[|m|..|m|] == [];
  }

  /** The loop over a section that holds no more than the head of correlation data of length `n`. */
  lemma OnlyCorrelation(m: seq<byte>, n: nat)
    requires 9 <= |m| && m[6] == CORRELATION_DATA && FromU16(m[7], m[8]) == n
    ensures Walk(m, 6, 3, 0, NOTHING) ==
            if 3 + n < 65536 && 9 + n <= |m| then Done(Cursor(3 + n, NOTHING.(correlation := Some(m[9..9 + n]))))
            else Overrun
  {
    var p := Property(m, 6, 3, m[6], 1, NOTHING);
    if p.Done? { assert Walk(m, 6, 3, p.value.off, p.value.r) == p; }
  }

  /** Both open alike. */
  lemma OpensShort(m: seq<byte>)
    requires 9 <= |m| < 130 && m[0] == 0x30 && m[1] == |m| - 2 && m[2] == 0 && m[3] == 1 && m[4] == 97 && m[5] == 3
    ensures Open(m) == Done(Opening(|m|, [97], 6, 3))
    ensures Decode5(m) == Finish(m, |m|, [97], 6, Walk(m, 6, 3, 0, NOTHING))
  {
    ScanStep(m, 1, 4);
    ScanStep(m, 5, 4);
    assert m[4..5] == [97];
    OpenFrom(m, 1, [97], 5, 3, 1);
    DecodeOpening(m, Opening(|m|, [97], 6, 3));
  }
}
