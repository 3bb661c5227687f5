/**
 * The CONNECT packet of MQTT 3.1 and 3.1.1: the body `mqtt_msg_connect` should build, and an
 * independent reader of such a body that follows section 3.1 of MQTT 3.1.1.
 */
module Connect {
  import opened Bytes
  import opened Packet

  /** `mqtt_connect_info_t`. A C string is absent (NULL) or has no NUL before its end. */
  datatype ConnectInfo = ConnectInfo(
    clientId: Option<seq<byte>>,
    willTopic: Option<seq<byte>>, willMessage: seq<byte>, willQos: nat, willRetain: bool,
    username: Option<seq<byte>>, password: Option<seq<byte>>,
    keepalive: nat, cleanSession: bool, version31: bool)

  /** Protocol name and level. */
  function Protocol(version31: bool): seq<byte> {
    if version31 then [0, 6, 77, 81, 73, 115, 100, 112, 3] else [0, 4, 77, 81, 84, 84, 4]
  }

  predicate SendsUsername(info: ConnectInfo) { Given(info.username) || Given(info.password) }

  function WillFlags(info: ConnectInfo): nat {
    if Given(info.willTopic) then 4 + (if info.willRetain then 32 else 0) + info.willQos % 4 * 8 else 0
  }

  function Flags(info: ConnectInfo): byte {
    (if info.cleanSession then 2 else 0) + WillFlags(info)
    + (if SendsUsername(info) then 128 else 0) + (if Given(info.password) then 64 else 0)
  }

  /** The flags as they are built: clean session, then the will. */
  lemma FlagsSum(info: ConnectInfo) returns (clean: byte, will: byte)
    ensures clean == (if info.cleanSession then 2 else 0) && will == clean + WillFlags(info) < 64
    ensures Flags(info) ==
            will + (if SendsUsername(info) then 128 else 0) + (if Given(info.password) then 64 else 0)
  {
    clean := if info.cleanSession then 2 else 0;
    will := clean + WillFlags(info);
  }

  function WillFields(info: ConnectInfo): seq<byte> {
    if Given(info.willTopic) then Str(info.willTopic.value) + Str(info.willMessage) else []
  }

  function UserFields(info: ConnectInfo): seq<byte> {
    (if SendsUsername(info) then Str(Content(info.username)) else [])
    + if Given(info.password) then Str(info.password.value) else []
  }

  function ConnectFields(info: ConnectInfo): seq<byte> {
    Str(Content(info.clientId)) + WillFields(info) + UserFields(info)
  }

  function ConnectBody(info: ConnectInfo): seq<byte> {
    Protocol(info.version31) + [Flags(info)] + U16(info.keepalive) + ConnectFields(info)
  }

  // ----- reading -----

  datatype Will = Will(topic: seq<byte>, message: seq<byte>, qos: nat, retain: bool)

  datatype ConnectData = ConnectData(
    version31: bool, cleanSession: bool, keepalive: nat, clientId: seq<byte>,
    will: Option<Will>, username: Option<seq<byte>>, password: Option<seq<byte>>)

  /** A length-prefixed string at the front and what follows it. */
  function TakeStr(s: seq<byte>): Option<(seq<byte>, seq<byte>)> {
    if |s| < 2 || |s| < 2 + FromU16(s[0], s[1]) then None
    else var n := FromU16(s[0], s[1]); Some((s[2..2 + n], s[2 + n..]))
  }

  /** A string that is present exactly when its flag is set. */
  function TakeIf(flag: bool, s: seq<byte>): Option<(Option<seq<byte>>, seq<byte>)> {
    if !flag then Some((None, s))
    else match TakeStr(s)
      case None => None
      case Some((v, rest)) => Some((Some(v), rest))
  }

  /** Name and level, section 3.1.2.1 and 3.1.2.2: whether it is version 3.1, and the rest. */
  function TakeProtocol(s: seq<byte>): Option<(bool, seq<byte>)> {
    if |s| >= 9 && s[..9] == [0, 6, 77, 81, 73, 115, 100, 112, 3] then Some((true, s[9..]))   // MQIsdp
    else if |s| >= 7 && s[..7] == [0, 4, 77, 81, 84, 84, 4] then Some((false, s[7..]))        // MQTT
    else None
  }

  /** Will topic and message, both under the will flag. */
  function TakeWill(flags: byte, s: seq<byte>): Option<(Option<Will>, seq<byte>)> {
    match TakeIf(flags / 4 % 2 == 1, s)
    case None => None
    case Some((topic, s2)) =>
      match TakeIf(flags / 4 % 2 == 1, s2)
      case None => None
      case Some((message, s3)) =>
        if topic.None? || message.None? then Some((None, s3))
        else Some((Some(Will(topic.value, message.value, flags / 8 % 4, flags / 32 % 2 == 1)), s3))
  }

  /** User name and password; a password without a user name and left-over bytes are errors. */
  function TakeUser(flags: byte, s: seq<byte>): Option<(Option<seq<byte>>, Option<seq<byte>>)> {
    match TakeIf(flags / 128 == 1, s)
    case None => None
    case Some((username, s4)) =>
      match TakeIf(flags / 64 % 2 == 1, s4)
      case None => None
      case Some((password, s5)) =>
        if s5 != [] || (password.Some? && username.None?) then None else Some((username, password))
  }

  /** The payload in the order of section 3.1.3, each field present if and only if its flag is set. */
  function TakeFields(flags: byte, s: seq<byte>):
    Option<(seq<byte>, Option<Will>, Option<seq<byte>>, Option<seq<byte>>)>
  {
    match TakeStr(s)
    case None => None
    case Some((clientId, s1)) =>
      match TakeWill(flags, s1)
      case None => None
      case Some((will, s3)) =>
        match TakeUser(flags, s3)
        case None => None
        case Some((username, password)) => Some((clientId, will, username, password))
  }

  /** Flags and keep-alive, then the payload. */
  function ReadRest(version31: bool, s: seq<byte>): Option<ConnectData> {
    if |s| < 3 || s[0] % 2 == 1 || (s[0] / 4 % 2 == 0 && (s[0] / 8 % 4 != 0 || s[0] / 32 % 2 != 0)) then None
    else
      match TakeFields(s[0], s[3..])
      case None => None
      case Some((clientId, will, username, password)) =>
        Some(ConnectData(version31, s[0] / 2 % 2 == 1, FromU16(s[1], s[2]), clientId, will, username, password))
  }

  function ReadConnect(body: seq<byte>): Option<ConnectData> {
    match TakeProtocol(body)
    case None => None
    case Some((version31, s)) => ReadRest(version31, s)
  }

  /** What the broker should learn from the configuration. */
  function Meaning(info: ConnectInfo): ConnectData {
    ConnectData(
      info.version31, info.cleanSession, info.keepalive, Content(info.clientId),
      if Given(info.willTopic)
      then Some(Will(info.willTopic.value, info.willMessage, info.willQos, info.willRetain)) else None,
      if SendsUsername(info) then Some(Content(info.username)) else None,
      if Given(info.password) then Some(info.password.value) else None)
  }

  /** Field sizes and ranges the packet format can hold at all. */
  predicate Representable(info: ConnectInfo) {
    && |Content(info.clientId)| < 65536 && |Content(info.willTopic)| < 65536 && |info.willMessage| < 65536
    && |Content(info.username)| < 65536 && |Content(info.password)| < 65536
    && info.willQos < 4 && info.keepalive < 65536
  }

  lemma TakeStrStr(v: seq<byte>, rest: seq<byte>)
    requires |v| < 65536
    ensures TakeStr(Str(v) + rest) == Some((v, rest))
  {
    var s := Str(v) + rest;
    U16RoundTrip(|v|);
    assert s[0] == U16(|v|)[0] && s[1] == U16(|v|)[1];
    assert s[2..2 + |v|] == v && s[2 + |v|..] == rest;
  }

  lemma TakeIfStr(flag: bool, v: seq<byte>, rest: seq<byte>)
    requires |v| < 65536
    ensures TakeIf(flag, (if flag then Str(v) else []) + rest) == Some((if flag then Some(v) else None, rest))
  {
    if flag { TakeStrStr(v, rest); } else { assert [] + rest == rest; }
  }

  /** Six bit fields side by side can be read back. */
  lemma BitFields(c: nat, w: nat, q: nat, r: nat, p: nat, u: nat)
    requires c < 2 && w < 2 && q < 4 && r < 2 && p < 2 && u < 2
    ensures var f := 2 * c + 4 * w + 8 * q + 32 * r + 64 * p + 128 * u;
      && f % 2 == 0 && f / 2 % 2 == c && f / 4 % 2 == w && f / 8 % 4 == q
      && f / 32 % 2 == r && f / 64 % 2 == p && f / 128 == u
  {
    var f := 2 * c + 4 * w + 8 * q + 32 * r + 64 * p + 128 * u;
    assert f / 2 == c + 2 * (w + 2 * q + 8 * r + 16 * p + 32 * u);
    assert f / 4 == w + 2 * (q + 4 * r + 8 * p + 16 * u);
    assert f / 8 == q + 4 * (r + 2 * p + 4 * u);
    assert f / 32 == r + 2 * (p + 2 * u);
    assert f / 64 == p + 2 * u;
  }

  lemma FlagBits(info: ConnectInfo)
    requires info.willQos < 4
    ensures var f := Flags(info);
      && f % 2 == 0
      && (f / 2 % 2 == 1 <==> info.cleanSession)
      && (f / 4 % 2 == 1 <==> Given(info.willTopic))
      && f / 8 % 4 == (if Given(info.willTopic) then info.willQos else 0)
      && (f / 32 % 2 == 1 <==> Given(info.willTopic) && info.willRetain)
      && (f / 64 % 2 == 1 <==> Given(info.password))
      && (f / 128 == 1 <==> SendsUsername(info))
  {
    var w := Given(info.willTopic);
    BitFields(if info.cleanSession then 1 else 0, if w then 1 else 0, if w then info.willQos else 0,
              if w && info.willRetain then 1 else 0, if Given(info.password) then 1 else 0,
              if SendsUsername(info) then 1 else 0);
  }

  lemma WillRead(info: ConnectInfo, rest: seq<byte>)
    requires Representable(info)
    ensures TakeWill(Flags(info), WillFields(info) + rest) == Some((Meaning(info).will, rest))
  {
    FlagBits(info);
    var w := Given(info.willTopic);
    var s2 := (if w then Str(info.willMessage) else []) + rest;
    assert WillFields(info) + rest == (if w then Str(Content(info.willTopic)) else []) + s2;
    TakeIfStr(w, Content(info.willTopic), s2);
    TakeIfStr(w, info.willMessage, rest);
  }

  lemma UserRead(info: ConnectInfo)
    requires Representable(info)
    ensures TakeUser(Flags(info), UserFields(info)) == Some((Meaning(info).username, Meaning(info).password))
  {
    FlagBits(info);
    var p := if Given(info.password) then Str(Content(info.password)) else [];
    assert UserFields(info) == (if SendsUsername(info) then Str(Content(info.username)) else []) + p;
    assert p == p + [];
    TakeIfStr(SendsUsername(info), Content(info.username), p);
    TakeIfStr(Given(info.password), Content(info.password), []);
  }

  lemma FieldsRoundTrip(info: ConnectInfo)
    requires Representable(info)
    ensures TakeFields(Flags(info), ConnectFields(info)) ==
            var m := Meaning(info); Some((m.clientId, m.will, m.username, m.password))
  {
    var rest := WillFields(info) + UserFields(info);
    assert ConnectFields(info) == Str(Content(info.clientId)) + rest;
    TakeStrStr(Content(info.clientId), rest);
    WillRead(info, UserFields(info));
    UserRead(info);
  }

  lemma ProtocolRead(version31: bool, s: seq<byte>)
    ensures TakeProtocol(Protocol(version31) + s) == Some((version31, s))
  {
    var body := Protocol(version31) + s;
    var n := |Protocol(version31)|;
    assert body[..n] == Protocol(version31) && body[n..] == s;
    if !version31 && |body| >= 9 {
      assert body[..9][1] == 4 && Protocol(true)[1] == 6;
    }
  }

  lemma RestRead(info: ConnectInfo)
    requires Representable(info)
    ensures ReadRest(info.version31, [Flags(info)] + U16(info.keepalive) + ConnectFields(info)) == Some(Meaning(info))
  {
    var s := [Flags(info)] + U16(info.keepalive) + ConnectFields(info);
    assert s[0] == Flags(info) && s[1] == U16(info.keepalive)[0] && s[2] == U16(info.keepalive)[1];
    assert s[3..] == ConnectFields(info);
    FlagBits(info);
    FieldsRoundTrip(info);
    U16RoundTrip(info.keepalive);
  }

  /** Reading the built body gives back exactly the configuration. */
  lemma ConnectRoundTrip(info: ConnectInfo)
    requires Representable(info)
    ensures ReadConnect(ConnectBody(info)) == Some(Meaning(info))
  {
    var s := BodyParts(info);
    ReadAfterProtocol(info.version31, s);
    RestRead(info);
  }

  lemma BodyParts(info: ConnectInfo) returns (s: seq<byte>)
    ensures s == [Flags(info)] + U16(info.keepalive) + ConnectFields(info)
    ensures ConnectBody(info) == Protocol(info.version31) + s
  {
    s := [Flags(info)] + U16(info.keepalive) + ConnectFields(info);
    FourParts(Protocol(info.version31), [Flags(info)], U16(info.keepalive), ConnectFields(info));
  }

  lemma FourParts(a: seq<byte>, b: seq<byte>, c: seq<byte>, d: seq<byte>)
    ensures a + b + c + d == a + (b + c + d)
  {
  }

  lemma ReadAfterProtocol(version31: bool, s: seq<byte>)
    ensures ReadConnect(Protocol(version31) + s) == ReadRest(version31, s)
  {
    ProtocolRead(version31, s);
  }

  /** The finished packet, framed and read back by the protocol's own rules. */
  lemma ConnectPacketFaithful(info: ConnectInfo)
    requires Representable(info)
    ensures |ConnectBody(info)| < VarInt.LIMIT
    ensures var p := Unframe(Whole(HeaderByte(CONNECT, 0, 0, 0), ConnectBody(info)));
      p.Some? && p.value.0 == HeaderByte(CONNECT, 0, 0, 0) && ReadConnect(p.value.1) == Some(Meaning(info))
  {
    UnframeWhole(HeaderByte(CONNECT, 0, 0, 0), ConnectBody(info));
    ConnectRoundTrip(info);
  }

  /** The password flag implies the user name flag [MQTT-3.1.2-22]. */
  lemma PasswordNeedsUsername(info: ConnectInfo)
    requires info.willQos < 4
    ensures Flags(info) / 64 % 2 == 1 ==> Flags(info) / 128 == 1
  {
    FlagBits(info);
  }
}
