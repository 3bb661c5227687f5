/**
 * The client as a state machine over its outbox: every operation that can change a stored
 * message, as one step under the API lock. MQTT 3.1.1; event handlers do nothing.
 *
 * Besides what the program keeps, a state records its own history: every message ever
 * stored, and where each one went.
 */
module Session {
  import opened Bytes
  import opened Packet
  import opened Connections
  import opened OutboxModel

  datatype Config = Config(room: nat, limit: nat, incremental: bool, expiry: nat)

  datatype Phase = Init | Connected | WaitReconnect | Disconnected

  /** A message handed to the outbox. */
  datatype Message = Message(bytes: seq<byte>, id: nat, kind: nat, qos: nat)

  /** A message as it was when it was stored, and how many identifiers had been drawn then. */
  datatype Birth = Birth(m: Message, draw: nat)

  datatype State = State(
    phase: Phase,
    outbox: seq<Entry>,
    lastId: nat,              // last_message_id
    draws: nat,               // how many identifiers were ever drawn
    births: seq<Birth>,       // all messages ever stored; the index is the serial number
    resent: seq<nat>,         // serials first sent by the resend path, in order
    published: seq<nat>,      // serials whose PUBLISHED event was dispatched
    sentQos0: seq<nat>,       // stored QoS 0 messages deleted after sending
    expired: seq<nat>,        // PUBLISH messages deleted by age
    others: seq<nat>)         // SUBSCRIBE and UNSUBSCRIBE messages that are gone

  datatype Outcome = NotConnected | WriteFailed | Sent(tick: int)

  datatype Label =
    | Publish(m: Message, len: nat, tick: int, outcome: Outcome)        // esp_mqtt_client_publish, QoS > 0
    | PublishQos0(outcome: Outcome)                                     // ... QoS 0: nothing is stored
    | Enqueue(m: Message, len: nat, tick: int)                          // esp_mqtt_client_enqueue that stores
    | Subscribe(m: Message, tick: int)                                  // both end TRANSMITTED, written or not
    | Unsubscribe(m: Message, tick: int)
    | IdWasted(id: nat)                                                 // drawn for a packet that is not stored
    | Acked(kind: nat, id: nat)                                         // PUBACK, PUBCOMP, SUBACK, UNSUBACK
    | Pubrec(id: nat, drawn: nat)                                       // drawn: for the PUBREL, when id is 0
    | ResendQueued(ok: bool)
    | ResendTransmitted(now: int, timeout: int, ok: bool)
    | ResendPubrel(now: int, timeout: int, drawn: nat, ok: bool)
    | Expire(now: int)
    | Abort                                                             // esp_mqtt_abort_connection
    | Enter(phase: Phase)                                               // the task's own changes of state

  // ----- the pieces of a step -----

  /** The id of the message acknowledged by a packet of this kind belongs to ... */
  function Initiator(kind: nat): nat {
    if kind == SUBACK then SUBSCRIBE else if kind == UNSUBACK then UNSUBSCRIBE else PUBLISH
  }

  function Draw(cfg: Config, s: State, id: nat): State {
    s.(lastId := if cfg.incremental then id else s.lastId, draws := s.draws + 1)
  }

  /** A drawn identifier is the next one, or any non-zero one. */
  predicate Drawn(cfg: Config, s: State, id: nat)
    requires s.lastId < 65536
  {
    1 <= id < 65536 && (cfg.incremental ==> id == NextId(s.lastId))
  }

  function Store(s: State, m: Message, tick: int): State {
    s.(outbox := s.outbox + [Entry(m.bytes, m.id, m.kind, m.qos, tick, Queued, |s.births|)],
       births := s.births + [Birth(m, s.draws)])
  }

  function Transmit(s: State, id: nat, tick: int): State {
    s.(outbox := WithPending(WithTick(s.outbox, id, tick), id, Transmitted))
  }

  function Abort'(s: State): State { s.(phase := WaitReconnect) }

  function AckStep(s: State, kind: nat, id: nat): State {
    var k := First(s.outbox, ByIdAndKind(id, Initiator(kind)));
    if k == |s.outbox| then s
    else if Initiator(kind) == PUBLISH then
      s.(outbox := RemoveAt(s.outbox, k), published := s.published + [s.outbox[k].serial])
    else
      s.(outbox := RemoveAt(s.outbox, k), others := s.others + [s.outbox[k].serial])
  }

  function ResendQueuedStep(s: State, ok: bool): State {
    var k := First(s.outbox, ByPending(Queued));
    if k == |s.outbox| then s
    else if !ok then Abort'(s)
    else
      var e := s.outbox[k];
      var t := s.(resent := s.resent + [e.serial]);
      if e.kind == PUBLISH && e.qos == 0 then t.(outbox := RemoveAt(s.outbox, k), sentQos0 := s.sentQos0 + [e.serial])
      else if e.qos > 0 && e.bytes != [] && TypeOf(e.bytes[0]) == PUBLISH then
        t.(outbox := WithPending(s.outbox, e.id, Transmitted))
      else t
  }

  function ResendTransmittedStep(s: State, now: int, timeout: int, ok: bool): State {
    var k := First(s.outbox, ByPending(Transmitted));
    if k == |s.outbox| || now - s.outbox[k].tick <= timeout then s
    else
      var e := s.outbox[k];
      var t := if e.kind == PUBLISH && e.qos > 0 && e.bytes != [] then s.(outbox := s.outbox[k := e.WithDup()]) else s;
      if ok then t else Abort'(t)
  }

  /** The PUBREL again. An entry without identifier makes the builder draw one. */
  function ResendPubrelStep(cfg: Config, s: State, now: int, timeout: int, drawn: nat, ok: bool): State {
    var k := First(s.outbox, ByPending(Acknowledged));
    if k == |s.outbox| || now - s.outbox[k].tick <= timeout then s
    else
      var t := AnswerStep(cfg, s, s.outbox[k].id, drawn);
      if cfg.room < 7 || ok then t else Abort'(t)
  }

  function Serials(s: seq<Entry>): seq<nat> {
    if s == [] then [] else [s[0].serial] + Serials(s[1..])
  }

  function OfKind(s: seq<Entry>, publish: bool): seq<Entry> {
    if s == [] then [] else (if (s[0].kind == PUBLISH) == publish then [s[0]] else []) + OfKind(s[1..], publish)
  }

  function ExpireStep(cfg: Config, s: State, now: int): State {
    var q := Expired(now, cfg.expiry);
    s.(outbox := Without(s.outbox, q),
       expired := s.expired + Serials(OfKind(Matched(s.outbox, q), true)),
       others := s.others + Serials(OfKind(Matched(s.outbox, q), false)))
  }

  // ----- steps -----

  /** Bytes that a builder can have produced for a message. */
  predicate Built(m: Message) {
    && m.bytes != [] && TypeOf(m.bytes[0]) == m.kind && DupOf(m.bytes[0]) == 0
    && (m.kind == PUBLISH || m.kind == SUBSCRIBE || m.kind == UNSUBSCRIBE)
    && m.id < 65536 && (m.id == 0 <==> m.kind == PUBLISH && m.qos == 0)
  }

  predicate UnderLimit(cfg: Config, s: State, len: nat) {
    cfg.limit > 0 ==> len + Size(s.outbox) <= cfg.limit
  }

  /** A message that publish or enqueue may store. */
  predicate MayStore(cfg: Config, s: State, m: Message, len: nat)
    requires s.lastId < 65536
  {
    && Built(m) && m.kind == PUBLISH && (m.qos > 0 ==> Drawn(cfg, s, m.id))
    && UnderLimit(cfg, s, len) && |m.bytes| <= cfg.room + len
  }

  function StoreStep(cfg: Config, s: State, m: Message, tick: int): State {
    Store(if m.qos > 0 then Draw(cfg, s, m.id) else s, m, tick)
  }

  function PublishStep(cfg: Config, s: State, m: Message, tick: int, outcome: Outcome): State {
    AfterSend(Store(Draw(cfg, s, m.id), m, tick), m.id, outcome)
  }

  function AfterSend(s: State, id: nat, outcome: Outcome): State {
    match outcome
    case NotConnected => s
    case WriteFailed => Abort'(s)
    case Sent(tick) => Transmit(s, id, tick)
  }

  predicate MaySubscribe(cfg: Config, s: State, m: Message, kind: nat)
    requires s.lastId < 65536
  {
    Built(m) && m.kind == kind && Drawn(cfg, s, m.id) && |m.bytes| <= cfg.room && s.phase == Connected
  }

  /** Stored, and marked as transmitted whether or not it then could be written. */
  function SubscribeStep(cfg: Config, s: State, m: Message, tick: int): State {
    MarkStep(Store(Draw(cfg, s, m.id), m, tick), m.id, Transmitted)
  }

  function MarkStep(s: State, id: nat, p: Pending): State {
    s.(outbox := WithPending(s.outbox, id, p))
  }

  /** An acknowledgement for identifier 0 makes the builder draw one. */
  function AnswerStep(cfg: Config, s: State, id: nat, drawn: nat): State {
    if id == 0 then Draw(cfg, s, drawn) else s
  }

  function PubrecStep(cfg: Config, s: State, id: nat, drawn: nat): State {
    if cfg.room < 7 then Abort'(AnswerStep(cfg, s, id, drawn))
    else MarkStep(AnswerStep(cfg, s, id, drawn), id, Acknowledged)
  }

  /** What the task relies on when it sends from the outbox. */
  ghost predicate Sound(box: seq<Entry>) {
    forall i :: 0 <= i < |box| ==> box[i].bytes != [] && box[i].id < 65536
  }

  /** The step is one the program can take in this state. */
  predicate Enabled(cfg: Config, s: State, l: Label)
    requires s.lastId < 65536
  {
    match l
    case Publish(m, len, tick, outcome) =>
      MayStore(cfg, s, m, len) && m.qos > 0 && (outcome == NotConnected <==> s.phase != Connected)
    case PublishQos0(outcome) => outcome == NotConnected <==> s.phase != Connected
    case Enqueue(m, len, tick) => MayStore(cfg, s, m, len)
    case Subscribe(m, tick) => MaySubscribe(cfg, s, m, SUBSCRIBE) && UnderLimit(cfg, s, 0)
    case Unsubscribe(m, tick) => MaySubscribe(cfg, s, m, UNSUBSCRIBE)
    case IdWasted(id) => Drawn(cfg, s, id)
    case Acked(kind, id) =>
      (kind == PUBACK || kind == PUBCOMP || kind == SUBACK || kind == UNSUBACK) && s.phase == Connected
    case Pubrec(id, drawn) => s.phase == Connected && (id == 0 ==> Drawn(cfg, s, drawn))
    case ResendQueued(ok) => s.phase == Connected
    case ResendTransmitted(now, timeout, ok) => true
    case ResendPubrel(now, timeout, drawn, ok) => Drawn(cfg, s, drawn)
    case Expire(now) => true
    case Abort => true
    case Enter(phase) => true
  }

  function Next(cfg: Config, s: State, l: Label): State {
    match l
    case Publish(m, len, tick, outcome) => PublishStep(cfg, s, m, tick, outcome)
    case PublishQos0(outcome) => if outcome == WriteFailed then Abort'(s) else s
    case Enqueue(m, len, tick) => StoreStep(cfg, s, m, tick)
    case Subscribe(m, tick) => SubscribeStep(cfg, s, m, tick)
    case Unsubscribe(m, tick) => SubscribeStep(cfg, s, m, tick)
    case IdWasted(id) => Draw(cfg, s, id)
    case Acked(kind, id) => AckStep(s, kind, id)
    case Pubrec(id, drawn) => PubrecStep(cfg, s, id, drawn)
    case ResendQueued(ok) => ResendQueuedStep(s, ok)
    case ResendTransmitted(now, timeout, ok) => ResendTransmittedStep(s, now, timeout, ok)
    case ResendPubrel(now, timeout, drawn, ok) => ResendPubrelStep(cfg, s, now, timeout, drawn, ok)
    case Expire(now) => ExpireStep(cfg, s, now)
    case Abort => Abort'(s)
    case Enter(phase) => s.(phase := phase)
  }

  /** One step of the client. */
  ghost predicate Step(cfg: Config, s: State, l: Label, t: State) {
    s.lastId < 65536 && Enabled(cfg, s, l) && t == Next(cfg, s, l)
  }

  /** What a pass of the task in a connected client sends from the outbox: the first queued
      message, or else, when it is time, the first transmitted and the first acknowledged one.
      `first` and `second` say which writes succeeded. */
  function SendStep(cfg: Config, s: State, now: int, timeout: int, due: bool, first: bool, second: bool,
                    drawn: nat): State
  {
    if First(s.outbox, ByPending(Queued)) < |s.outbox| then ResendQueuedStep(s, first)
    else if due then ResendPubrelStep(cfg, ResendTransmittedStep(s, now, timeout, first), now, timeout, drawn, second)
    else s
  }

  /** The steps it consists of. */
  function SendLabels(s: State, now: int, timeout: int, due: bool, first: bool, second: bool, drawn: nat): seq<Label> {
    if First(s.outbox, ByPending(Queued)) < |s.outbox| then [ResendQueued(first)]
    else if due then [ResendTransmitted(now, timeout, first), ResendPubrel(now, timeout, drawn, second)]
    else []
  }

  function Start(lastId: nat): State {
    State(Init, [], lastId, 0, [], [], [], [], [], [])
  }
}
