/**
 * The MQTT 3.1.1 client of components/mqtt/mqtt_client.c around its outbox: publish, enqueue,
 * subscribe, unsubscribe, acknowledgements, resending and expiry. Each method is one or more
 * steps of `Session`, taken on the real buffers and the real list; the clock is a parameter.
 */
module Clients {
  import opened Bytes
  import opened VarInt
  import opened Packet
  import opened Decode
  import opened Connections
  import opened Transport
  import opened Sender
  import opened EndToEnd
  import opened OutboxModel
  import opened Outboxes
  import opened Session
  import opened SessionInvariants
  import opened SessionEffects

  /** The message that a publish stores. */
  function PublishMessage(topic: seq<byte>, data: Option<seq<byte>>, qos: nat, retain: nat, id: nat): Message {
    Message(PublishPacket(topic, Content(data), qos, retain, id), id, PUBLISH, qos)
  }

  /** The whole packet, and the space kept for its header, fit the buffer. */
  predicate Fits(topic: seq<byte>, data: Option<seq<byte>>, qos: nat, room: nat) {
    FitsRoom(topic, Content(data), qos, 0, room)
  }

  /** The bytes in front of `data` in the caller's memory are there, as far as sending would go
      back to them for a payload offset that an earlier message left behind. */
  predicate InReach(topic: Option<seq<byte>>, data: Option<seq<byte>>, qos: nat, room: nat, stale: int,
                    before: seq<byte>)
  {
    && (topic.Some? ==> Readable(topic.value, Content(data), qos, 0, room, stale, before))
    && (data.None? ==> before == [])
  }

  /** The send loop has what it needs to write `WireBytes`, if the memory is there. */
  ghost predicate Prepared(conn: Connection, topic: seq<byte>, data: Option<seq<byte>>, qos: nat, retain: nat, id: nat,
                           stale: int, before: seq<byte>)
    reads conn`data, conn`start, conn`length, conn`fragOffset, conn.data
  {
    var payload := Content(data);
    Readable(topic, payload, qos, id, conn.buffer.Length, stale, before) ==>
      Loaded(conn, WireBytes(topic, payload, qos, retain, id, conn.buffer.Length, stale, before), 0,
             before + payload, |before|, |payload|)
  }

  /** The bytes of a PUBLISH went out, with the stray end of `WireBytes` if there is one. */
  ghost predicate Wrote(was: seq<byte>, sent: seq<byte>, topic: seq<byte>, data: Option<seq<byte>>, qos: nat,
                        retain: nat, id: nat, room: nat, stale: int, before: seq<byte>)
  {
    && Readable(topic, Content(data), qos, id, room, stale, before)
    && sent == was + WireBytes(topic, Content(data), qos, retain, id, room, stale, before)
  }

  /** The identifier of an answer: the one received, or a new one in place of 0. */
  function AnswerId(given: nat, drawn: nat): nat { if given == 0 then drawn else given }

  // ----- what a received packet does -----

  predicate Acknowledges(kind: nat) { kind == PUBACK || kind == PUBCOMP || kind == SUBACK || kind == UNSUBACK }

  /** The packet that answers one of this kind, or 0. */
  function AnswerTo(kind: nat, qos: nat): nat {
    if kind == PUBREC then PUBREL
    else if kind == PUBREL then PUBCOMP
    else if kind == PUBLISH && qos == 1 then PUBACK
    else if kind == PUBLISH && qos == 2 then PUBREC
    else 0
  }

  /** The step of the session for a received packet. */
  function HandledStep(cfg: Config, s: State, kind: nat, qos: nat, id: nat, drawn: nat): State {
    if Acknowledges(kind) then AckStep(s, kind, id)
    else if kind == PUBREC then PubrecStep(cfg, s, id, drawn)
    else if AnswerTo(kind, qos) != 0 then AnswerStep(cfg, s, id, drawn)
    else s
  }

  /** No answer is due, or it cannot be built. */
  predicate Answerless(kind: nat, qos: nat, room: nat) { AnswerTo(kind, qos) == 0 || room < 7 }

  /** How many writes have failed if the answer was not written. */
  function Failures(kind: nat, qos: nat, room: nat, written: bool): nat {
    if Answerless(kind, qos, room) || written then 0 else 1
  }

  /** ... and what is written. */
  function HandledBytes(kind: nat, qos: nat, id: nat, drawn: nat, room: nat, total: nat): seq<byte>
    requires total == 0 || total >= 5
  {
    if AnswerTo(kind, qos) == 0 || room < 7 then [] else AckBytes(AnswerTo(kind, qos), AnswerId(id, drawn), total)
  }

  // ----- what the task writes from the outbox -----

  function QueuedBytes(s: State): seq<byte> {
    var k := First(s.outbox, ByPending(Queued));
    if k < |s.outbox| then s.outbox[k].bytes else []
  }

  function TransmittedBytes(s: State, now: int, timeout: int): seq<byte> {
    var k := First(s.outbox, ByPending(Transmitted));
    if k < |s.outbox| && now - s.outbox[k].tick > timeout then Resent(s.outbox[k]).bytes else []
  }

  function PubrelBytes(s: State, now: int, timeout: int, drawn: nat, room: nat, total: nat): seq<byte>
    requires total == 0 || total >= 5
  {
    var k := First(s.outbox, ByPending(Acknowledged));
    if k < |s.outbox| && now - s.outbox[k].tick > timeout && room >= 7
    then AckBytes(PUBREL, AnswerId(s.outbox[k].id, drawn), total) else []
  }

  /** One pass in which every write succeeds; the expired messages are gone. */
  function PassBytes(cfg: Config, s: State, now: int, timeout: int, due: bool, drawn: nat, total: nat): seq<byte>
    requires total == 0 || total >= 5
  {
    if First(s.outbox, ByPending(Queued)) < |s.outbox| then QueuedBytes(s)
    else if due then
      TransmittedBytes(s, now, timeout)
      + PubrelBytes(ResendTransmittedStep(s, now, timeout, true), now, timeout, drawn, cfg.room, total)
    else []
  }

  // ----- the same in bytes and entries -----

  /** The answer to a packet of type `kind`, sections 3.3.4 to 3.6.4 of MQTT 3.1.1: PUBACK to a
      PUBLISH with QoS 1 and PUBREC to one with QoS 2, PUBREL to a PUBREC, PUBCOMP to a PUBREL. */
  function WireAnswer(kind: nat, qos: nat, id: nat): seq<byte>
    requires id < 65536
  {
    if kind == 3 && qos == 1 then [0x40, 2, id / 256, id % 256]
    else if kind == 3 && qos == 2 then [0x50, 2, id / 256, id % 256]
    else if kind == 5 then [0x62, 2, id / 256, id % 256]
    else if kind == 6 then [0x70, 2, id / 256, id % 256]
    else []
  }

  /** What is written for a received packet, if no fragment total was left behind. */
  lemma AnswersOnWire(kind: nat, qos: nat, id: nat, drawn: nat, room: nat)
    requires room >= 7 && id < 65536 && 1 <= drawn < 65536
    ensures HandledBytes(kind, qos, id, drawn, room, 0) == WireAnswer(kind, qos, if id == 0 then drawn else id)
  {
    var a := AnswerId(id, drawn);
    AckOnWire(a);
    AckBytesExactly(PUBACK, a, 0);
    AckBytesExactly(PUBREC, a, 0);
    AckBytesExactly(PUBREL, a, 0);
    AckBytesExactly(PUBCOMP, a, 0);
  }

  /** PUBACK, PUBCOMP, SUBACK and UNSUBACK take out the first message they are for. */
  lemma HandledRemoves(cfg: Config, s: State, kind: nat, qos: nat, id: nat, drawn: nat, k: nat)
    requires kind in {4, 7, 9, 11} && FirstOf(s.outbox, id, AckFor(kind), k)
    ensures HandledStep(cfg, s, kind, qos, id, drawn).outbox == s.outbox[..k] + s.outbox[k + 1..]
  {
    AckRemoves(s, kind, id, k);
  }

  /** PUBREC marks the first message with its identifier, and no other packet touches the outbox. */
  lemma HandledMarks(cfg: Config, s: State, kind: nat, qos: nat, id: nat, drawn: nat)
    requires kind !in {4, 7, 9, 11}
    ensures var box := HandledStep(cfg, s, kind, qos, id, drawn).outbox;
      if kind == 5 && cfg.room >= 7 then MarkedAs(s.outbox, box, id, Acknowledged) else box == s.outbox
  {
    PubrecRecords(cfg, s, id, drawn);
  }

  /** A pass with a queued message writes the first one, as it is stored, and nothing else. */
  lemma QueuedFirst(cfg: Config, s: State, now: int, timeout: int, due: bool, drawn: nat, total: nat, k: nat)
    requires FirstIn(s.outbox, Queued, k) && (total == 0 || total >= 5)
    ensures PassBytes(cfg, s, now, timeout, due, drawn, total) == s.outbox[k].bytes
  {
    FirstFound(s.outbox, Queued, k);
  }

  /** The first transmitted message, if it is older than the time-out, with DUP if it is a
      PUBLISH with QoS 1 or 2. */
  function Again(box: seq<Entry>, now: int, timeout: int, j: nat): seq<byte>
    requires j <= |box|
  {
    if j == |box| || now - box[j].tick <= timeout then []
    else if box[j].kind == 3 && box[j].qos > 0 && box[j].bytes != [] then
      var b := box[j].bytes[0];
      [if b / 8 % 2 == 1 then b else b + 8] + box[j].bytes[1..]
    else box[j].bytes
  }

  /** The PUBREL of the first acknowledged one, if it is. */
  function Release(box: seq<Entry>, now: int, timeout: int, k: nat): seq<byte>
    requires k <= |box| && (k < |box| ==> box[k].id < 65536)
  {
    if k == |box| || now - box[k].tick <= timeout then []
    else [0x62, 2, box[k].id / 256, box[k].id % 256]
  }

  /** Without a queued message a pass that is due writes the first transmitted message and the
      PUBREL of the first acknowledged one. */
  lemma DueWrites(cfg: Config, s: State, now: int, timeout: int, drawn: nat, j: nat, k: nat)
    requires cfg.room >= 7 && FirstOrNone(s.outbox, Queued, |s.outbox|)
    requires FirstOrNone(s.outbox, Transmitted, j)
    requires FirstOrNone(s.outbox, Acknowledged, k) && (k < |s.outbox| ==> 1 <= s.outbox[k].id < 65536)
    ensures PassBytes(cfg, s, now, timeout, true, drawn, 0) ==
            Again(s.outbox, now, timeout, j) + Release(s.outbox, now, timeout, k)
  {
    FirstFound(s.outbox, Queued, |s.outbox|);
    TransmittedWrites(s, now, timeout, j);
    var t := ResendTransmittedStep(s, now, timeout, true);
    assert |t.outbox| == |s.outbox|;
    forall i | 0 <= i < |s.outbox| ensures t.outbox[i] == s.outbox[i].(bytes := t.outbox[i].bytes) {}
    ReleaseWrites(cfg, t, now, timeout, drawn, k);
  }

  lemma TransmittedWrites(s: State, now: int, timeout: int, j: nat)
    requires FirstOrNone(s.outbox, Transmitted, j)
    ensures TransmittedBytes(s, now, timeout) == Again(s.outbox, now, timeout, j)
  {
    FirstFound(s.outbox, Transmitted, j);
  }

  lemma ReleaseWrites(cfg: Config, s: State, now: int, timeout: int, drawn: nat, k: nat)
    requires cfg.room >= 7
    requires FirstOrNone(s.outbox, Acknowledged, k) && (k < |s.outbox| ==> 1 <= s.outbox[k].id < 65536)
    ensures PubrelBytes(s, now, timeout, drawn, cfg.room, 0) == Release(s.outbox, now, timeout, k)
  {
    FirstFound(s.outbox, Acknowledged, k);
    if k < |s.outbox| {
      AckOnWire(s.outbox[k].id);
      AckBytesExactly(PUBREL, s.outbox[k].id, 0);
    }
  }

  lemma AckBytesExactly(kind: nat, id: nat, total: nat)
    requires total == 0 || total >= 5
    ensures AckBytes(kind, id, total) == AckPacket(kind, id) <==> total == 0 || total == 7
  {
    StaleTotal(HeaderByte(kind, 0, if kind == PUBREL then 1 else 0, 0), total, U16(id));
  }

  /** What the resend path makes of a transmitted message. */
  function Resent(e: Entry): Entry {
    if e.kind == PUBLISH && e.qos > 0 && e.bytes != [] then e.WithDup() else e
  }

  function WithResent(t: State, k: nat): State
    requires k < |t.outbox|
  {
    t.(outbox := t.outbox[k := Resent(t.outbox[k])])
  }

  lemma ResendStep(t: State, now: int, timeout: int, ok: bool, k: nat)
    requires k == First(t.outbox, ByPending(Transmitted)) && k < |t.outbox| && now - t.outbox[k].tick > timeout
    ensures ResendTransmittedStep(t, now, timeout, ok) == if ok then WithResent(t, k) else Abort'(WithResent(t, k))
  {
    assert t.outbox[k := t.outbox[k]] == t.outbox;
  }

  class Client {
    ghost const cfg: Config
    const limit: nat              // config->outbox_limit
    const expiry: nat             // OUTBOX_EXPIRED_TIMEOUT_MS
    const conn: Connection
    const outbox: Outbox
    const link: Link
    var phase: Phase
    var pendingId: nat
    var pendingKind: nat
    var pendingQos: nat

    /** The client is in this state of `Session`. */
    ghost predicate Is(t: State)
      reads `phase, conn, outbox, outbox.nodes, outbox.blocks
    {
      Matches(t)
    }

    ghost predicate Matches(t: State)
      reads `phase, conn, outbox, outbox.nodes, outbox.blocks
    {
      && conn.Valid()
      && outbox.Holds(t.outbox, |t.births|) && conn.buffer !in outbox.blocks
      && cfg == Config(conn.buffer.Length, limit, conn.incremental, expiry)
      && 5 <= conn.buffer.Length < LIMIT
      && t.phase == phase && t.lastId < 65536 && (cfg.incremental ==> t.lastId == conn.lastId)
    }

    constructor (room: nat, limit: nat, expiry: nat, incremental: bool, link: Link)
      requires 5 <= room < LIMIT
      ensures Is(Start(0)) && fresh(conn) && fresh(conn.buffer) && fresh(outbox) && this.link == link
      ensures cfg == Config(room, limit, incremental, expiry) && outbox.nodes == {} && outbox.blocks == {}
      ensures conn.fragTotal == 0 && conn.fragOffset == 0
    {
      this.cfg := Config(room, limit, incremental, expiry);
      this.limit, this.expiry, this.link := limit, expiry, link;
      conn := new Connection(room, incremental);
      outbox := new Outbox();
      phase, pendingId, pendingKind, pendingQos := Init, 0, 0, 0;
    }

    /** `esp_mqtt_abort_connection`. */
    method Abort(ghost t: State)
      requires Is(t)
      modifies this`phase
      ensures Is(Abort'(t))
    {
      phase := WaitReconnect;
    }

    /** The pending_* fields together. */
    method SetPendingMessage(id: nat, kind: nat, qos: nat)
      modifies this`pendingId, this`pendingKind, this`pendingQos
      ensures pendingId == id && pendingKind == kind && pendingQos == qos
    {
      pendingId, pendingKind, pendingQos := id, kind, qos;
    }

    /** `mqtt_enqueue`: the outbound message, and payload that did not fit the buffer. */
    method EnqueueOutbound(remaining: seq<byte>, now: int, ghost m: Message, ghost t: State)
      requires Is(t) && conn.HasOutbound()
      requires m == Message(conn.Outbound() + remaining, pendingId, pendingKind, pendingQos)
      modifies outbox, outbox.nodes`next
      ensures Is(Store(t, m, now))
      ensures fresh(outbox.nodes - old(outbox.nodes))
    {
      assert conn.data[conn.start..conn.start + conn.length] + remaining == m.bytes;
      var item := outbox.Enqueue(conn.data, conn.start, conn.length, remaining, pendingId, pendingKind, pendingQos,
                                 now);
    }

    /** What the API documents as acceptable, within the sizes the packet format can express,
        on a connection without a fragment total left behind by a message that was not sent. */
    ghost predicate PublishArgs(topic: Option<seq<byte>>, data: Option<seq<byte>>, len: int, qos: nat, retain: nat)
      reads conn
    {
      PublishReady(conn, topic, data, len, qos, retain)
    }

    /** Storing a built PUBLISH. */
    method StorePublish(remaining: seq<byte>, r: nat, qos: nat, now: int, ghost m: Message, ghost t: State)
      requires Is(t) && StoresAs(m, remaining, r, qos)
      modifies this`pendingId, this`pendingKind, this`pendingQos, outbox, outbox.nodes`next
      ensures Is(Store(t, m, now))
      ensures fresh(outbox.nodes - old(outbox.nodes))
    {
      assert conn.Outbound()[0] == conn.data[conn.start];
      SetPendingMessage(r, TypeOf(conn.data[conn.start]), qos);
      EnqueueOutbound(remaining, now, m, t);
    }

    /** An identifier may have been drawn, also for a packet that was then not built. */
    ghost function AfterBuild(t: State, topic: Option<seq<byte>>, data: Option<seq<byte>>, len: int, qos: nat,
                              r: int): State
      requires t.lastId < 65536
    {
      if DrawsId(topic, data, len, qos, conn.buffer.Length)
      then Draw(cfg, t, if r > 0 then r else NextId(t.lastId)) else t
    }

    /** `make_publish`: builds the packet, drawing an identifier if the QoS asks for one. */
    method BuildPublish(topic: Option<seq<byte>>, data: Option<seq<byte>>, len: int, qos: nat, retain: nat,
                        ghost before: seq<byte>, ghost t: State)
      returns (r: int, remaining: seq<byte>)
      requires Is(t) && PublishArgs(topic, data, len, qos, retain)
      modifies conn, conn.buffer
      ensures conn.HasOutbound()
      ensures r < 0 <==> !Publishable(topic, data, len, qos, conn.buffer.Length)
      ensures r < 0 ==> Is(AfterBuild(t, topic, data, len, qos, r))
      ensures r >= 0 ==>
                && Is(if qos > 0 then Draw(cfg, t, r) else t)
                && conn.length > 0
                && (if qos > 0 then Drawn(cfg, t, r) else r == 0)
                && StoresAs(PublishMessage(topic.value, data, qos, retain, r), remaining, r, qos)
                && Prepared(conn, topic.value, data, qos, retain, r, old(conn.fragOffset), before)
                && (conn.fragTotal == 0 <==> Fits(topic.value, data, qos, conn.buffer.Length))
    {
      r, remaining := MakePublish(conn, topic, data, len, qos, retain, before);
      if r >= 0 {
        PacketHeader(topic.value, Content(data), qos, retain, r);
        assert conn.Outbound()[0] == PublishPacket(topic.value, Content(data), qos, retain, r)[0];
      }
    }

    /** What the outbound message, the payload behind it and these pending fields are stored as. */
    ghost predicate StoresAs(m: Message, remaining: seq<byte>, id: nat, qos: nat)
      reads conn, conn.data
    {
      && conn.HasOutbound() && conn.length > 0
      && m == Message(conn.Outbound() + remaining, id, TypeOf(conn.Outbound()[0]), qos)
    }

    /**
     * `mqtt_client_enqueue_publish`: build the PUBLISH and, if its QoS is above 0 or `store`
     * is set, put it into the outbox. What is stored is the whole packet, also when the
     * buffer holds only its front; the connection is left ready to send it.
     */
    method EnqueuePublish(topic: Option<seq<byte>>, data: Option<seq<byte>>, len: int, qos: nat, retain: nat,
                          store: bool, now: int, ghost before: seq<byte>, ghost t: State)
      returns (r: int)
      requires Is(t) && PublishArgs(topic, data, len, qos, retain)
      modifies this`pendingId, this`pendingKind, this`pendingQos, conn, conn.buffer, outbox, outbox.nodes`next
      ensures fresh(outbox.nodes - old(outbox.nodes))
      ensures r < 0 <==> !Publishable(topic, data, len, qos, conn.buffer.Length)
      ensures r < 0 ==> Is(AfterBuild(t, topic, data, len, qos, r))
      ensures r >= 0 ==> Enqueued(topic.value, data, qos, retain, store, r, now, old(conn.fragOffset), before, t)
    {
      var remaining;
      r, remaining := BuildPublish(topic, data, len, qos, retain, before, t);
      if r >= 0 {
        EnqueueBuilt(remaining, r, qos, store, now, topic.value, data, retain, old(conn.fragOffset), before, t);
      }
    }

    /** ... once it has been built. */
    method EnqueueBuilt(remaining: seq<byte>, r: nat, qos: nat, store: bool, now: int, ghost topic: seq<byte>,
                        ghost data: Option<seq<byte>>, ghost retain: nat, ghost stale: int, ghost before: seq<byte>,
                        ghost t: State)
      requires t.lastId < 65536 && Is(if qos > 0 then Draw(cfg, t, r) else t)
      requires if qos > 0 then Drawn(cfg, t, r) else r == 0
      requires StoresAs(PublishMessage(topic, data, qos, retain, r), remaining, r, qos)
      requires Prepared(conn, topic, data, qos, retain, r, stale, before)
      requires conn.fragTotal == 0 <==> Fits(topic, data, qos, conn.buffer.Length)
      modifies this`pendingId, this`pendingKind, this`pendingQos, conn`fragTotal, outbox, outbox.nodes`next
      ensures fresh(outbox.nodes - old(outbox.nodes))
      ensures Enqueued(topic, data, qos, retain, store, r, now, stale, before, t)
    {
      ghost var m := PublishMessage(topic, data, qos, retain, r);
      StoreIfAsked(remaining, r, qos, store, now, m, if qos > 0 then Draw(cfg, t, r) else t);
    }

    /** A PUBLISH has been built, and stored if asked; the connection is ready to send it. */
    ghost predicate Enqueued(topic: seq<byte>, data: Option<seq<byte>>, qos: nat, retain: nat, store: bool, id: nat,
                             now: int, stale: int, before: seq<byte>, t: State)
      requires t.lastId < 65536
      reads `phase, conn, conn.data, outbox, outbox.nodes, outbox.blocks
    {
      && (if qos > 0 then Drawn(cfg, t, id) else id == 0)
      && Is(if qos > 0 || store then StoreStep(cfg, t, PublishMessage(topic, data, qos, retain, id), now) else t)
      && Prepared(conn, topic, data, qos, retain, id, stale, before)
      && (conn.fragTotal == 0 <==> qos > 0 || store || Fits(topic, data, qos, conn.buffer.Length))
    }

    /** The storing half of `mqtt_client_enqueue_publish`. */
    method StoreIfAsked(remaining: seq<byte>, r: nat, qos: nat, store: bool, now: int, ghost m: Message, ghost t: State)
      requires Is(t) && StoresAs(m, remaining, r, qos)
      modifies this`pendingId, this`pendingKind, this`pendingQos, conn`fragTotal, outbox, outbox.nodes`next
      ensures fresh(outbox.nodes - old(outbox.nodes))
      ensures if qos > 0 || store
              then conn.fragTotal == 0 && Is(Store(t, m, now))
              else conn.fragTotal == old(conn.fragTotal) && Is(t)
    {
      if qos > 0 || store {
        StorePublish(remaining, r, qos, now, m, t);
        conn.fragTotal := 0;
      }
    }

    // ----- publishing -----

    /** The limit check of the API functions. */
    method OverLimit(len: nat, ghost t: State) returns (over: bool)
      requires Is(t)
      ensures over <==> !UnderLimit(cfg, t, len)
    {
      outbox.SizeIsSum();
      over := limit > 0 && len + outbox.size > limit;
    }

    /** After the loop: `outbox_set_tick`, then `outbox_set_pending(TRANSMITTED)`. */
    method MarkTransmitted(id: nat, now: int, ghost t: State)
      requires Is(t)
      modifies outbox.nodes`tick, outbox.nodes`pending
      ensures Is(Transmit(t, id, now))
    {
      var found := outbox.SetTick(id, now);
      found := outbox.SetPending(id, Transmitted);
    }

    method MarkPendingState(id: nat, p: Pending, ghost t: State)
      requires Is(t)
      modifies outbox.nodes`pending
      ensures Is(t.(outbox := WithPending(t.outbox, id, p)))
    {
      var found := outbox.SetPending(id, p);
    }

    /** Sends what has been built; on a write error the connection is aborted. */
    method SendBuilt(memory: seq<byte>, at: nat, len: int, ghost stream: seq<byte>, ghost t: State) returns (ok: bool)
      requires Is(t) && Loaded(conn, stream, 0, memory, at, len)
      modifies this`phase, link`sent, link`refused, conn`data, conn`start, conn`length, conn`fragOffset,
               conn`fragTotal, conn.buffer
      ensures conn.fragTotal == 0
      ensures link.refused == old(link.refused) + if ok then 0 else 1
      ensures ok ==> Is(t) && link.sent == old(link.sent) + stream && conn.fragOffset == 0
      ensures !ok ==> Is(Abort'(t)) && exists n: nat :: n < |stream| && link.sent == old(link.sent) + stream[..n]
    {
      ghost var done;
      ok, done := SendLoop(conn, link, memory, at, len, stream);
      if !ok {
        assert link.sent == old(link.sent) + stream[..done];
        phase := WaitReconnect;
        conn.fragTotal := 0;
      }
    }

    /** One attempt to send a built PUBLISH, if the client is connected. */
    method SendPublish(before: seq<byte>, data: Option<seq<byte>>, ghost topic: seq<byte>, ghost qos: nat,
                       ghost retain: nat, ghost id: nat, ghost stale: int, ghost t: State)
      returns (connected: bool, ok: bool)
      requires Is(t) && Prepared(conn, topic, data, qos, retain, id, stale, before)
      requires phase == Connected ==> Readable(topic, Content(data), qos, id, conn.buffer.Length, stale, before)
      modifies this`phase, link`sent, link`refused, conn`data, conn`start, conn`length, conn`fragOffset,
               conn`fragTotal, conn.buffer
      ensures connected <==> t.phase == Connected
      ensures conn.fragTotal == 0 && Is(if connected && !ok then Abort'(t) else t)
      ensures !connected ==> link.sent == old(link.sent)
      ensures link.refused == old(link.refused) + if connected && !ok then 1 else 0
      ensures connected && ok ==>
                Wrote(old(link.sent), link.sent, topic, data, qos, retain, id, conn.buffer.Length, stale, before)
    {
      if phase != Connected {
        conn.fragTotal := 0;
        return false, false;
      }
      connected := true;
      var payload := if data.Some? then data.value else [];
      ghost var stream := WireBytes(topic, payload, qos, retain, id, conn.buffer.Length, stale, before);
      ok := SendBuilt(before + payload, |before|, |payload|, stream, t);
    }

    /** The step behind a publish: `Label.Publish` with this message, or `PublishQos0`. */
    ghost predicate Published(topic: seq<byte>, data: Option<seq<byte>>, len: int, qos: nat, retain: nat, now: int,
                              t: State, id: nat, outcome: Outcome)
      requires t.lastId < 65536 && len >= 0
      reads `phase, conn, outbox, outbox.nodes, outbox.blocks
    {
      var m := PublishMessage(topic, data, qos, retain, id);
      && (outcome == NotConnected <==> t.phase != Connected)
      && (if qos > 0 then
            && MayStore(cfg, t, m, len) && Is(PublishStep(cfg, t, m, now, outcome))
            && Recorded(t.outbox, outbox.View(), m, now, |t.births|, outcome)
          else id == 0 && Is(if outcome == WriteFailed then Abort'(t) else t))
    }

    /** Its first half: the limit check, and storing. */
    method StoreUnderLimit(topic: Option<seq<byte>>, data: Option<seq<byte>>, len: int, qos: nat, retain: nat, now: int,
                           ghost before: seq<byte>, ghost t: State)
      returns (r: int)
      requires Is(t) && PublishArgs(topic, data, len, qos, retain) && qos > 0
      modifies this`pendingId, this`pendingKind, this`pendingQos, conn, conn.buffer, outbox, outbox.nodes`next
      ensures fresh(outbox.nodes - old(outbox.nodes))
      ensures r == -2 <==> !UnderLimit(cfg, t, len)
      ensures r == -2 ==> Is(t)
      ensures r >= 0 <==> UnderLimit(cfg, t, len) && Publishable(topic, data, len, qos, conn.buffer.Length)
      ensures r != -2 && r < 0 ==> r == -1 && Is(AfterBuild(t, topic, data, len, qos, r))
      ensures r >= 0 ==>
                var m := PublishMessage(topic.value, data, qos, retain, r);
                && MayStore(cfg, t, m, len) && Is(StoreStep(cfg, t, m, now))
                && Prepared(conn, topic.value, data, qos, retain, r, old(conn.fragOffset), before)
    {
      var over := OverLimit(len, t);
      if over { return -2; }
      r := EnqueuePublish(topic, data, len, qos, retain, false, now, before, t);
      if r < 0 { return -1; }
      MessageStorable(cfg, t, topic.value, data, qos, retain, r, len);
    }

    /**
     * `esp_mqtt_client_publish` with QoS 1 or 2. The message is stored first, as the packet an
     * unbounded buffer would hold; if the client is connected, the same bytes go out (plus the
     * stray end of `WireBytes`, if an earlier message left its offset behind).
     */
    method PublishStored(topic: Option<seq<byte>>, data: Option<seq<byte>>, len: int, qos: nat, retain: nat,
                         before: seq<byte>, now: int, sentAt: int, ghost t: State)
      returns (r: int, ghost id: nat, ghost outcome: Outcome)
      requires Is(t) && PublishArgs(topic, data, len, qos, retain) && qos > 0
      requires phase == Connected ==> InReach(topic, data, qos, conn.buffer.Length, conn.fragOffset, before)
      modifies this, conn, conn.buffer, link`sent, link`refused, outbox, outbox.nodes
      ensures r == -2 <==> !UnderLimit(cfg, t, len)
      ensures r == -2 ==> Is(t)
      ensures r != -2 && !Publishable(topic, data, len, qos, conn.buffer.Length) ==>
                r == -1 && Is(AfterBuild(t, topic, data, len, qos, r))
      ensures r == -2 || !Publishable(topic, data, len, qos, conn.buffer.Length) || outcome.NotConnected? ==>
                link.sent == old(link.sent)
      ensures link.refused == old(link.refused) + if outcome.WriteFailed? then 1 else 0
      ensures r != -2 && Publishable(topic, data, len, qos, conn.buffer.Length) ==>
                && Published(topic.value, data, len, qos, retain, now, t, id, outcome)
                && r == (if outcome.WriteFailed? then -1 else id)
                && (outcome.Sent? ==>
                      && outcome.tick == sentAt
                      && Wrote(old(link.sent), link.sent, topic.value, data, qos, retain, id, conn.buffer.Length,
                               old(conn.fragOffset), before))
    {
      id, outcome := 0, NotConnected;
      r := StoreUnderLimit(topic, data, len, qos, retain, now, before, t);
      if r < 0 { return r, id, outcome; }
      id := r;
      ghost var m := PublishMessage(topic.value, data, qos, retain, r);
      r, outcome := SendStored(before, data, r, sentAt, topic.value, qos, retain, old(conn.fragOffset),
                               StoreStep(cfg, t, m, now));
      PublishRecords(cfg, t, m, now, outcome);
    }

    /** The second half: send if connected, then mark. */
    method SendStored(before: seq<byte>, data: Option<seq<byte>>, id: nat, sentAt: int, ghost topic: seq<byte>,
                      ghost qos: nat, ghost retain: nat, ghost stale: int, ghost t: State)
      returns (r: int, ghost outcome: Outcome)
      requires Is(t) && Prepared(conn, topic, data, qos, retain, id, stale, before)
      requires phase == Connected ==> Readable(topic, Content(data), qos, id, conn.buffer.Length, stale, before)
      modifies this`phase, link`sent, link`refused, conn`data, conn`start, conn`length, conn`fragOffset,
               conn`fragTotal, conn.buffer, outbox.nodes`tick, outbox.nodes`pending
      ensures Is(AfterSend(t, id, outcome))
      ensures outcome == NotConnected <==> t.phase != Connected
      ensures outcome.NotConnected? ==> r == id && link.sent == old(link.sent)
      ensures outcome.WriteFailed? ==> r == -1
      ensures link.refused == old(link.refused) + if outcome.WriteFailed? then 1 else 0
      ensures outcome.Sent? ==>
                && r == id && outcome.tick == sentAt
                && Wrote(old(link.sent), link.sent, topic, data, qos, retain, id, conn.buffer.Length, stale, before)
    {
      var connected, ok := SendPublish(before, data, topic, qos, retain, id, stale, t);
      if !connected { return id, NotConnected; }
      if !ok { return -1, WriteFailed; }
      MarkTransmitted(id, sentAt, t);
      r, outcome := id, Sent(sentAt);
    }

    /** ... with QoS 0: one attempt, and nothing is kept. */
    method PublishOnce(topic: Option<seq<byte>>, data: Option<seq<byte>>, len: int, retain: nat, before: seq<byte>,
                       now: int, ghost t: State)
      returns (r: int, ghost outcome: Outcome)
      requires Is(t) && PublishArgs(topic, data, len, 0, retain)
      requires phase == Connected ==> InReach(topic, data, 0, conn.buffer.Length, conn.fragOffset, before)
      modifies this, conn, conn.buffer, link`sent, link`refused, outbox, outbox.nodes
      ensures !Publishable(topic, data, len, 0, conn.buffer.Length) ==> r == -1 && Is(t)
      ensures !Publishable(topic, data, len, 0, conn.buffer.Length) || outcome.NotConnected? ==>
                link.sent == old(link.sent)
      ensures link.refused == old(link.refused) + if outcome.WriteFailed? then 1 else 0
      ensures Publishable(topic, data, len, 0, conn.buffer.Length) ==>
                && Is(if outcome == WriteFailed then Abort'(t) else t)
                && (outcome == NotConnected <==> t.phase != Connected)
                && r == (if outcome.Sent? then 0 else -1)
                && (outcome.Sent? ==>
                      Wrote(old(link.sent), link.sent, topic.value, data, 0, retain, 0, conn.buffer.Length,
                            old(conn.fragOffset), before))
    {
      outcome := NotConnected;
      r := EnqueuePublish(topic, data, len, 0, retain, false, now, before, t);
      if r < 0 { return -1, outcome; }
      var connected, ok := SendPublish(before, data, topic.value, 0, retain, 0, old(conn.fragOffset), t);
      r := if connected && ok then 0 else -1;
      outcome := if !connected then NotConnected else if ok then Sent(0) else WriteFailed;
    }

    /** `esp_mqtt_client_publish`: either of the two. `before` is what lies in front of `data` in
        the caller's memory. */
    method Publish(topic: Option<seq<byte>>, data: Option<seq<byte>>, len: int, qos: nat, retain: nat,
                   before: seq<byte>, now: int, sentAt: int, ghost t: State)
      returns (r: int, ghost id: nat, ghost outcome: Outcome)
      requires Is(t) && PublishArgs(topic, data, len, qos, retain)
      requires phase == Connected ==> InReach(topic, data, qos, conn.buffer.Length, conn.fragOffset, before)
      modifies this, conn, conn.buffer, link`sent, link`refused, outbox, outbox.nodes
      ensures r == -2 <==> qos > 0 && !UnderLimit(cfg, t, len)
      ensures r == -2 ==> Is(t)
      ensures r != -2 && !Publishable(topic, data, len, qos, conn.buffer.Length) ==>
                r == -1 && Is(AfterBuild(t, topic, data, len, qos, r))
      ensures r == -2 || !Publishable(topic, data, len, qos, conn.buffer.Length) || outcome.NotConnected? ==>
                link.sent == old(link.sent)
      ensures link.refused == old(link.refused) + if outcome.WriteFailed? then 1 else 0
      ensures r != -2 && Publishable(topic, data, len, qos, conn.buffer.Length) ==>
                && Published(topic.value, data, len, qos, retain, now, t, id, outcome)
                && r == (if outcome.WriteFailed? || (qos == 0 && outcome.NotConnected?) then -1 else id)
                && (outcome.Sent? ==>
                      && (qos > 0 ==> outcome.tick == sentAt)
                      && Wrote(old(link.sent), link.sent, topic.value, data, qos, retain, id, conn.buffer.Length,
                               old(conn.fragOffset), before))
    {
      if qos > 0 {
        r, id, outcome := PublishStored(topic, data, len, qos, retain, before, now, sentAt, t);
      } else {
        id := 0;
        r, outcome := PublishOnce(topic, data, len, retain, before, now, t);
      }
    }

    /** `esp_mqtt_client_enqueue`. A QoS 0 message that is not to be stored is built and then
        lost; it leaves its fragment total behind if it was too long for the buffer. */
    method Enqueue(topic: Option<seq<byte>>, data: Option<seq<byte>>, len: int, qos: nat, retain: nat, store: bool,
                   now: int, ghost t: State)
      returns (r: int)
      requires Is(t) && PublishArgs(topic, data, len, qos, retain)
      modifies this, conn, conn.buffer, outbox, outbox.nodes
      ensures r == -2 <==> !UnderLimit(cfg, t, len)
      ensures r >= 0 <==>
                UnderLimit(cfg, t, len) && Publishable(topic, data, len, qos, conn.buffer.Length) && (qos > 0 || store)
      ensures r >= 0 ==>
                var m := PublishMessage(topic.value, data, qos, retain, r);
                MayStore(cfg, t, m, len) && Is(StoreStep(cfg, t, m, now))
      ensures r < 0 ==> Is(if UnderLimit(cfg, t, len) then AfterBuild(t, topic, data, len, qos, r) else t)
      ensures UnderLimit(cfg, t, len) && Publishable(topic, data, len, qos, conn.buffer.Length) ==>
                (conn.fragTotal == 0 <==> qos > 0 || store || Fits(topic.value, data, qos, conn.buffer.Length))
    {
      var over := OverLimit(len, t);
      if over { return -2; }
      r := EnqueuePublish(topic, data, len, qos, retain, store, now, [], t);
      if r < 0 { return -1; }
      if qos > 0 || store {
        MessageStorable(cfg, t, topic.value, data, qos, retain, r, len);
      } else {
        r := -1;
      }
    }

    // ----- subscribing -----

    /** The step behind a subscribe or unsubscribe that stores its message. */
    ghost predicate Subscribed(kind: nat, m: Message, now: int, t: State)
      requires t.lastId < 65536
      reads `phase, conn, outbox, outbox.nodes, outbox.blocks
    {
      MaySubscribe(cfg, t, m, kind) && Is(SubscribeStep(cfg, t, m, now))
    }

    /** The common end of subscribe and unsubscribe: store the built message, mark it as
        transmitted, and only then write it. A failed write does not abort the connection. */
    method StoreAndWrite(now: int, ghost m: Message, ghost t: State) returns (ok: bool)
      requires Is(t) && conn.HasOutbound() && conn.length > 0
      requires m == Message(conn.Outbound(), pendingId, TypeOf(conn.Outbound()[0]), pendingQos)
      modifies this`pendingKind, outbox, outbox.nodes, link`sent, link`refused
      ensures Is(MarkStep(Store(t, m, now), m.id, Transmitted))
      ensures ok ==> link.sent == old(link.sent) + m.bytes
      ensures link.refused == old(link.refused) + if ok then 0 else 1
    {
      StoreTyped(now, m, t);
      ok := WriteBytes(m.bytes);
    }

    method WriteBytes(ghost bytes: seq<byte>) returns (ok: bool)
      requires conn.HasOutbound() && conn.Outbound() == bytes
      modifies link`sent, link`refused
      ensures ok ==> link.sent == old(link.sent) + bytes
      ensures link.refused == old(link.refused) + if ok then 0 else 1
    {
      ghost var n;
      ok, n := Write(conn, link);
    }

    method StoreTyped(now: int, ghost m: Message, ghost t: State)
      requires Is(t) && conn.HasOutbound() && conn.length > 0
      requires m == Message(conn.Outbound(), pendingId, TypeOf(conn.Outbound()[0]), pendingQos)
      modifies this`pendingKind, outbox, outbox.nodes
      ensures Is(MarkStep(Store(t, m, now), m.id, Transmitted))
      ensures conn.Outbound() == m.bytes
    {
      assert conn.Outbound()[0] == conn.data[conn.start];
      pendingKind := TypeOf(conn.data[conn.start]);
      StoreTransmitted(now, m, t);
    }

    method StoreTransmitted(now: int, ghost m: Message, ghost t: State)
      requires Is(t) && conn.HasOutbound()
      requires m == Message(conn.Outbound(), pendingId, pendingKind, pendingQos)
      modifies outbox, outbox.nodes
      ensures Is(MarkStep(Store(t, m, now), m.id, Transmitted))
      ensures conn.Outbound() == m.bytes
    {
      assert conn.Outbound() + [] == conn.Outbound();
      EnqueueOutbound([], now, m, t);
      MarkPendingState(pendingId, Transmitted, Store(t, m, now));
    }

    /** What both do with the message they have built. */
    method StoreBuilt(kind: nat, now: int, ghost m: Message, ghost t: State) returns (r: int)
      requires t.lastId < 65536 && Drawn(cfg, t, pendingId) && Is(Draw(cfg, t, pendingId)) && phase == Connected
      requires kind == SUBSCRIBE || kind == UNSUBSCRIBE
      requires conn.HasOutbound() && conn.data == conn.buffer && conn.length > 0 && Headed(conn.Outbound(), kind)
      requires m == Message(conn.Outbound(), pendingId, kind, pendingQos)
      modifies this`pendingKind, outbox, outbox.nodes, link`sent, link`refused
      ensures Subscribed(kind, m, now, t)
      ensures r == -1 || (r == m.id && link.sent == old(link.sent) + m.bytes)
      ensures link.refused == old(link.refused) + if r == -1 then 1 else 0
    {
      HeadedTyped(conn.Outbound(), kind);
      r := StoreOfKind(kind, now, m, t);
    }

    method StoreOfKind(kind: nat, now: int, ghost m: Message, ghost t: State) returns (r: int)
      requires t.lastId < 65536 && Drawn(cfg, t, pendingId) && Is(Draw(cfg, t, pendingId)) && phase == Connected
      requires kind == SUBSCRIBE || kind == UNSUBSCRIBE
      requires conn.HasOutbound() && conn.data == conn.buffer && conn.length > 0 && Typed(conn.Outbound(), kind)
      requires m == Message(conn.Outbound(), pendingId, kind, pendingQos)
      modifies this`pendingKind, outbox, outbox.nodes, link`sent, link`refused
      ensures Subscribed(kind, m, now, t)
      ensures r == -1 || (r == m.id && link.sent == old(link.sent) + m.bytes)
      ensures link.refused == old(link.refused) + if r == -1 then 1 else 0
    {
      var ok := StoreAndWrite(now, m, Draw(cfg, t, pendingId));
      r := if ok then pendingId else -1;
    }

    /** `esp_mqtt_client_subscribe_multiple`. The stored message inherits the QoS of the last
        message that went through the pending fields. An identifier is drawn even if the
        packet then does not fit. */
    method Subscribe(topics: seq<(seq<byte>, byte)>, now: int, ghost t: State) returns (r: int, ghost m: Message)
      requires Is(t)
      modifies this, conn, conn.buffer, link`sent, link`refused, outbox, outbox.nodes
      ensures r == -2 <==> !UnderLimit(cfg, t, 0)
      ensures r == -2 || t.phase != Connected ==> r < 0 && Is(t)
      ensures r == -2 || t.phase != Connected || !Subscribable(topics, conn.buffer.Length) ==>
                link.sent == old(link.sent) && link.refused == old(link.refused)
      ensures r != -2 && t.phase == Connected && !Subscribable(topics, conn.buffer.Length) ==>
                r == -1 && Is(Draw(cfg, t, NextId(t.lastId)))
      ensures r != -2 && t.phase == Connected && Subscribable(topics, conn.buffer.Length) ==>
                && Subscribed(SUBSCRIBE, m, now, t)
                && (old(conn.fragTotal) == 0 ==> m.bytes == SubscribePacket(topics, m.id))
                && (r == -1 || (r == m.id && link.sent == old(link.sent) + m.bytes))
                && link.refused == old(link.refused) + if r == -1 then 1 else 0
    {
      m := Message([], 0, SUBSCRIBE, 0);
      var over := OverLimit(0, t);
      if over { return -2, m; }
      if phase != Connected { return -1, m; }
      var built := BuildSubscribe(topics, t);
      if !built { return -1, m; }
      m := Message(conn.Outbound(), pendingId, SUBSCRIBE, pendingQos);
      r := StoreBuilt(SUBSCRIBE, now, m, t);
    }

    method BuildSubscribe(topics: seq<(seq<byte>, byte)>, ghost t: State) returns (ok: bool)
      requires Is(t)
      modifies this`pendingId, conn`data, conn`start, conn`length, conn`fragOffset, conn`lastId, conn.buffer
      ensures conn.data == conn.buffer && conn.HasOutbound()
      ensures ok <==> Subscribable(topics, conn.buffer.Length)
      ensures !ok ==> Is(Draw(cfg, t, NextId(t.lastId)))
      ensures ok ==>
                && Drawn(cfg, t, pendingId) && Is(Draw(cfg, t, pendingId))
                && conn.length > 0 && Headed(conn.Outbound(), SUBSCRIBE)
      ensures ok && conn.fragTotal == 0 ==> conn.Outbound() == SubscribePacket(topics, pendingId)
    {
      var id := MakeSubscribe(conn, topics);
      pendingId := id;
      ok := conn.length != 0;
    }

    /** `esp_mqtt_client_unsubscribe`: no limit applies, and the pending fields are reset. */
    method Unsubscribe(topic: Option<seq<byte>>, now: int, ghost t: State) returns (r: int, ghost m: Message)
      requires Is(t)
      modifies this, conn, conn.buffer, link`sent, link`refused, outbox, outbox.nodes
      ensures t.phase != Connected || !Given(topic) ==> r == -1 && Is(t)
      ensures t.phase != Connected || !Given(topic) || 9 + |topic.value| > conn.buffer.Length ==>
                link.sent == old(link.sent) && link.refused == old(link.refused)
      ensures t.phase == Connected && Given(topic) && 9 + |topic.value| > conn.buffer.Length ==>
                r == -1 && Is(Draw(cfg, t, NextId(t.lastId)))
      ensures t.phase == Connected && Given(topic) && 9 + |topic.value| <= conn.buffer.Length ==>
                && Unsubscribed(topic.value, m, now, t)
                && (r == -1 || (r == m.id && link.sent == old(link.sent) + m.bytes))
                && link.refused == old(link.refused) + if r == -1 then 1 else 0
    {
      m := Message([], 0, UNSUBSCRIBE, 0);
      if phase != Connected { return -1, m; }
      var built := BuildUnsubscribe(topic, t);
      if !built { return -1, m; }
      r, m := StoreUnsubscribe(topic.value, now, t);
    }

    method StoreUnsubscribe(ghost topic: seq<byte>, now: int, ghost t: State) returns (r: int, ghost m: Message)
      requires t.lastId < 65536 && Drawn(cfg, t, pendingId) && Is(Draw(cfg, t, pendingId)) && phase == Connected
      requires conn.HasOutbound() && conn.data == conn.buffer && conn.length > 0
      requires conn.Outbound() == UnsubscribePacket(topic, pendingId) && pendingQos == 0
      modifies this`pendingKind, outbox, outbox.nodes, link`sent, link`refused
      ensures Unsubscribed(topic, m, now, t)
      ensures r == -1 || (r == m.id && link.sent == old(link.sent) + m.bytes)
      ensures link.refused == old(link.refused) + if r == -1 then 1 else 0
    {
      UnsubscribeShape(topic, pendingId);
      r, m := StoreHeaded(topic, now, t);
    }

    method StoreHeaded(ghost topic: seq<byte>, now: int, ghost t: State) returns (r: int, ghost m: Message)
      requires t.lastId < 65536 && Drawn(cfg, t, pendingId) && Is(Draw(cfg, t, pendingId)) && phase == Connected
      requires conn.HasOutbound() && conn.data == conn.buffer && conn.length > 0 && pendingQos == 0
      requires conn.Outbound() == UnsubscribePacket(topic, pendingId) && Headed(conn.Outbound(), UNSUBSCRIBE)
      modifies this`pendingKind, outbox, outbox.nodes, link`sent, link`refused
      ensures Unsubscribed(topic, m, now, t)
      ensures r == -1 || (r == m.id && link.sent == old(link.sent) + m.bytes)
      ensures link.refused == old(link.refused) + if r == -1 then 1 else 0
    {
      m := Message(conn.Outbound(), pendingId, UNSUBSCRIBE, 0);
      r := StoreBuilt(UNSUBSCRIBE, now, m, t);
    }

    ghost predicate Unsubscribed(topic: seq<byte>, m: Message, now: int, t: State)
      requires t.lastId < 65536
      reads `phase, conn, outbox, outbox.nodes, outbox.blocks
    {
      Subscribed(UNSUBSCRIBE, m, now, t) && m.bytes == UnsubscribePacket(topic, m.id)
    }

    method BuildUnsubscribe(topic: Option<seq<byte>>, ghost t: State) returns (ok: bool)
      requires Is(t)
      modifies this`pendingId, this`pendingKind, this`pendingQos, conn`data, conn`start, conn`length, conn`fragTotal,
               conn`fragOffset, conn`lastId, conn.buffer
      ensures conn.data == conn.buffer && conn.HasOutbound() && pendingQos == 0
      ensures ok <==> Given(topic) && 9 + |topic.value| <= conn.buffer.Length
      ensures !ok ==> Is(if Given(topic) then Draw(cfg, t, NextId(t.lastId)) else t)
      ensures ok ==> Drawn(cfg, t, pendingId) && Is(Draw(cfg, t, pendingId)) && conn.length > 0
      ensures ok ==> conn.Outbound() == UnsubscribePacket(topic.value, pendingId)
    {
      var id := MakeUnsubscribe(conn, topic);
      SetPendingMessage(id, 0, 0);
      ok := conn.length != 0;
    }

    // ----- packets from the peer -----

    /** PUBACK, PUBCOMP, SUBACK, UNSUBACK: the message they answer is deleted, if it is there. */
    method ProcessAck(kind: nat, id: nat, ghost t: State) returns (event: bool)
      requires Is(t) && phase == Connected
      requires kind == PUBACK || kind == PUBCOMP || kind == SUBACK || kind == UNSUBACK
      modifies outbox`first, outbox`last, outbox`items, outbox`size, outbox.nodes`next
      ensures Is(AckStep(t, kind, id))
      ensures event <==> First(t.outbox, ByIdAndKind(id, Initiator(kind))) < |t.outbox|
    {
      AckShape(t, kind, id);
      event := DeleteAcknowledged(id, Initiator(kind), t.outbox, |t.births|);
    }

    method DeleteAcknowledged(id: nat, kind: nat, ghost box: seq<Entry>, ghost enqueued: nat) returns (ok: bool)
      requires outbox.Holds(box, enqueued)
      modifies outbox`first, outbox`last, outbox`items, outbox`size, outbox.nodes`next
      ensures outbox.Holds(RemoveFirst(box, ByIdAndKind(id, kind)), enqueued)
      ensures ok <==> First(box, ByIdAndKind(id, kind)) < |box|
    {
      ok := outbox.Delete(id, kind);
    }

    /** An acknowledgement for identifier 0 draws a new identifier. */
    method BuildAck(kind: nat, given: nat, ghost t: State) returns (ghost drawn: nat)
      requires Is(t) && given < 65536
      modifies conn`data, conn`start, conn`length, conn`fragOffset, conn`lastId, conn.buffer
      ensures conn.HasOutbound() && conn.data == conn.buffer
      ensures conn.length > 0 <==> conn.buffer.Length >= 7
      ensures Drawn(cfg, t, drawn) && Is(AnswerStep(cfg, t, given, drawn))
      ensures conn.length > 0 ==> conn.Outbound() == AckBytes(kind, AnswerId(given, drawn), conn.fragTotal)
    {
      var used := conn.MsgAck(kind, given);
      drawn := if given == 0 && conn.length > 0 then used else NextId(t.lastId);
    }

    /** PUBREC: build the PUBREL, and only then note that the message has arrived. A failed
        write changes nothing. */
    method ProcessPubrec(id: nat, ghost t: State) returns (ok: bool, ghost drawn: nat, ghost written: bool)
      requires Is(t) && phase == Connected && id < 65536
      modifies this`phase, link`sent, link`refused, conn`data, conn`start, conn`length, conn`fragOffset, conn`lastId,
               conn.buffer, outbox.nodes`pending
      ensures Drawn(cfg, t, drawn) && Is(PubrecStep(cfg, t, id, drawn))
      ensures ok <==> conn.buffer.Length >= 7
      ensures if ok then MarkedAs(t.outbox, outbox.View(), id, Acknowledged) else outbox.View() == t.outbox
      ensures !ok ==> !written && link.sent == old(link.sent)
      ensures link.refused == old(link.refused) + if ok && !written then 1 else 0
      ensures written ==> link.sent == old(link.sent) + AckBytes(PUBREL, AnswerId(id, drawn), conn.fragTotal)
    {
      ok, drawn, written := AnswerPubrec(id, t);
      PubrecRecords(cfg, t, id, drawn);
    }

    method AnswerPubrec(id: nat, ghost t: State) returns (ok: bool, ghost drawn: nat, ghost written: bool)
      requires Is(t) && phase == Connected && id < 65536
      modifies this`phase, link`sent, link`refused, conn`data, conn`start, conn`length, conn`fragOffset, conn`lastId,
               conn.buffer, outbox.nodes`pending
      ensures Drawn(cfg, t, drawn) && Is(PubrecStep(cfg, t, id, drawn))
      ensures ok <==> conn.buffer.Length >= 7
      ensures !ok ==> !written && link.sent == old(link.sent)
      ensures link.refused == old(link.refused) + if ok && !written then 1 else 0
      ensures written ==> link.sent == old(link.sent) + AckBytes(PUBREL, AnswerId(id, drawn), conn.fragTotal)
    {
      drawn := BuildAck(PUBREL, id, t);
      ok := conn.length != 0;
      written := false;
      if ok {
        var done := NoteAndWrite(id, AnswerStep(cfg, t, id, drawn));
        written := done;
      } else {
        phase := WaitReconnect;
      }
    }

    method NoteAndWrite(id: nat, ghost t: State) returns (written: bool)
      requires Is(t) && conn.HasOutbound() && conn.data == conn.buffer
      modifies link`sent, link`refused, outbox.nodes`pending
      ensures Is(MarkStep(t, id, Acknowledged))
      ensures written ==> link.sent == old(link.sent) + conn.Outbound()
      ensures link.refused == old(link.refused) + if written then 0 else 1
    {
      MarkPendingState(id, Acknowledged, t);
      ghost var n;
      written, n := Write(conn, link);
    }

    /** The answer to a PUBLISH (PUBACK, PUBREC) or a PUBREL (PUBCOMP). */
    method Respond(kind: nat, id: nat, ghost t: State) returns (built: bool, ok: bool, ghost drawn: nat)
      requires Is(t) && (kind == PUBACK || kind == PUBREC || kind == PUBCOMP) && id < 65536
      modifies link`sent, link`refused, conn`data, conn`start, conn`length, conn`fragOffset, conn`lastId, conn.buffer
      ensures Drawn(cfg, t, drawn) && Is(AnswerStep(cfg, t, id, drawn))
      ensures built <==> conn.buffer.Length >= 7
      ensures !built ==> !ok && link.sent == old(link.sent)
      ensures link.refused == old(link.refused) + if built && !ok then 1 else 0
      ensures ok ==> link.sent == old(link.sent) + AckBytes(kind, AnswerId(id, drawn), conn.fragTotal)
    {
      drawn := BuildAck(kind, id, t);
      if conn.length == 0 { return false, false, drawn; }
      built := true;
      ghost var n;
      ok, n := Write(conn, link);
    }

    /**
     * `mqtt_process_receive` for a packet in the input buffer, apart from the events: the step
     * is determined by its type, QoS and identifier. `ok` is false where the task then aborts
     * the connection; `written` says whether the whole answer went out, if there is one.
     */
    method HandlePacket(buffer: array<byte>, length: nat, ghost t: State)
      returns (ok: bool, ghost written: bool, ghost drawn: nat)
      requires Is(t) && phase == Connected && buffer.Length >= 1
      requires length <= buffer.Length || IdReachable(buffer[..])
      modifies this`phase, link`sent, link`refused, conn`data, conn`start, conn`length, conn`fragOffset, conn`lastId,
               conn.buffer, outbox`first, outbox`last, outbox`items, outbox`size, outbox.nodes`next,
               outbox.nodes`pending
      ensures var kind, qos := old(TypeOf(buffer[0])), old(QosOf(buffer[0]));
        var id := old(IdOf(buffer[..], length));
        && Drawn(cfg, t, drawn) && Handled(kind, qos, id, drawn, t)
        && (written ==> link.sent == old(link.sent) + HandledBytes(kind, qos, id, drawn, cfg.room, conn.fragTotal))
        && link.refused == old(link.refused) + Failures(kind, qos, conn.buffer.Length, written)
        && (Answerless(kind, qos, conn.buffer.Length) ==>
              (written <==> AnswerTo(kind, qos) == 0) && link.sent == old(link.sent))
        && (ok <==> AnswerTo(kind, qos) == 0 || if kind == PUBLISH then written else conn.buffer.Length >= 7)
    {
      var id := GetId(buffer, length);
      ok, written, drawn := HandleTyped(TypeOf(buffer[0]), QosOf(buffer[0]), id, t);
    }

    method HandleTyped(kind: nat, qos: nat, id: nat, ghost t: State)
      returns (ok: bool, ghost written: bool, ghost drawn: nat)
      requires Is(t) && phase == Connected && id < 65536
      modifies this`phase, link`sent, link`refused, conn`data, conn`start, conn`length, conn`fragOffset, conn`lastId,
               conn.buffer, outbox`first, outbox`last, outbox`items, outbox`size, outbox.nodes`next,
               outbox.nodes`pending
      ensures Drawn(cfg, t, drawn) && Handled(kind, qos, id, drawn, t)
      ensures written ==> link.sent == old(link.sent) + HandledBytes(kind, qos, id, drawn, cfg.room, conn.fragTotal)
      ensures Answerless(kind, qos, conn.buffer.Length) ==>
                (written <==> AnswerTo(kind, qos) == 0) && link.sent == old(link.sent)
      ensures link.refused == old(link.refused) + Failures(kind, qos, conn.buffer.Length, written)
      ensures ok <==> AnswerTo(kind, qos) == 0 || if kind == PUBLISH then written else conn.buffer.Length >= 7
    {
      assert link.sent == link.sent + [];
      drawn, ok, written := NextId(t.lastId), true, true;
      if Acknowledges(kind) {
        var event := ProcessAck(kind, id, t);
      } else if kind == PUBREC {
        ok, drawn, written := ProcessPubrec(id, t);
      } else if AnswerTo(kind, qos) != 0 {
        ok, written, drawn := Answer(kind, qos, id, t);
      }
    }

    ghost predicate Handled(kind: nat, qos: nat, id: nat, drawn: nat, t: State)
      reads `phase, conn, outbox, outbox.nodes, outbox.blocks
    {
      Is(HandledStep(cfg, t, kind, qos, id, drawn))
    }

    /** The answer to a PUBLISH must be written, the one to a PUBREL only built. */
    method Answer(kind: nat, qos: nat, id: nat, ghost t: State)
      returns (ok: bool, ghost written: bool, ghost drawn: nat)
      requires Is(t) && id < 65536 && kind != PUBREC && AnswerTo(kind, qos) != 0
      modifies link`sent, link`refused, conn`data, conn`start, conn`length, conn`fragOffset, conn`lastId, conn.buffer
      ensures Drawn(cfg, t, drawn) && Is(AnswerStep(cfg, t, id, drawn))
      ensures written ==>
                && conn.buffer.Length >= 7
                && link.sent == old(link.sent) + AckBytes(AnswerTo(kind, qos), AnswerId(id, drawn), conn.fragTotal)
      ensures link.refused == old(link.refused) + if conn.buffer.Length >= 7 && !written then 1 else 0
      ensures conn.buffer.Length < 7 ==> link.sent == old(link.sent)
      ensures ok <==> if kind == PUBLISH then written else conn.buffer.Length >= 7
    {
      var built, done;
      built, done, drawn := Respond(AnswerTo(kind, qos), id, t);
      written := done;
      ok := if kind == PUBLISH then done else built;
    }

    // ----- the task -----

    /** The outbound message becomes the stored one itself, not a copy. */
    method PointAt(item: Item, ghost k: nat, ghost t: State)
      requires Is(t) && k < |outbox.items| && item == outbox.items[k]
      modifies this`pendingId, this`pendingKind, this`pendingQos, conn`data, conn`start, conn`length
      ensures Is(t) && PointsAt(item, t.outbox[k])
    {
      assert t.outbox[k] == item.Value();
      conn.PointAt(item.buffer);
      SetPendingMessage(item.id, item.kind, item.qos);
    }

    ghost predicate PointsAt(item: Item, e: Entry)
      reads `pendingId, `pendingKind, `pendingQos, conn, item.buffer
    {
      && conn.HasOutbound() && conn.data == item.buffer && conn.start == 0 && conn.length == item.buffer.Length
      && conn.Outbound() == e.bytes
      && pendingId == e.id && pendingKind == e.kind && pendingQos == e.qos
    }

    /** Writes the message pointed at; on a write error the connection is aborted. */
    method WriteOrAbort(ghost t: State) returns (ok: bool)
      requires Is(t) && conn.HasOutbound()
      modifies this`phase, link`sent, link`refused
      ensures Is(if ok then t else Abort'(t))
      ensures ok ==> link.sent == old(link.sent) + conn.Outbound()
      ensures link.refused == old(link.refused) + if ok then 0 else 1
    {
      ghost var n;
      ok, n := Write(conn, link);
      if !ok { phase := WaitReconnect; }
    }

    /** The first queued message is sent, and then deleted or marked. That stored messages
        are as they were built is an invariant of the session. */
    method SendQueued(ghost t: State) returns (ghost ok: bool)
      requires Is(t) && phase == Connected && Sound(t.outbox)
      modifies this, link`sent, link`refused, conn`data, conn`start, conn`length, outbox`first, outbox`last,
               outbox`items, outbox`size, outbox.nodes`next, outbox.nodes`pending
      ensures Is(ResendQueuedStep(t, ok))
      ensures ok ==> link.sent == old(link.sent) + QueuedBytes(t)
      ensures link.refused == old(link.refused) + if ok then 0 else 1
    {
      var item, tick, k := outbox.Dequeue(Queued);
      if item == null {
        assert link.sent == link.sent + [];
        return true;
      }
      var written := SendFirst(item, k, t);
      ok := written;
    }

    method SendFirst(item: Item, ghost k: nat, ghost t: State) returns (ok: bool)
      requires Is(t) && k < |outbox.items| && item == outbox.items[k]
      requires k == First(t.outbox, ByPending(Queued)) && t.outbox[k].bytes != []
      modifies this, link`sent, link`refused, conn`data, conn`start, conn`length, outbox`first, outbox`last,
               outbox`items, outbox`size, outbox.nodes`next, outbox.nodes`pending
      ensures Is(ResendQueuedStep(t, ok))
      ensures ok ==> link.sent == old(link.sent) + t.outbox[k].bytes
      ensures link.refused == old(link.refused) + if ok then 0 else 1
    {
      ok := SendItem(item, k, t);
      if ok { AfterQueued(item, k, t); }
    }

    /** `mqtt_resend_queued` for a message that is not yet TRANSMITTED. */
    method SendItem(item: Item, ghost k: nat, ghost t: State) returns (ok: bool)
      requires Is(t) && k < |outbox.items| && item == outbox.items[k]
      modifies this, link`sent, link`refused, conn`data, conn`start, conn`length
      ensures outbox.items == old(outbox.items)
      ensures Is(if ok then t else Abort'(t)) && PointsAt(item, t.outbox[k])
      ensures ok ==> link.sent == old(link.sent) + t.outbox[k].bytes
      ensures link.refused == old(link.refused) + if ok then 0 else 1
    {
      PointAt(item, k, t);
      ok := WriteOrAbort(t);
    }

    method AfterQueued(item: Item, ghost k: nat, ghost t: State)
      requires Is(t) && k < |outbox.items| && item == outbox.items[k] && k == First(t.outbox, ByPending(Queued))
      requires PointsAt(item, t.outbox[k]) && t.outbox[k].bytes != []
      modifies outbox`first, outbox`last, outbox`items, outbox`size, outbox.nodes`next, outbox.nodes`pending
      ensures Is(ResendQueuedStep(t, true))
    {
      if pendingKind == PUBLISH && pendingQos == 0 {
        DeleteSent(item, k, t);
      } else if pendingQos > 0 && TypeOf(conn.data[0]) == PUBLISH {
        assert conn.Outbound()[0] == conn.data[0];
        MarkPendingState(pendingId, Transmitted, t);
      }
    }

    method DeleteSent(item: Item, ghost k: nat, ghost t: State)
      requires Is(t) && k < |outbox.items| && item == outbox.items[k]
      modifies outbox`first, outbox`last, outbox`items, outbox`size, outbox.nodes`next
      ensures Is(t.(outbox := RemoveAt(t.outbox, k)))
    {
      DeleteItem(item, k, t.outbox, |t.births|);
    }

    method DeleteItem(item: Item, ghost k: nat, ghost box: seq<Entry>, ghost enqueued: nat)
      requires outbox.Holds(box, enqueued) && k < |outbox.items| && item == outbox.items[k]
      modifies outbox`first, outbox`last, outbox`items, outbox`size, outbox.nodes`next
      ensures outbox.Holds(RemoveAt(box, k), enqueued)
    {
      ghost var was := outbox.items;
      var ok;
      ghost var j;
      ok, j := outbox.DeleteItem(item);
      Outbox.SameItem(was, j, k);
    }

    /** The first transmitted message again, if it is old enough. DUP is set in the stored
        bytes, which are also the ones that are sent. */
    method SendTransmitted(now: int, timeout: int, ghost t: State) returns (ok: bool)
      requires Is(t) && Sound(t.outbox)
      modifies this, link`sent, link`refused, conn`data, conn`start, conn`length, outbox.blocks
      ensures Is(ResendTransmittedStep(t, now, timeout, ok))
      ensures ok ==> link.sent == old(link.sent) + TransmittedBytes(t, now, timeout)
      ensures link.refused == old(link.refused) + if ok then 0 else 1
    {
      var item, tick, k := outbox.Dequeue(Transmitted);
      if item == null || now - tick <= timeout {
        assert link.sent == link.sent + [];
        return true;
      }
      ok := ResendItem(item, now, timeout, k, t);
    }

    /** `mqtt_resend_queued` for a TRANSMITTED message. */
    method ResendItem(item: Item, ghost now: int, ghost timeout: int, ghost k: nat, ghost t: State) returns (ok: bool)
      requires Is(t) && k < |outbox.items| && item == outbox.items[k] && t.outbox[k].bytes != []
      requires k == First(t.outbox, ByPending(Transmitted)) && now - t.outbox[k].tick > timeout
      modifies this, link`sent, link`refused, conn`data, conn`start, conn`length, item.buffer
      ensures Is(ResendTransmittedStep(t, now, timeout, ok))
      ensures ok ==> link.sent == old(link.sent) + Resent(t.outbox[k]).bytes
      ensures link.refused == old(link.refused) + if ok then 0 else 1
    {
      PrepareResend(item, k, t);
      ok := WriteOrAbort(WithResent(t, k));
      ResendStep(t, now, timeout, ok, k);
    }

    /** Points at the message and marks it. */
    method PrepareResend(item: Item, ghost k: nat, ghost t: State)
      requires Is(t) && k < |outbox.items| && item == outbox.items[k] && t.outbox[k].bytes != []
      modifies this`pendingId, this`pendingKind, this`pendingQos, conn`data, conn`start, conn`length, item.buffer
      ensures Is(WithResent(t, k)) && conn.HasOutbound() && conn.Outbound() == Resent(t.outbox[k]).bytes
    {
      PointAt(item, k, t);
      MarkResent(item, k, t);
    }

    method MarkResent(item: Item, ghost k: nat, ghost t: State)
      requires Is(t) && k < |outbox.items| && item == outbox.items[k]
      requires PointsAt(item, t.outbox[k]) && t.outbox[k].bytes != []
      modifies item.buffer
      ensures Is(WithResent(t, k)) && PointsAt(item, Resent(t.outbox[k]))
    {
      if pendingKind == PUBLISH && pendingQos > 0 {
        outbox.MarkDup(item, k);
        assert outbox.View()[k] == item.Value();
        assert item.buffer[0..item.buffer.Length] == item.buffer[..];
      }
    }

    /** `mqtt_resend_pubrel` for the first acknowledged message, if it is old enough. */
    method SendPubrel(now: int, timeout: int, ghost t: State) returns (ghost drawn: nat, ghost ok: bool)
      requires Is(t) && Sound(t.outbox)
      modifies this, link`sent, link`refused, conn`data, conn`start, conn`length, conn`fragOffset, conn`lastId,
               conn.buffer
      ensures Drawn(cfg, t, drawn) && Is(ResendPubrelStep(cfg, t, now, timeout, drawn, ok))
      ensures ok ==> link.sent == old(link.sent) + PubrelBytes(t, now, timeout, drawn, cfg.room, conn.fragTotal)
      ensures link.refused == old(link.refused) + if ok then 0 else 1
    {
      var item, tick, k := outbox.Dequeue(Acknowledged);
      assert link.sent == link.sent + [];
      drawn := NextId(t.lastId);
      if item == null || now - tick <= timeout { return drawn, true; }
      ghost var written;
      drawn, written := ResendItemPubrel(item, k, t);
      ok := written;
    }

    method ResendItemPubrel(item: Item, ghost k: nat, ghost t: State) returns (ghost drawn: nat, ghost ok: bool)
      requires Is(t) && k < |outbox.items| && item == outbox.items[k] && t.outbox[k].id < 65536
      modifies this, link`sent, link`refused, conn`data, conn`start, conn`length, conn`fragOffset, conn`lastId,
               conn.buffer
      ensures Drawn(cfg, t, drawn)
      ensures var u := AnswerStep(cfg, t, t.outbox[k].id, drawn); Is(if cfg.room < 7 || ok then u else Abort'(u))
      ensures ok ==>
                link.sent == old(link.sent)
                + if cfg.room >= 7 then AckBytes(PUBREL, AnswerId(t.outbox[k].id, drawn), conn.fragTotal) else []
      ensures link.refused == old(link.refused) + if ok then 0 else 1
    {
      PointAt(item, k, t);
      drawn := BuildAck(PUBREL, pendingId, t);
      assert link.sent == link.sent + [];
      if conn.length == 0 { return drawn, true; }
      var written := WriteOrAbort(AnswerStep(cfg, t, pendingId, drawn));
      ok := written;
    }

    /** `mqtt_delete_expired_messages`, in either compile-time form. */
    method Expire(now: int, report: bool, ghost t: State) returns (reported: seq<int>)
      requires Is(t)
      modifies outbox`first, outbox`last, outbox`items, outbox`size, outbox.nodes`next
      ensures Is(ExpireStep(cfg, t, now))
      ensures reported == if report then Ids(Matched(t.outbox, Expired(now, expiry))) else []
    {
      ExpireShape(cfg, t, now);
      reported := ExpireOutbox(now, report, t.outbox, |t.births|);
    }

    method ExpireOutbox(now: int, report: bool, ghost box: seq<Entry>, ghost enqueued: nat) returns (reported: seq<int>)
      requires outbox.Holds(box, enqueued)
      modifies outbox`first, outbox`last, outbox`items, outbox`size, outbox.nodes`next
      ensures outbox.Holds(Without(box, Expired(now, expiry)), enqueued)
      ensures reported == if report then Ids(Matched(box, Expired(now, expiry))) else []
    {
      reported := [];
      if report {
        reported := outbox.DeleteExpiredReporting(now, expiry);
      } else {
        var deleted := outbox.DeleteExpired(now, expiry);
      }
    }

    /** The client is in this state, and the state satisfies the invariant of every run. */
    ghost predicate Sane(start: nat, t: State)
      reads `phase, conn, outbox, outbox.nodes, outbox.blocks
      requires start < 65536
    {
      IsWith(start, t)
    }

    ghost predicate IsWith(start: nat, t: State)
      reads `phase, conn, outbox, outbox.nodes, outbox.blocks
      requires start < 65536
    {
      Is(t) && Inv(cfg, start, t)
    }

    method PassQueued(ghost start: nat, ghost t: State) returns (ghost u: State, ghost ok: bool)
      requires phase == Connected && start < 65536 && Sane(start, t)
      modifies this, link`sent, link`refused, conn`data, conn`start, conn`length, outbox`first, outbox`last,
               outbox`items, outbox`size, outbox.nodes`next, outbox.nodes`pending
      ensures Sane(start, u) && u == ResendQueuedStep(t, ok)
      ensures ok ==> link.sent == old(link.sent) + QueuedBytes(t)
      ensures link.refused == old(link.refused) + if ok then 0 else 1
    {
      GoodIsSound(t.outbox, t.births);
      ok := SendQueued(t);
      u := ResendQueuedStep(t, ok);
      ResendQueuedKeeps(cfg, start, t, ok);
    }

    method PassTransmitted(now: int, timeout: int, ghost start: nat, ghost t: State)
      returns (ghost u: State, ghost ok: bool)
      requires start < 65536 && Sane(start, t)
      modifies this, link`sent, link`refused, conn`data, conn`start, conn`length, outbox.blocks
      ensures Sane(start, u) && u == ResendTransmittedStep(t, now, timeout, ok)
      ensures ok ==> link.sent == old(link.sent) + TransmittedBytes(t, now, timeout)
      ensures link.refused == old(link.refused) + if ok then 0 else 1
    {
      GoodIsSound(t.outbox, t.births);
      var written := SendTransmitted(now, timeout, t);
      ok := written;
      u := ResendTransmittedStep(t, now, timeout, ok);
      ResendTransmittedKeeps(cfg, start, t, now, timeout, ok);
    }

    method PassAcknowledged(now: int, timeout: int, ghost start: nat, ghost t: State)
      returns (ghost u: State, ghost drawn: nat, ghost ok: bool)
      requires start < 65536 && Sane(start, t)
      modifies this, link`sent, link`refused, conn`data, conn`start, conn`length, conn`fragOffset, conn`lastId,
               conn.buffer
      ensures Drawn(cfg, t, drawn)
      ensures Sane(start, u) && u == ResendPubrelStep(cfg, t, now, timeout, drawn, ok)
      ensures ok ==> link.sent == old(link.sent) + PubrelBytes(t, now, timeout, drawn, cfg.room, conn.fragTotal)
      ensures link.refused == old(link.refused) + if ok then 0 else 1
    {
      GoodIsSound(t.outbox, t.births);
      drawn, ok := SendPubrel(now, timeout, t);
      ResendPubrelKeeps(cfg, start, t, now, timeout, drawn, ok);
      u := ResendPubrelStep(cfg, t, now, timeout, drawn, ok);
    }

    method PassExpire(now: int, report: bool, ghost start: nat, ghost t: State) returns (ghost u: State)
      requires start < 65536 && Sane(start, t)
      modifies outbox`first, outbox`last, outbox`items, outbox`size, outbox.nodes`next
      ensures Sane(start, u) && u == ExpireStep(cfg, t, now)
    {
      var reported := Expire(now, report, t);
      u := ExpireStep(cfg, t, now);
      ExpireKeeps(cfg, start, t, now);
    }

    /** The retransmissions that are due. */
    method PassResend(now: int, timeout: int, ghost start: nat, ghost t: State)
      returns (ghost u: State, ghost first: bool, ghost second: bool, ghost drawn: nat)
      requires start < 65536 && Sane(start, t)
      modifies this, link`sent, link`refused, conn`data, conn`start, conn`length, conn`fragOffset, conn`lastId,
               conn.buffer, outbox.blocks
      ensures Drawn(cfg, t, drawn) && Sane(start, u)
      ensures u == ResendPubrelStep(cfg, ResendTransmittedStep(t, now, timeout, first), now, timeout, drawn, second)
      ensures link.refused == old(link.refused) + (if first then 0 else 1) + (if second then 0 else 1)
      ensures first && second ==>
                link.sent == old(link.sent) + (TransmittedBytes(t, now, timeout)
                + PubrelBytes(ResendTransmittedStep(t, now, timeout, true), now, timeout, drawn, cfg.room,
                              conn.fragTotal))
    {
      ghost var v;
      v, first := PassTransmitted(now, timeout, start, t);
      TransmittedKeepsIds(t, now, timeout, first);
      u, drawn, second := PassAcknowledged(now, timeout, start, v);
      if first && second {
        Assoc(old(link.sent), TransmittedBytes(t, now, timeout),
              PubrelBytes(v, now, timeout, drawn, cfg.room, conn.fragTotal));
      }
    }

    method PassSend(now: int, timeout: int, due: bool, ghost start: nat, ghost t: State)
      returns (ghost u: State, ghost first: bool, ghost second: bool, ghost drawn: nat)
      requires phase == Connected && start < 65536 && Sane(start, t)
      modifies this, link`sent, link`refused, conn`data, conn`start, conn`length, conn`fragOffset, conn`lastId,
               conn.buffer, outbox`first, outbox`last, outbox`items, outbox`size, outbox.nodes`next,
               outbox.nodes`pending, outbox.blocks
      ensures Drawn(cfg, t, drawn) && Sane(start, u)
      ensures u == SendStep(cfg, t, now, timeout, due, first, second, drawn)
      ensures link.refused == old(link.refused) + (if first then 0 else 1) + (if second then 0 else 1)
      ensures first && second ==>
                link.sent == old(link.sent) + PassBytes(cfg, t, now, timeout, due, drawn, conn.fragTotal)
    {
      u, first, second, drawn := t, true, true, NextId(t.lastId);
      var item, tick, k := outbox.Dequeue(Queued);
      assert link.sent == link.sent + [];
      if item != null {
        u, first := PassQueued(start, t);
      } else if due {
        u, first, second, drawn := PassResend(now, timeout, start, t);
      }
    }

    /**
     * The outbox part of one pass of `esp_mqtt_task` in a connected client: expiry, then the
     * first queued message, or else, when it is time, the first transmitted and the first
     * acknowledged one. What every step of the session keeps, the objects keep.
     */
    method ConnectedPass(now: int, timeout: int, due: bool, report: bool, ghost start: nat, ghost t: State)
      returns (ghost v: State, ghost u: State, ghost first: bool, ghost second: bool, ghost drawn: nat)
      requires phase == Connected && start < 65536 && Sane(start, t)
      modifies this, link`sent, link`refused, conn`data, conn`start, conn`length, conn`fragOffset, conn`lastId,
               conn.buffer, outbox, outbox.nodes, outbox.blocks
      ensures Sane(start, u) && v.lastId < 65536 && Drawn(cfg, v, drawn)
      ensures v == ExpireStep(cfg, t, now)
      ensures u == SendStep(cfg, v, now, timeout, due, first, second, drawn)
      ensures link.refused == old(link.refused) + (if first then 0 else 1) + (if second then 0 else 1)
      ensures first && second ==>
                link.sent == old(link.sent) + PassBytes(cfg, v, now, timeout, due, drawn, conn.fragTotal)
    {
      v := PassExpire(now, report, start, t);
      u, first, second, drawn := PassSend(now, timeout, due, start, v);
    }

    /** The task's own changes of state; connecting also resets the pending message. */
    method EnterPhase(p: Phase, ghost t: State)
      requires Is(t)
      modifies this`phase, this`pendingId, this`pendingKind, this`pendingQos, conn`fragTotal, conn`fragOffset
      ensures Is(t.(phase := p))
      ensures p == Connected ==> conn.fragTotal == 0 && conn.fragOffset == 0
    {
      phase := p;
      if p == Connected {
        SetPendingMessage(0, 0, 0);
        conn.ResetFragment();
      }
    }
  }

  /** An acknowledgement changes the outbox and the history, nothing else. */
  lemma AckShape(t: State, kind: nat, id: nat)
    ensures var u := AckStep(t, kind, id);
      && u.outbox == RemoveFirst(t.outbox, ByIdAndKind(id, Initiator(kind))) && u.births == t.births
      && u.phase == t.phase && u.lastId == t.lastId
  {
  }

  /** So does expiry. */
  lemma ExpireShape(cfg: Config, t: State, now: int)
    ensures var u := ExpireStep(cfg, t, now);
      && u.outbox == Without(t.outbox, Expired(now, cfg.expiry)) && u.births == t.births
      && u.phase == t.phase && u.lastId == t.lastId
  {
  }

  lemma TransmittedKeepsIds(t: State, now: int, timeout: int, ok: bool)
    ensures ResendTransmittedStep(t, now, timeout, ok).lastId == t.lastId
  {
  }

  /** In a client that has got where it is by steps of the session, the block of every
      stored message is its original encoding, except possibly for the DUP bit, although
      resending changes these blocks in place. */
  lemma BlocksAreFaithful(c: Client, start: nat, t: State, k: nat)
    requires start < 65536 && c.Is(t) && Inv(c.cfg, start, t) && k < |c.outbox.items|
    ensures t.outbox[k].serial < |t.births|
    ensures var m := t.births[t.outbox[k].serial].m;
      SameButDup(c.outbox.items[k].buffer[..], m.bytes) && c.outbox.items[k].id == m.id
  {
    assert t.outbox[k] == c.outbox.items[k].Value();
    assert Faithful(t.outbox[k], t.births[t.outbox[k].serial]);
  }

  /** A packet of this kind, not marked as a duplicate. */
  ghost predicate Typed(p: seq<byte>, kind: nat) {
    p != [] && TypeOf(p[0]) == kind && DupOf(p[0]) == 0
  }

  lemma HeadedTyped(p: seq<byte>, kind: nat)
    requires Headed(p, kind) && (kind == SUBSCRIBE || kind == UNSUBSCRIBE)
    ensures Typed(p, kind)
  {
  }

  /** A SUBSCRIBE or UNSUBSCRIBE: their flags are always the same. */
  ghost predicate Headed(p: seq<byte>, kind: nat) {
    p != [] && p[0] == if kind == SUBSCRIBE then 0x82 else 0xA2
  }

  /** `mqtt_msg_subscribe`, seen from the client. */
  method MakeSubscribe(conn: Connection, topics: seq<(seq<byte>, byte)>) returns (id: nat)
    requires conn.Valid() && conn.buffer.Length < LIMIT
    modifies conn`data, conn`start, conn`length, conn`fragOffset, conn`lastId, conn.buffer
    ensures conn.Valid() && conn.data == conn.buffer && conn.HasOutbound()
    ensures conn.incremental ==> conn.lastId == NextId(old(conn.lastId))
    ensures conn.length > 0 <==> Subscribable(topics, conn.buffer.Length)
    ensures conn.length > 0 ==>
              1 <= id < 65536 && (conn.incremental ==> id == conn.lastId) && Headed(conn.Outbound(), SUBSCRIBE)
    ensures conn.length > 0 && conn.fragTotal == 0 ==> conn.Outbound() == SubscribePacket(topics, id)
  {
    id := conn.MsgSubscribe(topics);
    if conn.length > 0 {
      ghost var remaining := if conn.fragTotal == 0 then 2 + |Filters(topics)| else conn.fragTotal - 5;
      SubscribeShape(topics, id, remaining);
    }
  }

  lemma SubscribeShape(topics: seq<(seq<byte>, byte)>, id: nat, remaining: nat)
    ensures var p := Framed(HeaderByte(SUBSCRIBE, 0, 1, 0), remaining, U16(id) + Filters(topics));
      Headed(p, SUBSCRIBE) && (remaining == 2 + |Filters(topics)| ==> p == SubscribePacket(topics, id))
  {
    var p := Framed(HeaderByte(SUBSCRIBE, 0, 1, 0), remaining, U16(id) + Filters(topics));
    assert p[0] == HeaderByte(SUBSCRIBE, 0, 1, 0) == 0x82;
  }

  /** `mqtt_msg_unsubscribe` after `mqtt_reset_pending_message`. */
  method MakeUnsubscribe(conn: Connection, topic: Option<seq<byte>>) returns (id: nat)
    requires conn.Valid() && conn.buffer.Length < LIMIT
    modifies conn`data, conn`start, conn`length, conn`fragTotal, conn`fragOffset, conn`lastId, conn.buffer
    ensures conn.Valid() && conn.data == conn.buffer && conn.HasOutbound()
    ensures conn.incremental ==> conn.lastId == if Given(topic) then NextId(old(conn.lastId)) else old(conn.lastId)
    ensures conn.length > 0 <==> Given(topic) && 9 + |topic.value| <= conn.buffer.Length
    ensures conn.length > 0 ==> 1 <= id < 65536 && (conn.incremental ==> id == conn.lastId)
    ensures conn.length > 0 ==> conn.Outbound() == UnsubscribePacket(topic.value, id)
  {
    conn.ResetFragment();
    id := conn.MsgUnsubscribe(topic);
    if conn.length > 0 { UnsubscribeShape(topic.value, id); }
  }

  lemma UnsubscribeShape(topic: seq<byte>, id: nat)
    ensures Framed(HeaderByte(UNSUBSCRIBE, 0, 1, 0), 4 + |topic|, U16(id) + Str(topic)) == UnsubscribePacket(topic, id)
    ensures Headed(UnsubscribePacket(topic, id), UNSUBSCRIBE)
  {
    assert UnsubscribePacket(topic, id)[0] == HeaderByte(UNSUBSCRIBE, 0, 1, 0) == 0xA2;
  }

  /** A built PUBLISH is one that may be stored. */
  lemma MessageStorable(cfg: Config, t: State, topic: seq<byte>, data: Option<seq<byte>>, qos: nat, retain: nat,
                        id: nat, len: nat)
    requires t.lastId < 65536 && UnderLimit(cfg, t, len) && (if qos > 0 then Drawn(cfg, t, id) else id == 0)
    requires qos < 3 && retain < 2 && |Content(data)| == len
    requires |topic| + 4 + len < LIMIT && 5 + |PublishHead(topic, qos, id)| <= cfg.room
    ensures MayStore(cfg, t, PublishMessage(topic, data, qos, retain, id), len)
  {
    MessageBuilt(topic, Content(data), qos, retain, id, cfg.room);
  }

  lemma PacketHeader(topic: seq<byte>, payload: seq<byte>, qos: nat, retain: nat, id: nat)
    requires qos < 4 && retain < 2
    ensures var p := PublishPacket(topic, payload, qos, retain, id);
      p != [] && TypeOf(p[0]) == PUBLISH && DupOf(p[0]) == 0
  {
    HeaderFields(PUBLISH, 0, qos, retain);
  }

  /** What is stored is a well-formed message, larger than its payload by at most the buffer. */
  lemma MessageBuilt(topic: seq<byte>, payload: seq<byte>, qos: nat, retain: nat, id: nat, room: nat)
    requires qos < 3 && retain < 2 && id < 65536 && (id == 0 <==> qos == 0)
    requires |topic| + 4 + |payload| < LIMIT && 5 + |PublishHead(topic, qos, id)| <= room
    ensures var m := Message(PublishPacket(topic, payload, qos, retain, id), id, PUBLISH, qos);
      Built(m) && |m.bytes| <= room + |payload|
  {
    PacketHeader(topic, payload, qos, retain, id);
    EncodeFourBytes(|PublishHead(topic, qos, id) + payload|);
  }

  ghost predicate PublishReady(conn: Connection, topic: Option<seq<byte>>, data: Option<seq<byte>>, len: int, qos: nat,
                               retain: nat)
    reads conn
  {
    && conn.Valid()
    && qos < 3 && retain < 2
    && (if data.Some? then len == |data.value| else len >= 0)
    && (data.None? ==> conn.fragTotal == 0)
    && (topic.Some? ==> |topic.value| + 4 + |Content(data)| < LIMIT)
  }

  /** `make_publish`, and the split of the payload that `mqtt_client_enqueue_publish` works out. */
  method MakePublish(conn: Connection, topic: Option<seq<byte>>, data: Option<seq<byte>>, len: int, qos: nat,
                     retain: nat, ghost before: seq<byte>)
    returns (r: int, remaining: seq<byte>)
    requires PublishReady(conn, topic, data, len, qos, retain)
    modifies conn, conn.buffer
    ensures conn.Valid() && conn.HasOutbound() && conn.data == conn.buffer
    ensures conn.incremental ==>
              conn.lastId == if DrawsId(topic, data, len, qos, conn.buffer.Length) then NextId(old(conn.lastId))
                             else old(conn.lastId)
    ensures r < 0 <==> !Publishable(topic, data, len, qos, conn.buffer.Length)
    ensures r >= 0 ==>
              && (if qos > 0 then 1 <= r < 65536 && (conn.incremental ==> r == conn.lastId) else r == 0)
              && conn.length > 0
              && conn.Outbound() + remaining == PublishPacket(topic.value, Content(data), qos, retain, r)
              && Prepared(conn, topic.value, data, qos, retain, r, old(conn.fragOffset), before)
              && (conn.fragTotal == 0 <==> Fits(topic.value, data, qos, conn.buffer.Length))
  {
    r := conn.MsgPublish(topic, data, len, qos, retain);
    if conn.length == 0 { return -1, []; }
    remaining := if data.Some? && conn.fragTotal != 0 then data.value[conn.length - conn.fragOffset..] else [];
    ReadyToSend(conn, topic.value, data, qos, retain, r, old(conn.fragOffset), before);
  }

  /** The part of the payload behind the outbound message. */
  ghost function Behind(conn: Connection, data: Option<seq<byte>>): seq<byte>
    reads conn
    requires data.Some? && conn.fragTotal != 0 ==> 0 <= conn.length - conn.fragOffset <= |data.value|
  {
    if data.Some? && conn.fragTotal != 0 then data.value[conn.length - conn.fragOffset..] else []
  }

  lemma ReadyToSend(conn: Connection, topic: seq<byte>, data: Option<seq<byte>>, qos: nat, retain: nat, id: nat,
                    stale: int, before: seq<byte>)
    requires conn.HasOutbound()
    requires data.Some? ==> conn.BuiltPublish(topic, data.value, qos, retain, id, stale)
    requires data.None? ==>
               var head := PublishHead(topic, qos, id);
               && conn.fragTotal == 0 && conn.Outbound() == Framed(HeaderByte(PUBLISH, 0, qos, retain), |head|, head)
               && conn.fragOffset == stale - conn.start && conn.start + conn.length == 5 + |head| <= conn.buffer.Length
    ensures data.Some? && conn.fragTotal != 0 ==> 0 <= conn.length - conn.fragOffset <= |data.value|
    ensures conn.Outbound() + Behind(conn, data) == PublishPacket(topic, Content(data), qos, retain, id)
    ensures Prepared(conn, topic, data, qos, retain, id, stale, before)
  {
    assert conn.Outbound() + [] == conn.Outbound();
    if data.Some? {
      BuiltIsStored(conn, topic, data.value, qos, retain, id, stale);
      if Readable(topic, data.value, qos, id, conn.buffer.Length, stale, before) {
        BuiltIsLoaded(conn, topic, data.value, qos, retain, id, stale, before);
      }
    } else {
      EmptyIsPacket(topic, qos, retain, id);
      if Readable(topic, [], qos, id, conn.buffer.Length, stale, before) {
        EmptyIsLoaded(conn, topic, qos, retain, id, stale, before);
      }
    }
  }
}
