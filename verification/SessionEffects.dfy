/**
 * What the steps of the session do to the stored messages, entry by entry: what changes, and
 * that nothing else does. Nothing here depends on how the steps are put together.
 */
module SessionEffects {
  import opened Bytes
  import opened OutboxModel
  import opened Session
  import opened SessionInvariants
  import opened SessionRuns

  // ----- which entry -----

  /** Entry `k` is the first with this identifier. */
  predicate FirstId(box: seq<Entry>, id: nat, k: nat) {
    k < |box| && box[k].id == id && forall j :: 0 <= j < k ==> box[j].id != id
  }

  /** ... the first in this state. */
  predicate FirstIn(box: seq<Entry>, p: Pending, k: nat) {
    k < |box| && box[k].pending == p && forall j :: 0 <= j < k ==> box[j].pending != p
  }

  /** ... the first with this identifier and type (of which the outbox compares eight bits). */
  predicate FirstOf(box: seq<Entry>, id: nat, kind: nat, k: nat) {
    && k < |box| && box[k].id == id && box[k].kind % 256 == kind
    && forall j :: 0 <= j < k ==> !(box[j].id == id && box[j].kind % 256 == kind)
  }

  lemma IdFound(box: seq<Entry>, id: nat, k: nat)
    requires FirstId(box, id, k)
    ensures First(box, ById(id)) == k
  {
    forall j | 0 <= j < k ensures !ById(id).Matches(box[j]) {}
    FirstIs(box, ById(id), k);
  }

  lemma KindFound(box: seq<Entry>, id: nat, kind: nat, k: nat)
    requires FirstOf(box, id, kind, k)
    ensures First(box, ByIdAndKind(id, kind)) == k
  {
    forall j | 0 <= j < k ensures !ByIdAndKind(id, kind).Matches(box[j]) {}
    FirstIs(box, ByIdAndKind(id, kind), k);
  }

  /** The first entry with an identifier, if there is one. */
  lemma {:induction false} SomeFirst(box: seq<Entry>, id: nat)
    ensures var k := First(box, ById(id));
      (k < |box| ==> FirstId(box, id, k)) && (k == |box| ==> forall j :: 0 <= j < |box| ==> box[j].id != id)
  {
    NothingBefore(box, ById(id));
    forall j | 0 <= j < First(box, ById(id)) ensures box[j].id != id { assert !ById(id).Matches(box[j]); }
  }

  /** Entry `k` is the first in this state, or there is none and `k` is the length. */
  predicate FirstOrNone(box: seq<Entry>, p: Pending, k: nat) {
    FirstIn(box, p, k) || (k == |box| && forall j :: 0 <= j < |box| ==> box[j].pending != p)
  }

  lemma FirstFound(box: seq<Entry>, p: Pending, k: nat)
    requires FirstOrNone(box, p, k)
    ensures First(box, ByPending(p)) == k
  {
    forall j | 0 <= j < k ensures !ByPending(p).Matches(box[j]) {}
    FirstIs(box, ByPending(p), k);
  }

  // ----- storing and sending -----

  /** The outbox with one more entry, for a message stored at `tick` and not yet sent. */
  function WithNew(box: seq<Entry>, m: Message, tick: int, serial: nat): seq<Entry> {
    box + [Entry(m.bytes, m.id, m.kind, m.qos, tick, Queued, serial)]
  }

  /** The first entry with this identifier is TRANSMITTED since `tick`; the others are as they were. */
  ghost predicate MarkedSent(was: seq<Entry>, box: seq<Entry>, id: nat, tick: int) {
    exists k: nat :: FirstId(was, id, k) && box == was[k := was[k].(pending := Transmitted, tick := tick)]
  }

  /** What a publish that has stored its message leaves in the outbox. */
  ghost predicate Recorded(was: seq<Entry>, box: seq<Entry>, m: Message, tick: int, serial: nat, outcome: Outcome) {
    if outcome.Sent? then MarkedSent(WithNew(was, m, tick, serial), box, m.id, outcome.tick)
    else box == WithNew(was, m, tick, serial)
  }

  lemma TransmitMarks(box: seq<Entry>, id: nat, tick: int)
    requires exists k: nat :: FirstId(box, id, k)
    ensures MarkedSent(box, WithPending(WithTick(box, id, tick), id, Transmitted), id, tick)
  {
    var k: nat :| FirstId(box, id, k);
    IdFound(box, id, k);
    var ticked := box[k := box[k].At(tick)];
    assert FirstId(ticked, id, k);
    IdFound(ticked, id, k);
    assert ticked[k := ticked[k].InState(Transmitted)] == box[k := box[k].(pending := Transmitted, tick := tick)];
  }

  lemma NewHasId(box: seq<Entry>, m: Message, tick: int, serial: nat)
    ensures exists k: nat :: FirstId(WithNew(box, m, tick, serial), m.id, k)
  {
    var all := WithNew(box, m, tick, serial);
    SomeFirst(all, m.id);
    assert all[|box|].id == m.id;
    assert FirstId(all, m.id, First(all, ById(m.id)));
  }

  /** `esp_mqtt_client_publish` with QoS 1 or 2. */
  lemma PublishRecords(cfg: Config, s: State, m: Message, tick: int, outcome: Outcome)
    ensures Recorded(s.outbox, PublishStep(cfg, s, m, tick, outcome).outbox, m, tick, |s.births|, outcome)
    ensures PublishStep(cfg, s, m, tick, outcome).phase == if outcome.WriteFailed? then WaitReconnect else s.phase
  {
    if outcome.Sent? {
      NewHasId(s.outbox, m, tick, |s.births|);
      TransmitMarks(WithNew(s.outbox, m, tick, |s.births|), m.id, outcome.tick);
    }
  }

  /** `esp_mqtt_client_enqueue`, when it stores. */
  lemma EnqueueRecords(cfg: Config, s: State, m: Message, tick: int)
    ensures StoreStep(cfg, s, m, tick).outbox == WithNew(s.outbox, m, tick, |s.births|)
    ensures StoreStep(cfg, s, m, tick).phase == s.phase
  {
  }

  /** With unique identifiers it is the new message that is marked, and no other changes. */
  lemma PublishUnique(cfg: Config, s: State, m: Message, len: nat, tick: int, sentAt: int)
    requires s.lastId < 65536 && Enabled(cfg, s, Publish(m, len, tick, Sent(sentAt)))
    requires UniqueIds(Next(cfg, s, Publish(m, len, tick, Sent(sentAt))).outbox)
    ensures Next(cfg, s, Publish(m, len, tick, Sent(sentAt))).outbox ==
            s.outbox + [Entry(m.bytes, m.id, m.kind, m.qos, sentAt, Transmitted, |s.births|)]
  {
    PublishRecords(cfg, s, m, tick, Sent(sentAt));
    var all := WithNew(s.outbox, m, tick, |s.births|);
    var box := Next(cfg, s, Publish(m, len, tick, Sent(sentAt))).outbox;
    var k: nat :| FirstId(all, m.id, k) && box == all[k := all[k].(pending := Transmitted, tick := sentAt)];
    assert m.id != 0 && box[k].id == m.id && box[|s.outbox|].id == m.id;
  }

  /** SUBSCRIBE and UNSUBSCRIBE are stored and marked before they are written; the tick stays. */
  lemma SubscribeRecords(cfg: Config, s: State, m: Message, tick: int)
    ensures exists k: nat ::
              var all := WithNew(s.outbox, m, tick, |s.births|);
              FirstId(all, m.id, k)
              && SubscribeStep(cfg, s, m, tick).outbox == all[k := all[k].(pending := Transmitted)]
    ensures SubscribeStep(cfg, s, m, tick).phase == s.phase
  {
    var all := WithNew(s.outbox, m, tick, |s.births|);
    NewHasId(s.outbox, m, tick, |s.births|);
    var k: nat :| FirstId(all, m.id, k);
    IdFound(all, m.id, k);
  }

  // ----- what received packets do -----

  /** The first entry with this identifier is in state `p`; everything else is as it was. */
  ghost predicate MarkedAs(was: seq<Entry>, box: seq<Entry>, id: nat, p: Pending) {
    && |box| == |was|
    && forall k :: 0 <= k < |was| ==>
         box[k] == if FirstId(was, id, k) then was[k].(pending := p) else was[k]
  }

  lemma PendingMarks(box: seq<Entry>, id: nat, p: Pending)
    ensures MarkedAs(box, WithPending(box, id, p), id, p)
  {
    SomeFirst(box, id);
    forall k | 0 <= k < |box| && FirstId(box, id, k) ensures First(box, ById(id)) == k { IdFound(box, id, k); }
  }

  /** PUBREC: once the PUBREL has been built, the message is ACKNOWLEDGED. */
  lemma PubrecRecords(cfg: Config, s: State, id: nat, drawn: nat)
    ensures var t := PubrecStep(cfg, s, id, drawn);
      if cfg.room >= 7 then MarkedAs(s.outbox, t.outbox, id, Acknowledged) && t.phase == s.phase
      else t.outbox == s.outbox && t.phase == WaitReconnect
  {
    PendingMarks(s.outbox, id, Acknowledged);
  }

  /** The type of the message that an acknowledgement is for: SUBSCRIBE for a SUBACK, UNSUBSCRIBE
      for an UNSUBACK, PUBLISH for a PUBACK or PUBCOMP. */
  function AckFor(kind: nat): nat { if kind == 9 then 8 else if kind == 11 then 10 else 3 }

  /** An acknowledgement takes out the first message with its identifier and that type. */
  lemma AckRemoves(s: State, kind: nat, id: nat, k: nat)
    requires FirstOf(s.outbox, id, AckFor(kind), k)
    ensures var t := AckStep(s, kind, id);
      && t.outbox == s.outbox[..k] + s.outbox[k + 1..] && t.phase == s.phase
      && t.published == s.published + (if AckFor(kind) == 3 then [s.outbox[k].serial] else [])
  {
    KindFound(s.outbox, id, AckFor(kind), k);
  }

  /** ... or, if there is none, nothing. */
  lemma AckIgnored(s: State, kind: nat, id: nat)
    requires forall k :: 0 <= k < |s.outbox| ==> !(s.outbox[k].id == id && s.outbox[k].kind % 256 == AckFor(kind))
    ensures AckStep(s, kind, id) == s
  {
    var q := ByIdAndKind(id, AckFor(kind));
    forall j | 0 <= j < |s.outbox| ensures !q.Matches(s.outbox[j]) {}
    FirstIs(s.outbox, q, |s.outbox|);
  }

  // ----- what the task does -----

  /** The first queued message has been written: a PUBLISH with QoS 0 is gone, one with a higher
      QoS is TRANSMITTED. */
  lemma QueuedSent(s: State, k: nat)
    requires FirstIn(s.outbox, Queued, k) && s.outbox[k].kind == 3 && s.outbox[k].bytes != []
    requires s.outbox[k].bytes[0] / 16 == 3
    ensures var e, t := s.outbox[k], ResendQueuedStep(s, true);
      if e.qos == 0 then t.outbox == s.outbox[..k] + s.outbox[k + 1..]
      else MarkedAs(s.outbox, t.outbox, e.id, Transmitted)
  {
    FirstFound(s.outbox, Queued, k);
    PendingMarks(s.outbox, s.outbox[k].id, Transmitted);
  }

  /** ... with unique identifiers it is that message itself. */
  lemma QueuedSentUnique(s: State, k: nat)
    requires FirstIn(s.outbox, Queued, k) && s.outbox[k].kind == 3 && s.outbox[k].bytes != []
    requires s.outbox[k].bytes[0] / 16 == 3 && s.outbox[k].qos > 0 && s.outbox[k].id != 0 && UniqueIds(s.outbox)
    ensures ResendQueuedStep(s, true).outbox == s.outbox[k := s.outbox[k].(pending := Transmitted)]
  {
    QueuedSent(s, k);
    var box := ResendQueuedStep(s, true).outbox;
    forall j | 0 <= j < |s.outbox|
      ensures box[j] == if j == k then s.outbox[k].(pending := Transmitted) else s.outbox[j]
    {
    }
    assert box == s.outbox[k := s.outbox[k].(pending := Transmitted)];
  }

  /** The write failed: the connection is given up and the outbox is as it was. */
  lemma QueuedFailed(s: State, k: nat)
    requires FirstIn(s.outbox, Queued, k)
    ensures ResendQueuedStep(s, false) == s.(phase := WaitReconnect)
  {
    FirstFound(s.outbox, Queued, k);
  }

  /** The first transmitted message is due: DUP is set in a PUBLISH, and nothing else changes. */
  lemma TransmittedAgain(s: State, now: int, timeout: int, ok: bool, k: nat)
    requires FirstIn(s.outbox, Transmitted, k) && now - s.outbox[k].tick > timeout
    ensures var e, t := s.outbox[k], ResendTransmittedStep(s, now, timeout, ok);
      && (e.kind == 3 && e.qos > 0 && e.bytes != [] ==>
            t.outbox == s.outbox[k := e.(bytes := e.bytes[0 := if e.bytes[0] / 8 % 2 == 1 then e.bytes[0]
                                                             else e.bytes[0] + 8])])
      && (e.kind != 3 || e.qos == 0 ==> t.outbox == s.outbox)
      && t.phase == if ok then s.phase else WaitReconnect
  {
    FirstFound(s.outbox, Transmitted, k);
  }

  /** A whole pass whose writes succeed, with a PUBLISH queued ... */
  lemma PassWithQueued(cfg: Config, s: State, now: int, timeout: int, due: bool, drawn: nat, k: nat)
    requires FirstIn(s.outbox, Queued, k) && s.outbox[k].kind == 3 && s.outbox[k].bytes != []
    requires s.outbox[k].bytes[0] / 16 == 3
    ensures var e, t := s.outbox[k], SendStep(cfg, s, now, timeout, due, true, true, drawn);
      if e.qos == 0 then t.outbox == s.outbox[..k] + s.outbox[k + 1..]
      else MarkedAs(s.outbox, t.outbox, e.id, Transmitted)
  {
    FirstFound(s.outbox, Queued, k);
    QueuedSent(s, k);
  }

  /** ... or with nothing queued: DUP in the first transmitted PUBLISH if it is time, and no other
      change. */
  lemma PassWithoutQueued(cfg: Config, s: State, now: int, timeout: int, due: bool, drawn: nat, j: nat)
    requires FirstOrNone(s.outbox, Queued, |s.outbox|) && FirstOrNone(s.outbox, Transmitted, j)
    requires j < |s.outbox| ==> s.outbox[j].kind == 3 && s.outbox[j].qos > 0 && s.outbox[j].bytes != []
    ensures SendStep(cfg, s, now, timeout, due, true, true, drawn).outbox ==
            if due && j < |s.outbox| && now - s.outbox[j].tick > timeout then
              var e := s.outbox[j];
              s.outbox[j := e.(bytes := e.bytes[0 := if e.bytes[0] / 8 % 2 == 1 then e.bytes[0] else e.bytes[0] + 8])]
            else s.outbox
  {
    FirstFound(s.outbox, Queued, |s.outbox|);
    FirstFound(s.outbox, Transmitted, j);
  }

  /** Expiry keeps exactly the messages that are not too old, in their order. */
  lemma ExpireLeaves(cfg: Config, s: State, now: int)
    requires Good(s.outbox, s.births)
    ensures var box := ExpireStep(cfg, s, now).outbox;
      && (forall e :: e in box <==> e in s.outbox && now - e.tick <= cfg.expiry)
      && (forall i, j :: 0 <= i < j < |box| ==> box[i].serial < box[j].serial)
  {
    var q := Expired(now, cfg.expiry);
    WithoutMembers(s.outbox, q);
    GoodWithout(s.outbox, s.births, q);
  }

  // ----- over a run -----

  lemma {:induction false} FindAt(box: seq<Entry>, k: nat)
    requires k < |box| && forall i, j :: 0 <= i < j < |box| ==> box[i].serial < box[j].serial
    ensures Find(box, box[k].serial) == Some(box[k])
    decreases |box|
  {
    if k > 0 {
      FindAt(box[1..], k - 1);
      assert box[1..][k - 1] == box[k];
    }
  }

  /** While identifiers are unique, a message that is ACKNOWLEDGED stays so until it is gone: it is
      never again the first queued or the first transmitted one, so its PUBLISH is not sent again. */
  lemma AcknowledgedForGood(cfg: Config, start: nat, path: seq<State>, labels: seq<Label>, i: nat, j: nat, k: nat,
                            n: nat)
    requires start < 65536 && IsRun(cfg, start, path, labels) && i <= j < |path|
    requires forall k :: 0 <= k < |path| ==> UniqueIds(path[k].outbox)
    requires k < |path[i].outbox| && path[i].outbox[k].pending == Acknowledged
    requires n < |path[j].outbox| && path[j].outbox[n].serial == path[i].outbox[k].serial
    ensures path[j].outbox[n].pending == Acknowledged
    ensures !FirstIn(path[j].outbox, Queued, n) && !FirstIn(path[j].outbox, Transmitted, n)
  {
    var x := path[i].outbox[k].serial;
    RunInvariant(cfg, start, path, labels, i);
    RunInvariant(cfg, start, path, labels, j);
    GoodIndex(path[i], k);
    GoodIndex(path[j], n);
    FindAt(path[i].outbox, k);
    FindAt(path[j].outbox, n);
    RunForward(cfg, start, path, labels, i, j, x, true);
  }

  /** After the PUBREC for a stored message, in any later state of the run. */
  lemma PubrecForGood(cfg: Config, start: nat, path: seq<State>, labels: seq<Label>, i: nat, j: nat, k: nat, n: nat)
    requires start < 65536 && IsRun(cfg, start, path, labels) && i < j < |path| && cfg.room >= 7
    requires forall k :: 0 <= k < |path| ==> UniqueIds(path[k].outbox)
    requires labels[i].Pubrec? && FirstId(path[i].outbox, labels[i].id, k)
    requires n < |path[j].outbox| && path[j].outbox[n].serial == path[i].outbox[k].serial
    ensures path[j].outbox[n].pending == Acknowledged
    ensures !FirstIn(path[j].outbox, Queued, n) && !FirstIn(path[j].outbox, Transmitted, n)
  {
    PubrecRecords(cfg, path[i], labels[i].id, labels[i].drawn);
    assert Step(cfg, path[i], labels[i], path[i + 1]);
    AcknowledgedForGood(cfg, start, path, labels, i + 1, j, k, n);
  }
}
