/**
 * Theorems over whole runs of the session, from start until stop.
 */
module SessionRuns {
  import opened Bytes
  import opened VarInt
  import opened Packet
  import opened Connections
  import opened OutboxModel
  import opened Session
  import opened SessionInvariants

  // ----- how a message changes -----

  function Rank(p: Pending): nat {
    match p
    case Queued => 0
    case Transmitted => 1
    case Acknowledged => 2
    case Confirmed => 3
  }

  /** The same message later: never queued again, DUP never taken back; with `strict`, the
      state has not gone back at all. */
  predicate Forward(e: Entry, e': Entry, strict: bool) {
    && e.serial == e'.serial && e.id == e'.id && e.kind == e'.kind && e.qos == e'.qos
    && |e.bytes| == |e'.bytes| > 0
    && (e.pending != Queued ==> e'.pending != Queued)
    && (DupOf(e.bytes[0]) == 1 ==> DupOf(e'.bytes[0]) == 1)
    && (strict ==> Rank(e.pending) <= Rank(e'.pending))
  }

  /** The stored message with serial `x`. */
  function Find(box: seq<Entry>, x: nat): (r: Option<Entry>)
    ensures r.Some? ==> r.value in box && r.value.serial == x
  {
    if box == [] then None else if box[0].serial == x then Some(box[0]) else Find(box[1..], x)
  }

  /** Message `x` is gone, or it is the one that was there, moved forward. */
  predicate Later(a: seq<Entry>, b: seq<Entry>, x: nat, strict: bool) {
    Find(b, x).None? || (Find(a, x).Some? && Forward(Find(a, x).value, Find(b, x).value, strict))
  }

  lemma {:induction false} FindConcat(a: seq<Entry>, b: seq<Entry>, x: nat)
    ensures Find(a + b, x) == if Find(a, x).Some? then Find(a, x) else Find(b, x)
    decreases |a|
  {
    if a == [] {
      assert a + b == b;
    } else {
      assert (a + b)[0] == a[0] && (a + b)[1..] == a[1..] + b;
      FindConcat(a[1..], b, x);
    }
  }

  lemma FindHead(e: Entry, b: seq<Entry>, x: nat)
    ensures Find([e] + b, x) == if e.serial == x then Some(e) else Find(b, x)
  {
    assert ([e] + b)[1..] == b;
  }

  lemma {:induction false} FindAbsent(box: seq<Entry>, x: nat)
    requires forall e :: e in box ==> e.serial != x
    ensures Find(box, x) == None
    decreases |box|
  {
    if box != [] {
      assert box[0] in box && forall e :: e in box[1..] ==> e in box;
      FindAbsent(box[1..], x);
    }
  }

  lemma FindSplit(box: seq<Entry>, k: nat, e: Entry, x: nat)
    requires k < |box|
    ensures Find(box[k := e], x) ==
            if Find(box[..k], x).Some? then Find(box[..k], x)
            else if e.serial == x then Some(e) else Find(box[k + 1..], x)
  {
    assert box[k := e] == box[..k] + ([e] + box[k + 1..]);
    FindConcat(box[..k], [e] + box[k + 1..], x);
    FindHead(e, box[k + 1..], x);
  }

  lemma LaterSelf(s: State, x: nat)
    requires Good(s.outbox, s.births)
    ensures Later(s.outbox, s.outbox, x, true) && Later(s.outbox, s.outbox, x, false)
  {
    if Find(s.outbox, x).Some? {
      var i :| 0 <= i < |s.outbox| && s.outbox[i] == Find(s.outbox, x).value;
      assert Faithful(s.outbox[i], s.births[s.outbox[i].serial]);
    }
  }

  lemma LaterUpdate(a: seq<Entry>, k: nat, e: Entry, x: nat, strict: bool)
    requires k < |a| && Later(a, a, x, strict) && a[k].serial == e.serial
    requires e.serial == x ==> Forward(a[k], e, strict)
    ensures Later(a, a[k := e], x, strict)
  {
    FindSplit(a, k, e, x);
    FindSplit(a, k, a[k], x);
    assert a[k := a[k]] == a;
  }

  lemma LaterRemove(s: State, k: nat, x: nat, strict: bool)
    requires Good(s.outbox, s.births) && k < |s.outbox|
    ensures Later(s.outbox, RemoveAt(s.outbox, k), x, strict)
  {
    var a := s.outbox;
    LaterSelf(s, x);
    FindSplit(a, k, a[k], x);
    assert a[k := a[k]] == a;
    FindConcat(a[..k], a[k + 1..], x);
    if a[k].serial == x {
      forall e | e in a[k + 1..] ensures e.serial != x {
        var i :| 0 <= i < |a[k + 1..]| && a[k + 1..][i] == e;
        assert a[k + 1 + i] == e;
      }
      FindAbsent(a[k + 1..], x);
    }
  }

  lemma {:induction false} FindWithout(box: seq<Entry>, births: seq<Birth>, q: Query, x: nat)
    requires Good(box, births)
    ensures Find(Without(box, q), x).None? || Find(Without(box, q), x) == Find(box, x)
    decreases |box|
  {
    if box != [] {
      GoodTail(box, births);
      FindWithout(box[1..], births, q, x);
      WithoutMembers(box[1..], q);
      if q.Matches(box[0]) {
        assert [] + Without(box[1..], q) == Without(box[1..], q);
        if box[0].serial == x { FindAbsent(Without(box[1..], q), x); }
      } else {
        FindHead(box[0], Without(box[1..], q), x);
      }
    }
  }

  lemma LaterPending(a: seq<Entry>, id: nat, p: Pending, x: nat, strict: bool)
    requires Later(a, a, x, strict) && p != Queued
    requires var k := First(a, ById(id)); k < |a| && a[k].serial == x ==>
              a[k].bytes != [] && (strict ==> Rank(a[k].pending) <= Rank(p))
    ensures Later(a, WithPending(a, id, p), x, strict)
  {
    var k := First(a, ById(id));
    if k < |a| { LaterUpdate(a, k, a[k].InState(p), x, strict); }
  }

  lemma LaterTick(a: seq<Entry>, id: nat, tick: int, x: nat, strict: bool)
    requires Later(a, a, x, strict)
    requires var k := First(a, ById(id)); k < |a| && a[k].serial == x ==> a[k].bytes != []
    ensures Later(a, WithTick(a, id, tick), x, strict)
  {
    var k := First(a, ById(id));
    if k < |a| { LaterUpdate(a, k, a[k].At(tick), x, strict); }
  }

  /** Where a unique identifier is found. */
  lemma UniqueFirst(box: seq<Entry>, k: nat)
    requires UniqueIds(box) && k < |box| && box[k].id != 0
    ensures First(box, ById(box[k].id)) == k
  {
    var f := First(box, ById(box[k].id));
    NothingBefore(box, ById(box[k].id));
    assert box[f].id == box[k].id;
  }

  lemma GoodIndex(s: State, k: nat)
    requires Good(s.outbox, s.births) && k < |s.outbox|
    ensures Faithful(s.outbox[k], s.births[s.outbox[k].serial]) && s.outbox[k].bytes != []
    ensures s.outbox[k].serial < |s.births|
  {
  }

  lemma LaterTransitive(a: seq<Entry>, b: seq<Entry>, c: seq<Entry>, x: nat, strict: bool)
    requires Later(a, b, x, strict) && Later(b, c, x, strict)
    ensures Later(a, c, x, strict)
  {
  }

  // ----- one step -----

  /** A new message does not touch the older ones. */
  lemma LaterAppend(s: State, e: Entry, x: nat, strict: bool)
    requires Good(s.outbox, s.births) && e.serial != x
    ensures Find(s.outbox + [e], x) == Find(s.outbox, x)
    ensures Later(s.outbox, s.outbox + [e], x, strict) && Later(s.outbox + [e], s.outbox + [e], x, strict)
  {
    FindConcat(s.outbox, [e], x);
    FindHead(e, [], x);
    assert [e] + [] == [e];
    LaterSelf(s, x);
  }

  /** The entry a mark by identifier meets in a freshly extended outbox. */
  lemma MarkMeets(s: State, box: seq<Entry>, id: nat, x: nat)
    requires Good(s.outbox, s.births) && |box| == |s.outbox| + 1 && x < |s.births|
    requires box[|s.outbox|].id == id != 0 && box[|s.outbox|].serial == |s.births|
    requires forall i :: 0 <= i < |s.outbox| ==>
              box[i].bytes == s.outbox[i].bytes && box[i].serial == s.outbox[i].serial
    ensures var k := First(box, ById(id));
      k < |box| && (box[k].serial == x ==> box[k].bytes != []) && (UniqueIds(box) ==> box[k].serial != x)
  {
    var k := First(box, ById(id));
    FirstAtMost(box, ById(id), |s.outbox|);
    if k < |s.outbox| { GoodIndex(s, k); }
    if UniqueIds(box) { UniqueFirst(box, |s.outbox|); }
  }

  lemma FirstAtMost(box: seq<Entry>, q: Query, n: nat)
    requires n < |box| && q.Matches(box[n])
    ensures First(box, q) <= n
  {
    NothingBefore(box, q);
  }

  lemma StoreAndTransmit(s: State, m: Message, tick: int, sentTick: int, x: nat, strict: bool)
    requires Good(s.outbox, s.births) && m.id != 0 && x < |s.births|
    requires strict ==> UniqueIds(Transmit(Store(s, m, tick), m.id, sentTick).outbox)
    ensures Later(s.outbox, Transmit(Store(s, m, tick), m.id, sentTick).outbox, x, strict)
  {
    var e := Entry(m.bytes, m.id, m.kind, m.qos, tick, Queued, |s.births|);
    var box := s.outbox + [e];
    var ticked := WithTick(box, m.id, sentTick);
    LaterAppend(s, e, x, strict);
    MarkMeets(s, box, m.id, x);
    LaterTick(box, m.id, sentTick, x, strict);
    LaterTransitive(s.outbox, box, ticked, x, strict);
    MarkMeets(s, ticked, m.id, x);
    if strict { UniqueBefore(ticked, m.id); }
    LaterAgain(s.outbox, ticked, x, strict);
    LaterPending(ticked, m.id, Transmitted, x, strict);
    LaterTransitive(s.outbox, ticked, WithPending(ticked, m.id, Transmitted), x, strict);
  }

  lemma LaterAgain(a: seq<Entry>, b: seq<Entry>, x: nat, strict: bool)
    requires Later(a, b, x, strict)
    ensures Later(b, b, x, strict)
  {
  }

  lemma StoreAndMark(s: State, m: Message, tick: int, x: nat, strict: bool)
    requires Good(s.outbox, s.births) && m.id != 0 && x < |s.births|
    requires strict ==> UniqueIds(WithPending(Store(s, m, tick).outbox, m.id, Transmitted))
    ensures Later(s.outbox, WithPending(Store(s, m, tick).outbox, m.id, Transmitted), x, strict)
  {
    var e := Entry(m.bytes, m.id, m.kind, m.qos, tick, Queued, |s.births|);
    var box := s.outbox + [e];
    LaterAppend(s, e, x, strict);
    MarkMeets(s, box, m.id, x);
    if strict { UniqueBefore(box, m.id); }
    LaterPending(box, m.id, Transmitted, x, strict);
    LaterTransitive(s.outbox, box, WithPending(box, m.id, Transmitted), x, strict);
  }

  /** Marking does not change identifiers. */
  lemma UniqueBefore(box: seq<Entry>, id: nat)
    requires UniqueIds(WithPending(box, id, Transmitted))
    ensures UniqueIds(box)
  {
    var b := WithPending(box, id, Transmitted);
    forall i | 0 <= i < |box| ensures b[i].id == box[i].id {}
  }

  lemma ResendQueuedAdvance(s: State, ok: bool, x: nat, strict: bool)
    requires Good(s.outbox, s.births) && (strict ==> UniqueIds(s.outbox))
    ensures Later(s.outbox, ResendQueuedStep(s, ok).outbox, x, strict)
  {
    var k := First(s.outbox, ByPending(Queued));
    LaterSelf(s, x);
    if k < |s.outbox| && ok {
      var e := s.outbox[k];
      GoodIndex(s, k);
      if e.kind == PUBLISH && e.qos == 0 {
        LaterRemove(s, k, x, strict);
      } else if e.qos > 0 && TypeOf(e.bytes[0]) == PUBLISH {
        if strict { UniqueFirst(s.outbox, k); }
        var f := First(s.outbox, ById(e.id));
        if f < |s.outbox| { GoodIndex(s, f); }
        LaterPending(s.outbox, e.id, Transmitted, x, strict);
      }
    }
  }

  lemma ResendTransmittedAdvance(s: State, now: int, timeout: int, ok: bool, x: nat, strict: bool)
    requires Good(s.outbox, s.births)
    ensures Later(s.outbox, ResendTransmittedStep(s, now, timeout, ok).outbox, x, strict)
  {
    var k := First(s.outbox, ByPending(Transmitted));
    LaterSelf(s, x);
    if k < |s.outbox| {
      GoodIndex(s, k);
      LaterUpdate(s.outbox, k, s.outbox[k].WithDup(), x, strict);
    }
  }

  lemma AckAdvance(s: State, kind: nat, id: nat, x: nat, strict: bool)
    requires Good(s.outbox, s.births)
    ensures Later(s.outbox, AckStep(s, kind, id).outbox, x, strict)
  {
    var k := First(s.outbox, ByIdAndKind(id, Initiator(kind)));
    LaterSelf(s, x);
    if k < |s.outbox| { LaterRemove(s, k, x, strict); }
  }

  lemma PubrecAdvance(s: State, id: nat, x: nat, strict: bool)
    requires Good(s.outbox, s.births)
    ensures Later(s.outbox, WithPending(s.outbox, id, Acknowledged), x, strict)
  {
    LaterSelf(s, x);
    var k := First(s.outbox, ById(id));
    if k < |s.outbox| { GoodIndex(s, k); }
    LaterPending(s.outbox, id, Acknowledged, x, strict);
  }

  lemma ExpireAdvance(cfg: Config, s: State, now: int, x: nat, strict: bool)
    requires Good(s.outbox, s.births)
    ensures Later(s.outbox, ExpireStep(cfg, s, now).outbox, x, strict)
  {
    LaterSelf(s, x);
    FindWithout(s.outbox, s.births, Expired(now, cfg.expiry), x);
  }

  lemma PublishAdvance(cfg: Config, s: State, l: Label, x: nat, strict: bool)
    requires s.lastId < 65536 && Good(s.outbox, s.births) && Enabled(cfg, s, l) && x < |s.births|
    requires l.Publish? || l.Enqueue? || l.Subscribe? || l.Unsubscribe?
    requires strict ==> UniqueIds(Next(cfg, s, l).outbox)
    ensures Later(s.outbox, Next(cfg, s, l).outbox, x, strict)
  {
    var m := l.m;
    var t := if m.id != 0 then Draw(cfg, s, m.id) else s;
    var e := Entry(m.bytes, m.id, m.kind, m.qos, l.tick, Queued, |s.births|);
    if l.Subscribe? || l.Unsubscribe? {
      StoreAndMark(t, m, l.tick, x, strict);
    } else if l.Publish? && l.outcome.Sent? {
      StoreAndTransmit(t, m, l.tick, l.outcome.tick, x, strict);
    } else {
      LaterAppend(s, e, x, strict);
    }
  }

  /** In one step, messages only move forward. Going back from ACKNOWLEDGED to TRANSMITTED
      takes two messages with the same identifier. */
  lemma StepAdvances(cfg: Config, s: State, l: Label, x: nat, strict: bool)
    requires s.lastId < 65536 && Good(s.outbox, s.births) && Enabled(cfg, s, l) && x < |s.births|
    requires strict ==> UniqueIds(s.outbox) && UniqueIds(Next(cfg, s, l).outbox)
    ensures Later(s.outbox, Next(cfg, s, l).outbox, x, strict)
    ensures |s.births| <= |Next(cfg, s, l).births|
  {
    LaterSelf(s, x);
    match l {
      case Acked(kind, id) => AckAdvance(s, kind, id, x, strict);
      case Pubrec(id, drawn) => if cfg.room >= 7 { PubrecAdvance(s, id, x, strict); }
      case ResendQueued(ok) => ResendQueuedAdvance(s, ok, x, strict);
      case ResendTransmitted(now, timeout, ok) => ResendTransmittedAdvance(s, now, timeout, ok, x, strict);
      case Expire(now) => ExpireAdvance(cfg, s, now, x, strict);
      case PublishQos0(_) =>
      case IdWasted(_) =>
      case ResendPubrel(_, _, _, _) =>
      case Abort =>
      case Enter(_) =>
      case _ => PublishAdvance(cfg, s, l, x, strict);
    }
  }

  // ----- order of the resend path -----

  /** Only PUBLISH messages wait to be sent, all of them behind every message the resend path
      has already sent, and those went out in the order they were stored. */
  ghost predicate Fifo(s: State) {
    && (forall i, j :: 0 <= i < j < |s.resent| ==> s.resent[i] < s.resent[j])
    && (forall i :: 0 <= i < |s.resent| ==> s.resent[i] < |s.births|)
    && (forall e :: e in s.outbox && e.pending == Queued ==> e.kind == PUBLISH && Behind(s.resent, e.serial))
  }

  ghost predicate Behind(resent: seq<nat>, x: nat) {
    forall i :: 0 <= i < |resent| ==> resent[i] < x
  }

  /** What the outbox may do without disturbing the order: nothing becomes queued except new
      PUBLISH messages. */
  ghost predicate QueuedFrom(a: seq<Entry>, b: seq<Entry>, n: nat) {
    forall e :: e in b && e.pending == Queued ==>
      e.kind == PUBLISH && (e.serial >= n || exists e' :: e' in a && e'.pending == Queued && e'.serial == e.serial)
  }

  lemma FifoFrom(s: State, t: State)
    requires Fifo(s) && t.resent == s.resent && |t.births| >= |s.births|
    requires QueuedFrom(s.outbox, t.outbox, |s.births|)
    ensures Fifo(t)
  {
    forall e | e in t.outbox && e.pending == Queued ensures e.kind == PUBLISH && Behind(t.resent, e.serial) {
      if e.serial < |s.births| {
        var e' :| e' in s.outbox && e'.pending == Queued && e'.serial == e.serial;
        assert Behind(s.resent, e'.serial);
      }
    }
  }

  lemma PendingQueued(a: seq<Entry>, id: nat, p: Pending)
    requires p != Queued
    ensures forall e :: e in WithPending(a, id, p) && e.pending == Queued ==> e in a
  {
  }

  lemma TickQueued(a: seq<Entry>, id: nat, tick: int)
    ensures forall e :: e in WithTick(a, id, tick) && e.pending == Queued ==>
              exists e' :: e' in a && e'.pending == Queued && e'.serial == e.serial && e'.kind == e.kind
  {
    var b, k := WithTick(a, id, tick), First(a, ById(id));
    forall e | e in b && e.pending == Queued
      ensures exists e' :: e' in a && e'.pending == Queued && e'.serial == e.serial && e'.kind == e.kind
    {
      var i :| 0 <= i < |b| && b[i] == e;
      assert a[i] in a && a[i].serial == e.serial && a[i].pending == e.pending && a[i].kind == e.kind;
    }
  }

  /** The first queued message is the oldest queued one. */
  lemma OldestQueued(box: seq<Entry>, births: seq<Birth>, k: nat, i: nat)
    requires Good(box, births) && First(box, ByPending(Queued)) == k < |box|
    requires i < |box| && i != k && box[i].pending == Queued
    ensures box[k].serial < box[i].serial
  {
    NothingBefore(box, ByPending(Queued));
    assert !(i < k);
  }

  /** After the first queued message is gone or marked, the rest is behind it. */
  lemma SentFirst(s: State, k: nat, t: State)
    requires Good(s.outbox, s.births) && Fifo(s) && First(s.outbox, ByPending(Queued)) == k < |s.outbox|
    requires t.births == s.births && t.resent == s.resent + [s.outbox[k].serial]
    requires forall e :: e in t.outbox && e.pending == Queued ==>
               exists i :: 0 <= i < |s.outbox| && i != k && s.outbox[i] == e
    ensures Fifo(t)
  {
    var x := s.outbox[k];
    GoodIndex(s, k);
    assert x in s.outbox && Behind(s.resent, x.serial);
    forall e | e in t.outbox && e.pending == Queued ensures e.kind == PUBLISH && Behind(t.resent, e.serial) {
      var i :| 0 <= i < |s.outbox| && i != k && s.outbox[i] == e;
      assert e in s.outbox && Behind(s.resent, e.serial);
      OldestQueued(s.outbox, s.births, k, i);
    }
  }

  lemma RemovedOthers(box: seq<Entry>, k: nat)
    requires k < |box|
    ensures forall e :: e in RemoveAt(box, k) ==> exists i :: 0 <= i < |box| && i != k && box[i] == e
  {
    var b := RemoveAt(box, k);
    forall e | e in b ensures exists i :: 0 <= i < |box| && i != k && box[i] == e {
      var j :| 0 <= j < |b| && b[j] == e;
      assert box[if j < k then j else j + 1] == e;
    }
  }

  lemma MarkedOthers(box: seq<Entry>, k: nat, p: Pending)
    requires k < |box| && p != Queued && First(box, ById(box[k].id)) == k
    ensures forall e :: e in WithPending(box, box[k].id, p) && e.pending == Queued ==>
              exists i :: 0 <= i < |box| && i != k && box[i] == e
  {
    var b := WithPending(box, box[k].id, p);
    forall e | e in b && e.pending == Queued ensures exists i :: 0 <= i < |box| && i != k && box[i] == e {
      var j :| 0 <= j < |b| && b[j] == e;
      assert j != k && box[j] == e;
    }
  }

  /** With unique identifiers the first queued message is marked or deleted as soon as it is sent. */
  lemma ResendQueuedFifo(s: State, ok: bool)
    requires Good(s.outbox, s.births) && Fifo(s) && UniqueIds(s.outbox)
    ensures Fifo(ResendQueuedStep(s, ok))
  {
    var k := First(s.outbox, ByPending(Queued));
    if k < |s.outbox| && ok {
      var x := s.outbox[k];
      GoodIndex(s, k);
      assert x in s.outbox && x.kind == PUBLISH;
      if x.qos == 0 {
        RemovedOthers(s.outbox, k);
      } else {
        UniqueFirst(s.outbox, k);
        MarkedOthers(s.outbox, k, Transmitted);
      }
      SentFirst(s, k, ResendQueuedStep(s, ok));
    }
  }

  lemma StepFifo(cfg: Config, start: nat, s: State, l: Label)
    requires start < 65536 && Inv(cfg, start, s) && Enabled(cfg, s, l) && Fifo(s)
    requires UniqueIds(s.outbox) && UniqueIds(Next(cfg, s, l).outbox)
    ensures Fifo(Next(cfg, s, l))
  {
    match l {
      case ResendQueued(ok) => ResendQueuedFifo(s, ok);
      case Acked(kind, id) => AckFifo(s, kind, id);
      case Pubrec(id, drawn) => PubrecFifo(cfg, s, id, drawn);
      case ResendTransmitted(now, timeout, ok) => ResendTransmittedFifo(s, now, timeout, ok);
      case Expire(now) => ExpireFifo(cfg, s, now);
      case PublishQos0(_) =>
      case IdWasted(_) =>
      case ResendPubrel(_, _, _, _) =>
      case Abort =>
      case Enter(_) =>
      case _ => StoreFifo(cfg, s, l);
    }
  }

  lemma AckFifo(s: State, kind: nat, id: nat)
    requires Fifo(s)
    ensures Fifo(AckStep(s, kind, id))
  {
    var t := AckStep(s, kind, id);
    assert forall e :: e in t.outbox ==> e in s.outbox;
    FifoFrom(s, t);
  }

  lemma PubrecFifo(cfg: Config, s: State, id: nat, drawn: nat)
    requires s.lastId < 65536 && Fifo(s)
    ensures Fifo(Next(cfg, s, Pubrec(id, drawn)))
  {
    PendingQueued(s.outbox, id, Acknowledged);
    FifoFrom(s, Next(cfg, s, Pubrec(id, drawn)));
  }

  lemma ResendTransmittedFifo(s: State, now: int, timeout: int, ok: bool)
    requires Fifo(s)
    ensures Fifo(ResendTransmittedStep(s, now, timeout, ok))
  {
    var t := ResendTransmittedStep(s, now, timeout, ok);
    assert forall e :: e in t.outbox && e.pending == Queued ==> e in s.outbox;
    FifoFrom(s, t);
  }

  lemma ExpireFifo(cfg: Config, s: State, now: int)
    requires Fifo(s)
    ensures Fifo(ExpireStep(cfg, s, now))
  {
    WithoutMembers(s.outbox, Expired(now, cfg.expiry));
    FifoFrom(s, ExpireStep(cfg, s, now));
  }

  lemma QueuedAppend(s: State, e: Entry)
    requires Fifo(s) && e.kind == PUBLISH && e.serial == |s.births|
    ensures QueuedFrom(s.outbox, s.outbox + [e], |s.births|)
  {
  }

  lemma QueuedPending(a: seq<Entry>, b: seq<Entry>, n: nat, id: nat, p: Pending)
    requires QueuedFrom(a, b, n) && p != Queued
    ensures QueuedFrom(a, WithPending(b, id, p), n)
  {
    PendingQueued(b, id, p);
  }

  lemma QueuedTick(a: seq<Entry>, b: seq<Entry>, n: nat, id: nat, tick: int)
    requires QueuedFrom(a, b, n)
    ensures QueuedFrom(a, WithTick(b, id, tick), n)
  {
    TickQueued(b, id, tick);
  }

  /** A new PUBLISH is stored, and perhaps sent. */
  lemma StoredFifo(s: State, m: Message, draw: nat, tick: int, sent: bool, sentTick: int, t: State)
    requires Fifo(s) && m.kind == PUBLISH && t.resent == s.resent && t.births == s.births + [Birth(m, draw)]
    requires var box := s.outbox + [Entry(m.bytes, m.id, m.kind, m.qos, tick, Queued, |s.births|)];
      t.outbox == if sent then WithPending(WithTick(box, m.id, sentTick), m.id, Transmitted) else box
    ensures Fifo(t)
  {
    var e := Entry(m.bytes, m.id, m.kind, m.qos, tick, Queued, |s.births|);
    QueuedAppend(s, e);
    if sent {
      QueuedTick(s.outbox, s.outbox + [e], |s.births|, m.id, sentTick);
      QueuedPending(s.outbox, WithTick(s.outbox + [e], m.id, sentTick), |s.births|, m.id, Transmitted);
    }
    FifoFrom(s, t);
  }

  /** A SUBSCRIBE or UNSUBSCRIBE is marked at once, as its identifier is unique. */
  lemma SubscribedFifo(s: State, m: Message, draw: nat, tick: int, t: State)
    requires Fifo(s) && m.id != 0 && t.resent == s.resent && t.births == s.births + [Birth(m, draw)]
    requires var box := s.outbox + [Entry(m.bytes, m.id, m.kind, m.qos, tick, Queued, |s.births|)];
      t.outbox == WithPending(box, m.id, Transmitted) && UniqueIds(t.outbox)
    ensures Fifo(t)
  {
    var box := s.outbox + [Entry(m.bytes, m.id, m.kind, m.qos, tick, Queued, |s.births|)];
    UniqueBefore(box, m.id);
    UniqueFirst(box, |s.outbox|);
    NotQueued(box, |s.outbox|, s, Transmitted);
    FifoFrom(s, t);
  }

  lemma StoreFifo(cfg: Config, s: State, l: Label)
    requires s.lastId < 65536 && Enabled(cfg, s, l) && Fifo(s)
    requires l.Publish? || l.Enqueue? || l.Subscribe? || l.Unsubscribe?
    requires UniqueIds(Next(cfg, s, l).outbox)
    ensures Fifo(Next(cfg, s, l))
  {
    var t := Next(cfg, s, l);
    var draw := if l.m.id != 0 then s.draws + 1 else s.draws;
    if l.Publish? {
      StoredFifo(s, l.m, draw, l.tick, l.outcome.Sent?, if l.outcome.Sent? then l.outcome.tick else 0, t);
    } else if l.Enqueue? {
      StoredFifo(s, l.m, draw, l.tick, false, 0, t);
    } else {
      SubscribedFifo(s, l.m, draw, l.tick, t);
    }
  }

  /** The last of the entries is no longer queued. */
  lemma NotQueued(box: seq<Entry>, k: nat, s: State, p: Pending)
    requires k + 1 == |box| && box[..k] == s.outbox && p != Queued && First(box, ById(box[k].id)) == k
    ensures forall e :: e in WithPending(box, box[k].id, p) && e.pending == Queued ==> e in s.outbox
  {
    var b := WithPending(box, box[k].id, p);
    forall e | e in b && e.pending == Queued ensures e in s.outbox {
      var i :| 0 <= i < |b| && b[i] == e;
      assert box[..k][i] == e;
    }
  }

  // ----- memory -----

  ghost predicate Bounded(cfg: Config, s: State) {
    cfg.limit > 0 ==> Size(s.outbox) <= cfg.limit + cfg.room
  }

  lemma SizeAppend(box: seq<Entry>, e: Entry)
    ensures Size(box + [e]) == Size(box) + |e.bytes|
  {
    SizeConcat(box, [e]);
    assert Size([e]) == |e.bytes| + Size([]);
  }

  lemma SizePending(box: seq<Entry>, id: nat, p: Pending)
    ensures Size(WithPending(box, id, p)) == Size(box)
  {
    var k := First(box, ById(id));
    if k < |box| { SizeUpdate(box, k, box[k].InState(p)); }
  }

  lemma SizeTick(box: seq<Entry>, id: nat, tick: int)
    ensures Size(WithTick(box, id, tick)) == Size(box)
  {
    var k := First(box, ById(id));
    if k < |box| { SizeUpdate(box, k, box[k].At(tick)); }
  }

  lemma ResendSizes(s: State, l: Label)
    ensures Size(ResendQueuedStep(s, l == ResendQueued(true)).outbox) <= Size(s.outbox)
    ensures l.ResendTransmitted? ==> Size(ResendTransmittedStep(s, l.now, l.timeout, l.ok).outbox) == Size(s.outbox)
  {
    var k := First(s.outbox, ByPending(Queued));
    if k < |s.outbox| {
      SizeRemoveAt(s.outbox, k);
      SizePending(s.outbox, s.outbox[k].id, Transmitted);
    }
    var t := First(s.outbox, ByPending(Transmitted));
    if t < |s.outbox| && s.outbox[t].bytes != [] { SizeUpdate(s.outbox, t, s.outbox[t].WithDup()); }
  }

  lemma StoreSize(cfg: Config, s: State, l: Label)
    requires s.lastId < 65536 && Enabled(cfg, s, l)
    requires l.Publish? || l.Enqueue? || l.Subscribe? || l.Unsubscribe?
    ensures Size(Next(cfg, s, l).outbox) == Size(s.outbox) + |l.m.bytes|
  {
    var m := l.m;
    var e := Entry(m.bytes, m.id, m.kind, m.qos, l.tick, Queued, |s.births|);
    var box := s.outbox + [e];
    SizeAppend(s.outbox, e);
    SizePending(box, m.id, Transmitted);
    if l.Publish? && l.outcome.Sent? {
      SizeTick(box, m.id, l.outcome.tick);
      SizePending(WithTick(box, m.id, l.outcome.tick), m.id, Transmitted);
    }
  }

  /** Every step but an unsubscribe keeps the outbox within its limit plus one output buffer. */
  lemma StepBounded(cfg: Config, s: State, l: Label)
    requires s.lastId < 65536 && Enabled(cfg, s, l) && !l.Unsubscribe? && Bounded(cfg, s)
    ensures Bounded(cfg, Next(cfg, s, l))
  {
    match l {
      case Acked(kind, id) =>
        var k := First(s.outbox, ByIdAndKind(id, Initiator(kind)));
        if k < |s.outbox| { SizeRemoveAt(s.outbox, k); }
      case Pubrec(id, drawn) => SizePending(s.outbox, id, Acknowledged);
      case ResendQueued(ok) => ResendSizes(s, l);
      case ResendTransmitted(now, timeout, ok) => ResendSizes(s, l);
      case Expire(now) => SizeWithout(s.outbox, Expired(now, cfg.expiry));
      case PublishQos0(_) =>
      case IdWasted(_) =>
      case ResendPubrel(_, _, _, _) =>
      case Abort =>
      case Enter(_) =>
      case _ => StoreSize(cfg, s, l);
    }
  }

  /** Unsubscribing checks no limit: it keeps the bound exactly if there happens to be room. */
  lemma UnsubscribeBounded(cfg: Config, s: State, l: Label)
    requires s.lastId < 65536 && Enabled(cfg, s, l) && l.Unsubscribe?
    ensures Bounded(cfg, Next(cfg, s, l)) <==> (cfg.limit > 0 ==> Size(s.outbox) + |l.m.bytes| <= cfg.limit + cfg.room)
  {
    StoreSize(cfg, s, l);
  }

  // ----- runs -----

  /** A run from the start: states and the steps between them. */
  ghost predicate IsRun(cfg: Config, start: nat, path: seq<State>, labels: seq<Label>)
    requires start < 65536
  {
    && |path| == |labels| + 1 && path[0] == Start(start)
    && forall i {:trigger labels[i]} :: 0 <= i < |labels| ==> Step(cfg, path[i], labels[i], path[i + 1])
  }

  /** These steps lead from one state to another. */
  ghost predicate Leads(cfg: Config, s: State, labels: seq<Label>, t: State)
    decreases |labels|
  {
    if labels == [] then t == s
    else s.lastId < 65536 && Enabled(cfg, s, labels[0]) && Leads(cfg, Next(cfg, s, labels[0]), labels[1..], t)
  }

  /** A run goes on with any steps that lead on from its end. */
  lemma {:induction false} RunGoesOn(cfg: Config, start: nat, path: seq<State>, labels: seq<Label>, more: seq<Label>,
                                     t: State)
    returns (path': seq<State>)
    requires start < 65536 && IsRun(cfg, start, path, labels) && Leads(cfg, path[|path| - 1], more, t)
    ensures IsRun(cfg, start, path', labels + more) && path <= path' && path'[|path'| - 1] == t
    decreases |more|
  {
    if more == [] {
      assert labels + more == labels;
      return path;
    }
    var u := Next(cfg, path[|path| - 1], more[0]);
    RunStep(cfg, start, path, labels, more[0], u);
    path' := RunGoesOn(cfg, start, path + [u], labels + [more[0]], more[1..], t);
    assert labels + [more[0]] + more[1..] == labels + more;
  }

  lemma RunStep(cfg: Config, start: nat, path: seq<State>, labels: seq<Label>, l: Label, t: State)
    requires start < 65536 && IsRun(cfg, start, path, labels) && Step(cfg, path[|path| - 1], l, t)
    ensures IsRun(cfg, start, path + [t], labels + [l])
  {
    var path', labels' := path + [t], labels + [l];
    forall i {:trigger labels'[i]} | 0 <= i < |labels'|
      ensures Step(cfg, path'[i], labels'[i], path'[i + 1])
    {
      assert path'[i] == path[i];
      if i < |labels| { assert labels'[i] == labels[i] && path'[i + 1] == path[i + 1]; }
    }
  }

  /** The message an unsubscribe stores. */
  function UnsubscribeMessage(topic: seq<byte>, id: nat): Message {
    Message(UnsubscribePacket(topic, id), id, UNSUBSCRIBE, 0)
  }

  lemma UnsubscribeSize(topic: seq<byte>, id: nat)
    requires |topic| + 9 < LIMIT
    ensures 6 <= |UnsubscribePacket(topic, id)| <= 9 + |topic|
  {
    var body := U16(id) + Str(topic);
    assert |body| == 4 + |topic|;
    EncodeFourBytes(|body|);
  }

  lemma UnsubscribeBuilt(topic: seq<byte>, id: nat)
    requires 1 <= id < 65536
    ensures Built(UnsubscribeMessage(topic, id))
  {
    FramedHead(UNSUBSCRIBE, 0, 1, 0, |U16(id) + Str(topic)|, U16(id) + Str(topic));
  }

  /** As many unsubscribes as one likes, one after another, in a client that has just connected:
      their messages of at least six bytes add up, whatever the limit. */
  lemma {:induction false} UnsubscribesAddUp(cfg: Config, start: nat, topic: seq<byte>, n: nat)
    returns (path: seq<State>, labels: seq<Label>)
    requires start < 65536 && 9 + |topic| <= cfg.room < LIMIT
    ensures IsRun(cfg, start, path, labels) && path[|path| - 1].phase == Connected && path[|path| - 1].lastId < 65536
    ensures Size(path[|path| - 1].outbox) >= 6 * n
  {
    if n == 0 {
      path, labels := ConnectedRun(cfg, start);
    } else {
      path, labels := UnsubscribesAddUp(cfg, start, topic, n - 1);
      var l, t := OneMore(cfg, path[|path| - 1], topic);
      RunStep(cfg, start, path, labels, l, t);
      path, labels := path + [t], labels + [l];
    }
  }

  /** The shortest run to a connected client. */
  lemma ConnectedRun(cfg: Config, start: nat) returns (path: seq<State>, labels: seq<Label>)
    requires start < 65536
    ensures IsRun(cfg, start, path, labels) && path[|path| - 1].phase == Connected && path[|path| - 1].lastId < 65536
    ensures Size(path[|path| - 1].outbox) == 0
  {
    var s := Start(start);
    var t := s.(phase := Connected);
    RunStep(cfg, start, [s], [], Enter(Connected), t);
    path, labels := [s] + [t], [] + [Enter(Connected)];
  }

  lemma OneMore(cfg: Config, s: State, topic: seq<byte>) returns (l: Label, t: State)
    requires 9 + |topic| <= cfg.room < LIMIT && s.phase == Connected && s.lastId < 65536
    ensures Step(cfg, s, l, t) && t.phase == Connected && t.lastId < 65536
    ensures Size(t.outbox) >= Size(s.outbox) + 6
  {
    var m := UnsubscribeMessage(topic, NextId(s.lastId));
    l := Unsubscribe(m, 0);
    t := Next(cfg, s, l);
    UnsubscribeBuilt(topic, m.id);
    UnsubscribeSize(topic, m.id);
    StoreSize(cfg, s, l);
    UnsubscribeLeaves(cfg, s, m);
  }

  lemma UnsubscribeLeaves(cfg: Config, s: State, m: Message)
    requires s.lastId < 65536 && m.id < 65536
    ensures var t := Next(cfg, s, Unsubscribe(m, 0)); t.phase == s.phase && t.lastId < 65536
  {
  }

  /** So in some runs the outbox exceeds every bound. */
  lemma UnsubscribeExceeds(cfg: Config, start: nat, topic: seq<byte>, bound: nat)
    returns (path: seq<State>, labels: seq<Label>)
    requires start < 65536 && 9 + |topic| <= cfg.room < LIMIT
    ensures IsRun(cfg, start, path, labels) && Size(path[|path| - 1].outbox) > bound
  {
    path, labels := UnsubscribesAddUp(cfg, start, topic, bound + 1);
  }

  /** What one pass of the task does to the outbox are steps of a run. */
  lemma PassLeads(cfg: Config, s: State, now: int, timeout: int, due: bool, first: bool, second: bool, drawn: nat)
    requires s.lastId < 65536 && s.phase == Connected && Drawn(cfg, s, drawn)
    ensures var a := ExpireStep(cfg, s, now);
      Leads(cfg, s, [Expire(now)] + SendLabels(a, now, timeout, due, first, second, drawn),
            SendStep(cfg, a, now, timeout, due, first, second, drawn))
  {
    var a := ExpireStep(cfg, s, now);
    var labels := SendLabels(a, now, timeout, due, first, second, drawn);
    SendLeads(cfg, a, now, timeout, due, first, second, drawn);
    assert ([Expire(now)] + labels)[1..] == labels;
  }

  lemma SendLeads(cfg: Config, s: State, now: int, timeout: int, due: bool, first: bool, second: bool, drawn: nat)
    requires s.lastId < 65536 && s.phase == Connected && Drawn(cfg, s, drawn)
    ensures Leads(cfg, s, SendLabels(s, now, timeout, due, first, second, drawn),
                  SendStep(cfg, s, now, timeout, due, first, second, drawn))
  {
    if First(s.outbox, ByPending(Queued)) < |s.outbox| {
      assert [ResendQueued(first)][1..] == [];
    } else if due {
      var b, c := ResendTransmitted(now, timeout, first), ResendPubrel(now, timeout, drawn, second);
      var u := ResendTransmittedStep(s, now, timeout, first);
      assert u.lastId == s.lastId;
      assert [c][1..] == [];
      assert Leads(cfg, u, [c], ResendPubrelStep(cfg, u, now, timeout, drawn, second));
      assert [b, c][1..] == [c];
    }
  }

  /** The steps that the operations of the client take are steps of a run. */
  lemma OperationsAreSteps(cfg: Config, s: State, m: Message, len: nat, tick: int, outcome: Outcome, kind: nat,
                           id: nat, drawn: nat)
    requires s.lastId < 65536
    ensures MayStore(cfg, s, m, len) && m.qos > 0 && (outcome == NotConnected <==> s.phase != Connected) ==>
              Step(cfg, s, Publish(m, len, tick, outcome), PublishStep(cfg, s, m, tick, outcome))
    ensures (outcome == NotConnected <==> s.phase != Connected) ==>
              Step(cfg, s, PublishQos0(outcome), if outcome == WriteFailed then Abort'(s) else s)
    ensures MayStore(cfg, s, m, len) ==> Step(cfg, s, Label.Enqueue(m, len, tick), StoreStep(cfg, s, m, tick))
    ensures MaySubscribe(cfg, s, m, SUBSCRIBE) && UnderLimit(cfg, s, 0) ==>
              Step(cfg, s, Subscribe(m, tick), SubscribeStep(cfg, s, m, tick))
    ensures MaySubscribe(cfg, s, m, UNSUBSCRIBE) ==> Step(cfg, s, Unsubscribe(m, tick), SubscribeStep(cfg, s, m, tick))
    ensures Drawn(cfg, s, id) ==> Step(cfg, s, IdWasted(id), Draw(cfg, s, id))
    ensures (kind == PUBACK || kind == PUBCOMP || kind == SUBACK || kind == UNSUBACK) && s.phase == Connected ==>
              Step(cfg, s, Acked(kind, id), AckStep(s, kind, id))
    ensures s.phase == Connected && Drawn(cfg, s, drawn) ==>
              Step(cfg, s, Pubrec(id, drawn), PubrecStep(cfg, s, id, drawn))
    ensures Step(cfg, s, Abort, Abort'(s))
  {
  }

  /** Every state of every run satisfies the invariant: the outbox holds stored messages in
      order, their bytes unchanged but for DUP, and every message ever stored is accounted for. */
  lemma {:induction false} RunInvariant(cfg: Config, start: nat, path: seq<State>, labels: seq<Label>, n: nat)
    requires start < 65536 && IsRun(cfg, start, path, labels) && n < |path|
    ensures Inv(cfg, start, path[n])
    decreases n
  {
    if n == 0 {
      assert Serials(path[0].outbox) == [];
    } else {
      RunInvariant(cfg, start, path, labels, n - 1);
      StepKeeps(cfg, start, path[n - 1], labels[n - 1]);
    }
  }

  lemma StepBirths(cfg: Config, s: State, l: Label)
    requires s.lastId < 65536
    ensures |s.births| <= |Next(cfg, s, l).births|
  {
  }

  lemma {:induction false} BirthsGrow(cfg: Config, start: nat, path: seq<State>, labels: seq<Label>, i: nat, j: nat)
    requires start < 65536 && IsRun(cfg, start, path, labels) && i <= j < |path|
    ensures |path[i].births| <= |path[j].births|
    decreases j - i
  {
    if i < j {
      BirthsGrow(cfg, start, path, labels, i, j - 1);
      StepBirths(cfg, path[j - 1], labels[j - 1]);
    }
  }

  /** Steps that only move a message forward, one after another. */
  lemma {:induction false} ChainForward(boxes: seq<seq<Entry>>, i: nat, j: nat, x: nat, strict: bool)
    requires i <= j < |boxes| && Later(boxes[i], boxes[i], x, strict)
    requires forall k :: i < k <= j ==> Later(boxes[k - 1], boxes[k], x, strict)
    ensures Later(boxes[i], boxes[j], x, strict)
    decreases j - i
  {
    if i < j {
      ChainForward(boxes, i, j - 1, x, strict);
      LaterTransitive(boxes[i], boxes[j - 1], boxes[j], x, strict);
    }
  }

  /** Between any two moments of a run a message only moves forward: it is never queued again
      and keeps its DUP bit. If identifiers are unique all the time, its state never goes back. */
  lemma RunForward(cfg: Config, start: nat, path: seq<State>, labels: seq<Label>, i: nat, j: nat, x: nat, strict: bool)
    requires start < 65536 && IsRun(cfg, start, path, labels) && i <= j < |path| && x < |path[i].births|
    requires strict ==> forall k :: 0 <= k < |path| ==> UniqueIds(path[k].outbox)
    ensures Later(path[i].outbox, path[j].outbox, x, strict)
  {
    var boxes := seq(|path|, k requires 0 <= k < |path| => path[k].outbox);
    RunSelf(cfg, start, path, labels, i, x, strict);
    forall k | i < k <= j ensures Later(boxes[k - 1], boxes[k], x, strict) {
      RunStepForward(cfg, start, path, labels, i, k, x, strict);
    }
    ChainForward(boxes, i, j, x, strict);
  }

  lemma RunSelf(cfg: Config, start: nat, path: seq<State>, labels: seq<Label>, i: nat, x: nat, strict: bool)
    requires start < 65536 && IsRun(cfg, start, path, labels) && i < |path|
    ensures Later(path[i].outbox, path[i].outbox, x, strict)
  {
    RunInvariant(cfg, start, path, labels, i);
    LaterSelf(path[i], x);
  }

  lemma RunStepForward(cfg: Config, start: nat, path: seq<State>, labels: seq<Label>, i: nat, j: nat, x: nat,
                       strict: bool)
    requires start < 65536 && IsRun(cfg, start, path, labels) && i < j < |path| && x < |path[i].births|
    requires strict ==> UniqueIds(path[j - 1].outbox) && UniqueIds(path[j].outbox)
    ensures Later(path[j - 1].outbox, path[j].outbox, x, strict)
  {
    RunInvariant(cfg, start, path, labels, j - 1);
    BirthsGrow(cfg, start, path, labels, i, j - 1);
    StepAdvances(cfg, path[j - 1], labels[j - 1], x, strict);
  }

  /** With incremental identifiers, a run in which no stored message outlives 65535 draws never
      has two stored messages with the same non-zero identifier. */
  lemma YoungRunUnique(cfg: Config, start: nat, path: seq<State>, labels: seq<Label>, n: nat)
    requires start < 65536 && IsRun(cfg, start, path, labels) && cfg.incremental && n < |path| && Young(path[n])
    ensures UniqueIds(path[n].outbox)
  {
    RunInvariant(cfg, start, path, labels, n);
    YoungIsUnique(start, path[n]);
  }

  /** In such a run, states move only forward ... */
  lemma YoungRunForward(cfg: Config, start: nat, path: seq<State>, labels: seq<Label>, i: nat, j: nat, x: nat)
    requires start < 65536 && IsRun(cfg, start, path, labels) && cfg.incremental
    requires forall k :: 0 <= k < |path| ==> Young(path[k])
    requires i <= j < |path| && x < |path[i].births|
    ensures Later(path[i].outbox, path[j].outbox, x, true)
  {
    forall k | 0 <= k < |path| ensures UniqueIds(path[k].outbox) { YoungRunUnique(cfg, start, path, labels, k); }
    RunForward(cfg, start, path, labels, i, j, x, true);
  }

  /** ... and what the resend path sends first goes out in the order it was stored. */
  lemma {:induction false} YoungRunFifo(cfg: Config, start: nat, path: seq<State>, labels: seq<Label>, n: nat)
    requires start < 65536 && IsRun(cfg, start, path, labels) && cfg.incremental && n < |path|
    requires forall k :: 0 <= k < |path| ==> Young(path[k])
    ensures Fifo(path[n])
    decreases n
  {
    if n > 0 {
      YoungRunFifo(cfg, start, path, labels, n - 1);
      RunInvariant(cfg, start, path, labels, n - 1);
      YoungRunUnique(cfg, start, path, labels, n - 1);
      YoungRunUnique(cfg, start, path, labels, n);
      StepFifo(cfg, start, path[n - 1], labels[n - 1]);
    }
  }

  /** Without unsubscribing, the outbox never exceeds its limit by more than the output buffer. */
  lemma {:induction false} RunBounded(cfg: Config, start: nat, path: seq<State>, labels: seq<Label>, n: nat)
    requires start < 65536 && IsRun(cfg, start, path, labels) && n < |path|
    requires forall i :: 0 <= i < |labels| ==> !labels[i].Unsubscribe?
    ensures Bounded(cfg, path[n])
    decreases n
  {
    if n > 0 {
      RunBounded(cfg, start, path, labels, n - 1);
      StepBounded(cfg, path[n - 1], labels[n - 1]);
    }
  }

  /** Conservation: each of the messages ever stored is in exactly one place. */
  lemma RunConserves(cfg: Config, start: nat, path: seq<State>, labels: seq<Label>, n: nat, x: nat)
    requires start < 65536 && IsRun(cfg, start, path, labels) && n < |path|
    ensures var s := path[n];
      && Publishes(s.births) == |s.published| + |s.sentQos0| + |s.expired| + |OfKind(s.outbox, true)|
      && multiset(Serials(s.outbox))[x] + multiset(s.published)[x] + multiset(s.sentQos0)[x] + multiset(s.expired)[x]
         + multiset(s.others)[x] == if x < |s.births| then 1 else 0
  {
    RunInvariant(cfg, start, path, labels, n);
    EveryoneOnce(|path[n].births|, x);
  }

  lemma {:induction false} EveryoneOnce(n: nat, x: nat)
    ensures Everyone(n)[x] == if x < n then 1 else 0
    decreases n
  {
    if n > 0 { EveryoneOnce(n - 1, x); }
  }

  /** At any moment of any run, a stored message is the original one, byte for byte, except
      that DUP may be set; DUP is set only on a PUBLISH with QoS above 0 that is not queued. */
  lemma RunKeepsBytes(cfg: Config, start: nat, path: seq<State>, labels: seq<Label>, n: nat, e: Entry)
    requires start < 65536 && IsRun(cfg, start, path, labels) && n < |path| && e in path[n].outbox
    ensures e.serial < |path[n].births|
    ensures var original := path[n].births[e.serial].m.bytes;
      && original != [] && DupOf(original[0]) == 0
      && (e.bytes == original || e.bytes == original[0 := SetDup(original[0])])
      && (DupOf(e.bytes[0]) == 1 ==> e.kind == PUBLISH && e.qos > 0 && e.pending != Queued)
  {
    RunInvariant(cfg, start, path, labels, n);
    var k :| 0 <= k < |path[n].outbox| && path[n].outbox[k] == e;
    GoodIndex(path[n], k);
  }
}
