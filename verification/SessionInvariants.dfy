/**
 * What every step of the session keeps, and what follows over whole runs.
 */
module SessionInvariants {
  import opened Bytes
  import opened Packet
  import opened OutboxModel
  import opened Session
  import opened PacketIds

  // ----- faithful storage -----

  /** The bytes are the original ones, except possibly for the DUP bit. */
  predicate SameButDup(bytes: seq<byte>, original: seq<byte>) {
    original != [] && (bytes == original || bytes == original[0 := SetDup(original[0])])
  }

  /** An entry of the outbox against the message it was made from. DUP marks only a PUBLISH
      with QoS above 0 that has left the QUEUED state. */
  predicate Faithful(e: Entry, b: Birth) {
    && Built(b.m) && e.id == b.m.id && e.kind == b.m.kind && e.qos == b.m.qos
    && SameButDup(e.bytes, b.m.bytes)
    && e.pending != Confirmed
    && (DupOf(e.bytes[0]) == 1 ==> e.kind == PUBLISH && e.qos > 0 && e.pending != Queued)
  }

  /** The outbox holds stored messages, in the order in which they were stored. */
  ghost predicate Good(box: seq<Entry>, births: seq<Birth>) {
    && (forall i, j :: 0 <= i < j < |box| ==> box[i].serial < box[j].serial)
    && (forall i :: 0 <= i < |box| ==> box[i].serial < |births| && Faithful(box[i], births[box[i].serial]))
  }

  /** What the client relies on follows from the invariant. */
  lemma GoodIsSound(box: seq<Entry>, births: seq<Birth>)
    requires Good(box, births)
    ensures Sound(box)
  {
    forall i | 0 <= i < |box| ensures box[i].bytes != [] && box[i].id < 65536 {
      assert Faithful(box[i], births[box[i].serial]);
    }
  }

  lemma GoodAppend(box: seq<Entry>, births: seq<Birth>, m: Message, draw: nat, tick: int)
    requires Good(box, births) && Built(m)
    ensures Good(box + [Entry(m.bytes, m.id, m.kind, m.qos, tick, Queued, |births|)], births + [Birth(m, draw)])
  {
    var e := Entry(m.bytes, m.id, m.kind, m.qos, tick, Queued, |births|);
    forall i | 0 <= i < |box| ensures (births + [Birth(m, draw)])[box[i].serial] == births[box[i].serial] {}
    assert Faithful(e, Birth(m, draw));
  }

  lemma GoodRemove(box: seq<Entry>, births: seq<Birth>, k: nat)
    requires Good(box, births) && k < |box|
    ensures Good(RemoveAt(box, k), births)
  {
    var left := RemoveAt(box, k);
    forall i | 0 <= i < |left| ensures left[i] == box[if i < k then i else i + 1] {}
  }

  /** Tick and state may change, as long as nothing is queued again. */
  lemma GoodUpdate(box: seq<Entry>, births: seq<Birth>, k: nat, e: Entry)
    requires Good(box, births) && k < |box| && e.serial == box[k].serial
    requires Faithful(e, births[e.serial])
    ensures Good(box[k := e], births)
  {
  }

  lemma GoodPending(box: seq<Entry>, births: seq<Birth>, id: nat, p: Pending)
    requires Good(box, births) && p != Queued && p != Confirmed
    ensures Good(WithPending(box, id, p), births)
  {
    var k := First(box, ById(id));
    if k < |box| { GoodUpdate(box, births, k, box[k].InState(p)); }
  }

  lemma GoodTick(box: seq<Entry>, births: seq<Birth>, id: nat, tick: int)
    requires Good(box, births)
    ensures Good(WithTick(box, id, tick), births)
  {
    var k := First(box, ById(id));
    if k < |box| { GoodUpdate(box, births, k, box[k].At(tick)); }
  }

  lemma GoodDup(box: seq<Entry>, births: seq<Birth>, k: nat)
    requires Good(box, births) && k < |box|
    requires box[k].kind == PUBLISH && box[k].qos > 0 && box[k].pending == Transmitted
    ensures Good(box[k := box[k].WithDup()], births)
  {
    var b := births[box[k].serial].m.bytes;
    DupTwice(b);
    GoodUpdate(box, births, k, box[k].WithDup());
  }

  lemma DupTwice(b: seq<byte>)
    requires b != []
    ensures SetDup(SetDup(b[0])) == SetDup(b[0])
    ensures b[0 := SetDup(b[0])][0 := SetDup(b[0 := SetDup(b[0])][0])] == b[0 := SetDup(b[0])]
  {
  }

  /** Filtering keeps a sub-sequence. */
  lemma {:induction false} WithoutMembers(box: seq<Entry>, q: Query)
    ensures forall e :: e in Without(box, q) <==> e in box && !q.Matches(e)
    decreases |box|
  {
    if box != [] {
      WithoutMembers(box[1..], q);
      assert box == [box[0]] + box[1..];
    }
  }

  lemma GoodTail(box: seq<Entry>, births: seq<Birth>)
    requires Good(box, births) && box != []
    ensures Good(box[1..], births)
    ensures forall e :: e in box[1..] ==> box[0].serial < e.serial
  {
    var rest := box[1..];
    forall i | 0 <= i < |rest| ensures rest[i] == box[i + 1] {}
  }

  lemma GoodCons(e: Entry, left: seq<Entry>, births: seq<Birth>)
    requires Good(left, births) && e.serial < |births| && Faithful(e, births[e.serial])
    requires forall x :: x in left ==> e.serial < x.serial
    ensures Good([e] + left, births)
  {
    var all := [e] + left;
    forall i | 0 < i < |all| ensures all[i] == left[i - 1] && left[i - 1] in left {}
  }

  lemma {:induction false} GoodWithout(box: seq<Entry>, births: seq<Birth>, q: Query)
    requires Good(box, births)
    ensures Good(Without(box, q), births)
    decreases |box|
  {
    if box != [] {
      GoodTail(box, births);
      GoodWithout(box[1..], births, q);
      WithoutMembers(box[1..], q);
      if q.Matches(box[0]) {
        assert [] + Without(box[1..], q) == Without(box[1..], q);
      } else {
        GoodCons(box[0], Without(box[1..], q), births);
      }
    }
  }

  // ----- conservation -----

  /** The serial numbers below n, once each. */
  function Everyone(n: nat): multiset<nat> {
    if n == 0 then multiset{} else Everyone(n - 1) + multiset{n - 1}
  }

  function Publishes(births: seq<Birth>): nat {
    if births == [] then 0
    else Publishes(births[..|births| - 1]) + if births[|births| - 1].m.kind == PUBLISH then 1 else 0
  }

  /** Every message ever stored is in exactly one place: still in the outbox, or published, or
      sent and dropped as QoS 0, or expired, or (not a PUBLISH) gone. */
  ghost predicate Ledger(s: State) {
    Everyone(|s.births|) ==
    multiset(Serials(s.outbox)) + multiset(s.published) + multiset(s.sentQos0) + multiset(s.expired)
      + multiset(s.others)
  }

  /** ... and for PUBLISH messages the numbers add up. */
  ghost predicate Balance(s: State) {
    Publishes(s.births) == |s.published| + |s.sentQos0| + |s.expired| + |OfKind(s.outbox, true)|
  }

  lemma {:induction false} SerialsConcat(a: seq<Entry>, b: seq<Entry>)
    ensures Serials(a + b) == Serials(a) + Serials(b)
    decreases |a|
  {
    if a == [] {
      assert a + b == b;
    } else {
      assert (a + b)[0] == a[0] && (a + b)[1..] == a[1..] + b;
      SerialsConcat(a[1..], b);
    }
  }

  lemma {:induction false} OfKindConcat(a: seq<Entry>, b: seq<Entry>, publish: bool)
    ensures OfKind(a + b, publish) == OfKind(a, publish) + OfKind(b, publish)
    decreases |a|
  {
    if a == [] {
      assert a + b == b;
    } else {
      assert (a + b)[0] == a[0] && (a + b)[1..] == a[1..] + b;
      OfKindConcat(a[1..], b, publish);
    }
  }

  lemma SerialsRemove(box: seq<Entry>, k: nat)
    requires k < |box|
    ensures multiset(Serials(box)) == multiset(Serials(RemoveAt(box, k))) + multiset{box[k].serial}
    ensures |OfKind(box, true)| == |OfKind(RemoveAt(box, k), true)| + if box[k].kind == PUBLISH then 1 else 0
  {
    var a, b := box[..k], box[k + 1..];
    assert box == a + ([box[k]] + b);
    SerialsConcat(a, [box[k]] + b);
    SerialsConcat([box[k]], b);
    SerialsConcat(a, b);
    OfKindConcat(a, [box[k]] + b, true);
    OfKindConcat([box[k]], b, true);
    OfKindConcat(a, b, true);
    assert Serials([box[k]]) == [box[k].serial] + Serials([]);
    assert OfKind([box[k]], true) == (if box[k].kind == PUBLISH then [box[k]] else []) + OfKind([], true);
  }

  lemma SerialsUpdate(box: seq<Entry>, k: nat, e: Entry)
    requires k < |box| && e.serial == box[k].serial && e.kind == box[k].kind
    ensures Serials(box[k := e]) == Serials(box)
    ensures |OfKind(box[k := e], true)| == |OfKind(box, true)|
  {
    var a, b := box[..k], box[k + 1..];
    assert box == a + ([box[k]] + b) && box[k := e] == a + ([e] + b);
    SerialsConcat(a, [box[k]] + b);
    SerialsConcat(a, [e] + b);
    OfKindConcat(a, [box[k]] + b, true);
    OfKindConcat(a, [e] + b, true);
    assert ([box[k]] + b)[1..] == b && ([e] + b)[1..] == b;
  }

  /** Serials of the entries a filter keeps, of the PUBLISH messages it drops, and of the others. */
  function Kept(box: seq<Entry>, q: Query): seq<nat> { Serials(Without(box, q)) }
  function Dropped(box: seq<Entry>, q: Query, publish: bool): seq<nat> { Serials(OfKind(Matched(box, q), publish)) }

  lemma {:induction false} SerialsWithout(box: seq<Entry>, q: Query)
    ensures multiset(Serials(box)) == multiset(Kept(box, q)) + multiset(Dropped(box, q, true))
              + multiset(Dropped(box, q, false))
    decreases |box|
  {
    if box != [] {
      var e, rest := box[0], box[1..];
      SerialsWithout(rest, q);
      FilterHead(e, rest, q);
      assert [e] + rest == box;
      MultisetCons(e.serial, Serials(rest));
      MultisetCons(e.serial, Kept(rest, q));
      MultisetCons(e.serial, Dropped(rest, q, e.kind == PUBLISH));
      SumCons(e.serial, multiset(Kept(rest, q)), multiset(Dropped(rest, q, true)), multiset(Dropped(rest, q, false)));
    }
  }

  lemma SumCons(x: nat, k: multiset<nat>, a: multiset<nat>, b: multiset<nat>)
    ensures multiset{x} + (k + a + b) == (multiset{x} + k) + a + b
    ensures multiset{x} + (k + a + b) == k + (multiset{x} + a) + b
    ensures multiset{x} + (k + a + b) == k + a + (multiset{x} + b)
  {
  }

  lemma MultisetCons(x: nat, s: seq<nat>)
    ensures multiset([x] + s) == multiset{x} + multiset(s)
  {
  }

  lemma {:induction false} CountWithout(box: seq<Entry>, q: Query)
    ensures |OfKind(box, true)| == |OfKind(Without(box, q), true)| + |Dropped(box, q, true)|
    decreases |box|
  {
    if box != [] {
      CountWithout(box[1..], q);
      FilterHead(box[0], box[1..], q);
      assert [box[0]] + box[1..] == box;
    }
  }

  lemma FilterHead(e: Entry, rest: seq<Entry>, q: Query)
    ensures var box, p := [e] + rest, e.kind == PUBLISH;
      && Serials(box) == [e.serial] + Serials(rest)
      && |OfKind(box, true)| == |OfKind(rest, true)| + (if p then 1 else 0)
      && (if q.Matches(e) then
            && Without(box, q) == Without(rest, q)
            && Dropped(box, q, p) == [e.serial] + Dropped(rest, q, p) && Dropped(box, q, !p) == Dropped(rest, q, !p)
          else
            && Kept(box, q) == [e.serial] + Kept(rest, q) && Matched(box, q) == Matched(rest, q)
            && |OfKind(Without(box, q), true)| == |OfKind(Without(rest, q), true)| + (if p then 1 else 0))
  {
    var p := e.kind == PUBLISH;
    Heads(e, rest);
    assert ([e] + rest)[1..] == rest;
    if q.Matches(e) {
      assert [] + Without(rest, q) == Without(rest, q);
      Heads(e, Matched(rest, q));
    } else {
      assert [] + Matched(rest, q) == Matched(rest, q);
      Heads(e, Without(rest, q));
    }
  }

  lemma Heads(e: Entry, rest: seq<Entry>)
    ensures var p := e.kind == PUBLISH;
      && Serials([e] + rest) == [e.serial] + Serials(rest)
      && OfKind([e] + rest, p) == [e] + OfKind(rest, p) && OfKind([e] + rest, !p) == OfKind(rest, !p)
      && Serials(OfKind([e] + rest, p)) == [e.serial] + Serials(OfKind(rest, p))
  {
    var p := e.kind == PUBLISH;
    assert ([e] + rest)[1..] == rest;
    assert ([e] + OfKind(rest, p))[1..] == OfKind(rest, p);
    assert [] + OfKind(rest, !p) == OfKind(rest, !p);
  }

  // ----- identifiers -----

  /** With incremental identifiers, which draw each stored identifier came from. */
  ghost predicate Tracked(start: nat, s: State)
    requires start < 65536
  {
    && s.lastId == Nth(start, s.draws)
    && (forall k :: 0 <= k < |s.births| ==> s.births[k].draw <= s.draws)
    && (forall k :: 0 <= k < |s.births| && s.births[k].m.id != 0 ==>
          s.births[k].draw >= 1 && s.births[k].m.id == Nth(start, s.births[k].draw))
    && (forall i, j :: 0 <= i < j < |s.births| && s.births[j].m.id != 0 ==> s.births[i].draw < s.births[j].draw)
  }

  /** No stored message is older than 65535 draws. */
  ghost predicate Young(s: State) {
    forall e :: e in s.outbox && e.serial < |s.births| ==> s.draws - s.births[e.serial].draw < 65535
  }

  ghost predicate UniqueIds(box: seq<Entry>) {
    forall i, j :: 0 <= i < j < |box| && box[i].id == box[j].id ==> box[i].id == 0
  }

  lemma YoungIsUnique(start: nat, s: State)
    requires start < 65536 && Good(s.outbox, s.births) && Tracked(start, s) && Young(s)
    ensures UniqueIds(s.outbox)
  {
    forall i, j | 0 <= i < j < |s.outbox| && s.outbox[i].id == s.outbox[j].id && s.outbox[i].id != 0
      ensures false
    {
      var a, b := s.births[s.outbox[i].serial], s.births[s.outbox[j].serial];
      assert Faithful(s.outbox[i], a) && Faithful(s.outbox[j], b);
      assert s.outbox[i] in s.outbox;
      IdsDistinct(start, a.draw, b.draw);
    }
  }

  // ----- what every step keeps -----

  ghost predicate Inv(cfg: Config, start: nat, s: State)
    requires start < 65536
  {
    && s.lastId < 65536
    && Good(s.outbox, s.births)
    && Ledger(s) && Balance(s)
    && (cfg.incremental ==> Tracked(start, s))
  }

  lemma DrawKeeps(cfg: Config, start: nat, s: State, id: nat)
    requires start < 65536 && Inv(cfg, start, s) && Drawn(cfg, s, id)
    ensures Inv(cfg, start, Draw(cfg, s, id))
    ensures cfg.incremental ==> id == Nth(start, s.draws + 1)
  {
  }

  /** `m.id` has just been drawn, or there is none. */
  lemma StoreKeeps(cfg: Config, start: nat, s: State, m: Message, tick: int)
    requires start < 65536 && Inv(cfg, start, s) && Built(m)
    requires cfg.incremental && m.id != 0 ==>
               && s.draws >= 1 && m.id == Nth(start, s.draws)
               && forall k :: 0 <= k < |s.births| ==> s.births[k].draw < s.draws
    ensures Inv(cfg, start, Store(s, m, tick))
  {
    GoodAppend(s.outbox, s.births, m, s.draws, tick);
    StoreLedger(s, m, tick);
    StoreBalance(s, m, tick);
    if cfg.incremental { StoreTracked(start, s, m, tick); }
  }

  lemma StoreLedger(s: State, m: Message, tick: int)
    requires Ledger(s)
    ensures Ledger(Store(s, m, tick))
  {
    var e := Entry(m.bytes, m.id, m.kind, m.qos, tick, Queued, |s.births|);
    SerialsConcat(s.outbox, [e]);
    assert Serials([e]) == [e.serial] + Serials([]);
  }

  lemma StoreBalance(s: State, m: Message, tick: int)
    requires Balance(s)
    ensures Balance(Store(s, m, tick))
  {
    var e := Entry(m.bytes, m.id, m.kind, m.qos, tick, Queued, |s.births|);
    var t := Store(s, m, tick);
    OfKindConcat(s.outbox, [e], true);
    assert t.births[..|t.births| - 1] == s.births;
    assert OfKind([e], true) == (if e.kind == PUBLISH then [e] else []) + OfKind([], true);
  }

  lemma StoreTracked(start: nat, s: State, m: Message, tick: int)
    requires start < 65536 && Tracked(start, s)
    requires m.id != 0 ==>
               && s.draws >= 1 && m.id == Nth(start, s.draws)
               && forall k :: 0 <= k < |s.births| ==> s.births[k].draw < s.draws
    ensures Tracked(start, Store(s, m, tick))
  {
  }

  /** Aborting a connection leaves the outbox and its history alone. */
  lemma AbortKeeps(cfg: Config, start: nat, s: State)
    requires start < 65536 && Inv(cfg, start, s)
    ensures Inv(cfg, start, Abort'(s)) && Abort'(s).outbox == s.outbox
  {
  }

  /** Replacing an entry by one with the same serial and kind that is still faithful. */
  lemma ReplaceKeeps(cfg: Config, start: nat, s: State, box: seq<Entry>)
    requires start < 65536 && Inv(cfg, start, s) && Good(box, s.births)
    requires Serials(box) == Serials(s.outbox) && |OfKind(box, true)| == |OfKind(s.outbox, true)|
    ensures Inv(cfg, start, s.(outbox := box))
  {
  }

  lemma PendingKeeps(cfg: Config, start: nat, s: State, id: nat, p: Pending)
    requires start < 65536 && Inv(cfg, start, s) && p != Queued && p != Confirmed
    ensures Inv(cfg, start, s.(outbox := WithPending(s.outbox, id, p)))
  {
    GoodPending(s.outbox, s.births, id, p);
    var k := First(s.outbox, ById(id));
    if k < |s.outbox| { SerialsUpdate(s.outbox, k, s.outbox[k].InState(p)); }
    ReplaceKeeps(cfg, start, s, WithPending(s.outbox, id, p));
  }

  lemma TransmitKeeps(cfg: Config, start: nat, s: State, id: nat, tick: int)
    requires start < 65536 && Inv(cfg, start, s)
    ensures Inv(cfg, start, Transmit(s, id, tick))
  {
    GoodTick(s.outbox, s.births, id, tick);
    var k := First(s.outbox, ById(id));
    if k < |s.outbox| { SerialsUpdate(s.outbox, k, s.outbox[k].At(tick)); }
    var t := s.(outbox := WithTick(s.outbox, id, tick));
    ReplaceKeeps(cfg, start, s, t.outbox);
    PendingKeeps(cfg, start, t, id, Transmitted);
  }

  /** The k-th entry moves to one of the logs. */
  lemma LeaveLedger(s: State, k: nat, t: State)
    requires Ledger(s) && Balance(s) && k < |s.outbox|
    requires t.births == s.births && t.outbox == RemoveAt(s.outbox, k)
    requires var x := [s.outbox[k].serial];
      || (s.outbox[k].kind == PUBLISH && t.published == s.published + x && t.sentQos0 == s.sentQos0
          && t.expired == s.expired && t.others == s.others)
      || (s.outbox[k].kind == PUBLISH && t.published == s.published && t.sentQos0 == s.sentQos0 + x
          && t.expired == s.expired && t.others == s.others)
      || (s.outbox[k].kind != PUBLISH && t.published == s.published && t.sentQos0 == s.sentQos0
          && t.expired == s.expired && t.others == s.others + x)
    ensures Ledger(t) && Balance(t)
  {
    SerialsRemove(s.outbox, k);
  }

  lemma AckKeeps(cfg: Config, start: nat, s: State, kind: nat, id: nat)
    requires start < 65536 && Inv(cfg, start, s)
    ensures Inv(cfg, start, AckStep(s, kind, id))
  {
    var k := First(s.outbox, ByIdAndKind(id, Initiator(kind)));
    if k < |s.outbox| {
      assert Faithful(s.outbox[k], s.births[s.outbox[k].serial]);
      assert s.outbox[k].kind == Initiator(kind);
      GoodRemove(s.outbox, s.births, k);
      LeaveLedger(s, k, AckStep(s, kind, id));
    }
  }

  lemma ResendQueuedKeeps(cfg: Config, start: nat, s: State, ok: bool)
    requires start < 65536 && Inv(cfg, start, s)
    ensures Inv(cfg, start, ResendQueuedStep(s, ok))
  {
    var k := First(s.outbox, ByPending(Queued));
    if k < |s.outbox| && ok {
      var e := s.outbox[k];
      var sent := s.resent + [e.serial];
      if e.kind == PUBLISH && e.qos == 0 {
        SentOnceKeeps(cfg, start, s, k);
        ResentIgnored(cfg, start, SentOnce(s, k), sent);
      } else {
        PendingKeeps(cfg, start, s, e.id, Transmitted);
        ResentIgnored(cfg, start, s, sent);
        ResentIgnored(cfg, start, s.(outbox := WithPending(s.outbox, e.id, Transmitted)), sent);
      }
    }
  }

  /** A QoS 0 message has been sent and is deleted. */
  function SentOnce(s: State, k: nat): State
    requires k < |s.outbox|
  {
    s.(outbox := RemoveAt(s.outbox, k), sentQos0 := s.sentQos0 + [s.outbox[k].serial])
  }

  lemma SentOnceKeeps(cfg: Config, start: nat, s: State, k: nat)
    requires start < 65536 && Inv(cfg, start, s) && k < |s.outbox| && s.outbox[k].kind == PUBLISH
    ensures Inv(cfg, start, SentOnce(s, k))
  {
    GoodRemove(s.outbox, s.births, k);
    LeaveLedger(s, k, SentOnce(s, k));
  }

  /** The order of first resends is not part of the invariant. */
  lemma ResentIgnored(cfg: Config, start: nat, s: State, sent: seq<nat>)
    requires start < 65536 && Inv(cfg, start, s)
    ensures Inv(cfg, start, s.(resent := sent))
  {
  }

  lemma ResendTransmittedKeeps(cfg: Config, start: nat, s: State, now: int, timeout: int, ok: bool)
    requires start < 65536 && Inv(cfg, start, s)
    ensures Inv(cfg, start, ResendTransmittedStep(s, now, timeout, ok))
  {
    var k := First(s.outbox, ByPending(Transmitted));
    if k < |s.outbox| && now - s.outbox[k].tick > timeout {
      var e := s.outbox[k];
      if e.kind == PUBLISH && e.qos > 0 && e.bytes != [] {
        GoodDup(s.outbox, s.births, k);
        SerialsUpdate(s.outbox, k, e.WithDup());
        ReplaceKeeps(cfg, start, s, s.outbox[k := e.WithDup()]);
        AbortKeeps(cfg, start, s.(outbox := s.outbox[k := e.WithDup()]));
      }
    }
    AbortKeeps(cfg, start, s);
  }

  lemma ExpireGood(cfg: Config, s: State, now: int)
    requires Good(s.outbox, s.births)
    ensures Good(ExpireStep(cfg, s, now).outbox, ExpireStep(cfg, s, now).births)
  {
    GoodWithout(s.outbox, s.births, Expired(now, cfg.expiry));
  }

  lemma ExpireTracked(cfg: Config, start: nat, s: State, now: int)
    requires start < 65536 && Tracked(start, s)
    ensures Tracked(start, ExpireStep(cfg, s, now))
  {
  }

  lemma ExpireLedger(cfg: Config, s: State, now: int)
    requires Ledger(s) && Balance(s)
    ensures Ledger(ExpireStep(cfg, s, now)) && Balance(ExpireStep(cfg, s, now))
  {
    var q := Expired(now, cfg.expiry);
    SerialsWithout(s.outbox, q);
    CountWithout(s.outbox, q);
  }

  lemma ExpireKeeps(cfg: Config, start: nat, s: State, now: int)
    requires start < 65536 && Inv(cfg, start, s)
    ensures Inv(cfg, start, ExpireStep(cfg, s, now))
  {
    ExpireGood(cfg, s, now);
    ExpireLedger(cfg, s, now);
    if cfg.incremental { ExpireTracked(cfg, start, s, now); }
  }

  lemma StoringKeeps(cfg: Config, start: nat, s: State, m: Message, tick: int)
    requires start < 65536 && Inv(cfg, start, s) && Built(m) && (m.id != 0 ==> Drawn(cfg, s, m.id))
    ensures Inv(cfg, start, Store(if m.id != 0 then Draw(cfg, s, m.id) else s, m, tick))
  {
    if m.id != 0 { DrawKeeps(cfg, start, s, m.id); }
    StoreKeeps(cfg, start, if m.id != 0 then Draw(cfg, s, m.id) else s, m, tick);
  }

  lemma PublishKeeps(cfg: Config, start: nat, s: State, l: Label)
    requires start < 65536 && Inv(cfg, start, s) && l.Publish? && Enabled(cfg, s, l)
    ensures Inv(cfg, start, Next(cfg, s, l))
  {
    StoringKeeps(cfg, start, s, l.m, l.tick);
    var t := Store(Draw(cfg, s, l.m.id), l.m, l.tick);
    if l.outcome.Sent? {
      TransmitKeeps(cfg, start, t, l.m.id, l.outcome.tick);
    } else if l.outcome.WriteFailed? {
      AbortKeeps(cfg, start, t);
    }
  }

  lemma SubscribeKeeps(cfg: Config, start: nat, s: State, l: Label)
    requires start < 65536 && Inv(cfg, start, s) && (l.Subscribe? || l.Unsubscribe?) && Enabled(cfg, s, l)
    ensures Inv(cfg, start, Next(cfg, s, l))
  {
    StoringKeeps(cfg, start, s, l.m, l.tick);
    PendingKeeps(cfg, start, Store(Draw(cfg, s, l.m.id), l.m, l.tick), l.m.id, Transmitted);
  }

  lemma PubrecKeeps(cfg: Config, start: nat, s: State, id: nat, drawn: nat)
    requires start < 65536 && Inv(cfg, start, s) && Enabled(cfg, s, Pubrec(id, drawn))
    ensures Inv(cfg, start, Next(cfg, s, Pubrec(id, drawn)))
  {
    var t := if id == 0 then Draw(cfg, s, drawn) else s;
    if id == 0 { DrawKeeps(cfg, start, s, drawn); }
    if cfg.room < 7 { AbortKeeps(cfg, start, t); } else { PendingKeeps(cfg, start, t, id, Acknowledged); }
  }

  lemma ResendPubrelKeeps(cfg: Config, start: nat, s: State, now: int, timeout: int, drawn: nat, ok: bool)
    requires start < 65536 && Inv(cfg, start, s) && Drawn(cfg, s, drawn)
    ensures Inv(cfg, start, ResendPubrelStep(cfg, s, now, timeout, drawn, ok))
  {
    DrawKeeps(cfg, start, s, drawn);
    AbortKeeps(cfg, start, s);
    AbortKeeps(cfg, start, Draw(cfg, s, drawn));
  }

  lemma EnqueueKeeps(cfg: Config, start: nat, s: State, l: Label)
    requires start < 65536 && Inv(cfg, start, s) && l.Enqueue? && Enabled(cfg, s, l)
    ensures Inv(cfg, start, Next(cfg, s, l))
  {
    StoringKeeps(cfg, start, s, l.m, l.tick);
  }

  /** Steps that only change the connection's phase. */
  lemma PhaseKeeps(cfg: Config, start: nat, s: State, l: Label, phase: Phase)
    requires start < 65536 && Inv(cfg, start, s) && Next(cfg, s, l) == s.(phase := phase)
    ensures Inv(cfg, start, Next(cfg, s, l))
  {
  }

  /** Every step keeps the invariant. */
  lemma StepKeeps(cfg: Config, start: nat, s: State, l: Label)
    requires start < 65536 && Inv(cfg, start, s) && Enabled(cfg, s, l)
    ensures Inv(cfg, start, Next(cfg, s, l))
  {
    match l {
      case Publish(m, len, tick, outcome) => PublishKeeps(cfg, start, s, l);
      case Enqueue(m, len, tick) => EnqueueKeeps(cfg, start, s, l);
      case Subscribe(m, tick) => SubscribeKeeps(cfg, start, s, l);
      case Unsubscribe(m, tick) => SubscribeKeeps(cfg, start, s, l);
      case IdWasted(id) => DrawKeeps(cfg, start, s, id);
      case Acked(kind, id) => AckKeeps(cfg, start, s, kind, id);
      case Pubrec(id, drawn) => PubrecKeeps(cfg, start, s, id, drawn);
      case ResendQueued(ok) => ResendQueuedKeeps(cfg, start, s, ok);
      case ResendTransmitted(now, timeout, ok) => ResendTransmittedKeeps(cfg, start, s, now, timeout, ok);
      case ResendPubrel(now, timeout, drawn, ok) => ResendPubrelKeeps(cfg, start, s, now, timeout, drawn, ok);
      case Expire(now) => ExpireKeeps(cfg, start, s, now);
      case PublishQos0(outcome) => PhaseKeeps(cfg, start, s, l, Next(cfg, s, l).phase);
      case Abort => AbortKeeps(cfg, start, s);
      case Enter(phase) => PhaseKeeps(cfg, start, s, l, phase);
    }
  }
}
