/**
 * The keep-alive timer of components/mqtt/mqtt_client.c: a PINGREQ after half the keep-alive
 * interval, and the end of the connection if no PINGRESP came within all of it.
 */
module Keepalive {
  import opened Packet
  import opened Connections
  import opened Transport
  import opened Sender

  /** `keepalive_tick`, `wait_for_ping_resp`, and whether the client is connected. */
  datatype Watch = Watch(tick: int, waiting: bool, connected: bool)

  /** One call of `process_keepalive` in a connected client, or a PINGRESP. */
  datatype Event = Poll(now: int, pinged: bool) | PingResp(now: int)

  /** `has_timed_out`. */
  predicate TimedOut(tick: int, timeout: int, now: int) {
    tick + timeout - now <= 0
  }

  /** `ms` is the interval; 0 switches the timer off. `pinged`: a ping can be written. */
  function Step(w: Watch, ms: nat, e: Event): Watch {
    if !w.connected then w
    else
      match e
      case PingResp(now) => Watch(now, false, true)
      case Poll(now, pinged) =>
        if ms == 0 then w
        else if w.waiting then if TimedOut(w.tick, ms, now) then Watch(w.tick, false, false) else w
        else if TimedOut(w.tick, ms / 2, now) then
          if pinged then Watch(w.tick, true, true) else Watch(w.tick, false, false)
        else w
  }

  function Run(w: Watch, ms: nat, events: seq<Event>): Watch {
    if events == [] then w else Step(Run(w, ms, events[..|events| - 1]), ms, events[|events| - 1])
  }

  ghost predicate Silent(events: seq<Event>) {
    forall k :: 0 <= k < |events| ==> events[k].Poll?
  }

  /** In silence the tick stays, and once the first half is over the client waits or is gone. */
  lemma {:induction false} SilentRun(w: Watch, ms: nat, events: seq<Event>)
    requires Silent(events) && w.connected && ms > 0
    ensures var r := Run(w, ms, events);
      && (r.connected ==> r.tick == w.tick)
      && (r.connected && (exists k :: 0 <= k < |events| && events[k].now >= w.tick + ms / 2) ==> r.waiting)
    decreases |events|
  {
    if events != [] { SilentRun(w, ms, events[..|events| - 1]); }
  }

  /** Nobody answers: two calls, one after half the interval and a later one after all of it,
      are enough to end the connection. */
  lemma {:induction false} SilenceDetected(w: Watch, ms: nat, events: seq<Event>, i: nat, j: nat)
    requires Silent(events) && w.connected && ms > 0
    requires i < j < |events| && events[i].now >= w.tick + ms / 2 && events[j].now >= w.tick + ms
    ensures !Run(w, ms, events).connected
    decreases |events|
  {
    var front := events[..|events| - 1];
    if j == |events| - 1 {
      assert front[i] == events[i];
      SilentRun(w, ms, front);
    } else {
      SilenceDetected(w, ms, front, i, j);
    }
  }

  /** If the task looks often enough (at most half an interval apart, from before the first
      half is over), a dead peer is noticed by the first look after the whole interval. */
  lemma DeadPeerNoticed(w: Watch, ms: nat, events: seq<Event>)
    requires Silent(events) && events != [] && w.connected && ms > 0
    requires events[0].now < w.tick + ms / 2
    requires forall k :: 0 < k < |events| ==> events[k].now <= events[k - 1].now + ms / 2
    requires events[|events| - 1].now >= w.tick + ms
    ensures !Run(w, ms, events).connected
  {
    var i := 0;
    while events[i].now < w.tick + ms / 2
      invariant 0 <= i < |events|
      invariant forall k :: 0 <= k < i ==> events[k].now < w.tick + ms / 2
      decreases |events| - i
    {
      i := i + 1;
    }
    assert events[i].now <= events[i - 1].now + ms / 2;
    SilenceDetected(w, ms, events, i, |events| - 1);
  }

  /** The time of the last PINGRESP, or of the connection. */
  function LastAnswer(tick: int, events: seq<Event>): int {
    if events == [] then tick
    else if events[|events| - 1].PingResp? then events[|events| - 1].now
    else LastAnswer(tick, events[..|events| - 1])
  }

  /** While every look comes less than an interval after the last answer, and pings can be
      written, the connection is not given up. */
  lemma {:induction false} NoFalseAlarm(w: Watch, ms: nat, events: seq<Event>)
    requires w.connected
    requires forall k :: 0 <= k < |events| && events[k].Poll? ==>
               events[k].pinged && events[k].now < LastAnswer(w.tick, events[..k]) + ms
    ensures Run(w, ms, events).connected && Run(w, ms, events).tick == LastAnswer(w.tick, events)
    decreases |events|
  {
    if events != [] {
      var n := |events| - 1;
      var front := events[..n];
      forall k | 0 <= k < n && front[k].Poll?
        ensures front[k].pinged && front[k].now < LastAnswer(w.tick, front[..k]) + ms
      {
        assert front[..k] == events[..k];
      }
      NoFalseAlarm(w, ms, front);
      assert events[n].Poll? ==> events[n].pinged && events[n].now < LastAnswer(w.tick, events[..n]) + ms;
    }
  }

  /** `process_keepalive` tries to write a PINGREQ. */
  predicate PingDue(w: Watch, ms: nat, now: int) {
    ms > 0 && !w.waiting && now >= w.tick + ms / 2
  }

  class Timer {
    const ms: nat                 // keepalive * 1000
    const conn: Connection
    const link: Link
    var tick: int
    var waiting: bool
    var connected: bool

    constructor (ms: nat, conn: Connection, link: Link, now: int)
      ensures this.ms == ms && this.conn == conn && this.link == link && State() == Watch(now, false, true)
    {
      this.ms, this.conn, this.link := ms, conn, link;
      tick, waiting, connected := now, false, true;
    }

    ghost function State(): Watch
      reads this
    {
      Watch(tick, waiting, connected)
    }

    /** `esp_mqtt_client_ping`. */
    method Ping() returns (ok: bool)
      requires conn.Valid() && conn.buffer.Length >= 5
      modifies link`sent, link`refused, conn`data, conn`start, conn`length, conn`fragOffset, conn.buffer
      ensures conn.Valid()
      ensures ok && conn.fragTotal == 0 ==> link.sent == old(link.sent) + Whole(HeaderByte(PINGREQ, 0, 0, 0), [])
      ensures link.refused == old(link.refused) + if ok then 0 else 1
    {
      conn.MsgEmpty(PINGREQ);
      ghost var n;
      ok, n := Write(conn, link);
    }

    /** `process_keepalive`; the abort is `esp_mqtt_abort_connection`. A ping is tried exactly if
        none is awaited and half the interval is over; what it costs if the write fails is the
        connection. */
    method ProcessKeepalive(now: int) returns (ok: bool, ghost pinged: bool)
      requires conn.Valid() && conn.buffer.Length >= 5 && connected
      modifies this, link`sent, link`refused, conn`data, conn`start, conn`length, conn`fragOffset, conn.buffer
      ensures conn.Valid() && State() == Step(old(State()), ms, Poll(now, pinged))
      ensures ok <==> connected
      ensures waiting && !old(waiting) && conn.fragTotal == 0 ==>
                link.sent == old(link.sent) + Whole(HeaderByte(PINGREQ, 0, 0, 0), [])
      ensures pinged <==> PingDue(old(State()), ms, now) && link.refused == old(link.refused)
      ensures link.refused == old(link.refused) + if PingDue(old(State()), ms, now) && !pinged then 1 else 0
      ensures !PingDue(old(State()), ms, now) ==> link.sent == old(link.sent)
    {
      ok, pinged := true, false;
      if ms > 0 {
        if waiting {
          if TimedOut(tick, ms, now) {
            connected, waiting, ok := false, false, false;
          }
          return;
        }
        if TimedOut(tick, ms / 2, now) {
          var written := Ping();
          pinged := written;
          if written { waiting := true; } else { connected, ok := false, false; }
        }
      }
    }

    /** PINGRESP in `mqtt_process_receive`. */
    method Answered(now: int)
      requires connected
      modifies this`tick, this`waiting
      ensures State() == Step(old(State()), ms, PingResp(now))
    {
      waiting, tick := false, now;
    }
  }
}
