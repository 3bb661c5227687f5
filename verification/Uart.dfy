/**
 * The UART side of the camera board, main/protocol.c: frames from `$` to newline, collected
 * byte by byte, checked, and stored in a register file.
 */
module Uart {
  import opened Bytes

  const DOLLAR: byte := 0x24
  const NEWLINE: byte := 0x0A
  const WRITE: byte := 0x57
  const READ: byte := 0x52
  const MY_SLAVE_ID: byte := 0x01
  const BUFFER_SIZE: nat := 16      // PROTOCOL_BUFFER_SIZE
  const LEN_W: nat := 7             // FRAME_LEN_W: $ id W addr data checksum newline
  const LEN_R: nat := 6             // FRAME_LEN_R: $ id R addr checksum newline

  // ----- packets -----

  function Sum(s: seq<byte>): nat {
    if s == [] then 0 else Sum(s[..|s| - 1]) + s[|s| - 1]
  }

  function Checksum(s: seq<byte>): byte {
    Sum(s) % 256
  }

  datatype Command = Write(addr: byte, data: byte) | Read(addr: byte)

  /** What `process_packet` makes of a packet. */
  function Accept(p: seq<byte>): Option<Command> {
    if |p| < LEN_R || p[1] != MY_SLAVE_ID then None
    else if p[2] == WRITE then
      if |p| == LEN_W && p[5] == Checksum(p[1..5]) then Some(Write(p[3], p[4])) else None
    else if p[2] == READ then
      if |p| == LEN_R && p[4] == Checksum(p[1..4]) then Some(Read(p[3])) else None
    else None
  }

  function Accepted(packets: seq<seq<byte>>): seq<Command> {
    if packets == [] then []
    else
      var c := Accept(packets[|packets| - 1]);
      Accepted(packets[..|packets| - 1]) + if c.Some? then [c.value] else []
  }

  /** The data of the last accepted write to a register; 0 before the first. */
  function LastWrite(commands: seq<Command>, addr: nat): int {
    if commands == [] then 0
    else
      var c := commands[|commands| - 1];
      if c.Write? && c.addr == addr then c.data else LastWrite(commands[..|commands| - 1], addr)
  }

  /** The packet that `send_response` writes. */
  function Response(id: byte, cmd: byte, addr: byte, data: byte): seq<byte> {
    [DOLLAR, id, cmd, addr, data, Checksum([id, cmd, addr, data]), NEWLINE]
  }

  // ----- the receiving loop -----

  datatype Rx = Rx(inFrame: bool, frame: seq<byte>)

  const IDLE := Rx(false, [])

  /** One byte: the new state and the packet handed on, if there is one. */
  function Turn(s: Rx, b: byte): (Rx, seq<seq<byte>>) {
    if b == DOLLAR then (Rx(true, [b]), [])
    else if !s.inFrame then (s, [])
    else if |s.frame| < BUFFER_SIZE then
      if b == NEWLINE then (IDLE, [s.frame + [b]]) else (Rx(true, s.frame + [b]), [])
    else (IDLE, [])
  }

  /** All bytes of a stream, and the packets handed on. */
  function Run(s: Rx, stream: seq<byte>): (Rx, seq<seq<byte>>) {
    if stream == [] then (s, [])
    else
      var before := Run(s, stream[..|stream| - 1]);
      var now := Turn(before.0, stream[|stream| - 1]);
      (now.0, before.1 + now.1)
  }

  lemma RunAppend(s: Rx, stream: seq<byte>, b: byte)
    ensures Run(s, stream + [b]) ==
              var before := Run(s, stream); var now := Turn(before.0, b); (now.0, before.1 + now.1)
  {
    assert (stream + [b])[..|stream|] == stream;
  }

  lemma {:induction false} RunConcat(s: Rx, a: seq<byte>, b: seq<byte>)
    ensures Run(s, a + b) == var x := Run(s, a); var y := Run(x.0, b); (y.0, x.1 + y.1)
    decreases |b|
  {
    if b == [] {
      assert a + b == a && Run(s, a).1 + [] == Run(s, a).1;
    } else {
      var front, last := b[..|b| - 1], b[|b| - 1];
      assert a + b == (a + front) + [last] && b == front + [last];
      RunConcat(s, a, front);
      RunAppend(s, a + front, last);
      RunAppend(Run(s, a).0, front, last);
      var x := Run(s, a);
      Assoc(x.1, Run(x.0, front).1, Turn(Run(x.0, front).0, last).1);
    }
  }

  lemma NoPackets()
    ensures var none: seq<seq<byte>> := []; none + none == none
  {
  }

  predicate Plain(s: seq<byte>) {
    DOLLAR !in s && NEWLINE !in s
  }

  /** A `$` starts a frame in any state; it grows until it is full. */
  lemma {:induction false} FrameGrows(s: Rx, inner: seq<byte>)
    requires Plain(inner)
    ensures Run(s, [DOLLAR] + inner) == (if |inner| < BUFFER_SIZE then Rx(true, [DOLLAR] + inner) else IDLE, [])
    decreases |inner|
  {
    NoPackets();
    if inner == [] {
      RunAppend(s, [], DOLLAR);
      assert [DOLLAR] + inner == [] + [DOLLAR];
    } else {
      var front, last := inner[..|inner| - 1], inner[|inner| - 1];
      assert [DOLLAR] + inner == ([DOLLAR] + front) + [last] && last in inner;
      FrameGrows(s, front);
      RunAppend(s, [DOLLAR] + front, last);
    }
  }

  /** After any stream, a frame with plain contents is handed on intact if it fits the
      buffer, and is dropped otherwise; either way the receiver is then idle. */
  lemma FrameDelivered(stream: seq<byte>, inner: seq<byte>)
    requires Plain(inner)
    ensures var frame := [DOLLAR] + inner + [NEWLINE];
      Run(IDLE, stream + frame) == (IDLE, Run(IDLE, stream).1 + if |frame| <= BUFFER_SIZE then [frame] else [])
  {
    var s := Run(IDLE, stream).0;
    RunConcat(IDLE, stream, [DOLLAR] + inner + [NEWLINE]);
    FrameGrows(s, inner);
    RunAppend(s, [DOLLAR] + inner, NEWLINE);
    var frame := [DOLLAR] + inner + [NEWLINE];
    assert [] + [frame] == [frame] && Run(IDLE, stream).1 + [] == Run(IDLE, stream).1;
  }

  /** The state after any stream, from the last `$` in it. */
  lemma {:induction false} StateAfter(stream: seq<byte>, k: nat)
    requires k < |stream| && stream[k] == DOLLAR && DOLLAR !in stream[k + 1..]
    ensures Run(IDLE, stream).0 ==
            if NEWLINE !in stream[k..] && |stream[k..]| <= BUFFER_SIZE then Rx(true, stream[k..]) else IDLE
  {
    var rest := stream[k + 1..];
    assert stream == stream[..k] + stream[k..] && stream[k..] == [DOLLAR] + rest;
    RunConcat(IDLE, stream[..k], stream[k..]);
    AfterDollar(Run(IDLE, stream[..k]).0, rest);
  }

  lemma {:induction false} AfterDollar(s: Rx, rest: seq<byte>)
    requires DOLLAR !in rest
    ensures Run(s, [DOLLAR] + rest).0 ==
            if NEWLINE !in rest && 1 + |rest| <= BUFFER_SIZE then Rx(true, [DOLLAR] + rest) else IDLE
    decreases |rest|
  {
    if rest == [] {
      RunAppend(s, [], DOLLAR);
      assert [DOLLAR] + rest == [] + [DOLLAR];
    } else {
      var front, last := rest[..|rest| - 1], rest[|rest| - 1];
      assert [DOLLAR] + rest == ([DOLLAR] + front) + [last] && rest == front + [last] && last in rest;
      AfterDollar(s, front);
      RunAppend(s, [DOLLAR] + front, last);
    }
  }

  // ----- what can be handed on -----

  /** `t[i..j]` is a frame: from a `$` to the next newline, nothing special in between. */
  predicate IsFrame(t: seq<byte>, i: nat, j: nat) {
    i + 2 <= j <= |t| && t[i] == DOLLAR && t[j - 1] == NEWLINE && Plain(t[i + 1..j - 1])
  }

  ghost predicate IsPart(p: seq<byte>, t: seq<byte>) {
    exists i: nat, j: nat :: IsFrame(t, i, j) && p == t[i..j]
  }

  /** Every packet handed on is a frame of the stream. */
  ghost predicate FromStream(packets: seq<seq<byte>>, t: seq<byte>) {
    forall q :: 0 <= q < |packets| ==> IsPart(packets[q], t)
  }

  lemma FrameStays(t: seq<byte>, b: byte, i: nat, j: nat)
    requires IsFrame(t, i, j)
    ensures IsFrame(t + [b], i, j) && (t + [b])[i..j] == t[i..j]
  {
    assert (t + [b])[i + 1..j - 1] == t[i + 1..j - 1];
  }

  /** After a `$`, what is collected is the end of the stream. */
  lemma {:induction false} Collected(s: Rx, t: seq<byte>)
    requires t != [] && t[0] == DOLLAR
    ensures FromStream(Run(s, t).1, t) && Tail(Run(s, t).0, t)
    decreases |t|
  {
    var front, last := t[..|t| - 1], t[|t| - 1];
    assert t == front + [last];
    RunAppend(s, front, last);
    if front == [] {
      CollectFirst(s);
    } else {
      Collected(s, front);
      CollectNext(Run(s, front), front, last);
    }
  }

  lemma CollectFirst(s: Rx)
    ensures FromStream(Run(s, [DOLLAR]).1, [DOLLAR]) && Tail(Run(s, [DOLLAR]).0, [DOLLAR])
  {
    RunAppend(s, [], DOLLAR);
    assert [] + [DOLLAR] == [DOLLAR] && [DOLLAR][1..] == [];
    NoPackets();
  }

  lemma CollectNext(r: (Rx, seq<seq<byte>>), front: seq<byte>, last: byte)
    requires FromStream(r.1, front) && Tail(r.0, front)
    ensures var now := Turn(r.0, last); FromStream(r.1 + now.1, front + [last]) && Tail(now.0, front + [last])
  {
    CollectOne(r.0, front, last);
    FromStreamGrows(r.1, front, last);
    FromStreamBoth(r.1, Turn(r.0, last).1, front + [last]);
  }

  /** What has been collected is the end of the stream, from a `$`. */
  ghost predicate Tail(s: Rx, t: seq<byte>) {
    s.inFrame ==>
      var n := |s.frame|;
      1 <= n <= |t| && s.frame == t[|t| - n..] && t[|t| - n] == DOLLAR && Plain(t[|t| - n + 1..])
  }

  lemma CollectOne(s: Rx, front: seq<byte>, last: byte)
    requires Tail(s, front)
    ensures Tail(Turn(s, last).0, front + [last]) && FromStream(Turn(s, last).1, front + [last])
  {
    var t, now := front + [last], Turn(s, last);
    if last == DOLLAR {
      assert t[|t| - 1..] == [last] && t[|t|..] == [];
    } else if s.inFrame {
      var a := |front| - |s.frame|;
      assert t[a..] == front[a..] + [last] && t[a + 1..] == front[a + 1..] + [last] && t[a] == front[a];
      if now.1 != [] {
        assert t[a + 1..|t| - 1] == front[a + 1..] && t[a..|t|] == t[a..];
        assert IsFrame(t, a, |t|) && now.1[0] == t[a..|t|];
      }
    }
  }

  lemma FromStreamGrows(packets: seq<seq<byte>>, front: seq<byte>, last: byte)
    requires FromStream(packets, front)
    ensures FromStream(packets, front + [last])
  {
    forall q | 0 <= q < |packets| ensures IsPart(packets[q], front + [last]) {
      var i: nat, j: nat :| IsFrame(front, i, j) && packets[q] == front[i..j];
      FrameStays(front, last, i, j);
    }
  }

  lemma FromStreamBoth(a: seq<seq<byte>>, b: seq<seq<byte>>, t: seq<byte>)
    requires FromStream(a, t) && FromStream(b, t)
    ensures FromStream(a + b, t)
  {
    var all := a + b;
    forall q | 0 <= q < |all| ensures IsPart(all[q], t) {
      assert all[q] == if q < |a| then a[q] else b[q - |a|];
    }
  }

  lemma {:induction false} NoneAccepted(packets: seq<seq<byte>>)
    requires forall q :: 0 <= q < |packets| ==> Accept(packets[q]) == None
    ensures Accepted(packets) == []
    decreases |packets|
  {
    if packets != [] { NoneAccepted(packets[..|packets| - 1]); }
  }

  lemma {:induction false} AcceptedConcat(a: seq<seq<byte>>, b: seq<seq<byte>>)
    ensures Accepted(a + b) == Accepted(a) + Accepted(b)
    decreases |b|
  {
    if b == [] {
      assert a + b == a && Accepted(a) + [] == Accepted(a);
    } else {
      var n := |b| - 1;
      assert (a + b)[..|a + b| - 1] == a + b[..n];
      AcceptedConcat(a, b[..n]);
      var c := Accept(b[n]);
      Assoc(Accepted(a), Accepted(b[..n]), if c.Some? then [c.value] else []);
    }
  }

  /** If no frame in `t` is accepted, hearing `t` after any stream accepts nothing. */
  lemma NothingAccepted(stream: seq<byte>, t: seq<byte>)
    requires t != [] && t[0] == DOLLAR
    requires forall i: nat, j: nat :: IsFrame(t, i, j) ==> Accept(t[i..j]) == None
    ensures Accepted(Run(IDLE, stream + t).1) == Accepted(Run(IDLE, stream).1)
  {
    var x := Run(IDLE, stream);
    RunConcat(IDLE, stream, t);
    Collected(x.0, t);
    var packets := Run(x.0, t).1;
    forall q | 0 <= q < |packets| ensures Accept(packets[q]) == None {
      var i: nat, j: nat :| IsFrame(t, i, j) && packets[q] == t[i..j];
    }
    NoneAccepted(packets);
    AcceptedConcat(x.1, packets);
  }

  // ----- corruption -----

  lemma SumFour(a: byte, b: byte, c: byte, d: byte)
    ensures Sum([a, b, c, d]) == a + b + c + d
  {
    SumThree(a, b, c);
    assert [a, b, c, d][..3] == [a, b, c];
  }

  lemma SumThree(a: byte, b: byte, c: byte)
    ensures Sum([a, b, c]) == a + b + c
  {
    assert [a][..0] == [] && Sum([a]) == a;
    assert [a, b][..1] == [a] && Sum([a, b]) == a + b;
    assert [a, b, c][..2] == [a, b];
    assert Sum([a]) == Sum([]) + a && Sum([a, b]) == Sum([a]) + b;
  }

  /** The sums behind the checksums of a write and a read frame. */
  lemma FrameSum(f: seq<byte>)
    ensures |f| == LEN_W ==> Sum(f[1..5]) == f[1] as nat + f[2] as nat + f[3] as nat + f[4] as nat
    ensures |f| == LEN_R ==> Sum(f[1..4]) == f[1] as nat + f[2] as nat + f[3] as nat
  {
    if |f| == LEN_W {
      SumFour(f[1], f[2], f[3], f[4]);
      assert f[1..5] == [f[1], f[2], f[3], f[4]];
    }
    if |f| == LEN_R {
      SumThree(f[1], f[2], f[3]);
      assert f[1..4] == [f[1], f[2], f[3]];
    }
  }

  lemma ModDiffers(x: nat, y: nat)
    requires x != y && -256 < x - y < 256
    ensures x % 256 != y % 256
  {
  }

  /** Changing one byte of an accepted frame makes it unacceptable. */
  lemma ChangedIsRejected(f: seq<byte>, k: nat, b: byte)
    requires Accept(f).Some? && 1 <= k < |f| - 1 && b != f[k]
    ensures Accept(f[k := b]) == None
  {
    var t := f[k := b];
    FrameSum(f);
    FrameSum(t);
    if |f| == LEN_W {
      if k == 5 {
        assert t[1..5] == f[1..5];
      } else {
        ModDiffers(Sum(f[1..5]), Sum(t[1..5]));
      }
    } else {
      if k == 4 {
        assert t[1..4] == f[1..4];
      } else {
        ModDiffers(Sum(f[1..4]), Sum(t[1..4]));
      }
    }
  }

  /**
   * From any state, a valid frame of which one byte between `$` and newline was replaced
   * causes nothing to be accepted; not even if the new byte is itself `$` or newline.
   */
  lemma CorruptionDetected(stream: seq<byte>, f: seq<byte>, k: nat, b: byte)
    requires Accept(f).Some? && f[0] == DOLLAR && f[|f| - 1] == NEWLINE && Plain(f[1..|f| - 1])
    requires 1 <= k < |f| - 1 && b != f[k]
    ensures Accepted(Run(IDLE, stream + f[k := b]).1) == Accepted(Run(IDLE, stream).1)
  {
    var t := f[k := b];
    forall i: nat, j: nat | IsFrame(t, i, j) ensures Accept(t[i..j]) == None {
      if i == 0 && j == |t| {
        ChangedIsRejected(f, k, b);
        assert t[i..j] == t;
      } else {
        PartIsRejected(f, k, b, i, j);
      }
    }
    NothingAccepted(stream, t);
  }

  /** A proper part of the damaged frame is too short, or its first fields are wrong. */
  lemma PartIsRejected(f: seq<byte>, k: nat, b: byte, i: nat, j: nat)
    requires Accept(f).Some? && Plain(f[1..|f| - 1]) && 1 <= k < |f| - 1 && b != f[k]
    requires IsFrame(f[k := b], i, j) && (i > 0 || j < |f|)
    ensures Accept(f[k := b][i..j]) == None
  {
    var t := f[k := b];
    var p := t[i..j];
    assert forall n :: 1 <= n < |f| - 1 ==> f[n] == f[1..|f| - 1][n - 1];
    if |p| >= LEN_R {
      assert |f| == LEN_W;
      if i == 0 {
        assert t[5] == NEWLINE && k == 5;
        assert p[2] == WRITE && |p| == LEN_R;
      } else {
        assert t[1] == DOLLAR && k == 1;
        assert p[1] == t[2] == WRITE;
      }
    }
  }

  // ----- the transmitter against the receiver -----

  /** The packets that are accepted, byte by byte: a write of 7 bytes (`W` is 0x57) or a read of 6
      (`R` is 0x52), for this device (1), with the sum of what is between `$` and the checksum. */
  lemma AcceptExactly(p: seq<byte>, addr: byte, data: byte)
    ensures Accept(p) == Some(Write(addr, data)) <==>
            |p| == 7 && p[1..6] == [1, 0x57, addr, data, (1 + 0x57 + addr + data) % 256]
    ensures Accept(p) == Some(Read(addr)) <==> |p| == 6 && p[1..5] == [1, 0x52, addr, (1 + 0x52 + addr) % 256]
  {
    if |p| >= 7 {
      assert p[1..5] == [p[1], p[2], p[3], p[4]];
      SumOfFour(p[1], p[2], p[3], p[4]);
      assert p[1..6] == [p[1], p[2], p[3], p[4], p[5]];
    }
    if |p| >= 6 {
      assert p[1..4] == [p[1], p[2], p[3]];
      SumOfThree(p[1], p[2], p[3]);
      assert p[1..5] == [p[1], p[2], p[3], p[4]];
    }
  }

  lemma SumOfThree(a: byte, b: byte, c: byte)
    ensures Sum([a, b, c]) == a + b + c
  {
    assert [a][..0] == [] && Sum([a]) == a;
    assert [a, b][..1] == [a] && Sum([a, b]) == a + b;
    assert [a, b, c][..2] == [a, b];
  }

  lemma SumOfFour(a: byte, b: byte, c: byte, d: byte)
    ensures Sum([a, b, c, d]) == a + b + c + d
  {
    SumOfThree(a, b, c);
    assert [a, b, c, d][..3] == [a, b, c];
  }

  /** A response is accepted by a device exactly if it is a write for that device. */
  lemma ResponseAccepted(id: byte, cmd: byte, addr: byte, data: byte)
    ensures Accept(Response(id, cmd, addr, data)) ==
            if id == MY_SLAVE_ID && cmd == WRITE then Some(Write(addr, data)) else None
  {
    var f := Response(id, cmd, addr, data);
    assert f[1..5] == [id, cmd, addr, data];
  }

  /** Over the line: a write response arrives exactly if address, data and checksum are not
      the bytes that delimit frames; otherwise nothing is accepted at all. */
  lemma ResponseOverTheLine(stream: seq<byte>, addr: byte, data: byte)
    ensures var f := Response(MY_SLAVE_ID, WRITE, addr, data);
      Accepted(Run(IDLE, stream + f).1) ==
      Accepted(Run(IDLE, stream).1) + if Plain(f[1..6]) then [Write(addr, data)] else []
  {
    var f := Response(MY_SLAVE_ID, WRITE, addr, data);
    if Plain(f[1..6]) {
      assert f == [DOLLAR] + f[1..6] + [NEWLINE];
      FrameDelivered(stream, f[1..6]);
      ResponseAccepted(MY_SLAVE_ID, WRITE, addr, data);
      AcceptedConcat(Run(IDLE, stream).1, [f]);
      assert [f][..0] == [];
      assert Accepted([f]) == Accepted([f][..0]) + [Write(addr, data)];
    } else {
      forall i: nat, j: nat | IsFrame(f, i, j) ensures Accept(f[i..j]) == None {
        NoPartAccepted(f, i, j);
      }
      NothingAccepted(stream, f);
      assert Accepted(Run(IDLE, stream).1) + [] == Accepted(Run(IDLE, stream).1);
    }
  }

  lemma NoPartAccepted(f: seq<byte>, i: nat, j: nat)
    requires |f| == LEN_W && f[0] == DOLLAR && f[1] == MY_SLAVE_ID && f[2] == WRITE && !Plain(f[1..6])
    requires IsFrame(f, i, j)
    ensures Accept(f[i..j]) == None
  {
    assert f[0 + 1..LEN_W - 1] == f[1..6];
    if j - i >= LEN_R { assert i == 0 && j == LEN_R; }
  }

  // ----- the device -----

  /** `calculate_checksum`: a sum that wraps at 256. */
  method CalculateChecksum(buffer: array<byte>, from: nat, length: nat) returns (sum: byte)
    requires from + length <= buffer.Length
    ensures sum == Checksum(buffer[from..from + length])
  {
    sum := 0;
    assert buffer[from..from] == [];
    for i := 0 to length
      invariant sum == Checksum(buffer[from..from + i])
    {
      assert buffer[from..from + i + 1][..i] == buffer[from..from + i];
      sum := (sum + buffer[from + i]) % 256;
    }
  }

  /** `send_response`, up to the write to the line. */
  method SendResponse(id: byte, cmd: byte, addr: byte, data: byte) returns (response: array<byte>)
    ensures fresh(response) && response[..] == Response(id, cmd, addr, data)
  {
    response := new byte[LEN_W](_ => 0);
    response[0] := DOLLAR;
    response[1] := id;
    response[2] := cmd;
    response[3] := addr;
    response[4] := data;
    assert response[1..5] == [id, cmd, addr, data];
    response[5] := CalculateChecksum(response, 1, 4);
    response[6] := NEWLINE;
  }

  class Device {
    const frame: array<byte>
    const registers: array<int>       // g_device_registers
    var idx: nat
    var inFrame: bool
    var published: seq<Command>       // what was handed to mqtt_cam_publish_uart
    ghost var heard: seq<byte>        // everything received so far

    ghost predicate Shape()
      reads this
    {
      frame.Length == BUFFER_SIZE && registers.Length == 16 && idx <= BUFFER_SIZE && (!inFrame ==> idx == 0)
    }

    /** The fields are what the stream heard so far has made of them. */
    ghost predicate Valid()
      reads this, frame, registers
    {
      && Shape()
      && Run(IDLE, heard).0 == Rx(inFrame, frame[..idx])
      && published == Accepted(Run(IDLE, heard).1)
      && Stored()
    }

    /** Each register holds the data of the last accepted write to it. */
    ghost predicate Stored()
      reads this, registers
    {
      registers.Length == 16 && forall a :: 0 <= a < 16 ==> registers[a] == LastWrite(published, a)
    }

    constructor ()
      ensures Valid() && heard == [] && published == [] && fresh(frame) && fresh(registers)
    {
      frame := new byte[BUFFER_SIZE](_ => 0);
      registers := new int[16](_ => 0);
      idx, inFrame, published, heard := 0, false, [], [];
    }

    /** `process_packet`. */
    method ProcessPacket(length: nat)
      requires Shape() && Stored() && length <= frame.Length
      modifies this`published, registers
      ensures Stored()
      ensures var c := Accept(frame[..length]); published == old(published) + if c.Some? then [c.value] else []
    {
      var command := Check(length);
      if command.None? { return; }
      published := published + [command.value];
      assert published[..|published| - 1] == old(published);
      if command.value.Write? && command.value.addr < 16 {
        registers[command.value.addr] := command.value.data;
      }
    }

    /** The checks of `process_packet`. */
    method Check(length: nat) returns (c: Option<Command>)
      requires length <= frame.Length
      ensures c == Accept(frame[..length])
    {
      if length < LEN_R { return None; }
      if frame[1] != MY_SLAVE_ID { return None; }
      var cmd, addr := frame[2], frame[3];
      var received, n := 0, 0;
      if cmd == WRITE {
        if length != LEN_W { return None; }
        received, n := frame[5], 4;
      } else if cmd == READ {
        if length != LEN_R { return None; }
        received, n := frame[4], 3;
      } else {
        return None;
      }
      var calculated := CalculateChecksum(frame, 1, n);
      SliceOfSlice(frame[..], 0, length, 1, 1 + n);
      assert frame[..][1..1 + n] == frame[1..1 + n] && frame[..][0..length] == frame[..length];
      if received != calculated { return None; }
      c := Some(if cmd == WRITE then Write(addr, frame[4]) else Read(addr));
    }

    ghost function State(): Rx
      requires Shape()
      reads this, frame
    {
      Rx(inFrame, frame[..idx])
    }

    /** The body of the loop in `uart_rx_task`. */
    method Take(b: byte)
      requires Shape() && Stored()
      modifies this`idx, this`inFrame, this`published, frame, registers
      ensures Shape() && Stored()
      ensures var now := Turn(old(State()), b); State() == now.0 && published == old(published) + Accepted(now.1)
    {
      ghost var collected := frame[..idx];
      assert published + [] == published;
      if b == DOLLAR {
        inFrame := true;
        idx := 0;
        frame[idx] := b;
        idx := idx + 1;
      } else if inFrame {
        if idx < BUFFER_SIZE {
          frame[idx] := b;
          idx := idx + 1;
          assert frame[..idx] == collected + [b];
          if b == NEWLINE {
            OneAccepted(frame[..idx]);
            ProcessPacket(idx);
            inFrame := false;
            idx := 0;
          }
        } else {
          inFrame := false;
          idx := 0;
        }
      }
    }

    /** One byte from the line. */
    method Receive(b: byte)
      requires Valid()
      modifies this, frame, registers
      ensures Valid() && heard == old(heard) + [b]
    {
      RunAppend(IDLE, heard, b);
      AcceptedConcat(Run(IDLE, heard).1, Turn(Run(IDLE, heard).0, b).1);
      Take(b);
      heard := heard + [b];
    }
  }

  lemma OneAccepted(p: seq<byte>)
    ensures Accepted([p]) == var c := Accept(p); if c.Some? then [c.value] else []
  {
    assert [p][..0] == [];
  }
}
