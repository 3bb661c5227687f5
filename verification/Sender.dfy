/**
 * Writing a packet to the transport: `esp_mqtt_write` and the loop of
 * `esp_mqtt_client_publish` that sends a long PUBLISH through the short output buffer.
 */
module Sender {
  import opened Bytes
  import opened Connections
  import opened Transport

  /** `esp_mqtt_write`: the whole outbound message, in pieces of the transport's choice. */
  method Write(conn: Connection, link: Link) returns (ok: bool, ghost n: nat)
    requires conn.HasOutbound()
    modifies link`sent, link`refused
    ensures n <= conn.length && (ok <==> n == conn.length)
    ensures link.refused == old(link.refused) + if ok then 0 else 1
    ensures link.sent == old(link.sent) + conn.Outbound()[..n]
    ensures ok ==> link.sent == old(link.sent) + conn.Outbound()
  {
    var widx, len := 0, conn.length;
    ghost var out := conn.Outbound();
    while len > 0
      invariant 0 <= widx && 0 <= len && widx + len == conn.length
      invariant link.sent == old(link.sent) + out[..widx] && link.refused == old(link.refused)
    {
      var wlen := link.Write(conn.data, conn.start + widx, len);
      if wlen <= 0 { return false, widx; }
      PieceOf(conn, widx, wlen);
      Assoc(old(link.sent), out[..widx], out[widx..widx + wlen]);
      widx := widx + wlen;
      len := len - wlen;
    }
    ok, n := true, widx;
  }

  lemma PieceOf(conn: Connection, i: nat, n: nat)
    requires conn.HasOutbound() && i + n <= conn.length
    ensures conn.data[conn.start + i..conn.start + i + n] == conn.Outbound()[i..i + n]
    ensures conn.Outbound()[..i] + conn.Outbound()[i..i + n] == conn.Outbound()[..i + n]
  {
    SliceOfSlice(conn.data[..], conn.start, conn.start + conn.length, i, i + n);
    assert conn.data[conn.start + i..conn.start + i + n] == conn.data[..][conn.start + i..conn.start + i + n];
    assert conn.Outbound() == conn.data[..][conn.start..conn.start + conn.length];
  }

  /** Loads the next piece of payload at the front of the buffer. */
  method LoadFragment(conn: Connection, memory: seq<byte>, from: nat, remaining: nat)
    requires conn.Valid() && conn.buffer.Length >= 1 && remaining >= 1 && from + remaining == |memory|
    modifies conn`data, conn`start, conn`length, conn.buffer
    ensures conn.data == conn.buffer && conn.HasOutbound()
    ensures conn.length == (if remaining > conn.buffer.Length then conn.buffer.Length else remaining)
    ensures conn.Outbound() == memory[from..from + conn.length]
  {
    var writeLen := if remaining > conn.buffer.Length then conn.buffer.Length else remaining;
    CopyIn(conn.buffer, 0, memory[from..from + writeLen]);
    conn.data, conn.start, conn.length := conn.buffer, 0, writeLen;
    assert conn.Outbound() == memory[from..from + writeLen];
  }

  /** The bytes the loop has still to write are `stream[done..]`; the outbound message is the
      first of them. `memory` is the caller's memory up to the end of the payload, `current` the
      loop's pointer into it. If the loop's arithmetic (length minus payload offset) says that
      payload remains, the bytes from where it then points are the rest of the stream. */
  ghost predicate Loaded(conn: Connection, stream: seq<byte>, done: nat, memory: seq<byte>, current: int,
                         remaining: int)
    reads conn`data, conn`start, conn`length, conn`fragOffset, conn.data
  {
    var included := conn.length - conn.fragOffset;
    && conn.HasOutbound()
    && done + conn.length <= |stream| && conn.Outbound() == stream[done..done + conn.length]
    && (if remaining - included <= 0 then done + conn.length == |stream|
        else
          && current + remaining == |memory| && 0 <= current + included
          && memory[current + included..] == stream[done + conn.length..])
  }

  /** Writes one piece of `whole`, the one that starts at `done`. */
  method SendPiece(conn: Connection, link: Link, ghost whole: seq<byte>, ghost done: nat, ghost base: seq<byte>)
    returns (ok: bool, ghost done': nat)
    requires conn.HasOutbound() && done + conn.length <= |whole|
    requires conn.Outbound() == whole[done..done + conn.length]
    requires link.sent == base + whole[..done]
    modifies link`sent, link`refused
    ensures done <= done' <= done + conn.length && (ok <==> done' == done + conn.length)
    ensures link.sent == base + whole[..done'] && link.refused == old(link.refused) + if ok then 0 else 1
  {
    ghost var n;
    ok, n := Write(conn, link);
    done' := done + n;
    assert whole[..done] + whole[done..done + conn.length][..n] == whole[..done + n];
    Assoc(base, whole[..done], whole[done..done + conn.length][..n]);
  }

  /** Loads the next piece and re-establishes what the loop relies on. */
  method LoadNext(conn: Connection, memory: seq<byte>, current: nat, remaining: nat,
                  ghost stream: seq<byte>, ghost done: nat)
    requires conn.Valid() && conn.buffer.Length >= 1 && remaining >= 1 && current + remaining == |memory|
    requires done <= |stream| && memory[current..] == stream[done..] && conn.fragOffset == 0
    modifies conn`data, conn`start, conn`length, conn.buffer
    ensures conn.length >= 1 && Loaded(conn, stream, done, memory, current, remaining)
  {
    LoadFragment(conn, memory, current, remaining);
    assert memory[current..current + conn.length] == memory[current..][..conn.length];
    assert stream[done..done + conn.length] == stream[done..][..conn.length];
    assert memory[current + conn.length..] == memory[current..][conn.length..];
    assert stream[done + conn.length..] == stream[done..][conn.length..];
  }

  /** The end of the loop body: account for what was sent and load more, if any is left. */
  method Advance(conn: Connection, memory: seq<byte>, current: int, remaining: int,
                 ghost stream: seq<byte>, ghost done: nat)
    returns (sending: bool, current': int, remaining': int)
    requires conn.Valid() && conn.buffer.Length >= 1 && Loaded(conn, stream, done, memory, current, remaining)
    modifies conn`data, conn`start, conn`length, conn`fragOffset, conn`fragTotal, conn.buffer
    ensures conn.Valid()
    ensures remaining' == remaining - old(conn.length - conn.fragOffset)
    ensures var done' := done + old(conn.length);
      if sending
      then conn.fragOffset == 0 && conn.length >= 1 && Loaded(conn, stream, done', memory, current', remaining')
      else done' == |stream| && conn.fragTotal == 0 && conn.fragOffset == 0
  {
    var dataSent := conn.length - conn.fragOffset;
    ghost var done' := done + conn.length;
    conn.fragOffset, conn.fragTotal := 0, 0;
    remaining' := remaining - dataSent;
    current' := current + dataSent;
    sending := remaining' > 0;
    if sending { LoadNext(conn, memory, current', remaining', stream, done'); }
  }

  /** The `while (sending)` loop for `len` bytes of payload at `memory[at..]`. It always ends,
      having sent all of the stream or, when a write fails, a proper prefix of it. */
  method SendLoop(conn: Connection, link: Link, memory: seq<byte>, at: nat, len: int, ghost stream: seq<byte>)
    returns (ok: bool, ghost done: nat)
    requires conn.Valid() && conn.buffer.Length >= 1
    requires Loaded(conn, stream, 0, memory, at, len)
    modifies link`sent, link`refused, conn`data, conn`start, conn`length, conn`fragOffset, conn`fragTotal, conn.buffer
    ensures conn.Valid()
    ensures done <= |stream| && link.sent == old(link.sent) + stream[..done]
    ensures ok ==> done == |stream| && link.sent == old(link.sent) + stream
    ensures ok ==> conn.fragTotal == 0 && conn.fragOffset == 0
    ensures !ok ==> done < |stream|
    ensures link.refused == old(link.refused) + if ok then 0 else 1
  {
    var remaining := len;
    var current := at;
    var sending := true;
    ghost var first := true;
    done := 0;
    ok := true;
    assert stream[..0] == [];
    while sending
      invariant conn.Valid() && ok && link.refused == old(link.refused)
      invariant 0 <= done <= |stream| && link.sent == old(link.sent) + stream[..done]
      invariant sending ==> Loaded(conn, stream, done, memory, current, remaining)
      invariant sending && !first ==> conn.fragOffset == 0 && conn.length >= 1
      invariant !sending ==> done == |stream| && conn.fragTotal == 0 && conn.fragOffset == 0
      decreases sending, first, remaining
    {
      ghost var before := done;
      ok, done := SendPiece(conn, link, stream, done, old(link.sent));
      if !ok { return; }
      sending, current, remaining := Advance(conn, memory, current, remaining, stream, before);
      first := false;
    }
    assert stream[..|stream|] == stream;
  }
}
