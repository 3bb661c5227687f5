/**
 * The transport below the client, as the client can observe it: a read or write moves any
 * positive number of bytes up to what was asked for, or times out (0), or fails (negative).
 * Which of these happens is left open, so what is proved holds for every split of the stream.
 */
module Transport {
  import opened Bytes

  /** One read: how many bytes were still to come, and what it returned. */
  datatype Attempt = Attempt(left: nat, got: int)

  class Link {
    var incoming: seq<byte>   // what the peer has sent or will send and the client has not read
    var sent: seq<byte>       // everything the client has written
    var patience: nat         // how many more reads a reliable link may let time out with data on the way
    var silent: bool          // while set, nothing arrives in time
    ghost var log: seq<Attempt>   // all reads so far
    ghost var refused: nat        // how many writes timed out or failed
    const reliable: bool      // reads never fail, and time out only finitely often

    constructor (incoming: seq<byte>, patience: nat, reliable: bool)
      ensures this.incoming == incoming && this.patience == patience && this.reliable == reliable
      ensures sent == [] && log == [] && refused == 0 && !silent
    {
      this.incoming, this.patience, this.reliable := incoming, patience, reliable;
      sent, log, refused, silent := [], [], 0, false;
    }

    /** `esp_transport_read` of at most `max` bytes to `dst + at`. */
    method Read(dst: array<byte>, at: nat, max: nat) returns (r: int)
      requires 1 <= max && at + max <= dst.Length
      modifies this`incoming, this`patience, this`log, dst
      ensures log == old(log) + [Attempt(old(|incoming|), r)]
      ensures r <= max && r <= old(|incoming|)
      ensures r > 0 ==>
                && incoming == old(incoming)[r..] && patience == old(patience)
                && dst[..] == old(dst[..at]) + old(incoming)[..r] + old(dst[at + r..])
      ensures r <= 0 ==> incoming == old(incoming) && dst[..] == old(dst[..])
      ensures patience <= old(patience)
      ensures reliable ==> r >= 0
      ensures reliable && !silent && old(incoming) != [] && r == 0 ==> patience < old(patience)
      ensures silent ==> r <= 0
    {
      r := *;
      if r > max || r > |incoming| { r := if max <= |incoming| then max else |incoming|; }
      if silent && r > 0 { r := 0; }
      if reliable && r <= 0 {
        if silent || incoming == [] {
          r := 0;
        } else if patience > 0 {
          r, patience := 0, patience - 1;
        } else {
          r := 1;
        }
      }
      log := log + [Attempt(|incoming|, r)];
      if r > 0 {
        forall k | 0 <= k < r { dst[at + k] := incoming[k]; }
        incoming := incoming[r..];
      }
    }

    /** `esp_transport_write` of `len` bytes from `src + at`. */
    method Write(src: array<byte>, at: nat, len: nat) returns (r: int)
      requires 1 <= len && at + len <= src.Length
      modifies this`sent, this`refused
      ensures r <= len
      ensures refused == old(refused) + if r > 0 then 0 else 1
      ensures sent == if r > 0 then old(sent) + src[at..at + r] else old(sent)
    {
      r := *;
      if r > len { r := len; }
      if r > 0 { sent := sent + src[at..at + r]; } else { refused := refused + 1; }
    }
  }
}
