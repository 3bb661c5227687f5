/**
 * Bytes and the two-byte big-endian fields of an MQTT packet.
 *
 * A C `uint8_t` is an integer below 256. The bit operations of the source are written
 * as the arithmetic they stand for: `x >> 8` is `x / 256`, `x & 0x7f` is `x % 128`,
 * testing `x & 0x80` is `x >= 128`, and `|` of disjoint fields is `+`.
 */
module Bytes {

  type byte = x: int | 0 <= x < 256

  datatype Option<+T> = None | Some(value: T)

  /** `s != NULL && s[0] != '\0'`. */
  predicate Given(s: Option<seq<byte>>) { s.Some? && s.value != [] }

  function Content(s: Option<seq<byte>>): seq<byte> {
    if s.Some? then s.value else []
  }

  /** A length or packet identifier as written by `x >> 8`, `x & 0xff` into two bytes. */
  function U16(n: nat): (s: seq<byte>)
    ensures |s| == 2
  {
    [(n / 256) % 256, n % 256]
  }

  /** The value of a two-byte field: `hi << 8 | lo`. */
  function FromU16(hi: byte, lo: byte): (n: nat)
    ensures n < 65536
  {
    hi * 256 + lo
  }

  function FromU32(a: byte, b: byte, c: byte, d: byte): (n: nat)
    ensures n < 0x1_0000_0000
  {
    FromU16(a, b) * 65536 + FromU16(c, d)
  }

  lemma U16RoundTrip(n: nat)
    requires n < 65536
    ensures FromU16(U16(n)[0], U16(n)[1]) == n
  {
  }

  /** A length-prefixed string, section 1.5.3 of MQTT 3.1.1. */
  function Str(s: seq<byte>): (r: seq<byte>)
    ensures |r| == |s| + 2
    ensures r[2..] == s
  {
    U16(|s|) + s
  }

  lemma Assoc<T>(a: seq<T>, b: seq<T>, c: seq<T>)
    ensures a + b + c == a + (b + c)
  {
  }

  lemma TakeConcat<T>(a: seq<T>, b: seq<T>, k: nat)
    requires |a| <= k <= |a| + |b|
    ensures (a + b)[..k] == a + b[..k - |a|] && (a + b)[k..] == b[k - |a|..]
  {
  }

  lemma DropConcat<T>(a: seq<T>, b: seq<T>, k: nat)
    requires k <= |a|
    ensures (a + b)[k..] == a[k..] + b
  {
  }

  lemma SliceOfSlice<T>(s: seq<T>, from: nat, to: nat, i: nat, j: nat)
    requires from <= to <= |s| && i <= j <= to - from
    ensures s[from..to][i..j] == s[from + i..from + j]
  {
    forall k | 0 <= k < j - i ensures s[from..to][i..j][k] == s[from + i..from + j][k] {
      assert s[from..to][i + k] == s[from + i + k];
    }
  }
}
