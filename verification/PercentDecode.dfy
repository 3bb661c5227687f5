/**
 * components/mqtt/lib/mqtt_utils/mqtt_utils.c: decoding `%XX` (section 2.1 of RFC 3986) in
 * place, with a write pointer behind the read index.
 */
module PercentDecode {
  import opened Bytes

  const PERCENT: byte := 0x25

  /** `isxdigit`. */
  predicate IsHex(b: byte) {
    0x30 <= b <= 0x39 || 0x41 <= b <= 0x46 || 0x61 <= b <= 0x66
  }

  /** The value `strtol` gives a hexadecimal digit. */
  function HexValue(b: byte): (v: nat)
    requires IsHex(b)
    ensures v < 16
  {
    if b <= 0x39 then b - 0x30 else if b <= 0x46 then b - 0x41 + 10 else b - 0x61 + 10
  }

  /** The decoded bytes, or None where a `%` is not followed by two digits. */
  function Decode(e: seq<byte>): (r: Option<seq<byte>>)
    decreases |e|
  {
    if e == [] then Some([])
    else if e[0] != PERCENT then
      var rest := Decode(e[1..]);
      if rest.Some? then Some([e[0]] + rest.value) else None
    else if |e| < 3 || !IsHex(e[1]) || !IsHex(e[2]) then None
    else
      var rest := Decode(e[3..]);
      if rest.Some? then Some([16 * HexValue(e[1]) + HexValue(e[2])] + rest.value) else None
  }

  /** A digit for `v`: `0` to `9`, then `A` to `F` or `a` to `f`. */
  predicate Digit(b: byte, v: nat) {
    (v < 10 && b == 48 + v) || (10 <= v < 16 && (b == 55 + v || b == 87 + v))
  }

  /** An encoding of one byte: itself, unless it is `%` or NUL, or `%` and two digits for it. */
  predicate Encodes1(e: seq<byte>, b: byte) {
    || (e == [b] && b != 0x25 && b != 0)
    || (|e| == 3 && e[0] == 0x25 && Digit(e[1], b / 16) && Digit(e[2], b % 16))
  }

  lemma DigitsAre(x: byte, y: byte, b: byte)
    ensures Digit(x, b / 16) && Digit(y, b % 16) <==> IsHex(x) && IsHex(y) && 16 * HexValue(x) + HexValue(y) == b
  {
    if IsHex(x) && IsHex(y) {
      var h, l := HexValue(x), HexValue(y);
      assert (16 * h + l) / 16 == h && (16 * h + l) % 16 == l;
    }
  }

  /** `isxdigit` knows exactly these digits. */
  lemma HexDigits(b: byte)
    ensures IsHex(b) <==> exists v: nat :: Digit(b, v)
  {
    if IsHex(b) { assert Digit(b, HexValue(b)); }
  }

  /** Some encoder may have written `e` for `o`: byte by byte, each in one of the two ways. */
  ghost predicate Encodes(e: seq<byte>, o: seq<byte>)
    decreases |o|
  {
    if o == [] then e == []
    else exists n: nat :: n <= |e| && Encodes1(e[..n], o[0]) && Encodes(e[n..], o[1..])
  }

  /**
   * Whatever the encoder chose to escape, decoding returns the original bytes; and whatever
   * decodes without failure is an encoding of the result.
   */
  lemma {:induction false} DecodeExactly(e: seq<byte>, o: seq<byte>)
    requires 0 !in e
    ensures Decode(e) == Some(o) <==> Encodes(e, o)
    decreases |e|
  {
    if Encodes(e, o) { DecodeEncoded(e, o); }
    if Decode(e) == Some(o) { EncodedDecoded(e, o); }
  }

  lemma {:induction false} DecodeEncoded(e: seq<byte>, o: seq<byte>)
    requires Encodes(e, o)
    ensures Decode(e) == Some(o)
    decreases |o|
  {
    if o != [] {
      var n: nat :| n <= |e| && Encodes1(e[..n], o[0]) && Encodes(e[n..], o[1..]);
      DecodeEncoded(e[n..], o[1..]);
      DecodeFirst(e, n, o[0], o[1..]);
      assert o == [o[0]] + o[1..];
    }
  }

  lemma DecodeFirst(e: seq<byte>, n: nat, b: byte, rest: seq<byte>)
    requires n <= |e| && Encodes1(e[..n], b) && Decode(e[n..]) == Some(rest)
    ensures Decode(e) == Some([b] + rest)
  {
    assert forall i :: 0 <= i < n ==> e[i] == e[..n][i];
    if n == 3 { DigitsAre(e[1], e[2], b); }
  }

  lemma {:induction false} EncodedDecoded(e: seq<byte>, o: seq<byte>)
    requires Decode(e) == Some(o) && 0 !in e
    ensures Encodes(e, o)
    decreases |e|
  {
    if e != [] {
      var n := if e[0] != PERCENT then 1 else 3;
      EncodedDecoded(e[n..], o[1..]);
      assert e[..1] == [e[0]];
      if n == 3 { DigitsAre(e[1], e[2], o[0]); }
      assert Encodes1(e[..n], o[0]) && Encodes(e[n..], o[1..]);
    }
  }

  /** A left-to-right scan meets a `%` that does not start an escape: after `i` bytes that
      decode, there is one without two digits behind it. */
  ghost predicate MeetsBadPercent(e: seq<byte>) {
    exists i: nat :: i < |e| && Decode(e[..i]).Some? && e[i] == PERCENT
      && !(i + 2 < |e| && IsHex(e[i + 1]) && IsHex(e[i + 2]))
  }

  /** Decoding fails exactly in that case. */
  lemma {:induction false} FailsExactly(e: seq<byte>)
    ensures Decode(e) == None <==> MeetsBadPercent(e)
  {
    if Decode(e) == None { BadPercentMet(e); }
    if MeetsBadPercent(e) {
      var i: nat :| i < |e| && Decode(e[..i]).Some? && e[i] == PERCENT
        && !(i + 2 < |e| && IsHex(e[i + 1]) && IsHex(e[i + 2]));
      assert e == e[..i] + e[i..];
      DecodeConcat(e[..i], e[i..]);
    }
  }

  lemma {:induction false} DecodeConcat(a: seq<byte>, b: seq<byte>)
    requires Decode(a).Some?
    ensures Decode(a + b) == if Decode(b).Some? then Some(Decode(a).value + Decode(b).value) else None
    decreases |a|
  {
    if a == [] {
      assert a + b == b;
      if Decode(b).Some? { assert [] + Decode(b).value == Decode(b).value; }
    } else {
      var n := if a[0] != PERCENT then 1 else 3;
      assert (a + b)[n..] == a[n..] + b;
      DecodeConcat(a[n..], b);
      if Decode(b).Some? { Assoc([Decode(a).value[0]], Decode(a[n..]).value, Decode(b).value); }
    }
  }

  lemma {:induction false} BadPercentMet(e: seq<byte>)
    requires Decode(e) == None
    ensures MeetsBadPercent(e)
    decreases |e|
  {
    if e[0] == PERCENT && (|e| < 3 || !IsHex(e[1]) || !IsHex(e[2])) {
      assert Decode(e[..0]).Some? && e[0] == PERCENT;
    } else {
      var n := if e[0] != PERCENT then 1 else 3;
      BadPercentMet(e[n..]);
      var i: nat :| i < |e[n..]| && Decode(e[n..][..i]).Some? && e[n..][i] == PERCENT
        && !(i + 2 < |e[n..]| && IsHex(e[n..][i + 1]) && IsHex(e[n..][i + 2]));
      assert e[..n + i] == e[..n] + e[n..][..i];
      DecodeOne(e, n);
      DecodeConcat(e[..n], e[n..][..i]);
      assert e[n + i] == PERCENT;
    }
  }

  lemma DecodeOne(e: seq<byte>, n: nat)
    requires e != [] && n <= |e|
    requires if e[0] != PERCENT then n == 1 else n == 3 && IsHex(e[1]) && IsHex(e[2])
    ensures Decode(e[..n]).Some?
  {
    assert e[..n][n..] == [];
  }

  // ----- in place -----

  /** One turn of the loop, from the point of view of what has been decoded. */
  lemma DecodeStep(e: seq<byte>, i: nat)
    requires i < |e| && Decode(e[..i]).Some?
    ensures e[i] != PERCENT ==> Decode(e[..i + 1]) == Some(Decode(e[..i]).value + [e[i]])
    ensures e[i] == PERCENT && i + 2 < |e| && IsHex(e[i + 1]) && IsHex(e[i + 2]) ==>
              Decode(e[..i + 3]) == Some(Decode(e[..i]).value + [16 * HexValue(e[i + 1]) + HexValue(e[i + 2])])
  {
    var n := if e[i] != PERCENT then 1 else 3;
    if i + n <= |e| {
      var x := e[i..i + n];
      assert e[..i + n] == e[..i] + x && x[n..] == [] && x[0] == e[i];
      DecodeConcat(e[..i], x);
      if n == 1 {
        assert [e[i]] + [] == [e[i]];
      } else if IsHex(e[i + 1]) && IsHex(e[i + 2]) {
        assert x[1] == e[i + 1] && x[2] == e[i + 2];
        var b := 16 * HexValue(x[1]) + HexValue(x[2]);
        assert [b] + [] == [b];
      }
    }
  }

  /**
   * `esp_mqtt_decode_percent_encoded_string` on the text in front of the NUL at `len`. It
   * returns the new length, or -1. The write pointer never passes the read index, so no
   * byte is overwritten before it is read.
   */
  method DecodePercentEncoded(uri: array<byte>, len: nat) returns (r: int)
    requires len < uri.Length && uri[len] == 0 && 0 !in uri[..len]
    modifies uri
    ensures var d := Decode(old(uri[..len]));
      if d.Some? then r == |d.value| && r <= len && uri[..r] == d.value && uri[r] == 0 else r == -1
    ensures forall k :: len < k < uri.Length ==> uri[k] == old(uri[k])
  {
    ghost var e := uri[..len];
    var write := 0;
    var i := 0;
    assert e[..0] == [];
    while i < len
      invariant 0 <= write <= i <= len
      invariant Decode(e[..i]) == Some(uri[..write])
      invariant forall k :: i <= k < uri.Length ==> uri[k] == old(uri[k])
    {
      ghost var done := uri[..write];
      DecodeStep(e, i);
      if uri[i] == PERCENT {
        // the NUL stops a test that would look past the end
        if !(IsHex(uri[i + 1]) && IsHex(uri[i + 2])) {
          BadPercent(e, i);
          return -1;
        }
        uri[write] := 16 * HexValue(uri[i + 1]) + HexValue(uri[i + 2]);
        i := i + 2;
      } else {
        uri[write] := uri[i];
      }
      i := i + 1;
      write := write + 1;
      assert uri[..write] == done + [uri[write - 1]];
    }
    assert e[..len] == e;
    uri[write] := 0;
    r := write;
  }

  lemma BadPercent(e: seq<byte>, i: nat)
    requires i < |e| && Decode(e[..i]).Some? && e[i] == PERCENT
    requires !(i + 2 < |e| && IsHex(e[i + 1]) && IsHex(e[i + 2]))
    ensures Decode(e) == None
  {
    FailsExactly(e);
  }
}
