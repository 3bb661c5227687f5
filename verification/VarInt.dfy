/**
 * The variable byte integer: section 2.2.3 of MQTT 3.1.1, section 1.5.5 of MQTT 5.0.
 *
 * The repository writes it with one loop (twice) and reads it with several. `Encode` and
 * `Scan` are the reference; every loop is a method proved against them.
 */
module VarInt {
  import opened Bytes

  /** The number of values an encoding of at most four bytes can hold. */
  const LIMIT: nat := 0x1000_0000

  function Encode(n: nat): (s: seq<byte>)
    ensures |s| >= 1
    decreases n
  {
    if n < 128 then [n] else [n % 128 + 128] + Encode(n / 128)
  }

  /** What reading at most `max` length bytes from the front of a sequence yields. */
  datatype Reading = Reading(value: nat, used: nat, ended: bool)

  function Scan(s: seq<byte>, max: nat): (r: Reading)
    ensures r.used <= |s| && r.used <= max
    ensures r.ended ==> r.used >= 1
    decreases max
  {
    if s == [] || max == 0 then Reading(0, 0, false)
    else if s[0] < 128 then Reading(s[0], 1, true)
    else
      var rest := Scan(s[1..], max - 1);
      Reading(s[0] % 128 + 128 * rest.value, 1 + rest.used, rest.ended)
  }

  /** A scan stops behind the first byte below 128, or at the end, or after `max` bytes. */
  lemma {:induction false} ScanShape(s: seq<byte>, max: nat)
    ensures var r := Scan(s, max);
      && (forall i :: 0 <= i < r.used - (if r.ended then 1 else 0) ==> s[i] >= 128)
      && (if r.ended then s[r.used - 1] < 128 else r.used == |s| || r.used == max)
    decreases max
  {
    if s != [] && max > 0 && s[0] >= 128 {
      ScanShape(s[1..], max - 1);
      var r := Scan(s[1..], max - 1);
      forall i | 0 <= i < 1 + r.used - (if r.ended then 1 else 0)
        ensures s[i] >= 128
      {
        if i > 0 { assert s[i] == s[1..][i - 1]; }
      }
    }
  }

  /** A reading that ended depends only on the bytes it used. */
  lemma {:induction false} ScanPrefix(s: seq<byte>, t: seq<byte>, max: nat)
    requires Scan(s, max).ended && Scan(s, max).used <= |t|
    requires forall i :: 0 <= i < Scan(s, max).used ==> s[i] == t[i]
    ensures Scan(t, max) == Scan(s, max)
    decreases max
  {
    if s[0] >= 128 {
      assert s[0] == t[0];
      forall i | 0 <= i < Scan(s[1..], max - 1).used
        ensures s[1..][i] == t[1..][i]
      {
        assert s[i + 1] == t[i + 1];
      }
      ScanPrefix(s[1..], t[1..], max - 1);
    }
  }

  /** `x << 7 * k`. */
  function Shift(x: nat, k: nat): (w: nat)
    ensures w >= x
  {
    if k == 0 then x else 128 * Shift(x, k - 1)
  }

  lemma {:induction false} ShiftAdd(x: nat, y: nat, k: nat)
    ensures Shift(x + y, k) == Shift(x, k) + Shift(y, k)
    decreases k
  {
    if k > 0 { ShiftAdd(x, y, k - 1); }
  }

  lemma {:induction false} ShiftShift(x: nat, k: nat)
    ensures Shift(128 * x, k) == Shift(x, k + 1)
    decreases k
  {
    if k > 0 { ShiftShift(x, k - 1); }
  }

  // ----- the encoding -----

  /** k bytes suffice exactly for the values below 128 to the k. */
  lemma {:induction false} EncodeLength(n: nat, k: nat)
    requires k >= 1
    ensures |Encode(n)| <= k <==> n < Shift(1, k)
    decreases k
  {
    if k == 1 {
      assert Shift(1, 1) == 128 * Shift(1, 0);
    } else if n < 128 {
      ShiftMonotone(1, k);
      assert Shift(1, 1) == 128 * Shift(1, 0);
    } else {
      EncodeLength(n / 128, k - 1);
      assert n / 128 < Shift(1, k - 1) <==> n < 128 * Shift(1, k - 1);
    }
  }

  lemma {:induction false} ShiftMonotone(j: nat, k: nat)
    requires j <= k
    ensures Shift(1, j) <= Shift(1, k)
    decreases k
  {
    if j < k { ShiftMonotone(j, k - 1); }
  }

  /** Four bytes hold exactly the lengths below the limit. */
  lemma EncodeFourBytes(n: nat)
    ensures |Encode(n)| <= 4 <==> n < LIMIT
  {
    EncodeLength(n, 4);
    assert Shift(1, 4) == 128 * (128 * (128 * (128 * Shift(1, 0))));
  }

  lemma ScanCons(b: byte, s: seq<byte>, max: nat)
    requires b >= 128 && max >= 1
    ensures Scan([b] + s, max) == var r := Scan(s, max - 1); Reading(b - 128 + 128 * r.value, 1 + r.used, r.ended)
  {
    assert ([b] + s)[1..] == s;
  }

  /** Reading undoes writing and stops exactly at the end of what was written. */
  lemma {:induction false} ScanEncode(n: nat, rest: seq<byte>, max: nat)
    requires max >= |Encode(n)|
    ensures Scan(Encode(n) + rest, max) == Reading(n, |Encode(n)|, true)
    decreases n
  {
    if n < 128 {
      assert (Encode(n) + rest)[0] == n;
    } else {
      ScanEncode(n / 128, rest, max - 1);
      ScanCons(n % 128 + 128, Encode(n / 128) + rest, max);
      Assoc([n % 128 + 128], Encode(n / 128), rest);
    }
  }

  /** No encoding is a prefix of another: two encoded streams agree only on equal values. */
  lemma EncodePrefixFree(a: nat, b: nat, x: seq<byte>, y: seq<byte>)
    requires Encode(a) + x == Encode(b) + y
    ensures a == b && x == y
  {
    var max := |Encode(a)| + |Encode(b)|;
    ScanEncode(a, x, max);
    ScanEncode(b, y, max);
    assert (Encode(a) + x)[|Encode(a)|..] == x;
    assert (Encode(b) + y)[|Encode(b)|..] == y;
  }

  /** `Encode` is the shortest: nothing that reads as `n` uses fewer bytes. */
  lemma {:induction false} EncodeMinimal(s: seq<byte>, max: nat)
    requires Scan(s, max).ended
    ensures |Encode(Scan(s, max).value)| <= Scan(s, max).used
    decreases max
  {
    if s[0] >= 128 {
      EncodeMinimal(s[1..], max - 1);
      var rest := Scan(s[1..], max - 1).value;
      var v := s[0] % 128 + 128 * rest;
      assert v / 128 == rest;
    }
  }

  /** A reading that uses the least number of bytes is of the encoding itself. */
  lemma {:induction false} ScanThenEncode(s: seq<byte>, max: nat)
    requires Scan(s, max).ended && Scan(s, max).used == |Encode(Scan(s, max).value)|
    ensures s[..Scan(s, max).used] == Encode(Scan(s, max).value)
    decreases max
  {
    if s[0] < 128 {
      assert s[..1] == [s[0]];
    } else {
      var rest := Scan(s[1..], max - 1);
      EncodeMinimal(s[1..], max - 1);
      EncodeCons(s[0], rest.value);
      ScanThenEncode(s[1..], max - 1);
      assert s[..1 + rest.used] == [s[0]] + s[1..][..rest.used];
    }
  }

  /** Encoding a value whose first byte and remaining value are known. */
  lemma EncodeCons(b: byte, rest: nat)
    requires b >= 128
    ensures var v := b % 128 + 128 * rest;
      Encode(v) == if rest == 0 then [b % 128] else [b] + Encode(rest)
  {
    var v := b % 128 + 128 * rest;
    assert v / 128 == rest && v % 128 == b % 128;
  }

  /** The table of section 2.2.3 of MQTT 3.1.1: lowest seven bits first, the top bit set in every
      byte but the last. */
  lemma EncodeTable(n: nat, a: nat, b: nat, c: nat)
    requires n < LIMIT && a == n / 128 && b == a / 128 && c == b / 128
    ensures Encode(n) ==
            if n < 128 then [n]
            else if a < 128 then [128 + n % 128, a]
            else if b < 128 then [128 + n % 128, 128 + a % 128, b]
            else [128 + n % 128, 128 + a % 128, 128 + b % 128, c]
  {
    assert c < 128;
    EncodeTwo(n, a);
    EncodeTwo(b, c);
    EncodeTwo(a, b);
  }

  lemma EncodeTwo(n: nat, a: nat)
    requires a == n / 128
    ensures Encode(n) == if n < 128 then [n] else [128 + n % 128] + Encode(a)
  {
  }

  // ----- the loops -----

  /** The do-while loop shared by both `fini_message`s and `generate_variable_len`. */
  method GenerateVariableLen(len: nat, lens: array<byte>) returns (bytes: nat)
    requires lens.Length == 4 && len < LIMIT
    modifies lens
    ensures bytes <= 4 && lens[..bytes] == Encode(len)
  {
    EncodeFourBytes(len);
    var total := len / 128;
    lens[0] := len % 128 + if total > 0 then 128 else 0;
    bytes := 1;
    while total > 0
      invariant 1 <= bytes <= 4 && total >= 0
      invariant total > 0 ==> bytes + |Encode(total)| <= 4
      invariant lens[..bytes] + (if total > 0 then Encode(total) else []) == Encode(len)
      decreases total
    {
      var next := total / 128;
      lens[bytes] := total % 128 + if next > 0 then 128 else 0;
      assert lens[..bytes + 1] == lens[..bytes] + [lens[bytes]];
      total := next;
      bytes := bytes + 1;
    }
  }

  /** One turn of a reading loop, seen from the front of the bytes still to be read. */
  lemma ScanStep(s: seq<byte>, i: nat, max: nat)
    requires i < |s| && max >= 1
    ensures Scan(s[i..], max) ==
            if s[i] < 128 then Reading(s[i], 1, true)
            else var r := Scan(s[i + 1..], max - 1);
              Reading(s[i] % 128 + 128 * r.value, 1 + r.used, r.ended)
  {
    assert s[i..][1..] == s[i + 1..];
  }

  /** The accumulating loop of `mqtt_get_total_length` and `get_variable_len`:
      at most `max` bytes from `offset`, never past `limit`. */
  method ReadVariable(buffer: array<byte>, offset: nat, limit: nat, max: nat)
    returns (value: nat, used: nat, ended: bool)
    requires offset <= limit <= buffer.Length
    ensures Reading(value, used, ended) == Scan(buffer[offset..limit], max)
  {
    value, used, ended := 0, 0, false;
    ghost var s := buffer[offset..limit];
    assert s[0..] == s;
    while offset + used < limit && used < max && !ended
      invariant used <= |s| && used <= max
      invariant Scan(s, max) == Resumed(s, max, value, used, ended)
      decreases limit - offset - used
    {
      assert s[used] == buffer[offset + used];
      ResumeStep(s, max, value, used);
      value := value + Shift(buffer[offset + used] % 128, used);
      ended := buffer[offset + used] < 128;
      used := used + 1;
    }
    ResumeEnd(s, max, value, used, ended);
  }

  /** The whole reading, when `used` bytes worth `value` have been read. */
  ghost function Resumed(s: seq<byte>, max: nat, value: nat, used: nat, ended: bool): Reading
    requires used <= |s| && used <= max
  {
    if ended then Reading(value, used, true)
    else
      var r := Scan(s[used..], max - used);
      Reading(value + Shift(r.value, used), used + r.used, r.ended)
  }

  lemma ResumeStep(s: seq<byte>, max: nat, value: nat, used: nat)
    requires used < |s| && used < max
    ensures Resumed(s, max, value, used, false) ==
            Resumed(s, max, value + Shift(s[used] % 128, used), used + 1, s[used] < 128)
  {
    ScanStep(s, used, max - used);
    if s[used] >= 128 {
      var r := Scan(s[used + 1..], max - used - 1);
      ShiftAdd(s[used] % 128, 128 * r.value, used);
      ShiftShift(r.value, used);
    }
  }

  lemma ResumeEnd(s: seq<byte>, max: nat, value: nat, used: nat, ended: bool)
    requires used <= |s| && used <= max
    requires ended || used == |s| || used == max
    ensures Resumed(s, max, value, used, ended) == Reading(value, used, ended)
  {
    ShiftZero(used);
  }

  lemma {:induction false} ShiftZero(k: nat)
    ensures Shift(0, k) == 0
    decreases k
  {
    if k > 0 { ShiftZero(k - 1); }
  }
}
