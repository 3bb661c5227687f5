/**
 * Incremental packet identifiers (MQTT_MSG_ID_INCREMENTAL): a 16-bit counter that skips zero.
 */
module PacketIds {
  import opened Connections

  /** The n-th identifier drawn after `start`. */
  function Nth(start: nat, n: nat): (id: nat)
    requires start < 65536
    ensures id < 65536 && (n > 0 ==> id >= 1)
  {
    if n == 0 then start else NextId(Nth(start, n - 1))
  }

  /** The counter goes round the 65535 non-zero values. */
  lemma {:induction false} NthClosed(start: nat, n: nat)
    requires start < 65536 && n >= 1
    ensures Nth(start, n) == (start + n - 1) % 65535 + 1
    decreases n
  {
    if n == 1 {
      assert Nth(start, 1) == NextId(Nth(start, 0));
    } else {
      NthClosed(start, n - 1);
      ModStep(start + n - 2);
    }
  }

  lemma ModStep(x: nat)
    ensures (x + 1) % 65535 == if x % 65535 == 65534 then 0 else x % 65535 + 1
  {
  }

  /** Any 65535 consecutive identifiers are non-zero and pairwise distinct, across the wrap. */
  lemma IdsDistinct(start: nat, i: nat, j: nat)
    requires start < 65536 && 1 <= i < j < i + 65535
    ensures Nth(start, i) != Nth(start, j) && Nth(start, i) != 0 && Nth(start, j) != 0
  {
    NthClosed(start, i);
    NthClosed(start, j);
    ModDistinct(start + i - 1, start + j - 1);
  }

  lemma ModDistinct(x: nat, y: nat)
    requires x < y < x + 65535
    ensures x % 65535 != y % 65535
  {
    var p, q := x / 65535, y / 65535;
    assert y - x == 65535 * (q - p) + (y % 65535 - x % 65535);
  }

  /** The 65536th is the first again. */
  lemma IdsRepeat(start: nat, i: nat)
    requires start < 65536 && i >= 1
    ensures Nth(start, i) == Nth(start, i + 65535)
  {
    NthClosed(start, i);
    NthClosed(start, i + 65535);
    assert (start + i - 1 + 65535) % 65535 == (start + i - 1) % 65535;
  }
}
