/**
 * The outbox as a sequence of entries: what the linked list of `mqtt_outbox.c` stands for,
 * and the operations on it as functions.
 */
module OutboxModel {
  import opened Bytes
  import opened Packet

  datatype Pending = Queued | Transmitted | Acknowledged | Confirmed

  /** One stored message. `serial` numbers the messages in the order they were enqueued; it
      is not in the program and only serves to tell entries apart. */
  datatype Entry = Entry(bytes: seq<byte>, id: nat, kind: nat, qos: nat, tick: int, pending: Pending, serial: nat) {
    function InState(p: Pending): Entry { Entry(bytes, id, kind, qos, tick, p, serial) }
    function At(t: int): Entry { Entry(bytes, id, kind, qos, t, pending, serial) }
    function WithDup(): Entry
      requires bytes != []
    {
      Entry(bytes[0 := SetDup(bytes[0])], id, kind, qos, tick, pending, serial)
    }
  }

  /** The tests the outbox searches by. */
  datatype Query =
    | ById(id: nat)
    | ByPending(pending: Pending)
    | ByIdAndKind(id: nat, kind: nat)
    | Expired(now: int, timeout: int)
  {
    predicate Matches(e: Entry) {
      match this
      case ById(id) => e.id == id
      case ByPending(p) => e.pending == p
      case ByIdAndKind(id, kind) => e.id == id && e.kind % 256 == kind
      case Expired(now, timeout) => now - e.tick > timeout
    }
  }

  /** The index of the first match, or the length. */
  function First(s: seq<Entry>, q: Query): (k: nat)
    ensures k <= |s|
    ensures k < |s| ==> q.Matches(s[k])
  {
    if s == [] then 0 else if q.Matches(s[0]) then 0 else 1 + First(s[1..], q)
  }

  /** Nothing before the first match matches. */
  lemma {:induction false} NothingBefore(s: seq<Entry>, q: Query)
    ensures forall j :: 0 <= j < First(s, q) ==> !q.Matches(s[j])
    decreases |s|
  {
    if s != [] && !q.Matches(s[0]) {
      NothingBefore(s[1..], q);
      forall j | 0 <= j < First(s, q) ensures !q.Matches(s[j]) {
        if j > 0 { assert s[j] == s[1..][j - 1]; }
      }
    }
  }

  lemma {:induction false} FirstIs(s: seq<Entry>, q: Query, k: nat)
    requires k <= |s| && (forall j :: 0 <= j < k ==> !q.Matches(s[j])) && (k < |s| ==> q.Matches(s[k]))
    ensures First(s, q) == k
    decreases |s|
  {
    if k > 0 {
      forall j | 0 <= j < k - 1 ensures !q.Matches(s[1..][j]) { assert s[1..][j] == s[j + 1]; }
      FirstIs(s[1..], q, k - 1);
    }
  }

  function RemoveAt(s: seq<Entry>, k: nat): seq<Entry>
    requires k < |s|
  {
    s[..k] + s[k + 1..]
  }

  /** Delete the first match, if any. */
  function RemoveFirst(s: seq<Entry>, q: Query): seq<Entry> {
    var k := First(s, q);
    if k < |s| then RemoveAt(s, k) else s
  }

  function WithPending(s: seq<Entry>, id: nat, p: Pending): (r: seq<Entry>)
    ensures |r| == |s|
  {
    var k := First(s, ById(id));
    if k < |s| then s[k := s[k].InState(p)] else s
  }

  function WithTick(s: seq<Entry>, id: nat, tick: int): (r: seq<Entry>)
    ensures |r| == |s|
  {
    var k := First(s, ById(id));
    if k < |s| then s[k := s[k].At(tick)] else s
  }

  /** The entries that are not matched, in order. */
  function Without(s: seq<Entry>, q: Query): seq<Entry> {
    if s == [] then [] else (if q.Matches(s[0]) then [] else [s[0]]) + Without(s[1..], q)
  }

  /** The matched entries, in order. */
  function Matched(s: seq<Entry>, q: Query): seq<Entry> {
    if s == [] then [] else (if q.Matches(s[0]) then [s[0]] else []) + Matched(s[1..], q)
  }

  /** Removing the first match again and again. */
  function RemoveAll(s: seq<Entry>, q: Query): seq<Entry>
    decreases |s|
  {
    if First(s, q) == |s| then s else RemoveAll(RemoveFirst(s, q), q)
  }

  /** What such repeated removals take out, in order. */
  function RemovedInTurn(s: seq<Entry>, q: Query): seq<Entry>
    decreases |s|
  {
    var k := First(s, q);
    if k == |s| then [] else [s[k]] + RemovedInTurn(RemoveFirst(s, q), q)
  }

  function Size(s: seq<Entry>): nat {
    if s == [] then 0 else |s[0].bytes| + Size(s[1..])
  }

  // ----- the two expiry strategies -----

  /** With no match up to k, filtering starts behind it. */
  lemma {:induction false} WithoutSplit(s: seq<Entry>, q: Query, k: nat)
    requires k <= |s| && forall j :: 0 <= j < k ==> !q.Matches(s[j])
    ensures Without(s, q) == s[..k] + Without(s[k..], q)
    ensures Matched(s, q) == Matched(s[k..], q)
    decreases k
  {
    if k > 0 {
      forall j | 0 <= j < k - 1 ensures !q.Matches(s[1..][j]) { assert s[1..][j] == s[j + 1]; }
      WithoutSplit(s[1..], q, k - 1);
      assert s[1..][k - 1..] == s[k..];
      assert s[..k] == [s[0]] + s[1..][..k - 1];
    } else {
      assert s[0..] == s;
    }
  }

  /** Removing the first match leaves the filter of the rest unchanged. */
  lemma WithoutRemoveFirst(s: seq<Entry>, q: Query)
    requires First(s, q) < |s|
    ensures Without(RemoveFirst(s, q), q) == Without(s, q)
    ensures Matched(s, q) == [s[First(s, q)]] + Matched(RemoveFirst(s, q), q)
  {
    var k := First(s, q);
    var front, rest := s[..k], s[k + 1..];
    NothingBefore(s, q);
    assert s == front + ([s[k]] + rest);
    WithoutBehind(front, [s[k]] + rest, q);
    WithoutBehind(front, rest, q);
    WithoutHead(s[k], rest, q);
  }

  lemma WithoutHead(e: Entry, rest: seq<Entry>, q: Query)
    requires q.Matches(e)
    ensures Without([e] + rest, q) == Without(rest, q) && Matched([e] + rest, q) == [e] + Matched(rest, q)
  {
    assert ([e] + rest)[1..] == rest;
    assert [] + Without(rest, q) == Without(rest, q);
  }

  lemma WithoutBehind(front: seq<Entry>, rest: seq<Entry>, q: Query)
    requires forall j :: 0 <= j < |front| ==> !q.Matches(front[j])
    ensures Without(front + rest, q) == front + Without(rest, q)
    ensures Matched(front + rest, q) == Matched(rest, q)
  {
    WithoutSplit(front + rest, q, |front|);
    assert (front + rest)[..|front|] == front && (front + rest)[|front|..] == rest;
  }

  /** Deleting one expired message at a time until none is left is the same as one pass. */
  lemma {:induction false} StrategiesAgree(s: seq<Entry>, q: Query)
    ensures RemoveAll(s, q) == Without(s, q)
    ensures RemovedInTurn(s, q) == Matched(s, q)
    decreases |s|
  {
    var k := First(s, q);
    if k == |s| {
      NothingBefore(s, q);
      WithoutSplit(s, q, k);
      assert s[k..] == [] && s[..k] == s;
    } else {
      WithoutRemoveFirst(s, q);
      StrategiesAgree(RemoveFirst(s, q), q);
    }
  }

  // ----- sizes -----

  lemma {:induction false} SizeConcat(a: seq<Entry>, b: seq<Entry>)
    ensures Size(a + b) == Size(a) + Size(b)
    decreases |a|
  {
    if a == [] {
      assert a + b == b;
    } else {
      assert (a + b)[0] == a[0] && (a + b)[1..] == a[1..] + b;
      SizeConcat(a[1..], b);
    }
  }

  lemma SizeRemoveAt(s: seq<Entry>, k: nat)
    requires k < |s|
    ensures Size(RemoveAt(s, k)) == Size(s) - |s[k].bytes|
  {
    SizeConcat(s[..k], s[k + 1..]);
    SizeConcat(s[..k], s[k..]);
    assert s == s[..k] + s[k..];
    assert s[k..][1..] == s[k + 1..];
  }

  lemma SizeUpdate(s: seq<Entry>, k: nat, e: Entry)
    requires k < |s| && |e.bytes| == |s[k].bytes|
    ensures Size(s[k := e]) == Size(s)
  {
    SizeConcat(s[..k], s[k..]);
    SizeConcat(s[..k], [e] + s[k + 1..]);
    assert s == s[..k] + s[k..] && s[k := e] == s[..k] + ([e] + s[k + 1..]);
    assert s[k..][1..] == s[k + 1..] && ([e] + s[k + 1..])[1..] == s[k + 1..];
  }

  lemma {:induction false} SizeWithout(s: seq<Entry>, q: Query)
    ensures Size(Without(s, q)) <= Size(s)
    decreases |s|
  {
    if s != [] {
      SizeWithout(s[1..], q);
      SizeConcat(if q.Matches(s[0]) then [] else [s[0]], Without(s[1..], q));
    }
  }
}
