/**
 * The table of MQTT 5.0 topic aliases kept by components/mqtt/mqtt5_client.c: a list that is
 * searched from the front, with one topic per alias.
 */
module TopicAliases {
  import opened Bytes

  /** An entry of the list. */
  datatype Binding = Binding(alias: nat, topic: seq<byte>)

  /** A received PUBLISH, as far as the table is concerned; alias 0 means there is none. */
  datatype Arrival = Arrival(alias: nat, topic: seq<byte>)

  /** `strncmp(a, b, n) == 0` for two blocks of n bytes: equal up to the first NUL. */
  predicate SameCString(a: seq<byte>, b: seq<byte>)
    requires |a| == |b|
  {
    a == [] || (a[0] == b[0] && (a[0] == 0 || SameCString(a[1..], b[1..])))
  }

  /** What the alias stands for after `topic` arrives with it. */
  function Rebound(old': Option<seq<byte>>, topic: seq<byte>): seq<byte> {
    if old'.Some? && |old'.value| == |topic| && SameCString(topic, old'.value) then old'.value else topic
  }

  /** The comparison is right for topics without NUL, which section 4.7.3 of MQTT 5.0 demands. */
  lemma {:induction false} SameWithoutNul(a: seq<byte>, b: seq<byte>)
    requires |a| == |b| && 0 !in a
    ensures SameCString(a, b) <==> a == b
    decreases |a|
  {
    if a != [] {
      SameWithoutNul(a[1..], b[1..]);
      assert a == [a[0]] + a[1..] && b == [b[0]] + b[1..];
    }
  }

  /** Two blocks of the same length agree up to and including a NUL. */
  ghost predicate AgreeUpToNul(a: seq<byte>, b: seq<byte>)
    requires |a| == |b|
  {
    exists i :: 0 <= i < |a| && a[i] == 0 && a[..i + 1] == b[..i + 1]
  }

  /** What the comparison takes for the same. */
  lemma {:induction false} SameExactly(a: seq<byte>, b: seq<byte>)
    requires |a| == |b|
    ensures SameCString(a, b) <==> a == b || AgreeUpToNul(a, b)
    decreases |a|
  {
    if a != [] {
      var a', b' := a[1..], b[1..];
      SameExactly(a', b');
      assert a == [a[0]] + a' && b == [b[0]] + b';
      if a[0] == b[0] == 0 { assert a[..0 + 1] == b[..0 + 1]; }
      if a[0] == b[0] && AgreeUpToNul(a', b') {
        var i :| 0 <= i < |a'| && a'[i] == 0 && a'[..i + 1] == b'[..i + 1];
        assert a[i + 1] == 0 && a[..i + 1 + 1] == [a[0]] + a'[..i + 1] == b[..i + 1 + 1];
      }
      if AgreeUpToNul(a, b) { AgreeFromFirst(a, b); }
    }
  }

  lemma AgreeFromFirst(a: seq<byte>, b: seq<byte>)
    requires |a| == |b| > 0 && AgreeUpToNul(a, b)
    ensures a[0] == b[0] && (a[0] == 0 || AgreeUpToNul(a[1..], b[1..]))
  {
    var i :| 0 <= i < |a| && a[i] == 0 && a[..i + 1] == b[..i + 1];
    assert a[0] == a[..i + 1][0] == b[0];
    if i > 0 {
      assert a[1..][i - 1] == 0 && a[1..][..i - 1 + 1] == a[..i + 1][1..] == b[1..][..i - 1 + 1];
    }
  }

  /** The arriving topic is lost exactly if the old one has the same length and the two differ,
      but only behind a NUL. */
  lemma ReboundExactly(old': Option<seq<byte>>, topic: seq<byte>)
    ensures Rebound(old', topic) != topic <==>
            old'.Some? && |old'.value| == |topic| && old'.value != topic && AgreeUpToNul(topic, old'.value)
    ensures 0 !in topic ==> Rebound(old', topic) == topic
  {
    if old'.Some? && |old'.value| == |topic| {
      SameExactly(topic, old'.value);
      if 0 !in topic { SameWithoutNul(topic, old'.value); }
    }
  }

  /** With a NUL in it, a new topic can be lost. */
  lemma NulLosesTopic()
    ensures Rebound(Some([97, 0, 98]), [97, 0, 99]) == [97, 0, 98]
  {
    assert SameCString([0, 99], [0, 98]);
    assert [97, 0, 99][1..] == [0, 99] && [97, 0, 98][1..] == [0, 98];
  }

  // ----- the table as a map -----

  function Lookup(items: seq<Binding>, alias: nat): Option<seq<byte>> {
    if items == [] then None else if items[0].alias == alias then Some(items[0].topic) else Lookup(items[1..], alias)
  }

  ghost predicate Distinct(items: seq<Binding>) {
    forall i, j :: 0 <= i < j < |items| ==> items[i].alias != items[j].alias
  }

  lemma {:induction false} LookupIs(items: seq<Binding>, alias: nat, k: nat)
    requires k <= |items| && (forall j :: 0 <= j < k ==> items[j].alias != alias)
    requires k < |items| ==> items[k].alias == alias
    ensures Lookup(items, alias) == if k < |items| then Some(items[k].topic) else None
    decreases |items|
  {
    if k > 0 {
      forall j | 0 <= j < k - 1 ensures items[1..][j].alias != alias { assert items[1..][j] == items[j + 1]; }
      LookupIs(items[1..], alias, k - 1);
    }
  }

  /** Where the search stops, and what is found there. */
  lemma {:induction false} Position(items: seq<Binding>, alias: nat) returns (k: nat)
    ensures k <= |items| && (forall j :: 0 <= j < k ==> items[j].alias != alias)
    ensures k < |items| ==> items[k].alias == alias
    ensures Lookup(items, alias) == if k < |items| then Some(items[k].topic) else None
    decreases |items|
  {
    if items == [] {
      k := 0;
    } else if items[0].alias == alias {
      k := 0;
    } else {
      var k' := Position(items[1..], alias);
      k := k' + 1;
      forall j | 0 <= j < k ensures items[j].alias != alias { if j > 0 { assert items[j] == items[1..][j - 1]; } }
    }
  }

  /** Changing the topic of one entry changes exactly one alias. */
  lemma LookupUpdated(items: seq<Binding>, k: nat, topic: seq<byte>, alias: nat)
    requires k < |items| && Distinct(items)
    ensures Lookup(items[k := Binding(items[k].alias, topic)], alias) ==
            if alias == items[k].alias then Some(topic) else Lookup(items, alias)
  {
    var now := items[k := Binding(items[k].alias, topic)];
    var i := Position(items, alias);
    LookupIs(now, alias, i);
    if alias == items[k].alias { assert i == k; }
  }

  lemma LookupAppended(items: seq<Binding>, b: Binding, alias: nat)
    requires Lookup(items, b.alias) == None
    ensures Lookup(items + [b], alias) == if alias == b.alias then Some(b.topic) else Lookup(items, alias)
  {
    var i := Position(items, alias);
    LookupIs(items + [b], alias, if i == |items| && alias != b.alias then i + 1 else i);
  }

  // ----- pigeonhole -----

  function Aliases(items: seq<Binding>): set<nat> {
    set k | 0 <= k < |items| :: items[k].alias
  }

  function UpTo(max: nat): (s: set<nat>)
    ensures forall k: nat :: k in s <==> 1 <= k <= max
    ensures |s| == max
  {
    if max == 0 then {} else UpTo(max - 1) + {max}
  }

  lemma {:induction false} AliasesSize(items: seq<Binding>)
    requires Distinct(items)
    ensures |Aliases(items)| == |items|
    decreases |items|
  {
    if items != [] {
      var n := |items| - 1;
      AliasesSize(items[..n]);
      assert Aliases(items) == Aliases(items[..n]) + {items[n].alias} by {
        forall a | a in Aliases(items) ensures a in Aliases(items[..n]) + {items[n].alias} {
          var k :| 0 <= k < |items| && items[k].alias == a;
          if k < n { assert items[..n][k].alias == a; }
        }
        forall a | a in Aliases(items[..n]) ensures a in Aliases(items) {
          var k :| 0 <= k < n && items[..n][k].alias == a;
          assert items[k].alias == a;
        }
      }
      assert items[n].alias !in Aliases(items[..n]);
    }
  }

  lemma {:induction false} SubsetSize(a: set<nat>, b: set<nat>)
    requires a <= b
    ensures |a| <= |b|
    decreases |a|
  {
    if a != {} {
      var x :| x in a;
      SubsetSize(a - {x}, b - {x});
    }
  }

  /** Different aliases between 1 and `max`: at most `max` of them. */
  lemma Pigeonhole(items: seq<Binding>, max: nat)
    requires Distinct(items) && forall k :: 0 <= k < |items| ==> 1 <= items[k].alias <= max
    ensures |items| <= max
  {
    AliasesSize(items);
    SubsetSize(Aliases(items), UpTo(max));
  }

  // ----- runs -----

  /** The arrival changes what its alias stands for. */
  predicate Binds(a: Arrival, max: nat) {
    1 <= a.alias <= max && a.topic != []
  }

  /** What an alias stands for after these arrivals, with the program's comparison. */
  function Meaning(history: seq<Arrival>, max: nat, alias: nat): Option<seq<byte>> {
    if history == [] then None
    else
      var last := history[|history| - 1];
      var before := Meaning(history[..|history| - 1], max, alias);
      if Binds(last, max) && last.alias == alias then Some(Rebound(before, last.topic)) else before
  }

  /** The topic of the last arrival that came with the alias and a topic. */
  function LastBound(history: seq<Arrival>, max: nat, alias: nat): Option<seq<byte>> {
    if history == [] then None
    else
      var last := history[|history| - 1];
      if 1 <= last.alias <= max && last.alias == alias && last.topic != [] then Some(last.topic)
        else LastBound(history[..|history| - 1], max, alias)
  }

  /** Over every run with topics without NUL, an alias stands for the topic it was last bound
      to (section 3.3.2.3.4 of MQTT 5.0). */
  lemma {:induction false} MeaningIsLastBound(history: seq<Arrival>, max: nat, alias: nat)
    requires forall k :: 0 <= k < |history| ==> 0 !in history[k].topic
    ensures Meaning(history, max, alias) == LastBound(history, max, alias)
    decreases |history|
  {
    if history != [] {
      var n := |history| - 1;
      MeaningIsLastBound(history[..n], max, alias);
      ReboundExactly(Meaning(history[..n], max, alias), history[n].topic);
    }
  }

  class AliasTable {
    var items: seq<Binding>
    const max: nat                    // topic_alias_maximum of our CONNECT
    ghost var history: seq<Arrival>

    /** One entry per alias, only allowed aliases, and each with its meaning. */
    ghost predicate Valid()
      reads this
    {
      && Distinct(items)
      && (forall k :: 0 <= k < |items| ==> 1 <= items[k].alias <= max)
      && forall alias: nat :: Lookup(items, alias) == Meaning(history, max, alias)
    }

    constructor (max: nat)
      ensures Valid() && items == [] && history == [] && this.max == max
    {
      items, history, this.max := [], [], max;
    }

    /** The list never gets longer than the number of aliases. */
    lemma Bounded()
      requires Valid()
      ensures |items| <= max
    {
      Pigeonhole(items, max);
    }

    /** The search loop. */
    method Find(alias: nat) returns (k: nat)
      requires Valid()
      ensures k <= |items| && (k < |items| ==> items[k].alias == alias)
      ensures Lookup(items, alias) == if k < |items| then Some(items[k].topic) else None
    {
      k := 0;
      while k < |items| && items[k].alias != alias
        invariant 0 <= k <= |items|
        invariant forall j :: 0 <= j < k ==> items[j].alias != alias
      {
        k := k + 1;
      }
      LookupIs(items, alias, k);
    }

    /** `esp_mqtt5_client_get_topic_alias`. */
    method Get(alias: nat) returns (topic: Option<seq<byte>>)
      requires Valid()
      ensures topic == Meaning(history, max, alias)
    {
      var k := Find(alias);
      topic := if k < |items| then Some(items[k].topic) else None;
    }

    /** `esp_mqtt5_client_update_topic_alias`. */
    method Update(alias: nat, topic: seq<byte>)
      requires Valid() && Binds(Arrival(alias, topic), max)
      modifies this
      ensures Valid() && history == old(history) + [Arrival(alias, topic)]
    {
      var k := Find(alias);
      ghost var was := items;
      if k < |items| {
        if |items[k].topic| != |topic| || !SameCString(topic, items[k].topic) {
          items := items[k := Binding(alias, topic)];
        }
      } else {
        items := items + [Binding(alias, topic)];
      }
      AppendHistory(Arrival(alias, topic));
      forall a: nat ensures Lookup(items, a) == Meaning(history, max, a) {
        MeaningAppended(old(history), Arrival(alias, topic), max, a);
        if k < |was| { LookupUpdated(was, k, topic, a); } else { LookupAppended(was, Binding(alias, topic), a); }
      }
      if k == |was| { NoneIsNew(was, alias); }
    }

    ghost method AppendHistory(a: Arrival)
      modifies this`history
      ensures history == old(history) + [a]
    {
      history := history + [a];
    }

    /** The alias handling of `esp_mqtt5_get_publish_data`: the topic to report, or a failure. */
    method Receive(alias: nat, topic: seq<byte>) returns (r: Option<seq<byte>>)
      requires Valid()
      modifies this
      ensures Valid() && history == old(history) + [Arrival(alias, topic)]
      ensures r ==
              if alias > max then None
              else if alias > 0 && topic == [] then Meaning(old(history), max, alias)
              else Some(topic)
    {
      r := Some(topic);
      if alias > max {
        r := None;
      } else if alias > 0 {
        if topic == [] {
          r := Get(alias);
        } else {
          Update(alias, topic);
          return;
        }
      }
      AppendHistory(Arrival(alias, topic));
      forall a: nat ensures Lookup(items, a) == Meaning(history, max, a) {
        MeaningAppended(old(history), Arrival(alias, topic), max, a);
      }
    }
  }

  lemma MeaningAppended(history: seq<Arrival>, last: Arrival, max: nat, alias: nat)
    ensures Meaning(history + [last], max, alias) ==
            if Binds(last, max) && last.alias == alias then Some(Rebound(Meaning(history, max, alias), last.topic))
            else Meaning(history, max, alias)
  {
    assert (history + [last])[..|history|] == history;
  }

  lemma NoneIsNew(items: seq<Binding>, alias: nat)
    requires Lookup(items, alias) == None
    ensures forall k :: 0 <= k < |items| ==> items[k].alias != alias
  {
    var k := Position(items, alias);
  }
}
