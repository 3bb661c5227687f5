/**
 * components/mqtt/lib/mqtt_outbox.c: a singly linked tail queue (BSD STAILQ) of messages and
 * a running total of their sizes, both changed in place.
 */
module Outboxes {
  import opened Bytes
  import opened OutboxModel
  import opened Connections

  class Item {
    const buffer: array<byte>
    const id: nat
    const kind: nat
    const qos: nat
    var tick: int
    var pending: Pending
    var next: Item?
    ghost const serial: nat

    constructor (buffer: array<byte>, id: nat, kind: nat, qos: nat, tick: int, ghost serial: nat)
      ensures this.buffer == buffer && this.id == id && this.kind == kind && this.qos == qos
      ensures this.tick == tick && pending == Queued && next == null && this.serial == serial
    {
      this.buffer, this.id, this.kind, this.qos, this.tick := buffer, id, kind, qos, tick;
      pending, next := Queued, null;
      this.serial := serial;
    }

    /** The test of a search loop. */
    predicate Is(q: Query)
      reads this
    {
      match q
      case ById(id) => this.id == id
      case ByPending(p) => pending == p
      case ByIdAndKind(id, kind) => this.id == id && this.kind % 256 == kind
      case Expired(now, timeout) => now - tick > timeout
    }

    lemma IsMatches(q: Query)
      ensures Is(q) <==> q.Matches(Value())
    {
    }

    ghost function Value(): Entry
      reads `tick, `pending, buffer
    {
      Entry(buffer[..], id, kind, qos, tick, pending, serial)
    }
  }

  class Outbox {
    var size: int
    var first: Item?              // stqh_first
    var last: Item?               // the item whose `next` field stqh_last points to, if any
    ghost var items: seq<Item>    // the list, in order
    ghost var nodes: set<Item>    // every item the list ever held
    ghost var blocks: set<array<byte>>    // and every message block
    ghost var serials: nat        // how many messages were ever enqueued

    /** The links, the tail pointer and the total describe the same sequence of items. */
    ghost predicate Valid()
      reads this, items
    {
      && Linked(items, first, last)
      && size == Lengths(items)
      && Numbered(items, serials)
      && Owned(items, nodes, blocks)
    }

    /** The outbox has allocated the items and their blocks. */
    static ghost predicate Owned(items: seq<Item>, nodes: set<Item>, blocks: set<array<byte>>) {
      forall i :: 0 <= i < |items| ==> items[i] in nodes && items[i].buffer in blocks
    }

    /** The list is in the order of enqueueing; in particular no item occurs twice. */
    static ghost predicate Numbered(items: seq<Item>, serials: nat) {
      && (forall i, j :: 0 <= i < j < |items| ==> items[i].serial < items[j].serial)
      && (forall i :: 0 <= i < |items| ==> items[i].serial < serials)
    }

    static lemma SameItem(items: seq<Item>, j: nat, k: nat)
      requires j < |items| && k < |items| && items[j] == items[k]
      requires forall i, j :: 0 <= i < j < |items| ==> items[i].serial < items[j].serial
      ensures j == k
    {
    }

    /** No two messages share a block. */
    static ghost predicate Separate(items: seq<Item>) {
      forall i, j :: 0 <= i < j < |items| ==> items[i].buffer != items[j].buffer
    }

    static lemma RemoveKeeps(items: seq<Item>, k: nat, serials: nat)
      requires k < |items| && Numbered(items, serials)
      ensures var left := items[..k] + items[k + 1..];
        Numbered(left, serials) && (Separate(items) ==> Separate(left))
    {
      var left := items[..k] + items[k + 1..];
      forall i | 0 <= i < |left| ensures left[i] == items[if i < k then i else i + 1] {}
    }

    static lemma AppendKeeps(items: seq<Item>, item: Item, serials: nat)
      requires Numbered(items, serials) && Separate(items)
      requires item !in items && item.serial == serials && forall x :: x in items ==> x.buffer != item.buffer
      ensures var all := items + [item]; Numbered(all, serials + 1) && Separate(all)
    {
      var all := items + [item];
      forall i | 0 <= i < |items| ensures all[i] == items[i] && items[i] in items {}
    }

    /** Following `next` from `first` visits exactly these items and ends at `last`. */
    static ghost predicate Linked(items: seq<Item>, first: Item?, last: Item?)
      reads items
    {
      if items == [] then first == null && last == null
      else
        && first == items[0] && last == items[|items| - 1] && last.next == null
        && forall i :: 0 <= i < |items| - 1 ==> items[i].next == items[i + 1]
    }

    static ghost function Lengths(items: seq<Item>): nat {
      if items == [] then 0 else items[0].buffer.Length + Lengths(items[1..])
    }

    ghost function Buffers(): set<array<byte>>
      reads `items
    {
      set x | x in items :: x.buffer
    }

    ghost predicate Apart()
      reads `items
    {
      Separate(items)
    }

    /** The outbox as a sequence of entries. */
    ghost function View(): seq<Entry>
      reads `items, items, Buffers()
    {
      Values(items)
    }

    /** The outbox is sound and holds these entries, after this many were ever enqueued. */
    ghost predicate Holds(entries: seq<Entry>, enqueued: nat)
      reads this, nodes, blocks
    {
      && (forall i :: 0 <= i < |items| ==> items[i] in nodes && items[i].buffer in blocks)
      && Valid() && Apart() && View() == entries && serials == enqueued
    }

    static ghost function Values(items: seq<Item>): (s: seq<Entry>)
      reads items, set x | x in items :: x.buffer
      ensures |s| == |items|
      ensures forall i :: 0 <= i < |items| ==> s[i] == items[i].Value()
    {
      seq(|items|, i requires 0 <= i < |items| reads items, set x | x in items :: x.buffer => items[i].Value())
    }

    constructor ()
      ensures Valid() && Apart() && items == [] && View() == [] && serials == 0 && nodes == {} && blocks == {}
    {
      size, first, last, items, serials, nodes, blocks := 0, null, null, [], 0, {}, {};
    }

    /** `outbox_enqueue`: the message and what of its payload did not fit the output buffer. */
    method Enqueue(data: array<byte>, start: nat, len: nat, remaining: seq<byte>, id: nat, kind: nat, qos: nat,
                   tick: int)
      returns (item: Item)
      requires Valid() && Apart() && start + len <= data.Length
      modifies this, nodes`next
      ensures Valid() && Apart() && fresh(item) && fresh(item.buffer) && items == old(items) + [item]
      ensures nodes == old(nodes) + {item} && blocks == old(blocks) + {item.buffer}
      ensures serials == old(serials) + 1
      ensures View() == old(View())
                + [Entry(old(data[start..start + len]) + remaining, id, kind, qos, tick, Queued, old(serials))]
    {
      var buffer := NewBlock(data, start, len, remaining);
      item := new Item(buffer, id, kind, qos, tick, serials);
      AppendView(item);
    }

    /** The message's own copy of the bytes. */
    static method NewBlock(data: array<byte>, start: nat, len: nat, remaining: seq<byte>) returns (buffer: array<byte>)
      requires start + len <= data.Length
      ensures fresh(buffer) && buffer[..] == data[start..start + len] + remaining
    {
      buffer := new byte[len + |remaining|](_ => 0);
      CopyIn(buffer, 0, data[start..start + len]);
      CopyIn(buffer, len, remaining);
      assert buffer[..] == data[start..start + len] + remaining;
    }

    method AppendView(item: Item)
      requires Valid() && Apart() && item !in items && item.next == null && item.serial == serials
      requires forall x :: x in items ==> x.buffer != item.buffer
      modifies this, nodes`next, item`next
      ensures Valid() && Apart() && items == old(items) + [item] && nodes == old(nodes) + {item}
      ensures blocks == old(blocks) + {item.buffer} && serials == old(serials) + 1
      ensures View() == old(View()) + [old(item.Value())]
    {
      ghost var was := items;
      Append(item);
      ValuesKept(was);
      ValuesAppend(was, item);
    }

    /** The list and the total with a new item. */
    method Append(item: Item)
      requires Valid() && Apart() && item !in items && item.next == null && item.serial == serials
      requires forall x :: x in items ==> x.buffer != item.buffer
      modifies this, nodes`next, item`next
      ensures Valid() && Apart() && items == old(items) + [item] && nodes == old(nodes) + {item}
      ensures blocks == old(blocks) + {item.buffer} && serials == old(serials) + 1
    {
      AppendKeeps(items, item, serials);
      LengthsAppend(items, item);
      InsertTail(item);
      size := size + item.buffer.Length;
      serials := serials + 1;
      nodes, blocks := nodes + {item}, blocks + {item.buffer};
    }

    /** STAILQ_INSERT_TAIL. */
    method InsertTail(item: Item)
      requires Valid() && item !in items && item.next == null
      modifies this`first, this`last, this`items, nodes`next, item`next
      ensures items == old(items) + [item] && Linked(items, first, last)
    {
      item.next := null;
      if last == null { first := item; } else { last.next := item; }
      last := item;
      items := items + [item];
    }

    /** Links do not matter to the entries. */
    static twostate lemma {:induction false} ValuesKept(items: seq<Item>)
      requires forall x :: x in items ==>
                x.tick == old(x.tick) && x.pending == old(x.pending) && x.buffer[..] == old(x.buffer[..])
      ensures Values(items) == old(Values(items))
    {
      forall i | 0 <= i < |items| ensures items[i].Value() == old(items[i].Value()) {
        assert items[i] in items;
      }
    }

    static lemma ValuesAppend(items: seq<Item>, item: Item)
      ensures Values(items + [item]) == Values(items) + [item.Value()]
    {
    }

    static lemma {:induction false} LengthsAppend(items: seq<Item>, item: Item)
      ensures Lengths(items + [item]) == Lengths(items) + item.buffer.Length
    {
      if items == [] {
        assert [item][1..] == [];
      } else {
        assert (items + [item])[1..] == items[1..] + [item];
        LengthsAppend(items[1..], item);
      }
    }

    /** The search loop of every look-up and of every delete. */
    method Seek(q: Query) returns (item: Item?, ghost k: nat)
      requires Valid()
      ensures k == First(View(), q)
      ensures item == if k < |items| then items[k] else null
    {
      item, k := first, 0;
      while item != null && !item.Is(q)
        invariant 0 <= k <= |items| && item == if k < |items| then items[k] else null
        invariant forall j :: 0 <= j < k ==> !q.Matches(View()[j])
        decreases |items| - k
      {
        item.IsMatches(q);
        assert k + 1 < |items| ==> items[k].next == items[k + 1];
        item := item.next;
        k := k + 1;
      }
      if item != null { item.IsMatches(q); }
      FirstIs(View(), q, k);
    }

    /** STAILQ_REMOVE_HEAD. */
    method RemoveHead()
      requires Valid() && items != []
      modifies this`first, this`last
      ensures Linked(items[1..], first, last)
    {
      first := first.next;
      if first == null { last := null; }
    }

    /** STAILQ_REMOVE_AFTER. */
    method RemoveAfter(cur: Item, ghost k: nat)
      requires Valid() && 1 <= k < |items| && cur == items[k - 1]
      modifies this`last, cur`next
      ensures Linked(items[..k] + items[k + 1..], first, last)
    {
      ghost var left := items[..k] + items[k + 1..];
      assert items[k - 1].next == items[k];
      assert k + 1 < |items| ==> items[k].next == items[k + 1];
      assert left[|left| - 1] == items[if k == |items| - 1 then k - 1 else |items| - 1];
      assert left[0] == items[0];
      cur.next := cur.next.next;
      if cur.next == null { last := cur; }
      forall i | 0 <= i < |left| - 1 ensures left[i].next == left[i + 1] {
        assert left[i] == items[if i < k then i else i + 1];
      }
    }

    /** STAILQ_REMOVE of the k-th item: unlink it and repair the tail pointer. */
    method Relink(item: Item, ghost k: nat)
      requires Valid() && k < |items| && item == items[k]
      modifies this`first, this`last, nodes`next
      ensures Linked(items[..k] + items[k + 1..], first, last)
    {
      if first == item {
        assert k == 0;
        assert items[..0] + items[1..] == items[1..];
        RemoveHead();
        return;
      }
      var cur := first;
      ghost var i := 0;
      while cur.next != item
        invariant 0 <= i < k && cur == items[i]
        decreases k - i
      {
        assert cur.next == items[i + 1];
        cur := cur.next;
        i := i + 1;
      }
      assert cur.next == items[i + 1];
      RemoveAfter(cur, k);
    }

    /** What is left without the k-th item. */
    static lemma Removed(items: seq<Item>, k: nat, serials: nat, nodes: set<Item>, blocks: set<array<byte>>)
      returns (left: seq<Item>)
      requires k < |items| && Numbered(items, serials) && Owned(items, nodes, blocks)
      ensures left == items[..k] + items[k + 1..] && |left| == |items| - 1
      ensures Numbered(left, serials) && Owned(left, nodes, blocks) && (Separate(items) ==> Separate(left))
      ensures Lengths(left) == Lengths(items) - items[k].buffer.Length
    {
      left := items[..k] + items[k + 1..];
      RemoveKeeps(items, k, serials);
      LengthsRemove(items, k);
    }

    method Unlink(item: Item, ghost k: nat)
      requires Valid() && k < |items| && item == items[k]
      modifies this`first, this`last, this`items, this`size, nodes`next
      ensures Valid() && items == old(items)[..k] + old(items)[k + 1..]
      ensures old(Apart()) ==> Apart()
      ensures |items| == |old(items)| - 1
    {
      ghost var left := Removed(items, k, serials, nodes, blocks);
      Relink(item, k);
      Shrink(left, item.buffer.Length);
    }

    /** The links are already those of the items that are left. */
    method Shrink(ghost left: seq<Item>, n: nat)
      requires Linked(left, first, last) && Numbered(left, serials) && Owned(left, nodes, blocks)
      requires size - n == Lengths(left)
      modifies this`items, this`size
      ensures Valid() && items == left
    {
      items := left;
      size := size - n;
    }

    /** Deleting one item, seen from outside. */
    method DeleteAt(item: Item, ghost k: nat)
      requires Valid() && k < |items| && item == items[k]
      modifies this`first, this`last, this`items, this`size, nodes`next
      ensures Valid() && items == old(items)[..k] + old(items)[k + 1..]
      ensures old(Apart()) ==> Apart()
      ensures View() == RemoveAt(old(View()), k)
      ensures |items| == |old(items)| - 1
    {
      ghost var was := items;
      Unlink(item, k);
      ValuesKept(was);
      ValuesRemove(was, k);
    }

    static lemma ValuesRemove(items: seq<Item>, k: nat)
      requires k < |items|
      ensures Values(items[..k] + items[k + 1..]) == RemoveAt(Values(items), k)
    {
      var left := items[..k] + items[k + 1..];
      forall i | 0 <= i < |left| ensures Values(left)[i] == RemoveAt(Values(items), k)[i] {
        assert left[i] == items[if i < k then i else i + 1];
      }
    }

    static lemma {:induction false} LengthsRemove(items: seq<Item>, k: nat)
      requires k < |items|
      ensures Lengths(items[..k] + items[k + 1..]) == Lengths(items) - items[k].buffer.Length
      decreases k
    {
      if k == 0 {
        assert items[..0] + items[1..] == items[1..];
      } else {
        assert (items[..k] + items[k + 1..])[1..] == items[1..][..k - 1] + items[1..][k..];
        LengthsRemove(items[1..], k - 1);
      }
    }

    /** `outbox_get_size`: the running total is the sum of the stored lengths. */
    lemma SizeIsSum()
      requires Valid()
      ensures size == Size(View())
    {
      SumOfLengths(items);
    }

    static lemma {:induction false} SumOfLengths(items: seq<Item>)
      ensures Lengths(items) == Size(Values(items))
    {
      if items != [] {
        SumOfLengths(items[1..]);
        assert Values(items) == [items[0].Value()] + Values(items[1..]);
        assert ([items[0].Value()] + Values(items[1..]))[1..] == Values(items[1..]);
      }
    }

    // ----- the public operations -----

    method Get(id: nat) returns (item: Item?, ghost k: nat)
      requires Valid()
      ensures k == First(View(), ById(id)) && item == if k < |items| then items[k] else null
    {
      item, k := Seek(ById(id));
    }

    /** `outbox_dequeue` only looks: the first item in the given state, and its tick. */
    method Dequeue(pending: Pending) returns (item: Item?, tick: int, ghost k: nat)
      requires Valid()
      ensures k == First(View(), ByPending(pending))
      ensures item == (if k < |items| then items[k] else null) && (item != null ==> tick == View()[k].tick)
    {
      item, k := Seek(ByPending(pending));
      tick := if item != null then item.tick else 0;
    }

    /** `outbox_delete_item`: by identity. */
    method DeleteItem(target: Item) returns (ok: bool, ghost k: nat)
      requires Valid()
      modifies this`first, this`last, this`items, this`size, nodes`next
      ensures Valid() && (old(Apart()) ==> Apart()) && serials == old(serials)
      ensures ok <==> target in old(items)
      ensures ok ==> k < |old(items)| && old(items)[k] == target && View() == RemoveAt(old(View()), k)
      ensures !ok ==> View() == old(View())
    {
      var item := first;
      k := 0;
      while item != null && item != target
        invariant 0 <= k <= |items| && item == if k < |items| then items[k] else null
        invariant target !in items[..k]
        decreases |items| - k
      {
        assert k + 1 < |items| ==> items[k].next == items[k + 1];
        assert items[..k + 1] == items[..k] + [items[k]];
        item := item.next;
        k := k + 1;
      }
      ok := item != null;
      if ok { DeleteAt(item, k); } else { assert items[..k] == items; }
    }

    /** Delete the first item that passes the test. */
    method DeleteFirst(q: Query) returns (item: Item?, ghost k: nat)
      requires Valid()
      modifies this`first, this`last, this`items, this`size, nodes`next
      ensures Valid() && (old(Apart()) ==> Apart()) && serials == old(serials)
      ensures k == First(old(View()), q) && item == if k < |old(items)| then old(items)[k] else null
      ensures View() == RemoveFirst(old(View()), q)
      ensures |items| == |old(items)| - (if item != null then 1 else 0)
    {
      item, k := Seek(q);
      if item != null { DeleteAt(item, k); }
    }

    /** `outbox_delete`. */
    method Delete(id: nat, kind: nat) returns (ok: bool)
      requires Valid()
      modifies this`first, this`last, this`items, this`size, nodes`next
      ensures Valid() && (old(Apart()) ==> Apart()) && serials == old(serials)
      ensures ok <==> First(old(View()), ByIdAndKind(id, kind)) < |old(View())|
      ensures View() == RemoveFirst(old(View()), ByIdAndKind(id, kind))
    {
      var item, k := DeleteFirst(ByIdAndKind(id, kind));
      ok := item != null;
    }

    method SetPending(id: nat, state: Pending) returns (ok: bool)
      requires Valid()
      modifies nodes`pending
      ensures Valid() && items == old(items)
      ensures ok <==> First(old(View()), ById(id)) < |old(View())|
      ensures View() == WithPending(old(View()), id, state)
    {
      var item, k := Get(id);
      ok := item != null;
      if ok { MarkPending(item, k, state); }
    }

    method MarkPending(item: Item, ghost k: nat, state: Pending)
      requires Valid() && k < |items| && item == items[k]
      modifies item`pending
      ensures Valid() && View() == old(View())[k := old(View())[k].InState(state)]
    {
      ghost var before := View();
      item.pending := state;
      OneChanged(before, View(), k);
    }

    method SetTick(id: nat, tick: int) returns (ok: bool)
      requires Valid()
      modifies nodes`tick
      ensures Valid() && items == old(items)
      ensures ok <==> First(old(View()), ById(id)) < |old(View())|
      ensures View() == WithTick(old(View()), id, tick)
    {
      var item, k := Get(id);
      ok := item != null;
      if ok { MarkTick(item, k, tick); }
    }

    method MarkTick(item: Item, ghost k: nat, tick: int)
      requires Valid() && k < |items| && item == items[k]
      modifies item`tick
      ensures Valid() && View() == old(View())[k := old(View())[k].At(tick)]
    {
      ghost var before := View();
      item.tick := tick;
      OneChanged(before, View(), k);
    }

    /** `mqtt_set_dup` on a stored message. */
    method MarkDup(item: Item, ghost k: nat)
      requires Valid() && Apart() && k < |items| && item == items[k] && item.buffer.Length > 0
      modifies item.buffer
      ensures Valid() && View() == old(View())[k := old(View())[k].WithDup()]
    {
      ghost var before := View();
      item.buffer[0] := Packet.SetDup(item.buffer[0]);
      assert item.buffer[..] == before[k].bytes[0 := Packet.SetDup(before[k].bytes[0])];
      OneChanged(before, View(), k);
    }

    /** `outbox_delete_single_expired`: the identifier of what was deleted, or -1. */
    method DeleteSingleExpired(now: int, timeout: int) returns (id: int)
      requires Valid()
      modifies this`first, this`last, this`items, this`size, nodes`next
      ensures Valid() && (old(Apart()) ==> Apart()) && serials == old(serials)
      ensures var k := First(old(View()), Expired(now, timeout));
        id == (if k < |old(View())| then old(View())[k].id else -1)
        && |items| == |old(items)| - (if k < |old(View())| then 1 else 0)
      ensures View() == RemoveFirst(old(View()), Expired(now, timeout))
    {
      var item, k := DeleteFirst(Expired(now, timeout));
      id := if item != null then item.id else -1;
    }

    /** One turn of the reporting loop. */
    method ReportOne(now: int, timeout: int, reported: seq<int>, ghost was: seq<Entry>)
      returns (id: int, reported': seq<int>)
      requires Valid() && Apart() && InTurn(was, View(), Expired(now, timeout), reported)
      modifies this`first, this`last, this`items, this`size, nodes`next
      ensures Valid() && Apart() && serials == old(serials)
      ensures id >= 0 ==> |items| < |old(items)| && InTurn(was, View(), Expired(now, timeout), reported')
      ensures id < 0 ==>
                && View() == Without(was, Expired(now, timeout))
                && reported' == Ids(Matched(was, Expired(now, timeout)))
    {
      InTurnStep(was, View(), Expired(now, timeout), reported);
      StrategiesAgree(was, Expired(now, timeout));
      id := DeleteSingleExpired(now, timeout);
      reported' := if id >= 0 then reported + [id] else reported;
    }

    /** The reporting form of `mqtt_delete_expired_messages`: one at a time until there is none. */
    method DeleteExpiredReporting(now: int, timeout: int) returns (reported: seq<int>)
      requires Valid() && Apart()
      modifies this`first, this`last, this`items, this`size, nodes`next
      ensures Valid() && Apart() && serials == old(serials)
      ensures View() == Without(old(View()), Expired(now, timeout))
      ensures reported == Ids(Matched(old(View()), Expired(now, timeout)))
    {
      ghost var was := View();
      reported := [];
      InTurnStart(was, Expired(now, timeout));
      var id := 0;
      while id >= 0
        invariant Valid() && Apart() && serials == old(serials)
        invariant id >= 0 ==> InTurn(was, View(), Expired(now, timeout), reported)
        invariant id < 0 ==>
                    && View() == Without(was, Expired(now, timeout))
                    && reported == Ids(Matched(was, Expired(now, timeout)))
        decreases id >= 0, |items|
      {
        id, reported := ReportOne(now, timeout, reported, was);
      }
    }

    /** Deletes an item in the middle of a walk and hands over to its successor. */
    method DeleteHere(item: Item, ghost k: nat) returns (next: Item?)
      requires Valid() && Apart() && k < |items| && item == items[k]
      modifies this`first, this`last, this`items, this`size, nodes`next
      ensures Valid() && Apart() && |items| == |old(items)| - 1 && View() == RemoveAt(old(View()), k)
      ensures next == if k < |items| then items[k] else null
    {
      NextOf(k);
      next := item.next;
      DeleteAt(item, k);
    }

    /** One turn of the single-pass loop. */
    method SweepOne(item: Item, now: int, timeout: int, ghost k: nat, deleted: nat, ghost was: seq<Entry>)
      returns (next: Item?, ghost k': nat, deleted': nat)
      requires Valid() && Apart() && k < |items| && item == items[k]
      requires Swept(was, View(), Expired(now, timeout), k, deleted)
      modifies this`first, this`last, this`items, this`size, nodes`next
      ensures Valid() && Apart()
      ensures k' <= |items| && |items| - k' < |old(items)| - k
      ensures next == if k' < |items| then items[k'] else null
      ensures Swept(was, View(), Expired(now, timeout), k', deleted')
    {
      NextOf(k);
      SweepStep(was, View(), Expired(now, timeout), k, deleted);
      if now - item.tick > timeout {
        next := DeleteHere(item, k);
        k', deleted' := k, deleted + 1;
      } else {
        next, k', deleted' := item.next, k + 1, deleted;
      }
    }

    lemma NextOf(k: nat)
      requires Valid() && k < |items|
      ensures items[k].next == if k + 1 < |items| then items[k + 1] else null
      ensures forall now, timeout :: Expired(now, timeout).Matches(View()[k]) <==> now - items[k].tick > timeout
    {
    }

    /** `outbox_delete_expired`: one pass, deleting while it walks. */
    method DeleteExpired(now: int, timeout: int) returns (deleted: nat)
      requires Valid() && Apart()
      modifies this`first, this`last, this`items, this`size, nodes`next
      ensures Valid() && Apart() && serials == old(serials)
      ensures View() == Without(old(View()), Expired(now, timeout))
      ensures deleted == |Matched(old(View()), Expired(now, timeout))|
    {
      ghost var was := View();
      deleted := 0;
      var item := first;
      ghost var k := 0;
      while item != null
        invariant Valid() && Apart() && serials == old(serials)
        invariant 0 <= k <= |items| && item == if k < |items| then items[k] else null
        invariant Swept(was, View(), Expired(now, timeout), k, deleted)
        decreases |items| - k
      {
        item, k, deleted := SweepOne(item, now, timeout, k, deleted, was);
      }
      SweepEnd(was, View(), Expired(now, timeout), deleted);
    }

    /** `outbox_delete_all_items`. */
    method DeleteAllItems()
      requires Valid()
      modifies this`first, this`last, this`items, this`size, nodes`next
      ensures Valid() && items == [] && View() == [] && size == 0
    {
      var item := first;
      while item != null
        invariant Valid() && item == first
        decreases |items|
      {
        var tmp := item.next;
        Unlink(item, 0);
        item := tmp;
      }
    }

  }

  /** At most the k-th entry is different. */
  lemma OneChanged(before: seq<Entry>, after: seq<Entry>, k: nat)
    requires |before| == |after| && forall i :: 0 <= i < |before| && i != k ==> before[i] == after[i]
    ensures after == if k < |before| then before[k := after[k]] else before
  {
  }

  /** Removing matches one at a time from `was` has led to `now` and reported these. */
  ghost predicate InTurn(was: seq<Entry>, now: seq<Entry>, q: Query, reported: seq<int>) {
    && RemoveAll(now, q) == RemoveAll(was, q)
    && reported + Ids(RemovedInTurn(now, q)) == Ids(RemovedInTurn(was, q))
    && (First(now, q) == |now| ==> now == RemoveAll(was, q) && reported == Ids(RemovedInTurn(was, q)))
  }

  lemma InTurnStep(was: seq<Entry>, now: seq<Entry>, q: Query, reported: seq<int>)
    requires InTurn(was, now, q, reported)
    ensures First(now, q) < |now| ==> InTurn(was, RemoveFirst(now, q), q, reported + [now[First(now, q)].id])
    ensures First(now, q) == |now| ==> RemoveFirst(now, q) == now
  {
    var k := First(now, q);
    if k < |now| {
      var next := RemoveFirst(now, q);
      assert RemovedInTurn(now, q) == [now[k]] + RemovedInTurn(next, q);
      assert Ids(RemovedInTurn(now, q)) == [now[k].id] + Ids(RemovedInTurn(next, q));
      Assoc(reported, [now[k].id as int], Ids(RemovedInTurn(next, q)));
      if First(next, q) == |next| {
        assert RemovedInTurn(next, q) == [];
        assert reported + [now[k].id] + [] == reported + [now[k].id];
      }
    }
  }

  lemma InTurnStart(was: seq<Entry>, q: Query)
    ensures InTurn(was, was, q, [])
  {
    assert [] + Ids(RemovedInTurn(was, q)) == Ids(RemovedInTurn(was, q));
  }

  /** The first `k` entries left are to stay, and `deleted` of the rest are gone. */
  ghost predicate Swept(was: seq<Entry>, now: seq<Entry>, q: Query, k: nat, deleted: nat) {
    && k <= |now| && (forall j :: 0 <= j < k ==> !q.Matches(now[j]))
    && Without(now, q) == Without(was, q)
    && deleted + |Matched(now, q)| == |Matched(was, q)|
  }

  lemma SweepStep(was: seq<Entry>, now: seq<Entry>, q: Query, k: nat, deleted: nat)
    requires Swept(was, now, q, k, deleted) && k < |now|
    ensures if q.Matches(now[k]) then Swept(was, RemoveAt(now, k), q, k, deleted + 1)
              else Swept(was, now, q, k + 1, deleted)
  {
    if q.Matches(now[k]) {
      FirstIs(now, q, k);
      WithoutRemoveFirst(now, q);
    }
  }

  lemma SweepEnd(was: seq<Entry>, now: seq<Entry>, q: Query, deleted: nat)
    requires Swept(was, now, q, |now|, deleted)
    ensures now == Without(was, q) && deleted == |Matched(was, q)|
  {
    WithoutSplit(now, q, |now|);
    assert now[|now|..] == [] && now[..|now|] == now;
  }

  function Ids(s: seq<Entry>): seq<int> {
    if s == [] then [] else [s[0].id] + Ids(s[1..])
  }
}
