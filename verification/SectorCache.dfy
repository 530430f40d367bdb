/** The per-device sector cache of src/io.c: ReadCache and WriteCache. */
module SectorCache {
  import opened Common
  import opened Lru

  /** `time` is the 32-bit access time. */
  datatype Item = Item(tag: nat, time: nat, data: seq<byte>)

  /** Two lists of items that differ in access times only. */
  ghost predicate SameButTimes(a: seq<Item>, b: seq<Item>) {
    |a| == |b| && forall i :: 0 <= i < |a| ==> a[i].tag == b[i].tag && a[i].data == b[i].data
  }

  ghost predicate UniqueTags(items: seq<Item>) {
    forall i, j :: 0 <= i < j < |items| ==> items[i].tag != items[j].tag
  }

  function Tags(items: seq<Item>): set<nat> {
    set i | 0 <= i < |items| :: items[i].tag
  }

  lemma SameTags(a: seq<Item>, b: seq<Item>)
    requires SameButTimes(a, b)
    ensures Tags(a) == Tags(b)
  {
    forall t | t in Tags(a) ensures t in Tags(b) {
      var i :| 0 <= i < |a| && a[i].tag == t;
      assert b[i].tag == t;
    }
    forall t | t in Tags(b) ensures t in Tags(a) {
      var i :| 0 <= i < |b| && b[i].tag == t;
      assert a[i].tag == t;
    }
  }

  /** The slots in order of access, latest first: a permutation with falling times below `time`. */
  ghost predicate ByAge(items: seq<Item>, slots: seq<nat>, time: nat) {
    && |slots| == |items|
    && (forall k :: 0 <= k < |slots| ==> slots[k] < |items| && items[slots[k]].time < time)
    && (forall i :: 0 <= i < |items| ==> i in slots)
    && (forall j, k :: 0 <= j < k < |slots| ==> items[slots[j]].time > items[slots[k]].time)
  }

  function TagsOf(items: seq<Item>, slots: seq<nat>): seq<nat>
    requires forall k :: 0 <= k < |slots| ==> slots[k] < |items|
  {
    seq(|slots|, k requires 0 <= k < |slots| => items[slots[k]].tag)
  }

  /**
   The cache agrees with its history of touches: while the 32-bit clock has not wrapped, the
   items are the last 32 distinct sectors touched, ordered by their times.
   */
  ghost predicate Agrees(items: seq<Item>, slots: seq<nat>, history: seq<nat>) {
    ByAge(items, slots, |history|) && TagsOf(items, slots) == Recent(history)
  }

  lemma AgreementIsUnique(items: seq<Item>, slots: seq<nat>, history: seq<nat>)
    requires Agrees(items, slots, history)
    ensures Tags(items) == set t | t in Recent(history)
  {
    var order := TagsOf(items, slots);
    forall t | t in Tags(items) ensures t in order {
      var i :| 0 <= i < |items| && items[i].tag == t;
      var k := IndexOf(slots, i);
      assert order[k] == t;
    }
  }

  /** A hit: item i gets the current time and becomes the latest. */
  lemma HitAgrees(items: seq<Item>, slots: seq<nat>, history: seq<nat>, i: nat) returns (slots': seq<nat>)
    requires Agrees(items, slots, history) && i < |items| <= 32
    ensures Agrees(items[i := items[i].(time := |history|)], slots', history + [items[i].tag])
  {
    hide Recent, Touch;
    var k := IndexOf(slots, i);
    slots' := [i] + (slots[..k] + slots[k + 1..]);
    TouchIsRecent(history, items[i].tag);
    TouchPresent(TagsOf(items, slots), k);
    MovedFirst(items, slots, |history|, k);
    TagsMoved(items, slots, k, |history|);
  }

  lemma TagsMoved(items: seq<Item>, slots: seq<nat>, k: nat, time: nat)
    requires (forall j :: 0 <= j < |slots| ==> slots[j] < |items|) && k < |slots|
    ensures var items' := items[slots[k] := items[slots[k]].(time := time)];
      var order := TagsOf(items, slots);
      TagsOf(items', [slots[k]] + (slots[..k] + slots[k + 1..])) == [order[k]] + (order[..k] + order[k + 1..])
  {
    var items' := items[slots[k] := items[slots[k]].(time := time)];
    assert forall j :: 0 <= j < |items| ==> items'[j].tag == items[j].tag;
  }

  lemma MovedFirst(items: seq<Item>, slots: seq<nat>, time: nat, k: nat)
    requires ByAge(items, slots, time) && k < |slots|
    ensures ByAge(items[slots[k] := items[slots[k]].(time := time)],
                  [slots[k]] + (slots[..k] + slots[k + 1..]), time + 1)
  {
    var i := slots[k];
    var items' := items[i := items[i].(time := time)];
    var rest := slots[..k] + slots[k + 1..];
    var slots' := [i] + rest;
    forall j | 0 <= j < |rest| ensures rest[j] == slots[if j < k then j else j + 1] && rest[j] != i {}
    forall x | 0 <= x < |items'| ensures x in slots' {
      if x != i {
        var j := IndexOf(slots, x);
        assert slots'[if j < k then j + 1 else j] == x;
      } else {
        assert slots'[0] == x;
      }
    }
  }

  /** A store into slot i: the next free one, or the one with the lowest time when all 32 are used. */
  lemma StoreAgrees(items: seq<Item>, slots: seq<nat>, history: seq<nat>, i: nat, item: Item) returns (slots': seq<nat>)
    requires Agrees(items, slots, history) && item.tag !in Tags(items) && item.time == |history| && |items| <= 32
    requires if |items| == 32 then i < 32 && forall j :: 0 <= j < 32 ==>
              items[i].time <= items[j].time else i == |items|
    ensures Agrees(if |items| == 32 then items[i := item] else items + [item], slots', history + [item.tag])
  {
    hide ByAge, Tags, Recent, Touch;
    SlotsAreIndices(items, slots, |history|);
    var order := TagsOf(items, slots);
    AbsentFromOrder(items, slots, history, item.tag);
    TouchIsRecent(history, item.tag);
    TouchAbsent(order, item.tag);
    if |items| == 32 {
      slots' := [i] + slots[..31];
      OldestIsLast(items, slots, |history|, i);
      Replaced(items, slots, |history|, item);
      TagsReplaced(items, slots, |history|, item);
    } else {
      slots' := [i] + slots;
      Appended(items, slots, |history|, item);
      assert TagsOf(items + [item], slots') == [item.tag] + order;
    }
  }

  lemma SlotsAreIndices(items: seq<Item>, slots: seq<nat>, time: nat)
    requires ByAge(items, slots, time)
    ensures |slots| == |items| && forall k :: 0 <= k < |slots| ==> slots[k] < |items|
  {
  }

  lemma AbsentFromOrder(items: seq<Item>, slots: seq<nat>, history: seq<nat>, tag: nat)
    requires Agrees(items, slots, history) && tag !in Tags(items)
    ensures tag !in Recent(history)
  {
    hide ByAge, Tags, Recent;
    AgreementIsUnique(items, slots, history);
  }

  lemma TagsReplaced(items: seq<Item>, slots: seq<nat>, time: nat, item: Item)
    requires ByAge(items, slots, time) && |items| == 32
    ensures forall k :: 0 <= k < 32 ==> ([slots[31]] + slots[..31])[k] < 32
    ensures TagsOf(items[slots[31] := item], [slots[31]] + slots[..31]) == [item.tag] + TagsOf(items, slots)[..31]
  {
    forall j | 0 <= j < 31 ensures slots[j] != slots[31] {}
  }

  lemma OldestIsLast(items: seq<Item>, slots: seq<nat>, time: nat, i: nat)
    requires ByAge(items, slots, time) && |items| == 32 && i < 32 && forall j :: 0 <= j < 32 ==>
              items[i].time <= items[j].time
    ensures slots[31] == i
  {
    var k := IndexOf(slots, i);
    assert items[slots[k]].time <= items[slots[31]].time;
  }

  lemma Replaced(items: seq<Item>, slots: seq<nat>, time: nat, item: Item)
    requires ByAge(items, slots, time) && |items| == 32 && item.time == time
    ensures ByAge(items[slots[31] := item], [slots[31]] + slots[..31], time + 1)
  {
    var i := slots[31];
    var slots' := [i] + slots[..31];
    forall j | 0 <= j < 31 ensures slots[j] != i {}
    forall x | 0 <= x < 32 ensures x in slots' {
      var j := IndexOf(slots, x);
      assert slots'[if j == 31 then 0 else j + 1] == x;
    }
  }

  lemma Appended(items: seq<Item>, slots: seq<nat>, time: nat, item: Item)
    requires ByAge(items, slots, time) && item.time == time
    ensures ByAge(items + [item], [|items|] + slots, time + 1)
  {
    var slots' := [|items|] + slots;
    forall x | 0 <= x <= |items| ensures x in slots' {
      if x == |items| {
        assert slots'[0] == x;
      } else {
        var j := IndexOf(slots, x);
        assert slots'[j + 1] == x;
      }
    }
  }

  /** The cache holds this data under this tag. */
  ghost predicate Holds(items: seq<Item>, tag: nat, data: seq<byte>) {
    exists i :: 0 <= i < |items| && items[i].tag == tag && items[i].data == data
  }

  /** Every item of b is an item of a or the new one. */
  ghost predicate FromOrNew(a: seq<Item>, b: seq<Item>, tag: nat, data: seq<byte>) {
    forall i :: 0 <= i < |b| ==> (b[i].tag == tag && b[i].data == data) || Holds(a, b[i].tag, b[i].data)
  }

  lemma AccessKeepsTags(items: seq<Item>, i: nat, time: nat)
    requires UniqueTags(items) && i < |items|
    ensures UniqueTags(items[i := items[i].(time := time)])
    ensures SameButTimes(items, items[i := items[i].(time := time)])
  {
  }

  lemma StoreKeepsTags(items: seq<Item>, i: nat, item: Item)
    requires UniqueTags(items) && item.tag !in Tags(items) && (if |items| == 32 then i < 32 else i == |items|)
    ensures var l := if |items| == 32 then items[i := item] else items + [item];
      UniqueTags(l) && FromOrNew(items, l, item.tag, item.data)
  {
    assert forall j :: 0 <= j < |items| ==> items[j].tag in Tags(items) && Holds(items, items[j].tag, items[j].data);
  }

  class Cache {
    const items: array<Item>
    var nItems: nat
    var time: nat
    ghost var history: seq<nat>
    ghost var slots: seq<nat>

    /** The items in use. */
    ghost function Used(): seq<Item>
      requires nItems <= items.Length
      reads this, items
    {
      items[..nItems]
    }

    ghost predicate Valid()
      reads this, items
    {
      && items.Length == 32 && nItems <= 32
      && time == |history| % 0x1_0000_0000
      && UniqueTags(Used())
      && (|history| <= 0x1_0000_0000 ==> Agrees(Used(), slots, history))
    }

    constructor ()
      ensures Valid() && nItems == 0 && history == [] && fresh(items)
    {
      items := new Item[32](_ => Item(0, 0, []));
      nItems, time, history, slots := 0, 0, [], [];
    }

    /** `Cache->Items[i].Time = Cache->Time++`. */
    method Access(i: nat)
      requires Valid() && i < nItems
      modifies this, items
      ensures Valid() && nItems == old(nItems) && SameButTimes(old(Used()), Used())
      ensures history == old(history) + [old(items[i].tag)]
    {
      hide Agrees, UniqueTags;
      ghost var used, h := Used(), history;
      AccessKeepsTags(used, i, time);
      history := h + [items[i].tag];
      if |h| < 0x1_0000_0000 {
        slots := HitAgrees(used, slots, h, i);
      }
      items[i] := items[i].(time := time);
      assert Used() == used[i := used[i].(time := time)];
      time := (time + 1) % 0x1_0000_0000;
    }

    /** ReadCache: finds a sector and notes the access. */
    method ReadCache(tag: nat) returns (hit: bool, data: seq<byte>)
      requires Valid()
      modifies this, items
      ensures Valid() && hit == (tag in Tags(old(Used())))
      ensures SameButTimes(old(Used()), Used())
      ensures history == if hit then old(history) + [tag] else old(history)
      ensures if hit then Holds(Used(), tag, data) else unchanged(this) && unchanged(items)
    {
      var i := 0;
      while i < nItems && items[i].tag != tag
        invariant i <= nItems
        invariant forall j :: 0 <= j < i ==> items[j].tag != tag
      {
        i := i + 1;
      }
      if i == nItems {
        return false, [];
      }
      ghost var used := Used();
      assert used[i].tag == tag;
      Access(i);
      assert Used()[i].tag == tag;
      return true, items[i].data;
    }

    /** The slot WriteCache uses: a free one, or the least recently used. */
    method Victim() returns (i: nat)
      requires Valid() && nItems == 32
      ensures i < 32 && forall j :: 0 <= j < 32 ==> items[i].time <= items[j].time
    {
      i := 0;
      var j := 1;
      while j < 32
        invariant 1 <= j <= 32 && i < j
        invariant forall k :: 0 <= k < j ==> items[i].time <= items[k].time
      {
        if items[j].time < items[i].time {
          i := j;
        }
        j := j + 1;
      }
    }

    /** WriteCache: stores a sector that is not cached. */
    method WriteCache(tag: nat, data: seq<byte>)
      requires Valid() && tag !in Tags(Used())
      modifies this, items
      ensures Valid() && history == old(history) + [tag]
      ensures Holds(Used(), tag, data)
      ensures FromOrNew(old(Used()), Used(), tag, data)
    {
      hide Agrees, UniqueTags, FromOrNew;
      var i := nItems;
      if nItems == 32 {
        i := Victim();
      }
      ghost var used, h := Used(), history;
      ghost var item := Item(tag, time, data);
      StoreKeepsTags(used, i, item);
      if |h| < 0x1_0000_0000 {
        slots := StoreAgrees(used, slots, h, i, item);
      }
      history := h + [tag];
      if nItems < 32 {
        nItems := nItems + 1;
      }
      items[i] := Item(tag, time, data);
      time := (time + 1) % 0x1_0000_0000;
      assert Used() == if |used| == 32 then used[i := item] else used + [item];
      assert Used()[i] == item;
    }
  }
}
