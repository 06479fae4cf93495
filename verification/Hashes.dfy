/** The chained hash table: slots that hold intrusive lists of items, doubled when it gets full. */
module Hashes {
  import opened Words
  import opened Lists

  const INITIAL_SLOTS := 32
  const MAX_SLOTS := 0x8000_0000

  type Key = uint32
  type Entry = Item<Key>

  /** The hashing function, in 32-bit arithmetic. */
  function HashKey(key: bv32): bv32 {
    var k1 := (key ^ 61) ^ (key >> 16);
    var k2 := k1 + (k1 << 3);
    var k3 := k2 ^ (k2 >> 4);
    var k4 := k3 * 0x27d4_eb2d;
    k4 ^ (k4 >> 15)
  }

  /** Some hashes. */
  lemma HashValues()
    ensures HashKey(0) == 0xc0a9_496a && HashKey(0x1234_5678) == 0x45ad_cdd4 && HashKey(0xffff_ffff) == 0x70f4_99d3
  {
  }

  function SlotOf(key: Key, slots: nat): (s: nat)
    requires slots > 0
    ensures s < slots
  {
    Remainder(Number(HashKey(key as bv32)), slots)
  }

  function Number(b: bv32): nat {
    b as nat
  }

  function Remainder(n: nat, slots: nat): (s: nat)
    requires slots > 0
    ensures s < slots
  {
    n % slots
  }

  /** The lists hold the items of the pool and no others, each in the slot of its key. */
  ghost predicate Houses(lists: seq<List<Key>>, pool: set<Entry>)
    reads lists, pool
  {
    && |lists| > 0
    && Unshared(lists)
    && (forall i | 0 <= i < |lists| :: Holds(lists, i, pool))
    && (forall x | x in pool :: x in lists[SlotOf(x.value, |lists|)].items)
  }

  ghost predicate Unshared(lists: seq<List<Key>>) {
    forall i, j | 0 <= i < j < |lists| :: lists[i] != lists[j]
  }

  ghost predicate Holds(lists: seq<List<Key>>, i: int, pool: set<Entry>)
    requires 0 <= i < |lists|
    reads lists[i], pool
  {
    && (forall x | x in lists[i].items :: x in pool && SlotOf(x.value, |lists|) == i)
    && lists[i].Valid()
  }

  /** No two items have the same key. */
  ghost predicate OnePerKey(pool: set<Entry>)
    reads pool
  {
    forall x, y | x in pool && y in pool :: x.value == y.value ==> x == y
  }

  ghost function Bindings(pool: set<Entry>): (m: map<Key, Entry>)
    requires OnePerKey(pool)
    reads pool
    ensures forall x | x in pool :: x.value in m && m[x.value] == x
    ensures forall k | k in m :: m[k] in pool && m[k].value == k
  {
    map k | k in Keys(pool) :: Holder(pool, k)
  }

  ghost function Keys(pool: set<Entry>): set<Key>
    reads pool
  {
    set x | x in pool :: x.value
  }

  ghost function Holder(pool: set<Entry>, k: Key): (x: Entry)
    requires k in Keys(pool)
    reads pool
    ensures x in pool && x.value == k
  {
    var x :| x in pool && x.value == k;
    x
  }

  lemma BindingsAdd(pool: set<Entry>, item: Entry)
    requires OnePerKey(pool) && item.value !in Bindings(pool)
    ensures OnePerKey(pool + {item}) && Bindings(pool + {item}) == Bindings(pool)[item.value := item]
  {
    forall x | x in pool ensures x.value != item.value {
      assert x.value in Bindings(pool);
    }
    var all, now := pool + {item}, Bindings(pool)[item.value := item];
    assert OnePerKey(all);
    forall k | k in Bindings(all) ensures k in now && Bindings(all)[k] == now[k] {
      assert Bindings(all)[k] in all;
    }
    forall k | k in now ensures k in Bindings(all) {
      assert now[k] in all && now[k].value == k;
    }
  }

  lemma BindingsRemove(pool: set<Entry>, item: Entry)
    requires OnePerKey(pool) && item in pool
    ensures OnePerKey(pool - {item}) && Bindings(pool - {item}) == Bindings(pool) - {item.value}
  {
  }

  twostate lemma BindingsStay(pool: set<Entry>)
    requires old(OnePerKey(pool)) && forall x | x in pool :: x.value == old(x.value)
    ensures OnePerKey(pool) && Bindings(pool) == old(Bindings(pool))
  {
  }

  /** All items with a key are in its slot. */
  lemma Lookup(lists: seq<List<Key>>, pool: set<Entry>, key: Key)
    requires Houses(lists, pool) && OnePerKey(pool)
    ensures var chain := lists[SlotOf(key, |lists|)].items;
      && (forall x | x in chain && x.value == key :: key in Bindings(pool) && Bindings(pool)[key] == x)
      && ((forall x | x in chain :: x.value != key) ==> key !in Bindings(pool))
  {
    assert Holds(lists, SlotOf(key, |lists|), pool);
  }

  lemma Separate(lists: seq<List<Key>>, pool: set<Entry>, i: nat, j: nat)
    requires Houses(lists, pool) && i < |lists| && j < |lists| && i != j
    ensures lists[i] != lists[j] && forall x | x in lists[i].items :: x !in lists[j].items
  {
    assert Holds(lists, i, pool) && Holds(lists, j, pool);
  }

  lemma InLists(lists: seq<List<Key>>, pool: set<Entry>)
    requires Houses(lists, pool)
    ensures |lists| > 0 && forall x | x in pool :: x.inlist
  {
    forall x | x in pool ensures x.inlist {
      var i := SlotOf(x.value, |lists|);
      assert Holds(lists, i, pool);
      AllInList(lists[i].items);
    }
  }

  /** Puts an item at the end of its slot. */
  method Chain(lists: seq<List<Key>>, ghost pool: set<Entry>, item: Entry)
    requires Houses(lists, pool) && !item.inlist
    modifies lists[SlotOf(item.value, |lists|)], pool`prev, pool`next, item`prev, item`next, item`inlist
    ensures Houses(lists, pool + {item}) && item.inlist
  {
    hide SlotOf, Unshared, Linked, Lists.Distinct;
    var slot := SlotOf(item.value, |lists|);
    assert Holds(lists, slot, pool);
    ghost var was := lists[slot].items;
    InLists(lists, pool);
    assert item !in pool;
    forall i | 0 <= i < |lists| && i != slot
      ensures lists[i] != lists[slot] && forall x | x in lists[i].items :: x !in was && x != item
    {
      assert Holds(lists, i, pool);
      Separate(lists, pool, i, slot);
    }
    lists[slot].Insert(item, null, |was|);
    assert lists[slot].items == was + [item];
    forall i | 0 <= i < |lists| ensures Holds(lists, i, pool + {item}) {
      assert old(Holds(lists, i, pool));
      if i == slot {
        assert lists[i].items == was + [item];
      } else {
        StillValid(lists[i]);
      }
    }
  }

  /** Takes an item out of its slot. */
  method Unchain(lists: seq<List<Key>>, ghost pool: set<Entry>, slot: nat, item: Entry)
    requires Houses(lists, pool) && slot < |lists| && item in lists[slot].items
    modifies lists[slot], pool`prev, pool`next, pool`inlist
    ensures Houses(lists, pool - {item}) && !item.inlist && item in pool
    ensures |lists[slot].items| == old(|lists[slot].items|) - 1
  {
    hide SlotOf, Unshared, Linked, Lists.Distinct;
    assert Holds(lists, slot, pool);
    ghost var was := lists[slot].items;
    ghost var k :| 0 <= k < |was| && was[k] == item;
    OthersRemain(was, k);
    forall i | 0 <= i < |lists| && i != slot
      ensures lists[i] != lists[slot] && forall x | x in lists[i].items :: x !in was
    {
      Separate(lists, pool, i, slot);
    }
    var next := lists[slot].Erase(item, k);
    forall i | 0 <= i < |lists| ensures Holds(lists, i, pool - {item}) {
      assert old(Holds(lists, i, pool));
      if i == slot {
        assert lists[i].items == was[..k] + was[k + 1..];
      } else {
        StillValid(lists[i]);
      }
    }
  }

  lemma OthersRemain<T>(s: seq<Item<T>>, k: nat)
    requires Lists.Distinct(s) && k < |s|
    ensures var t := s[..k] + s[k + 1..];
      s[k] !in t && forall x | x in s :: x in t || x == s[k]
  {
    assert s == s[..k] + [s[k]] + s[k + 1..];
  }

  /** Counting in 32 bits. */
  function Wrap(n: int): uint32 {
    n % WORD32
  }

  lemma WrapSteps(n: int)
    ensures Wrap(Wrap(n) + 1) == Wrap(n + 1) && Wrap(Wrap(n) - 1) == Wrap(n - 1)
  {
    var q, r := n / WORD32, n % WORD32;
    assert n + 1 == q * WORD32 + (r + 1) && n - 1 == q * WORD32 + (r - 1);
  }

  /** The test for a full table does not overflow. */
  lemma OneMore(slots: uint32, items: uint32, n: nat)
    requires items == Wrap(n) && (slots < MAX_SLOTS ==> n * 2 <= slots)
    ensures Wrap(items + 1) == Wrap(n + 1)
    ensures slots < MAX_SLOTS ==> Wrap(Wrap(items + 1) * 2) == (n + 1) * 2
  {
    WrapSteps(n);
  }

  class Hash {
    var slots: uint32
    var items: uint32
    var lists: seq<List<Key>>
    ghost var pool: set<Entry>

    /** As long as the number of slots can still be doubled, at most half of them are needed. */
    ghost predicate Valid()
      reads this, lists, pool
    {
      && Houses(lists, pool) && OnePerKey(pool)
      && slots == |lists| && items == Wrap(|pool|)
      && (slots < MAX_SLOTS ==> |pool| * 2 <= slots)
    }

    /** The table is a map from keys to items. */
    ghost function Contents(): map<Key, Entry>
      requires Valid()
      reads this, lists, pool
    {
      Bindings(pool)
    }

    constructor ()
      ensures Valid() && Contents() == map[] && fresh(lists) && slots == 32
    {
      var empty := NoLists(INITIAL_SLOTS, []);
      slots, items, lists, pool := INITIAL_SLOTS, 0, empty, {};
    }

    /** Binds a key that is not bound to an item, and doubles the slots when they get short. */
    method Insert(key: Key, item: Entry)
      requires Valid() && key !in Contents() && !item.inlist
      modifies this, lists, item, pool`prev, pool`next, pool`inlist
      ensures Valid() && item.inlist && item.value == key
      ensures Contents() == old(Contents())[key := item]
      ensures |pool| == old(|pool|) + 1
      ensures slots == |lists| && (slots == old(slots) || fresh(lists))
      ensures slots == if 2 * |pool| > old(slots) && old(slots) < 0x8000_0000 then 2 * old(slots) else old(slots)
    {
      hide Houses, Bindings, OnePerKey, Wrap, SlotOf;
      OneMore(slots, items, |pool|);
      Append(key, item);
      label Appended:
      if Wrap(items * 2) > slots && slots < MAX_SLOTS {
        Rehash();
        BindingsStay@Appended(pool);
      }
      InLists(lists, pool);
    }

    /** The new item is chained and counted. */
    method Append(key: Key, item: Entry)
      requires Valid() && key !in Contents() && !item.inlist
      modifies lists, item, pool`prev, pool`next, this`items, this`pool
      ensures Houses(lists, pool) && OnePerKey(pool) && pool == old(pool) + {item}
      ensures item.value == key && Bindings(pool) == old(Contents())[key := item]
      ensures items == Wrap(old(items) + 1) && |pool| == old(|pool|) + 1
    {
      hide Houses, Bindings, OnePerKey, Wrap, SlotOf;
      items := Wrap(items + 1);
      Link(key, item);
    }

    method Link(key: Key, item: Entry)
      requires Houses(lists, pool) && OnePerKey(pool) && key !in Bindings(pool) && !item.inlist
      modifies lists, item, pool`prev, pool`next, this`pool
      ensures Houses(lists, pool) && OnePerKey(pool) && pool == old(pool) + {item}
      ensures item.value == key && Bindings(pool) == old(Bindings(pool))[key := item]
      ensures |pool| == old(|pool|) + 1
    {
      hide Houses, Bindings, OnePerKey, SlotOf;
      ghost var was := pool;
      InLists(lists, pool);
      ghost var all := was + {item};
      assert |all| == |was| + 1;
      item.value := key;
      BindingsStay(was);
      BindingsAdd(was, item);
      label Keyed:
      Chain(lists, was, item);
      pool := all;
      BindingsStay@Keyed(all);
    }

    method Erase(item: Entry)
      requires Valid() && item in pool
      modifies this`items, this`pool, lists, pool`prev, pool`next, pool`inlist
      ensures Valid() && !item.inlist
      ensures Contents() == old(Contents()) - {item.value} && |pool| == old(|pool|) - 1
    {
      hide Houses, Bindings, OnePerKey, Wrap, SlotOf;
      InLists(lists, pool);
      WrapSteps(|pool|);
      var slot := SlotOf(item.value, slots);
      TakeOut(slot, item);
      items := Wrap(items - 1);
    }

    method TakeOut(slot: nat, item: Entry)
      requires Valid() && item in pool && slot == SlotOf(item.value, slots)
      modifies this`pool, lists, pool`prev, pool`next, pool`inlist
      ensures Houses(lists, pool) && OnePerKey(pool) && pool == old(pool) - {item} && |pool| == old(|pool|) - 1
      ensures !item.inlist && Bindings(pool) == old(Contents()) - {item.value}
    {
      hide Bindings, OnePerKey, SlotOf, Houses;
      SlotsInUse(lists, pool);
      BindingsRemove(pool, item);
      ghost var less := pool - {item};
      Unchain(lists, pool, slot, item);
      BindingsStay(less);
      pool := less;
    }

    /** The item bound to a key. */
    method Get(key: Key) returns (item: Item?<Key>)
      requires Valid()
      ensures item == if key in Contents() then Contents()[key] else null
    {
      hide Bindings, OnePerKey, SlotOf, Unshared;
      var slot := SlotOf(key, slots);
      assert Holds(lists, slot, pool);
      Lookup(lists, pool, key);
      ghost var chain := lists[slot].items;
      item := lists[slot].first;
      ghost var k := 0;
      while item != null
        invariant 0 <= k <= |chain| && item == At(chain, k)
        invariant forall j | 0 <= j < k :: chain[j].value != key
        decreases |chain| - k
      {
        if item.value == key {
          return;
        }
        assert Linked(chain, k);
        item, k := item.next, k + 1;
      }
    }

    /** Doubles the slots and moves each item to its new slot. */
    method Rehash()
      requires Houses(lists, pool) && slots == |lists| < MAX_SLOTS
      modifies this`slots, this`lists, lists, pool`prev, pool`next, pool`inlist
      ensures Houses(lists, pool) && slots == |lists| == 2 * old(slots)
      ensures fresh(lists)
    {
      InLists(lists, pool);
      hide Houses;
      var newlists := MoveAll(lists, slots * 2, pool);
      slots, lists := slots * 2, newlists;
    }
  }

  ghost predicate Elsewhere(oldlists: seq<List<Key>>, lists: seq<List<Key>>) {
    forall j, k | 0 <= j < |oldlists| && 0 <= k < |lists| :: oldlists[j] != lists[k]
  }

  method MoveAll(oldlists: seq<List<Key>>, slots: nat, ghost pool: set<Entry>) returns (lists: seq<List<Key>>)
    requires Houses(oldlists, pool) && slots > 0
    modifies oldlists, pool`prev, pool`next, pool`inlist
    ensures Houses(lists, pool) && |lists| == slots && fresh(lists)
  {
    assert Unshared(oldlists);
    hide Houses, Unshared, Elsewhere;
    lists := NoLists(slots, oldlists);
    ghost var left := pool;
    assert pool - left == {};
    for i := 0 to |oldlists|
      invariant left <= pool && Houses(oldlists, left) && Houses(lists, pool - left)
      invariant forall j | 0 <= j < i :: oldlists[j].items == []
    {
      OtherLists(oldlists, lists, i);
      left := MoveSlot(oldlists, lists, i, pool, left);
    }
    SlotsInUse(oldlists, left);
    assert pool - left == pool;
  }

  lemma OtherLists(oldlists: seq<List<Key>>, lists: seq<List<Key>>, i: nat)
    requires Unshared(oldlists) && Elsewhere(oldlists, lists) && i < |oldlists|
    ensures forall j | 0 <= j < i :: oldlists[j] != oldlists[i] && oldlists[j] !in lists
  {
  }

  lemma SlotsInUse(lists: seq<List<Key>>, pool: set<Entry>)
    requires Houses(lists, pool)
    ensures forall x | x in pool :: x in lists[SlotOf(x.value, |lists|)].items
    ensures (forall i | 0 <= i < |lists| :: lists[i].items == []) ==> pool == {}
  {
  }

  /** Moves the items of one old slot to their new slots. */
  method MoveSlot(oldlists: seq<List<Key>>, lists: seq<List<Key>>, i: nat,
                  ghost pool: set<Entry>, ghost left: set<Entry>)
    returns (ghost left': set<Entry>)
    requires left <= pool && Houses(oldlists, left) && Houses(lists, pool - left) && i < |oldlists|
    requires Elsewhere(oldlists, lists)
    modifies oldlists[i], lists, pool`prev, pool`next, pool`inlist
    ensures left' <= left && Houses(oldlists, left') && Houses(lists, pool - left')
    ensures oldlists[i].items == []
  {
    hide Houses;
    left' := left;
    while !IsEmpty(oldlists, left', i)
      invariant left' <= left && Houses(oldlists, left') && Houses(lists, pool - left')
      decreases |oldlists[i].items|
    {
      var hitm: Entry := oldlists[i].first;
      ghost var moved := pool - left';
      Unchain(oldlists, left', i, hitm);
      assert Houses(lists, moved);
      left' := left' - {hitm};
      Chain(lists, moved, hitm);
      assert pool - left' == moved + {hitm};
    }
  }

  predicate IsEmpty(lists: seq<List<Key>>, ghost pool: set<Entry>, i: nat)
    requires Houses(lists, pool) && i < |lists|
    reads lists, pool
    ensures IsEmpty(lists, pool, i) <==> lists[i].items == []
    ensures !IsEmpty(lists, pool, i) ==> lists[i].first != null && lists[i].first in lists[i].items
  {
    assert Holds(lists, i, pool);
    lists[i].Empty()
  }

  method NoLists(n: nat, ghost others: seq<List<Key>>) returns (lists: seq<List<Key>>)
    requires n > 0
    ensures |lists| == n && fresh(lists) && Houses(lists, {}) && Elsewhere(others, lists)
  {
    lists := [];
    for i := 0 to n
      invariant |lists| == i && fresh(lists) && Unshared(lists)
      invariant forall j | 0 <= j < i :: lists[j].Valid() && lists[j].items == []
    {
      var l := new List();
      lists := lists + [l];
    }
  }
}
