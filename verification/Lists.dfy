/** Doubly linked lists whose links are kept in the members themselves. */
module Lists {
  /** A member of at most one list.  The value is a field of the structure that the links are embedded in; an
      item outside of lists has neither neighbour and is marked so. */
  class Item<T> {
    var prev: Item?<T>
    var next: Item?<T>
    var inlist: bool
    var value: T

    constructor (value: T)
      ensures !inlist && this.value == value
    {
      prev, next, inlist, this.value := null, null, false, value;
    }
  }

  class List<T> {
    var first: Item?<T>
    var last: Item?<T>
    ghost var items: seq<Item<T>>

    ghost predicate Valid()
      reads this, items
    {
      && Distinct(items)
      && first == At(items, 0) && last == At(items, |items| - 1)
      && forall i | 0 <= i < |items| :: Linked(items, i)
    }

    constructor ()
      ensures Valid() && items == []
    {
      first, last, items := null, null, [];
    }

    predicate Empty()
      requires Valid()
      reads this, items
      ensures Empty() <==> items == []
    {
      first == null
    }

    /** Inserts an item in front of another, or at the end when there is none. */
    method Insert(item: Item<T>, it: Item?<T>, ghost k: nat)
      requires Valid() && !item.inlist
      requires k <= |items| && it == At(items, k)
      modifies this, items`prev, items`next, item`prev, item`next, item`inlist
      ensures Valid() && item.inlist && items == old(items[..k]) + [item] + old(items[k..])
    {
      ghost var was := items;
      hide Distinct;
      if it != null {
        assert Linked(was, k);
      }
      AllInList(was);
      if 0 < k < |was| {
        Apart(was, 0, k);
      }
      DistinctInserted(was, k, item);
      item.inlist := true;
      item.prev := if it != null then it.prev else last;
      item.next := it;
      assert item.prev == At(was, k - 1);
      if item.prev != null {
        item.prev.next := item;
      }
      if item.next != null {
        item.next.prev := item;
      }
      if first == null || first == it {
        first := item;
      }
      if it == null {
        last := item;
      }
      items := items[..k] + [item] + items[k..];
      forall i | 0 <= i < |was|
        ensures AroundNew(was, k, item, i)
      {
        assert old(Linked(was, i));
        if k < |was| { Apart(was, i, k); }
        if k > 0 { Apart(was, i, k - 1); }
      }
      LinkedInserted(was, k, item);
      AtInserted(was, k, item, 0);
      AtInserted(was, k, item, |was|);
    }

    /** Takes an item out and returns the one after it. */
    method Erase(item: Item<T>, ghost k: nat) returns (next: Item?<T>)
      requires Valid() && k < |items| && item == items[k]
      modifies this, items`prev, items`next, items`inlist
      ensures Valid() && !item.inlist && items == old(items[..k]) + old(items[k + 1..])
      ensures forall x | x in old(items) && x != item :: x.inlist
      ensures next == At(items, k)
    {
      ghost var was := items;
      hide Distinct;
      assert Linked(was, k);
      if item.prev != null {
        item.prev.next := item.next;
      } else {
        first := item.next;
      }
      if item.next != null {
        item.next.prev := item.prev;
      } else {
        last := item.prev;
      }
      next := item.next;
      item.prev, item.next, item.inlist := null, null, false;
      items := items[..k] + items[k + 1..];
      DistinctErased(was, k);
      forall i | 0 <= i < |was| && i != k
        ensures AroundGap(was, k, i)
      {
        assert old(Linked(was, i));
        Apart(was, i, k);
        if k + 1 < |was| { Apart(was, i, k + 1); }
        if k > 0 { Apart(was, i, k - 1); }
      }
      LinkedErased(was, k);
      AllInList(items);
    }
  }

  ghost predicate Distinct<T>(items: seq<Item<T>>) {
    forall i, j | 0 <= i < j < |items| :: items[i] != items[j]
  }

  lemma AllInList<T>(items: seq<Item<T>>)
    requires forall i | 0 <= i < |items| :: Linked(items, i)
    ensures forall x | x in items :: x.inlist
  {
    forall x | x in items ensures x.inlist {
      var i :| 0 <= i < |items| && items[i] == x;
      assert Linked(items, i);
    }
  }

  lemma Apart<T>(items: seq<Item<T>>, i: nat, j: nat)
    requires Distinct(items) && i < |items| && j < |items|
    ensures items[i] == items[j] ==> i == j
  {
  }

  lemma DistinctInserted<T>(items: seq<Item<T>>, k: nat, item: Item<T>)
    requires Distinct(items) && item !in items && k <= |items|
    ensures Distinct(items[..k] + [item] + items[k..])
  {
  }

  lemma DistinctErased<T>(items: seq<Item<T>>, k: nat)
    requires Distinct(items) && k < |items|
    ensures Distinct(items[..k] + items[k + 1..]) && items[k] !in items[..k] + items[k + 1..]
  {
  }

  ghost function At<T>(items: seq<Item<T>>, i: int): Item?<T> {
    if 0 <= i < |items| then items[i] else null
  }

  ghost predicate Linked<T>(items: seq<Item<T>>, i: int)
    requires 0 <= i < |items|
    reads items[i]
  {
    items[i].inlist && items[i].prev == At(items, i - 1) && items[i].next == At(items, i + 1)
  }

  lemma AtInserted<T>(was: seq<Item<T>>, k: nat, item: Item<T>, i: int)
    requires k <= |was|
    ensures At(was[..k] + [item] + was[k..], i)
         == if i < k then At(was, i) else if i == k then item else At(was, i - 1)
  {
  }

  lemma AtErased<T>(was: seq<Item<T>>, k: nat, i: int)
    requires k < |was|
    ensures At(was[..k] + was[k + 1..], i) == if i < k then At(was, i) else At(was, i + 1)
  {
  }

  /** The links of an item around a new one at k. */
  ghost predicate AroundNew<T>(was: seq<Item<T>>, k: int, item: Item<T>, i: int)
    requires 0 <= i < |was|
    reads was[i]
  {
    && was[i].inlist
    && was[i].prev == (if i == k then item else At(was, i - 1))
    && was[i].next == (if i == k - 1 then item else At(was, i + 1))
  }

  /** The links of an item around one that has gone from k. */
  ghost predicate AroundGap<T>(was: seq<Item<T>>, k: int, i: int)
    requires 0 <= i < |was|
    reads was[i]
  {
    && was[i].inlist
    && was[i].prev == At(was, if i == k + 1 then k - 1 else i - 1)
    && was[i].next == At(was, if i == k - 1 then k + 1 else i + 1)
  }

  /** After an insertion at k, neighbours point to each other. */
  lemma LinkedInserted<T>(was: seq<Item<T>>, k: nat, item: Item<T>)
    requires k <= |was| && item.inlist && item.prev == At(was, k - 1) && item.next == At(was, k)
    requires forall i | 0 <= i < |was| :: AroundNew(was, k, item, i)
    ensures var items := was[..k] + [item] + was[k..];
      forall i | 0 <= i < |items| :: Linked(items, i)
  {
    var items := was[..k] + [item] + was[k..];
    forall i | 0 <= i < |items| ensures Linked(items, i) {
      AtInserted(was, k, item, i - 1);
      AtInserted(was, k, item, i);
      AtInserted(was, k, item, i + 1);
      assert items[i] == At(items, i);
      if i != k {
        var j := if i < k then i else i - 1;
        assert items[i] == was[j] && AroundNew(was, k, item, j);
      }
    }
  }

  lemma LinkedErased<T>(was: seq<Item<T>>, k: nat)
    requires k < |was|
    requires forall i | 0 <= i < |was| && i != k :: AroundGap(was, k, i)
    ensures var items := was[..k] + was[k + 1..];
      forall i | 0 <= i < |items| :: Linked(items, i)
  {
    var items := was[..k] + was[k + 1..];
    forall i | 0 <= i < |items| ensures Linked(items, i) {
      AtErased(was, k, i - 1);
      AtErased(was, k, i);
      AtErased(was, k, i + 1);
      var j := if i < k then i else i + 1;
      assert items[i] == At(items, i) && items[i] == was[j] && AroundGap(was, k, j);
    }
  }

  /** A list stays a list while nothing of it is touched. */
  twostate lemma StillValid<T>(l: List<T>)
    requires old(l.Valid()) && unchanged(l) && forall x | x in l.items :: unchanged(x)
    ensures l.Valid()
  {
    forall i | 0 <= i < |l.items| ensures Linked(l.items, i) {
      assert l.items[i] in l.items && old(Linked(l.items, i));
    }
  }
}
