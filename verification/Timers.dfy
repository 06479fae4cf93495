/** The timer set: a list of handles, ordered by the instants at which they are due. */
module Timers {
  import opened Words
  import opened Wire
  import opened Lists

  const EAGAIN := 11

  function InsertAt<T>(s: seq<T>, k: nat, x: T): seq<T>
    requires k <= |s|
  {
    s[..k] + [x] + s[k..]
  }

  function RemoveAt<T>(s: seq<T>, k: nat): seq<T>
    requires k < |s|
  {
    s[..k] + s[k + 1..]
  }

  ghost predicate Ascending(s: seq<int>) {
    forall i, j | 0 <= i < j < |s| :: s[i] <= s[j]
  }

  /** Where a new instant belongs: behind everything that is due no later. */
  function Place(due: seq<int>, d: int): (k: nat)
    ensures k <= |due|
    ensures forall i | 0 <= i < k :: due[i] <= d
    ensures k < |due| ==> d < due[k]
  {
    if due == [] || d < due[0] then 0 else 1 + Place(due[1..], d)
  }

  lemma {:induction false} PlaceSkips(due: seq<int>, k: nat, d: int)
    requires k <= |due| && forall i | 0 <= i < k :: due[i] <= d
    ensures Place(due, d) == k + Place(due[k..], d)
  {
    if k > 0 {
      PlaceSkips(due[1..], k - 1, d);
      assert due[1..][k - 1..] == due[k..];
    } else {
      assert due[0..] == due;
    }
  }

  lemma PlaceKeepsOrder(due: seq<int>, d: int)
    requires Ascending(due)
    ensures Ascending(InsertAt(due, Place(due, d), d))
  {
  }

  lemma RemoveKeepsOrder(due: seq<int>, k: nat)
    requires Ascending(due) && k < |due|
    ensures Ascending(RemoveAt(due, k))
  {
  }

  /** The first item of a list is the one at k just when k is 0. */
  lemma FirstIs<T>(items: seq<Item<T>>, k: nat)
    requires Distinct(items) && k <= |items|
    ensures At(items, k) == At(items, 0) <==> k == 0
  {
    if k < |items| {
      Apart(items, 0, k);
    }
  }

  class TimerSet {
    const timeouts: List<uint64>

    /** The instants of the handles. */
    ghost function Due(): (due: seq<int>)
      reads this, timeouts, timeouts.items
      ensures |due| == |timeouts.items|
      ensures forall i | 0 <= i < |due| :: due[i] == timeouts.items[i].value
    {
      seq(|timeouts.items|, i requires 0 <= i < |timeouts.items| reads this, timeouts, timeouts.items =>
        timeouts.items[i].value)
    }

    ghost predicate Valid()
      reads this, timeouts, timeouts.items
    {
      timeouts.Valid() && Ascending(Due())
    }

    constructor ()
      ensures Valid() && fresh(timeouts) && timeouts.items == []
    {
      timeouts := new List();
    }

    /** Adds a handle, due after so many milliseconds, behind all that are due no later; tells whether it is
        the first now. */
    method Add(now: uint64, timeout: int32, hndl: Item<uint64>) returns (first: int)
      requires Valid() && !hndl.inlist
      modifies timeouts, timeouts.items`prev, timeouts.items`next, hndl
      ensures Valid() && hndl.value == (now + timeout) % WORD64
      ensures var k := Place(old(Due()), hndl.value);
        timeouts.items == InsertAt(old(timeouts.items), k, hndl) && first == if k == 0 then 1 else 0
    {
      hide Ascending, Distinct, Linked, Due;
      ghost var was, due := timeouts.items, Due();
      AllInList(was);
      hndl.value := (now + timeout) % WORD64;
      assert Due() == due;
      ghost var k;
      var it;
      it, k := Behind(hndl.value);
      first := if timeouts.first == it then 1 else 0;
      FirstIs(was, k);
      timeouts.Insert(hndl, it, k);
      PlaceKeepsOrder(due, hndl.value);
      DueInserted(was, due, k, hndl);
    }

    lemma DueInserted(was: seq<Item<uint64>>, due: seq<int>, k: nat, hndl: Item<uint64>)
      requires k <= |was| == |due| && timeouts.items == InsertAt(was, k, hndl)
      requires forall i | 0 <= i < |due| :: due[i] == was[i].value
      ensures Due() == InsertAt(due, k, hndl.value)
    {
    }

    /** The first handle that is due later, if there is one. */
    method Behind(d: uint64) returns (it: Item?<uint64>, ghost k: nat)
      requires Valid()
      ensures k == Place(Due(), d) && it == At(timeouts.items, k)
    {
      hide Ascending;
      ghost var due := Due();
      it, k := timeouts.first, 0;
      while it != null
        invariant 0 <= k <= |due| && it == At(timeouts.items, k)
        invariant forall i | 0 <= i < k :: due[i] <= d
        decreases |due| - k
      {
        if d < it.value {
          break;
        }
        assert Linked(timeouts.items, k);
        it, k := it.next, k + 1;
      }
      PlaceSkips(due, k, d);
    }

    /** Removes a handle; one that is not active is ignored. */
    method Rm(hndl: Item<uint64>) returns (first: int)
      requires Valid() && (hndl.inlist ==> hndl in timeouts.items)
      modifies timeouts, timeouts.items`prev, timeouts.items`next, timeouts.items`inlist
      ensures Valid() && !hndl.inlist
      ensures !old(hndl.inlist) ==> first == 0 && timeouts.items == old(timeouts.items)
      ensures old(hndl.inlist) ==> exists k | 0 <= k < old(|timeouts.items|) ::
        && old(timeouts.items)[k] == hndl && timeouts.items == RemoveAt(old(timeouts.items), k)
        && first == if k == 0 then 1 else 0
    {
      if !hndl.inlist {
        return 0;
      }
      hide Ascending, Linked;
      ghost var was, due := timeouts.items, Due();
      ghost var k :| 0 <= k < |was| && was[k] == hndl;
      first := if timeouts.first == hndl then 1 else 0;
      Apart(was, 0, k);
      RemoveKeepsOrder(due, k);
      var next := timeouts.Erase(hndl, k);
      assert Due() == RemoveAt(due, k);
    }

    /** The milliseconds to wait: none is -1, and the difference is cut to an int. */
    method Timeout(now: uint64) returns (timeout: int)
      requires Valid()
      ensures timeout == if Due() == [] then -1 else Remaining(Due()[0], now)
    {
      if timeouts.Empty() {
        return -1;
      }
      timeout := Signed((timeouts.first.value - now) % WORD32);
      timeout := if timeout < 0 then 0 else timeout;
    }

    /** Takes the first handle out if it is due. */
    method Event(now: uint64) returns (rc: int, hndl: Item?<uint64>)
      requires Valid()
      modifies timeouts, timeouts.items`prev, timeouts.items`next, timeouts.items`inlist
      ensures Valid()
      ensures rc == if old(Due()) == [] || old(Due())[0] > now then -EAGAIN else 0
      ensures rc != 0 ==> timeouts.items == old(timeouts.items) && hndl == null
      ensures rc == 0 ==> timeouts.items == old(timeouts.items)[1..] && hndl == old(timeouts.items)[0] && !hndl.inlist
    {
      if timeouts.Empty() {
        return -EAGAIN, null;
      }
      hndl := timeouts.first;
      if hndl.value > now {
        return -EAGAIN, null;
      }
      hide Ascending, Linked;
      ghost var due := Due();
      RemoveKeepsOrder(due, 0);
      var next := timeouts.Erase(hndl, 0);
      assert Due() == RemoveAt(due, 0);
      rc := 0;
    }
  }

  function Remaining(deadline: int, now: int): int {
    var left := Signed((deadline - now) % WORD32);
    if left < 0 then 0 else left
  }

  /** The wait is right exactly as long as the time left fits into an int, and for timers that are overdue by so
      much that the cut difference is not positive either. */
  lemma RemainingIs(deadline: uint64, now: uint64)
    ensures var left: int := deadline - now;
      Remaining(deadline, now) == (if left < 0 then 0 else left)
      <==> left < 0x8000_0000 && (left >= -0x8000_0000 || left % WORD32 == 0 || left % WORD32 >= 0x8000_0000)
  {
    var left: int := deadline - now;
    if -0x8000_0000 <= left < 0 {
      assert left % WORD32 == left + WORD32;
    }
  }
}
