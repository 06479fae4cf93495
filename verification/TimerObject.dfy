/** The timer set in place, as a step of the runs. */
module TimerObject {
  import opened Words
  import opened Wire
  import opened Lists
  import opened Timers
  import opened TimerRuns

  type Hndl = Item<uint64>

  /** A handle with its number in the runs, and an activation of it. */
  ghost predicate ShowsAt(h: Hndl, e: Entry, ids: map<Hndl, nat>)
    reads h
  {
    h in ids && ids[h] == e.handle && h.value == e.due
  }

  ghost predicate Numbering(ids: map<Hndl, nat>) {
    forall g, h | g in ids && h in ids :: ids[g] == ids[h] ==> g == h
  }

  class TimerLog {
    const timers: TimerSet
    ghost var ids: map<Hndl, nat>
    ghost var st: State

    ghost predicate Valid()
      reads this, timers, timers.timeouts, timers.timeouts.items
    {
      && timers.Valid() && Numbering(ids)
      && |timers.timeouts.items| == |st.active|
      && forall i | 0 <= i < |st.active| :: ShowsAt(timers.timeouts.items[i], st.active[i], ids)
    }

    constructor (ghost ids: map<Hndl, nat>)
      requires Numbering(ids)
      ensures Valid() && st == START && this.ids == ids && fresh(timers) && fresh(timers.timeouts)
    {
      timers := new TimerSet();
      this.ids, st := ids, START;
    }

    /** The instants of the handles are those of the activations. */
    lemma SameInstants()
      requires Valid()
      ensures timers.Due() == Instants(st.active)
    {
      forall i | 0 <= i < |st.active| ensures timers.Due()[i] == st.active[i].due {
        assert ShowsAt(timers.timeouts.items[i], st.active[i], ids);
      }
    }

    /** A handle that is not in the list is not active in the run. */
    lemma NotActive(hndl: Hndl)
      requires Valid() && hndl in ids && !hndl.inlist
      ensures !Active(st, ids[hndl]) && hndl !in timers.timeouts.items
    {
      AllInList(timers.timeouts.items);
      forall i | 0 <= i < |st.active| ensures st.active[i].handle != ids[hndl] {
        assert ShowsAt(timers.timeouts.items[i], st.active[i], ids);
      }
    }

    method Add(now: uint64, timeout: int32, hndl: Hndl) returns (first: int)
      requires Valid() && hndl in ids && !hndl.inlist && st.clock <= now
      modifies this`st, timers.timeouts, timers.timeouts.items`prev, timers.timeouts.items`next, hndl
      ensures Valid() && ids == old(ids)
      ensures var op := TimerRuns.Add(now, timeout, ids[hndl]);
        old(Legal(st, op)) && st == After(old(st), op) && first == Answer(old(st), op)
    {
      ghost var was, active := timers.timeouts.items, st.active;
      NotActive(hndl);
      SameInstants();
      first := timers.Add(now, timeout, hndl);
      ghost var op := TimerRuns.Add(now, timeout, ids[hndl]);
      st := After(st, op);
      InsertShows(was, active, Place(Instants(active), hndl.value), hndl, Entry(hndl.value, |st.added| - 1, ids[hndl]));
    }

    lemma InsertShows(was: seq<Hndl>, active: seq<Entry>, k: nat, h: Hndl, e: Entry)
      requires |was| == |active| && k <= |was| && ShowsAt(h, e, ids)
      requires forall i | 0 <= i < |active| :: ShowsAt(was[i], active[i], ids)
      ensures var items, now := InsertAt(was, k, h), InsertAt(active, k, e);
        |items| == |now| && forall i | 0 <= i < |now| :: ShowsAt(items[i], now[i], ids)
    {
      hide ShowsAt;
      var items, now := InsertAt(was, k, h), InsertAt(active, k, e);
      forall i | 0 <= i < |now| ensures ShowsAt(items[i], now[i], ids) {
        if i != k {
          var j := if i < k then i else i - 1;
          assert items[i] == was[j] && now[i] == active[j];
        }
      }
    }

    method Rm(hndl: Hndl) returns (first: int)
      requires Valid() && hndl in ids && (hndl.inlist ==> hndl in timers.timeouts.items)
      modifies this`st, timers.timeouts
      modifies timers.timeouts.items`prev, timers.timeouts.items`next, timers.timeouts.items`inlist
      ensures Valid() && ids == old(ids)
      ensures var op := TimerRuns.Rm(ids[hndl]);
        st == After(old(st), op) && first == Answer(old(st), op)
    {
      hide Ascending, Linked, Distinct, Place, PositionOf, Numbering, After, RemoveAt;
      ghost var was, active, op := timers.timeouts.items, st.active, TimerRuns.Rm(ids[hndl]);
      if !hndl.inlist {
        NotActive(hndl);
      }
      ghost var there := hndl.inlist;
      FoundAt(hndl);
      RmEffect(st, ids[hndl]);
      first := timers.Rm(hndl);
      st := After(st, op);
      if there {
        RemoveShows(was, active, PositionOf(active, ids[hndl]));
      }
    }

    lemma RmEffect(st: State, h: nat)
      ensures var k := PositionOf(st.active, h);
        After(st, TimerRuns.Rm(h)).active == if k < |st.active| then RemoveAt(st.active, k) else st.active
      ensures !Active(st, h) <==> PositionOf(st.active, h) == |st.active|
    {
      var k := PositionOf(st.active, h);
      assert k < |st.active| ==> st.active[k].handle == h;
    }

    /** The position of an active handle in the list is the position of its activation. */
    lemma FoundAt(hndl: Hndl)
      requires Valid() && hndl in ids
      ensures forall k | 0 <= k < |st.active| && timers.timeouts.items[k] == hndl ::
        PositionOf(st.active, ids[hndl]) == k
    {
      forall k | 0 <= k < |st.active| && timers.timeouts.items[k] == hndl
        ensures PositionOf(st.active, ids[hndl]) == k
      {
        assert ShowsAt(timers.timeouts.items[k], st.active[k], ids);
        var j := PositionOf(st.active, ids[hndl]);
        assert ShowsAt(timers.timeouts.items[j], st.active[j], ids);
        Apart(timers.timeouts.items, j, k);
      }
    }

    lemma RemoveShows(was: seq<Hndl>, active: seq<Entry>, k: nat)
      requires |was| == |active| && k < |was|
      requires forall i | 0 <= i < |active| :: ShowsAt(was[i], active[i], ids)
      ensures var items, now := RemoveAt(was, k), RemoveAt(active, k);
        |items| == |now| && forall i | 0 <= i < |now| :: ShowsAt(items[i], now[i], ids)
    {
      hide ShowsAt;
      var items, now := RemoveAt(was, k), RemoveAt(active, k);
      forall i | 0 <= i < |now| ensures ShowsAt(items[i], now[i], ids) {
        var j := if i < k then i else i + 1;
        assert items[i] == was[j] && now[i] == active[j];
      }
    }

    method Event(now: uint64) returns (rc: int, hndl: Item?<uint64>)
      requires Valid() && st.clock <= now
      modifies this`st, timers.timeouts
      modifies timers.timeouts.items`prev, timers.timeouts.items`next, timers.timeouts.items`inlist
      ensures Valid() && ids == old(ids)
      ensures var op := TimerRuns.Event(now);
        old(Legal(st, op)) && st == After(old(st), op) && rc == Answer(old(st), op)
      ensures rc == 0 ==> hndl != null && hndl in ids && ids[hndl] == old(st.active[0].handle)
    {
      hide Ascending, Linked, Distinct, Place, PositionOf, Numbering;
      ghost var was, active := timers.timeouts.items, st.active;
      SameInstants();
      if active != [] {
        assert ShowsAt(was[0], active[0], ids);
      }
      rc, hndl := timers.Event(now);
      st := After(st, TimerRuns.Event(now));
      if rc == 0 {
        RemoveShows(was, active, 0);
        assert RemoveAt(was, 0) == was[1..] && RemoveAt(active, 0) == active[1..];
      }
    }
  }
}
