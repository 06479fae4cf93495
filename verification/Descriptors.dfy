/** The table of open sockets and the stack of unused descriptors. */
module Descriptors {
  const MAX_SOCKETS := 512
  const AF_SP := 1
  const AF_SP_RAW := 2
  const EAFNOSUPPORT := 97
  const EMFILE := 24
  const EINVAL := 22

  /** Each descriptor below n is either free, once, or open. */
  ghost predicate Shared(free: multiset<nat>, open: set<nat>, n: nat) {
    && (forall d: nat :: free[d] == if d < n && d !in open then 1 else 0)
    && (forall d | d in open :: d < n)
  }

  /** How many are open follows from the height of the stack. */
  lemma {:induction false} OpenCount(free: multiset<nat>, open: set<nat>, n: nat)
    requires Shared(free, open, n)
    ensures |free| + |open| == n
    decreases n
  {
    if n == 0 {
      assert free == multiset{} && open == {};
    } else if n - 1 in open {
      OpenCount(free, open - {n - 1}, n - 1);
    } else {
      OpenCount(free - multiset{n - 1}, open, n - 1);
    }
  }

  lemma Popped(free: seq<nat>, open: set<nat>, n: nat)
    requires Shared(multiset(free), open, n) && free != []
    ensures var d := Top(free);
      d < n && d !in open && Shared(multiset(free[..|free| - 1]), open + {d}, n)
  {
    var rest: seq<nat>, d: nat := free[..|free| - 1], Top(free);
    assert free == rest + [d];
    var all: multiset<nat> := multiset(free);
    assert all == multiset(rest) + multiset{d};
    assert all[d] == 1 by {
      assert all[d] > 0;
    }
    assert forall x: nat :: multiset(rest)[x] == all[x] - if x == d then 1 else 0;
  }

  lemma Pushed(free: seq<nat>, open: set<nat>, n: nat, d: nat)
    requires Shared(multiset(free), open, n) && d in open
    ensures d < n && Shared(multiset(free + [d]), open - {d}, n)
  {
    assert multiset(free + [d]) == multiset(free) + multiset{d};
  }

  function Top(free: seq<nat>): nat {
    if free == [] then 0 else free[|free| - 1]
  }

  /** The initial stack. */
  lemma {:induction false} Descending(s: seq<nat>, n: nat)
    requires |s| == n && forall i | 0 <= i < n :: s[i] == n - i - 1
    ensures Shared(multiset(s), {}, n)
  {
    if n > 0 {
      Descending(s[1..], n - 1);
      assert s == [n - 1] + s[1..];
    }
  }

  lemma SomeOpen(free: seq<nat>, open: set<nat>, s: nat)
    requires Shared(multiset(free), open, MAX_SOCKETS) && s in open
    ensures |free| < MAX_SOCKETS
  {
    OpenCount(multiset(free), open, MAX_SOCKETS);
    assert open == open - {s} + {s};
  }

  class Global {
    const socks: array<bool>      // whether a slot of the table has a socket
    const unused: array<nat>
    var nsocks: nat

    ghost function Open(): set<nat>
      reads this, socks
    {
      set s: nat | s < socks.Length && socks[s]
    }

    /** The part of the stack that counts, bottom first. */
    ghost function Free(): seq<nat>
      reads this, unused
    {
      if nsocks <= unused.Length then unused[..unused.Length - nsocks] else []
    }

    ghost predicate Valid()
      reads this, socks, unused
    {
      && socks.Length == MAX_SOCKETS && unused.Length == MAX_SOCKETS && nsocks <= MAX_SOCKETS
      && Shared(multiset(Free()), Open(), MAX_SOCKETS)
    }

    constructor ()
      ensures Valid() && Open() == {} && fresh(socks) && fresh(unused)
    {
      socks := new bool[MAX_SOCKETS](_ => false);
      unused := new nat[MAX_SOCKETS](_ => 0);
      nsocks := 0;
      new;
      for i := 0 to MAX_SOCKETS
        invariant forall j | 0 <= j < i :: unused[j] == MAX_SOCKETS - j - 1
        invariant nsocks == 0 && forall j | 0 <= j < MAX_SOCKETS :: !socks[j]
      {
        unused[i] := MAX_SOCKETS - i - 1;
      }
      Descending(Free(), MAX_SOCKETS);
    }

    /** Creates a socket; known says whether the socket type exists, init is the answer of its initialisation. */
    method Create(domain: int, known: bool, init: int) returns (s: int)
      requires Valid()
      modifies this`nsocks, socks
      ensures Valid()
      ensures s == if domain != AF_SP && domain != AF_SP_RAW then -EAFNOSUPPORT
                   else if |old(Open())| == MAX_SOCKETS then -EMFILE
                   else if !known then -EINVAL
                   else if init < 0 then init
                   else Top(old(Free()))
      ensures s >= 0 ==>
        s < MAX_SOCKETS && s !in old(Open()) && Open() == old(Open()) + {s} && Free() + [s] == old(Free())
      ensures s < 0 ==> Open() == old(Open()) && Free() == old(Free())
    {
      hide Shared;
      OpenCount(multiset(Free()), Open(), MAX_SOCKETS);
      if domain != AF_SP && domain != AF_SP_RAW {
        return -EAFNOSUPPORT;
      }
      if nsocks >= MAX_SOCKETS {
        return -EMFILE;
      }
      s := unused[MAX_SOCKETS - nsocks - 1];
      if !known {
        return -EINVAL;
      }
      if init < 0 {
        return init;
      }
      Occupy(s);
    }

    /** The slot of the topmost descriptor gets a socket. */
    method Occupy(s: nat)
      requires Valid() && nsocks < MAX_SOCKETS && s == unused[MAX_SOCKETS - nsocks - 1]
      modifies this`nsocks, socks
      ensures Valid() && s == Top(old(Free())) && s < MAX_SOCKETS && s !in old(Open())
      ensures Open() == old(Open()) + {s} && Free() + [s] == old(Free())
    {
      hide Shared;
      ghost var free, open := Free(), Open();
      assert free == unused[..MAX_SOCKETS - nsocks];
      Popped(free, open, MAX_SOCKETS);
      socks[s] := true;
      nsocks := nsocks + 1;
      assert Free() + [s] == free && Free() == free[..|free| - 1];
      assert Open() == open + {s};
    }

    /** The end of a close: the slot is emptied and the descriptor goes on top of the stack. */
    method Remove(s: nat)
      requires Valid() && s in Open()
      modifies this`nsocks, socks, unused
      ensures Valid() && Open() == old(Open()) - {s} && Free() == old(Free()) + [s]
    {
      hide Shared;
      ghost var free, open := Free(), Open();
      SomeOpen(free, open, s);
      assert free == unused[..MAX_SOCKETS - nsocks];
      Pushed(free, open, MAX_SOCKETS, s);
      socks[s] := false;
      unused[MAX_SOCKETS - nsocks] := s;
      nsocks := nsocks - 1;
      assert Free() == free + [s];
      assert Open() == open - {s};
    }
  }
}
