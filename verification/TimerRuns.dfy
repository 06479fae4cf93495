/** Whole runs of a timer set under a clock that does not go back. */
module TimerRuns {
  import opened Words
  import opened Timers

  /** An activation of a handle; the serial number tells activations apart. */
  datatype Entry = Entry(due: int, serial: nat, handle: nat)

  datatype State = State(active: seq<Entry>, clock: nat, added: seq<Entry>, reported: seq<Entry>, removed: seq<Entry>)

  const START := State([], 0, [], [], [])

  datatype Op = Add(now: nat, timeout: int, handle: nat) | Rm(handle: nat) | Event(now: nat)

  /** The instant of a timeout, in unsigned 64-bit arithmetic; timeouts may be negative. */
  function DueAt(now: nat, timeout: int): int {
    (now + timeout) % WORD64
  }

  function Instants(s: seq<Entry>): (d: seq<int>)
    ensures |d| == |s| && forall i | 0 <= i < |s| :: d[i] == s[i].due
  {
    seq(|s|, i requires 0 <= i < |s| => s[i].due)
  }

  predicate Active(st: State, h: nat) {
    exists i | 0 <= i < |st.active| :: st.active[i].handle == h
  }

  function PositionOf(s: seq<Entry>, h: nat): (k: nat)
    ensures k <= |s|
    ensures forall i | 0 <= i < k :: s[i].handle != h
    ensures k < |s| ==> s[k].handle == h
  {
    if s == [] || s[0].handle == h then 0 else 1 + PositionOf(s[1..], h)
  }

  /** The clock does not go back, and a handle is added only while it is not active. */
  predicate Legal(st: State, op: Op) {
    match op
    case Add(now, timeout, h) => st.clock <= now && !Active(st, h)
    case Rm(h) => true
    case Event(now) => st.clock <= now
  }

  function After(st: State, op: Op): State {
    match op
    case Add(now, timeout, h) =>
      var e := Entry(DueAt(now, timeout), |st.added|, h);
      st.(active := InsertAt(st.active, Place(Instants(st.active), e.due), e), clock := now, added := st.added + [e])
    case Rm(h) =>
      var k := PositionOf(st.active, h);
      if k == |st.active| then st
      else st.(active := RemoveAt(st.active, k), removed := st.removed + [st.active[k]])
    case Event(now) =>
      if st.active == [] || st.active[0].due > now then st.(clock := now)
      else st.(active := st.active[1..], clock := now, reported := st.reported + [st.active[0]])
  }

  /** The answer to add and rm. */
  function Answer(st: State, op: Op): int {
    match op
    case Add(now, timeout, h) => if Place(Instants(st.active), DueAt(now, timeout)) == 0 then 1 else 0
    case Rm(h) => if PositionOf(st.active, h) == 0 && st.active != [] then 1 else 0
    case Event(now) => if st.active == [] || st.active[0].due > now then -EAGAIN else 0
  }

  /** Due earlier, or due at the same instant and added earlier. */
  predicate Before(a: Entry, b: Entry) {
    a.due < b.due || (a.due == b.due && a.serial < b.serial)
  }

  ghost predicate Ordered(s: seq<Entry>) {
    forall i, j | 0 <= i < j < |s| :: Before(s[i], s[j])
  }

  ghost predicate Timely(s: seq<Entry>, clock: int) {
    forall e | e in s :: e.due <= clock
  }

  ghost predicate Numbered(s: seq<Entry>, n: int) {
    forall e | e in s :: e.serial < n
  }

  /** What is active is in order, nothing was reported early, and nothing is lost. */
  ghost predicate Inv(st: State) {
    && Ordered(st.active)
    && Timely(st.reported, st.clock)
    && Numbered(st.reported + st.active, |st.added|)
    && multiset(st.added) == multiset(st.active) + multiset(st.reported) + multiset(st.removed)
  }

  lemma OrderedSplice(all: seq<Entry>, m: nat, e: Entry)
    requires Ordered(all) && m <= |all|
    requires forall i | 0 <= i < |all| :: if i < m then Before(all[i], e) else Before(e, all[i])
    ensures Ordered(all[..m] + [e] + all[m..])
  {
  }

  /** What has been reported and what is still to be, in one strict order. */
  ghost predicate InOrder(st: State) {
    Ordered(st.reported + st.active)
  }

  lemma OrderedInsert(reported: seq<Entry>, active: seq<Entry>, e: Entry)
    requires Ordered(reported + active)
    requires Timely(reported, e.due) && Numbered(reported + active, e.serial)
    ensures Ordered(reported + InsertAt(active, Place(Instants(active), e.due), e))
  {
    var k := Place(Instants(active), e.due);
    var all, m := reported + active, |reported| + k;
    hide Ordered, Place;
    forall i | 0 <= i < |all| ensures if i < m then Before(all[i], e) else Before(e, all[i]) {
      assert all[i] in all;
      if i < |reported| {
        assert all[i] in reported;
      } else {
        Later(all, m, i);
        assert i >= m ==> all[m] == active[k] && Instants(active)[k] == active[k].due;
        assert all[i] == active[i - |reported|] && Instants(active)[i - |reported|] == all[i].due;
      }
    }
    OrderedSplice(all, m, e);
    assert reported + InsertAt(active, k, e) == all[..m] + [e] + all[m..];
  }

  lemma Later(all: seq<Entry>, m: nat, i: nat)
    requires Ordered(all) && m <= |all| && i < |all|
    ensures m <= i ==> all[m].due <= all[i].due
  {
    assert m < i ==> Before(all[m], all[i]);
  }

  lemma AddKeeps(st: State, op: Op)
    requires Inv(st) && Legal(st, op) && op.Add?
    ensures Inv(After(st, op))
  {
    hide Ordered, Place, Numbered, InsertAt, Instants;
    var e := Entry(DueAt(op.now, op.timeout), |st.added|, op.handle);
    var k := Place(Instants(st.active), e.due);
    PlaceInside(Instants(st.active), e.due);
    ActiveInsert(st.reported, st.active, e);
    Spliced(st.active, k, e);
    NumberedInsert(st.reported, st.active, k, e);
  }

  lemma ActiveInsert(reported: seq<Entry>, active: seq<Entry>, e: Entry)
    requires Ordered(active) && Numbered(reported + active, e.serial)
    ensures Ordered(InsertAt(active, Place(Instants(active), e.due), e))
  {
    hide Place, Ordered, InsertAt, Instants;
    assert forall x | x in active :: x in reported + active;
    assert [] + active == active;
    OrderedInsert([], active, e);
    var now := InsertAt(active, Place(Instants(active), e.due), e);
    assert [] + now == now;
  }

  lemma NumberedInsert(reported: seq<Entry>, active: seq<Entry>, k: nat, e: Entry)
    requires k <= |active| && Numbered(reported + active, e.serial)
    ensures Numbered(reported + InsertAt(active, k, e), e.serial + 1)
  {
    Spliced(active, k, e);
  }

  lemma NumberedRemove(reported: seq<Entry>, active: seq<Entry>, k: nat, n: int)
    requires k < |active| && Numbered(reported + active, n)
    ensures Numbered(reported + RemoveAt(active, k), n)
  {
    Removed(active, k);
  }

  lemma PlaceInside(due: seq<int>, d: int)
    ensures Place(due, d) <= |due|
  {
  }

  lemma Spliced(s: seq<Entry>, k: nat, e: Entry)
    requires k <= |s|
    ensures multiset(InsertAt(s, k, e)) == multiset(s) + multiset{e}
    ensures forall x | x in InsertAt(s, k, e) :: x in s || x == e
  {
    assert s == s[..k] + s[k..];
  }

  lemma Removed(s: seq<Entry>, k: nat)
    requires k < |s|
    ensures multiset(s) == multiset(RemoveAt(s, k)) + multiset{s[k]}
    ensures forall x | x in RemoveAt(s, k) :: x in s
  {
    assert s == s[..k] + [s[k]] + s[k + 1..];
  }

  lemma OrderedRemove(reported: seq<Entry>, active: seq<Entry>, k: nat)
    requires Ordered(reported + active) && k < |active|
    ensures Ordered(reported + RemoveAt(active, k))
  {
    var all, m := reported + active, |reported| + k;
    var now := reported + RemoveAt(active, k);
    assert now == all[..m] + all[m + 1..];
  }

  /** Every operation, with any timeout, keeps the active timers in order, reports none early and loses none. */
  lemma StepKeeps(st: State, op: Op)
    requires Inv(st) && Legal(st, op)
    ensures Inv(After(st, op))
  {
    hide Inv, After;
    match op
    case Add(_, _, _) => AddKeeps(st, op);
    case Rm(_) => RmKeeps(st, op);
    case Event(_) => EventKeeps(st, op);
  }

  lemma RmKeeps(st: State, op: Op)
    requires Inv(st) && op.Rm?
    ensures Inv(After(st, op))
  {
    hide Ordered, Numbered, RemoveAt;
    var k := PositionOf(st.active, op.handle);
    if k < |st.active| {
      Removed(st.active, k);
      assert [] + st.active == st.active && [] + RemoveAt(st.active, k) == RemoveAt(st.active, k);
      OrderedRemove([], st.active, k);
      NumberedRemove(st.reported, st.active, k, |st.added|);
    }
  }

  lemma EventKeeps(st: State, op: Op)
    requires Inv(st) && Legal(st, op) && op.Event?
    ensures Inv(After(st, op))
  {
    hide Ordered, Numbered;
    if st.active != [] && st.active[0].due <= op.now {
      assert st.active == [st.active[0]] + st.active[1..];
      OrderedPrefix([st.active[0]], st.active[1..]);
      assert st.reported + [st.active[0]] + st.active[1..] == st.reported + st.active;
    }
  }

  /** An addition does not lie before the last report. */
  predicate InTime(st: State, op: Op) {
    op.Add? && st.reported != [] ==> st.reported[|st.reported| - 1].due <= DueAt(op.now, op.timeout)
  }

  /** The order of all reports, past and to come, is kept exactly by the operations that are in time. */
  lemma StepInOrder(st: State, op: Op)
    requires Inv(st) && InOrder(st) && Legal(st, op)
    ensures InOrder(After(st, op)) <==> InTime(st, op)
  {
    hide Ordered, Numbered, RemoveAt, InsertAt, Place, Instants;
    match op
    case Add(now, timeout, h) =>
      AddInOrder(st.reported, st.active, Entry(DueAt(now, timeout), |st.added|, h));
    case Rm(h) =>
      var k := PositionOf(st.active, h);
      if k < |st.active| {
        OrderedRemove(st.reported, st.active, k);
      }
    case Event(now) =>
      if st.active != [] && st.active[0].due <= now {
        assert st.reported + [st.active[0]] + st.active[1..] == st.reported + st.active;
      }
  }

  lemma AddInOrder(reported: seq<Entry>, active: seq<Entry>, e: Entry)
    requires Ordered(reported + active) && Numbered(reported + active, e.serial)
    ensures Place(Instants(active), e.due) <= |active|
    ensures Ordered(reported + InsertAt(active, Place(Instants(active), e.due), e))
            <==> (reported != [] ==> reported[|reported| - 1].due <= e.due)
  {
    hide Numbered, Place;
    var k, n := Place(Instants(active), e.due), |reported|;
    PlaceInside(Instants(active), e.due);
    var now := reported + InsertAt(active, k, e);
    if reported == [] || reported[n - 1].due <= e.due {
      forall x | x in reported ensures x.due <= e.due {
        var i :| 0 <= i < n && reported[i] == x;
        Later(reported + active, i, n - 1);
      }
      OrderedInsert(reported, active, e);
    } else {
      assert now[n - 1] == reported[n - 1] && now[n + k] == e;
      assert !Before(now[n - 1], now[n + k]);
    }
  }

  /** A timeout that is not negative is in time, unless its instant does not fit into 64 bits. */
  lemma NotNegative(st: State, op: Op)
    requires Inv(st) && Legal(st, op) && (op.Add? ==> 0 <= op.timeout && op.now + op.timeout < WORD64)
    ensures InTime(st, op)
  {
    assert st.reported != [] ==> st.reported[|st.reported| - 1] in st.reported;
  }

  ghost predicate LegalRun(st: State, ops: seq<Op>)
    decreases |ops|
  {
    ops == [] || (Legal(st, ops[0]) && LegalRun(After(st, ops[0]), ops[1..]))
  }

  function Ran(st: State, ops: seq<Op>): State
    decreases |ops|
  {
    if ops == [] then st else Ran(After(st, ops[0]), ops[1..])
  }

  lemma {:induction false} RunKeeps(st: State, ops: seq<Op>)
    requires Inv(st) && LegalRun(st, ops)
    ensures Inv(Ran(st, ops))
    decreases |ops|
  {
    if ops != [] {
      StepKeeps(st, ops[0]);
      RunKeeps(After(st, ops[0]), ops[1..]);
    }
  }

  /** Over a whole run, with any timeouts: none is reported early, the active ones are in order, and each
      activation is active, reported or removed, once. */
  lemma RunReports(ops: seq<Op>)
    requires LegalRun(START, ops)
    ensures var end := Ran(START, ops);
      && Ordered(end.active)
      && Timely(end.reported, end.clock)
      && multiset(end.added) == multiset(end.active) + multiset(end.reported) + multiset(end.removed)
  {
    RunKeeps(START, ops);
  }

  /** The first operation that is not in time, if there is one, is where the order ends. */
  ghost predicate AllInTime(st: State, ops: seq<Op>)
    decreases |ops|
  {
    ops == [] || (InTime(st, ops[0]) && AllInTime(After(st, ops[0]), ops[1..]))
  }

  lemma {:induction false} RunInOrder(st: State, ops: seq<Op>)
    requires Inv(st) && InOrder(st) && LegalRun(st, ops) && AllInTime(st, ops)
    ensures InOrder(Ran(st, ops))
    decreases |ops|
  {
    hide Inv, InOrder, Legal, After, InTime;
    if ops != [] {
      StepKeeps(st, ops[0]);
      StepInOrder(st, ops[0]);
      RunInOrder(After(st, ops[0]), ops[1..]);
    }
  }

  /** With all additions in time the reports come in the order of their instants and, among equals, of their
      activation. */
  lemma ReportsOrdered(ops: seq<Op>)
    requires LegalRun(START, ops) && AllInTime(START, ops)
    ensures Ordered(Ran(START, ops).reported)
  {
    RunInOrder(START, ops);
    var end := Ran(START, ops);
    OrderedPrefix(end.reported, end.active);
  }

  /** The timeouts that a timer passes on: nn_timer_start asserts that they are not negative. */
  predicate Passed(op: Op) {
    op.Add? ==> 0 <= op.timeout && op.now + op.timeout < WORD64
  }

  lemma {:induction false} PassedInTime(st: State, ops: seq<Op>)
    requires Inv(st) && LegalRun(st, ops) && forall i | 0 <= i < |ops| :: Passed(ops[i])
    ensures AllInTime(st, ops)
    decreases |ops|
  {
    hide Inv, Legal, After, InTime;
    if ops != [] {
      assert Passed(ops[0]);
      NotNegative(st, ops[0]);
      StepKeeps(st, ops[0]);
      PassedInTime(After(st, ops[0]), ops[1..]);
    }
  }

  /** Over every run with such timeouts the reports come in the order of their instants and, among equals, of
      their activation. */
  lemma RunOrdered(ops: seq<Op>)
    requires LegalRun(START, ops) && forall i | 0 <= i < |ops| :: Passed(ops[i])
    ensures Ordered(Ran(START, ops).reported)
  {
    PassedInTime(START, ops);
    ReportsOrdered(ops);
  }

  const SOONER := [Add(5, 0, 0)] + ([Event(5)] + ([Add(5, -3, 1)] + ([Event(5)] + [])))

  lemma Then(st: State, op: Op, ops: seq<Op>)
    ensures LegalRun(st, [op] + ops) <==> Legal(st, op) && LegalRun(After(st, op), ops)
    ensures AllInTime(st, [op] + ops) <==> InTime(st, op) && AllInTime(After(st, op), ops)
    ensures Ran(st, [op] + ops) == Ran(After(st, op), ops)
  {
    assert ([op] + ops)[1..] == ops;
  }

  /** A negative timeout after a report: its earlier instant is reported later. */
  lemma OutOfOrder()
    ensures LegalRun(START, SOONER) && !AllInTime(START, SOONER)
    ensures var r := Ran(START, SOONER).reported;
      r == [Entry(5, 0, 0), Entry(2, 1, 1)] && !Ordered(r)
  {
    hide LegalRun, AllInTime, Ran;
    var s1 := After(START, Add(5, 0, 0));
    var s2 := After(s1, Event(5));
    var s3 := After(s2, Add(5, -3, 1));
    Then(START, Add(5, 0, 0), [Event(5)] + ([Add(5, -3, 1)] + ([Event(5)] + [])));
    Then(s1, Event(5), [Add(5, -3, 1)] + ([Event(5)] + []));
    Then(s2, Add(5, -3, 1), [Event(5)] + []);
    Then(s3, Event(5), []);
    NothingLeft(After(s3, Event(5)));
    assert s1.active == [Entry(5, 0, 0)] && s2.active == [] && s2.reported == [Entry(5, 0, 0)];
    assert s3.active == [Entry(2, 1, 1)] && !InTime(s2, Add(5, -3, 1));
    var reports := After(s3, Event(5)).reported;
    assert reports == [Entry(5, 0, 0), Entry(2, 1, 1)];
    assert !Before(reports[0], reports[1]);
  }

  lemma NothingLeft(st: State)
    ensures LegalRun(st, []) && AllInTime(st, []) && Ran(st, []) == st
  {
  }

  lemma OrderedPrefix(s: seq<Entry>, t: seq<Entry>)
    requires Ordered(s + t)
    ensures Ordered(s) && Ordered(t)
  {
    assert s == (s + t)[..|s|] && t == (s + t)[|s|..];
  }

  /** The instants of the active entries change as those of the timer set: one is inserted at its place, one is
      removed, or the first is taken. */
  lemma InstantsFollow(st: State, op: Op)
    ensures var was, now := Instants(st.active), Instants(After(st, op).active);
      match op
      case Add(t, timeout, h) => now == InsertAt(was, Place(was, DueAt(t, timeout)), DueAt(t, timeout))
      case Rm(h) => (var k := PositionOf(st.active, h); now == if k < |was| then RemoveAt(was, k) else was)
      case Event(t) => now == if was == [] || was[0] > t then was else was[1..]
  {
    hide Place, InsertAt, RemoveAt, PositionOf;
    match op
    case Add(t, timeout, h) =>
      var due := DueAt(t, timeout);
      PlaceInside(Instants(st.active), due);
      InstantsInsert(st.active, Place(Instants(st.active), due), Entry(due, |st.added|, h));
    case Rm(h) =>
      var k := PositionOf(st.active, h);
      if k < |st.active| {
        InstantsRemove(st.active, k);
      }
    case Event(t) =>
  }

  lemma InstantsRemove(s: seq<Entry>, k: nat)
    requires k < |s|
    ensures Instants(RemoveAt(s, k)) == RemoveAt(Instants(s), k)
  {
  }

  lemma InstantsInsert(s: seq<Entry>, k: nat, e: Entry)
    requires k <= |s|
    ensures Instants(InsertAt(s, k, e)) == InsertAt(Instants(s), k, e.due)
  {
  }

  function First(st: State): seq<Entry> {
    st.active[..if st.active == [] then 0 else 1]
  }

  /** Add and rm answer 1 just when the earliest activation changes. */
  lemma AnswerIsChange(st: State, op: Op)
    requires Inv(st) && Legal(st, op) && !op.Event?
    ensures Answer(st, op) == 1 <==> First(After(st, op)) != First(st)
    ensures Answer(st, op) == 0 || Answer(st, op) == 1
  {
    hide Ordered, Instants, Place;
    match op
    case Add(now, timeout, h) =>
      var e := Entry(DueAt(now, timeout), |st.added|, h);
      assert st.active != [] ==> st.active[0] in st.reported + st.active;
      InsertFirst(st.active, Place(Instants(st.active), e.due), e);
    case Rm(h) =>
      if |st.active| > 1 {
        Distinct01(st);
      }
    case Event(_) =>
  }

  lemma InsertFirst(s: seq<Entry>, k: nat, e: Entry)
    requires k <= |s| && (s != [] ==> s[0] != e)
    ensures InsertAt(s, k, e) != [] && (k == 0 <==> InsertAt(s, k, e)[..1] != s[..if s == [] then 0 else 1])
  {
    assert InsertAt(s, k, e)[..1] == [if k == 0 then e else s[0]];
    assert s != [] ==> s[..1] == [s[0]];
  }

  lemma Distinct01(st: State)
    requires Inv(st) && |st.active| > 1
    ensures st.active[0] != st.active[1]
  {
    assert Before(st.active[0], st.active[1]);
  }

  /** All the events of one instant. */
  function Drained(st: State, now: nat): State
    decreases |st.active|
  {
    if Answer(st, Event(now)) == 0 then Drained(After(st, Event(now)), now) else After(st, Event(now))
  }

  lemma {:induction false} DrainsTo(st: State, now: nat)
    ensures var k := Place(Instants(st.active), now);
      Drained(st, now) == st.(active := st.active[k..], reported := st.reported + st.active[..k], clock := now)
    decreases |st.active|
  {
    hide Place, Instants;
    var k := Place(Instants(st.active), now);
    if st.active != [] && st.active[0].due <= now {
      var next := After(st, Event(now));
      DrainsTo(next, now);
      OneDue(st.active, now);
      assert st.reported + [st.active[0]] + next.active[..k - 1] == st.reported + st.active[..k];
    } else {
      NoneDue(st.active, now);
      assert st.reported + [] == st.reported;
    }
  }

  /** Asking until there is no event reports all that are due at the instant, in order, and only those. */
  lemma DrainsAll(st: State, now: nat)
    requires Ordered(st.active)
    ensures exists k | 0 <= k <= |st.active| ::
      && Drained(st, now) == st.(active := st.active[k..], reported := st.reported + st.active[..k], clock := now)
      && (forall i | 0 <= i < |st.active| :: i < k <==> st.active[i].due <= now)
  {
    DrainsTo(st, now);
    DueSplits(st.active, now);
  }

  lemma NoneDue(active: seq<Entry>, now: int)
    requires active == [] || active[0].due > now
    ensures Place(Instants(active), now) == 0 && active[0..] == active && active[..0] == []
  {
  }

  lemma OneDue(active: seq<Entry>, now: int)
    requires active != [] && active[0].due <= now
    ensures var k := Place(Instants(active), now);
      && k == 1 + Place(Instants(active[1..]), now)
      && active[k..] == active[1..][k - 1..] && active[..k] == [active[0]] + active[1..][..k - 1]
  {
    assert Instants(active)[1..] == Instants(active[1..]);
  }

  lemma DueSplits(active: seq<Entry>, now: int)
    requires Ordered(active)
    ensures var k := Place(Instants(active), now);
      k <= |active| && forall i | 0 <= i < |active| :: i < k <==> active[i].due <= now
  {
    hide Place;
    var k := Place(Instants(active), now);
    forall i | 0 <= i < |active| ensures i < k <==> active[i].due <= now {
      Later(active, k, i);
      assert k < |active| ==> Instants(active)[k] == active[k].due;
      assert Instants(active)[i] == active[i].due;
    }
  }
}
