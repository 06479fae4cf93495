/** Messages, of three references each, that are copied, moved, or copied in bulk, with their chunks shared. */
module MessageRuns {
  import opened Words
  import opened References

  /** How references get from one slot to another. */
  datatype How = ByCp | ByMv | ByBulk

  /** A reference to be made, and the one it is made from. */
  type Pair = (nat, nat)

  function OpOf(how: How, p: Pair): Op {
    match how
    case ByCp => Cp(p.0, p.1)
    case ByMv => Mv(p.0, p.1)
    case ByBulk => BulkCp(p.0, p.1)
  }

  function Ops(how: How, ps: seq<Pair>): seq<Op> {
    if ps == [] then [] else [OpOf(how, ps[0])] + Ops(how, ps[1..])
  }

  function Needs(slots: seq<Slot>, s: nat, b: nat): nat {
    if s < |slots| && slots[s].Long? && slots[s].block == b then 1 else 0
  }

  /** How many of the new references will point to chunk b. */
  function Demand(slots: seq<Slot>, ps: seq<Pair>, b: nat): nat {
    if ps == [] then 0 else Needs(slots, ps[0].1, b) + Demand(slots, ps[1..], b)
  }

  ghost predicate Apart(ps: seq<Pair>) {
    && (forall i, j | 0 <= i < |ps| && 0 <= j < |ps| :: ps[i].0 != ps[j].1)
    && (forall i, j | 0 <= i < j < |ps| :: ps[i].0 != ps[j].0)
  }

  ghost predicate Sources(st: State, ps: seq<Pair>) {
    forall i | 0 <= i < |ps| :: Spare(st, ps[i].0) && Reference(st, ps[i].1)
  }

  ghost predicate Room(st: State, how: How, ps: seq<Pair>) {
    forall b | 0 <= b < |st.blocks| ::
      && (how.ByCp? ==> Due(st, b) + Demand(st.slots, ps, b) < WORD32)
      && (how.ByBulk? ==> st.blocks[b].owed >= Demand(st.slots, ps, b))
  }

  /** Everything the whole series of operations needs, told from the state before. */
  ghost predicate Ready(st: State, how: How, ps: seq<Pair>) {
    && Inv(st) && Apart(ps) && Sources(st, ps) && Room(st, how, ps)
    && (how.ByMv? ==> forall i, j | 0 <= i < j < |ps| :: ps[i].1 != ps[j].1)
  }

  /** The slots after one operation. */
  function Slots(slots: seq<Slot>, how: How, p: Pair): (r: seq<Slot>)
    requires p.0 < |slots| && p.1 < |slots|
    ensures |r| == |slots|
  {
    var copied := slots[p.0 := slots[p.1]];
    if how.ByMv? then copied[p.1 := Empty] else copied
  }

  function Carry(m: seq<Meaning>, how: How, p: Pair): (r: seq<Meaning>)
    ensures |r| == |m|
  {
    var copied := Set(m, p.0, At(m, p.1));
    if how.ByMv? then Set(copied, p.1, Nothing) else copied
  }

  lemma HoldersCopied(st: State, p: Pair, b: nat)
    requires Spare(st, p.0) && Reference(st, p.1) && p.0 != p.1
    ensures Holders(Slots(st.slots, ByCp, p), b) == Holders(st.slots, b) + Needs(st.slots, p.1, b)
    ensures Holders(Slots(st.slots, ByMv, p), b) == Holders(st.slots, b)
  {
    var copied := Slots(st.slots, ByCp, p);
    HoldersUpdate(st.slots, p.0, st.slots[p.1], b);
    HoldersUpdate(copied, p.1, Empty, b);
  }

  /** One operation may be performed. */
  lemma FirstLegal(st: State, how: How, ps: seq<Pair>)
    requires Ready(st, how, ps) && ps != []
    ensures Legal(st, OpOf(how, ps[0]))
  {
    var p := ps[0];
    assert Spare(st, p.0) && Reference(st, p.1) && p.0 != p.1;
    assert Anchor(st.blocks, st.slots[p.1]);
    hide Counted, Anchor, Denote, Holders;
    if st.slots[p.1].Long? {
      var b := st.slots[p.1].block;
      assert Demand(st.slots, ps, b) == 1 + Demand(st.slots, ps[1..], b);
    }
  }

  /** What one operation does to slots, counters and debts. */
  lemma FirstEffect(st: State, how: How, p: Pair)
    requires Anchored(st) && Legal(st, OpOf(how, p)) && Reference(st, p.1)
    ensures var next := After(st, OpOf(how, p));
      && p.0 < |st.slots| && next.slots == Slots(st.slots, how, p) && |next.blocks| == |st.blocks|
      && forall b | 0 <= b < |st.blocks| ::
           next.blocks[b].owed + (if how.ByBulk? then Needs(st.slots, p.1, b) else 0) == st.blocks[b].owed
  {
    assert Anchor(st.blocks, st.slots[p.1]);
    hide Anchored, Denote, Holders;
  }

  lemma FirstDue(st: State, how: How, p: Pair, b: nat)
    requires Anchored(st) && Legal(st, OpOf(how, p)) && Spare(st, p.0) && Reference(st, p.1) && p.0 != p.1
    requires b < |st.blocks| == |After(st, OpOf(how, p)).blocks|
    ensures Due(After(st, OpOf(how, p)), b) == Due(st, b) + (if how.ByCp? then Needs(st.slots, p.1, b) else 0)
  {
    hide Legal, After, Anchored, Holders, Needs;
    FirstEffect(st, how, p);
    HoldersCopied(st, p, b);
  }

  lemma CarriesOne(m: seq<Meaning>, how: How, p: Pair)
    ensures ByValue(m, OpOf(how, p)) == Carry(m, how, p)
  {
  }

  /** The other pairs are not touched. */
  lemma SourcesRemain(st: State, next: State, how: How, ps: seq<Pair>)
    requires ps != [] && Apart(ps) && Sources(st, ps)
    requires how.ByMv? ==> forall i, j | 0 <= i < j < |ps| :: ps[i].1 != ps[j].1
    requires next.slots == Slots(st.slots, how, ps[0])
    ensures Apart(ps[1..]) && Sources(next, ps[1..])
    ensures how.ByMv? ==> forall i, j | 0 <= i < j < |ps[1..]| :: ps[1..][i].1 != ps[1..][j].1
    ensures forall i | 0 <= i < |ps[1..]| :: next.slots[ps[1..][i].1] == st.slots[ps[1..][i].1]
  {
    var rest := ps[1..];
    forall i | 0 <= i < |rest|
      ensures rest[i] == ps[i + 1] && Spare(next, rest[i].0) && Reference(next, rest[i].1)
      ensures next.slots[rest[i].1] == st.slots[rest[i].1]
    {
      assert Spare(st, ps[i + 1].0) && Reference(st, ps[i + 1].1);
    }
  }

  lemma {:induction false} DemandSame(a: seq<Slot>, b: seq<Slot>, ps: seq<Pair>, c: nat)
    requires |a| == |b| && forall i | 0 <= i < |ps| :: ps[i].1 < |a| && a[ps[i].1] == b[ps[i].1]
    ensures Demand(a, ps, c) == Demand(b, ps, c)
  {
    if ps != [] {
      assert forall i | 0 <= i < |ps[1..]| :: ps[1..][i] == ps[i + 1];
      DemandSame(a, b, ps[1..], c);
    }
  }

  lemma DemandRemains(st: State, next: State, how: How, ps: seq<Pair>, b: nat)
    requires ps != [] && Apart(ps) && Sources(st, ps)
    requires how.ByMv? ==> forall i, j | 0 <= i < j < |ps| :: ps[i].1 != ps[j].1
    requires next.slots == Slots(st.slots, how, ps[0])
    ensures Demand(st.slots, ps, b) == Needs(st.slots, ps[0].1, b) + Demand(next.slots, ps[1..], b)
  {
    SourcesRemain(st, next, how, ps);
    assert forall i | 0 <= i < |ps[1..]| :: Reference(next, ps[1..][i].1);
    DemandSame(st.slots, next.slots, ps[1..], b);
  }

  /** One operation, and what it leaves to be done. */
  lemma FirstPair(st: State, how: How, ps: seq<Pair>)
    requires Ready(st, how, ps) && ps != []
    ensures Legal(st, OpOf(how, ps[0]))
    ensures var next := After(st, OpOf(how, ps[0]));
      && Ready(next, how, ps[1..]) && Meanings(next) == Carry(Meanings(st), how, ps[0])
      && next.slots == Slots(st.slots, how, ps[0]) && |next.blocks| == |st.blocks|
      && forall b | 0 <= b < |st.blocks| ::
           next.blocks[b].owed + (if how.ByBulk? then Needs(st.slots, ps[0].1, b) else 0) == st.blocks[b].owed
  {
    hide Legal, After, Counted, Anchored, Meanings, Due, Needs, Demand;
    var p, op := ps[0], OpOf(how, ps[0]);
    assert Spare(st, p.0) && Reference(st, p.1) && p.0 != p.1;
    FirstLegal(st, how, ps);
    FirstEffect(st, how, p);
    StepMeans(st, op);
    var next := After(st, op);
    CarriesOne(Meanings(st), how, p);
    SourcesRemain(st, next, how, ps);
    forall b | 0 <= b < |next.blocks|
      ensures how.ByCp? ==> Due(next, b) + Demand(next.slots, ps[1..], b) < WORD32
      ensures how.ByBulk? ==> next.blocks[b].owed >= Demand(next.slots, ps[1..], b)
    {
      FirstDue(st, how, p, b);
      DemandRemains(st, next, how, ps, b);
    }
  }

  // --- The whole series

  /** Each target stands for what its source stood for; a source that was moved stands for nothing; all others
      are as they were. */
  ghost predicate Carried(was: seq<Meaning>, now: seq<Meaning>, how: How, ps: seq<Pair>) {
    && |now| == |was|
    && (forall i | 0 <= i < |ps| :: At(now, ps[i].0) == At(was, ps[i].1))
    && (how.ByMv? ==> forall i | 0 <= i < |ps| :: At(now, ps[i].1) == Nothing)
    && forall x | 0 <= x < |was| && !Touched(how, ps, x) :: now[x] == was[x]
  }

  ghost predicate Touched(how: How, ps: seq<Pair>, x: nat) {
    exists i | 0 <= i < |ps| :: ps[i].0 == x || (how.ByMv? && ps[i].1 == x)
  }

  lemma CarriedFirst(was: seq<Meaning>, mid: seq<Meaning>, now: seq<Meaning>, how: How, ps: seq<Pair>)
    requires ps != [] && Apart(ps) && forall i | 0 <= i < |ps| :: ps[i].0 < |was| && ps[i].1 < |was|
    requires how.ByMv? ==> forall i, j | 0 <= i < j < |ps| :: ps[i].1 != ps[j].1
    requires mid == Carry(was, how, ps[0]) && Carried(mid, now, how, ps[1..])
    ensures Carried(was, now, how, ps)
  {
    var rest := ps[1..];
    assert forall i | 0 <= i < |rest| :: rest[i] == ps[i + 1];
    forall x | 0 <= x < |was| && Touched(how, rest, x) ensures Touched(how, ps, x) && x != ps[0].0 {
      var i :| 0 <= i < |rest| && (rest[i].0 == x || (how.ByMv? && rest[i].1 == x));
      assert ps[i + 1] == rest[i];
    }
    assert !Touched(how, rest, ps[0].0);
    assert Touched(how, ps, ps[0].0) && (how.ByMv? ==> Touched(how, ps, ps[0].1));
    forall i | 0 <= i < |ps| ensures At(now, ps[i].0) == At(was, ps[i].1) {
      if i > 0 {
        assert At(now, rest[i - 1].0) == At(mid, rest[i - 1].1);
      }
    }
  }

  /** Every operation of the series may be performed, and the references come to stand for what they should. */
  ghost predicate Succeeds(st: State, how: How, ps: seq<Pair>)
    requires Anchored(st)
  {
    LegalRun(st, Ops(how, ps)) &&
    var end := Ran(st, Ops(how, ps));
    && Inv(end) && Carried(Meanings(st), Meanings(end), how, ps)
    && |end.slots| == |st.slots| && |end.blocks| == |st.blocks|
    && (how.ByBulk? ==> forall b | 0 <= b < |st.blocks| ::
          end.blocks[b].owed + Demand(st.slots, ps, b) == st.blocks[b].owed)
  }

  lemma {:induction false} SeriesSucceeds(st: State, how: How, ps: seq<Pair>)
    requires Ready(st, how, ps)
    ensures Succeeds(st, how, ps)
    decreases |ps|
  {
    if ps == [] {
      assert Carried(Meanings(st), Meanings(st), how, ps);
    } else {
      FirstPair(st, how, ps);
      SeriesSucceeds(After(st, OpOf(how, ps[0])), how, ps[1..]);
      SeriesRest(st, how, ps);
    }
  }

  lemma SeriesRest(st: State, how: How, ps: seq<Pair>)
    requires Ready(st, how, ps) && ps != [] && Legal(st, OpOf(how, ps[0]))
    requires var next := After(st, OpOf(how, ps[0]));
      && Inv(next) && Meanings(next) == Carry(Meanings(st), how, ps[0])
      && next.slots == Slots(st.slots, how, ps[0]) && |next.blocks| == |st.blocks|
      && (forall b | 0 <= b < |st.blocks| ::
            next.blocks[b].owed + (if how.ByBulk? then Needs(st.slots, ps[0].1, b) else 0) == st.blocks[b].owed)
      && Succeeds(next, how, ps[1..])
    ensures Succeeds(st, how, ps)
  {
    hide Legal, After, Meanings, Carried, Carry, Demand, Needs, Counted, Anchored, Slots;
    var op := OpOf(how, ps[0]);
    var next := After(st, op);
    assert Ops(how, ps)[1..] == Ops(how, ps[1..]);
    var end := Ran(next, Ops(how, ps[1..]));
    assert Ran(st, Ops(how, ps)) == end;
    forall i | 0 <= i < |ps| ensures ps[i].0 < |st.slots| && ps[i].1 < |st.slots| {
      assert Spare(st, ps[i].0) && Reference(st, ps[i].1);
    }
    CarriedFirst(Meanings(st), Meanings(next), Meanings(end), how, ps);
    forall b | 0 <= b < |st.blocks| && how.ByBulk?
      ensures end.blocks[b].owed + Demand(st.slots, ps, b) == st.blocks[b].owed
    {
      DemandRemains(st, next, how, ps, b);
    }
  }

  // --- Messages: three references side by side, for the protocol header, the other headers and the body

  function MsgPairs(d: nat, s: nat): seq<Pair> {
    [(d, s), (d + 1, s + 1), (d + 2, s + 2)]
  }

  /** The three slots from d on stand for what those from s on stood for. */
  ghost predicate SameMessage(now: seq<Meaning>, d: nat, was: seq<Meaning>, s: nat) {
    At(now, d) == At(was, s) && At(now, d + 1) == At(was, s + 1) && At(now, d + 2) == At(was, s + 2)
  }

  /** Copying a message: the three copies may be made, the copy is the same message, and nothing else changes. */
  lemma MsgCopied(st: State, d: nat, s: nat)
    requires Inv(st) && (d + 2 < s || s + 2 < d)
    requires Sources(st, MsgPairs(d, s)) && Room(st, ByCp, MsgPairs(d, s))
    ensures var ops := Ops(ByCp, MsgPairs(d, s));
      && LegalRun(st, ops) && Inv(Ran(st, ops))
      && var was, now := Meanings(st), Meanings(Ran(st, ops));
      && |now| == |was| && SameMessage(now, d, was, s)
      && forall x | 0 <= x < |was| && !(d <= x < d + 3) :: now[x] == was[x]
  {
    var ps := MsgPairs(d, s);
    SeriesSucceeds(st, ByCp, ps);
    hide Carried, Meanings, Counted, Anchored, LegalRun, Ran;
    ThreeTouched(Meanings(st), Meanings(Ran(st, Ops(ByCp, ps))), ByCp, d, s);
  }

  /** Moving a message: the target is the same message, and the source is none any more. */
  lemma MsgMoved(st: State, d: nat, s: nat)
    requires Inv(st) && (d + 2 < s || s + 2 < d) && Sources(st, MsgPairs(d, s))
    ensures var ops := Ops(ByMv, MsgPairs(d, s));
      && LegalRun(st, ops) && Inv(Ran(st, ops))
      && var was, now := Meanings(st), Meanings(Ran(st, ops));
      && |now| == |was| && SameMessage(now, d, was, s)
      && At(now, s) == At(now, s + 1) == At(now, s + 2) == Nothing
      && forall x | 0 <= x < |was| && !(d <= x < d + 3) && !(s <= x < s + 3) :: now[x] == was[x]
  {
    var ps := MsgPairs(d, s);
    SeriesSucceeds(st, ByMv, ps);
    hide Carried, Meanings, Counted, Anchored, LegalRun, Ran;
    ThreeTouched(Meanings(st), Meanings(Ran(st, Ops(ByMv, ps))), ByMv, d, s);
  }

  lemma ThreeTouched(was: seq<Meaning>, now: seq<Meaning>, how: How, d: nat, s: nat)
    requires Carried(was, now, how, MsgPairs(d, s))
    ensures SameMessage(now, d, was, s)
    ensures how.ByMv? ==> At(now, s) == At(now, s + 1) == At(now, s + 2) == Nothing
    ensures forall x | 0 <= x < |was| && !(d <= x < d + 3) && !(how.ByMv? && s <= x < s + 3) :: now[x] == was[x]
  {
    var ps := MsgPairs(d, s);
    assert ps[0] == (d, s) && ps[1] == (d + 1, s + 1) && ps[2] == (d + 2, s + 2);
  }

  // --- Bulk copies of messages

  /** The announcements of n copies of each source. */
  function Starts(ps: seq<Pair>, n: nat): seq<Op> {
    if ps == [] then [] else [BulkStart(ps[0].1, n)] + Starts(ps[1..], n)
  }

  function AllPairs(ds: seq<nat>, s: nat): seq<Pair> {
    if ds == [] then [] else MsgPairs(ds[0], s) + AllPairs(ds[1..], s)
  }

  lemma Times(n: nat, a: nat, b: nat)
    ensures n * (a + b) == n * a + n * b && 0 <= n * a && 0 <= n * b
  {
  }

  /** Every chunk has room for n more references from each source. */
  ghost predicate BulkRoom(st: State, ps: seq<Pair>, n: nat) {
    && (forall i | 0 <= i < |ps| :: Reference(st, ps[i].1))
    && forall b | 0 <= b < |st.blocks| :: Due(st, b) + n * Demand(st.slots, ps, b) < WORD32
  }

  lemma FirstStart(st: State, ps: seq<Pair>, n: nat)
    requires Inv(st) && BulkRoom(st, ps, n) && ps != []
    ensures var op := BulkStart(ps[0].1, n);
      && Legal(st, op)
      && var next := After(st, op);
      && Inv(next) && Meanings(next) == Meanings(st) && next.slots == st.slots && |next.blocks| == |st.blocks|
      && BulkRoom(next, ps[1..], n)
      && forall b | 0 <= b < |st.blocks| ::
           next.blocks[b].owed == st.blocks[b].owed + n * Needs(st.slots, ps[0].1, b)
  {
    hide Legal, After, Counted, Anchored, Due, Needs, Meanings;
    var op, s := BulkStart(ps[0].1, n), ps[0].1;
    assert Reference(st, s);
    forall b | 0 <= b < |st.blocks|
      ensures n * Demand(st.slots, ps, b) == n * Needs(st.slots, s, b) + n * Demand(st.slots, ps[1..], b)
      ensures 0 <= n * Demand(st.slots, ps[1..], b)
    {
      Times(n, Needs(st.slots, s, b), Demand(st.slots, ps[1..], b));
    }
    StartLegal(st, s, n);
    StartEffect(st, s, n);
    StepMeans(st, op);
    assert forall i | 0 <= i < |ps[1..]| :: ps[1..][i] == ps[i + 1];
  }

  lemma StartLegal(st: State, s: nat, n: nat)
    requires Anchored(st) && Reference(st, s)
    requires forall b | 0 <= b < |st.blocks| :: Due(st, b) + n * Needs(st.slots, s, b) < WORD32
    ensures Legal(st, BulkStart(s, n))
  {
    hide Due;
    assert Anchor(st.blocks, st.slots[s]);
    if st.slots[s].Long? {
      assert Needs(st.slots, s, st.slots[s].block) == 1;
    }
  }

  lemma StartEffect(st: State, s: nat, n: nat)
    requires Anchored(st) && Reference(st, s) && Legal(st, BulkStart(s, n))
    ensures var next := After(st, BulkStart(s, n));
      && next.slots == st.slots && |next.blocks| == |st.blocks|
      && forall b | 0 <= b < |st.blocks| ::
           && next.blocks[b].owed == st.blocks[b].owed + n * Needs(st.slots, s, b)
           && Due(next, b) == Due(st, b) + n * Needs(st.slots, s, b)
  {
    assert Anchor(st.blocks, st.slots[s]);
    hide Legal, Anchored, Holders;
    var next := After(st, BulkStart(s, n));
    forall b | 0 <= b < |st.blocks| ensures next.blocks[b].owed == st.blocks[b].owed + n * Needs(st.slots, s, b) {
      assert Needs(st.slots, s, b) == 0 || Needs(st.slots, s, b) == 1;
    }
  }

  /** All announcements may be made; they add to what is owed, and change no message. */
  lemma {:induction false} StartsSucceed(st: State, ps: seq<Pair>, n: nat)
    requires Inv(st) && BulkRoom(st, ps, n)
    ensures LegalRun(st, Starts(ps, n))
    ensures var end := Ran(st, Starts(ps, n));
      && Inv(end) && Meanings(end) == Meanings(st) && end.slots == st.slots && |end.blocks| == |st.blocks|
      && forall b | 0 <= b < |st.blocks| :: end.blocks[b].owed == st.blocks[b].owed + n * Demand(st.slots, ps, b)
    decreases |ps|
  {
    hide Legal, After, Meanings, Counted, Anchored, BulkRoom, Needs;
    if ps != [] {
      FirstStart(st, ps, n);
      var next := After(st, BulkStart(ps[0].1, n));
      StartsSucceed(next, ps[1..], n);
      assert Starts(ps, n)[1..] == Starts(ps[1..], n);
      forall b | 0 <= b < |st.blocks|
        ensures n * Demand(st.slots, ps, b) == n * Needs(st.slots, ps[0].1, b) + n * Demand(st.slots, ps[1..], b)
      {
        Times(n, Needs(st.slots, ps[0].1, b), Demand(st.slots, ps[1..], b));
      }
    }
  }

  lemma {:induction false} DemandConcat(slots: seq<Slot>, p: seq<Pair>, q: seq<Pair>, b: nat)
    ensures Demand(slots, p + q, b) == Demand(slots, p, b) + Demand(slots, q, b)
    decreases |p|
  {
    if p == [] {
      assert p + q == q;
    } else {
      assert (p + q)[1..] == p[1..] + q;
      DemandConcat(slots, p[1..], q, b);
    }
  }

  /** Each copy of a message needs the same of a chunk. */
  lemma {:induction false} AllDemand(slots: seq<Slot>, ds: seq<nat>, s: nat, b: nat)
    ensures Demand(slots, AllPairs(ds, s), b) == |ds| * Demand(slots, MsgPairs(s, s), b)
    decreases |ds|
  {
    if ds != [] {
      var one := Demand(slots, MsgPairs(s, s), b);
      AllDemand(slots, ds[1..], s, b);
      DemandConcat(slots, MsgPairs(ds[0], s), AllPairs(ds[1..], s), b);
      ThreeNeeds(slots, ds[0], s, b);
      ThreeNeeds(slots, s, s, b);
      assert |ds| * one == (|ds| - 1) * one + one;
    }
  }

  lemma ThreeNeeds(slots: seq<Slot>, d: nat, s: nat, b: nat)
    ensures Demand(slots, MsgPairs(d, s), b) ==
            Needs(slots, s, b) + Needs(slots, s + 1, b) + Needs(slots, s + 2, b)
  {
    var third: seq<Pair> := [(d + 2, s + 2)] + [];
    var second: seq<Pair> := [(d + 1, s + 1)] + third;
    assert MsgPairs(d, s) == [(d, s)] + second;
    DemandFirst(slots, (d, s), second, b);
    DemandFirst(slots, (d + 1, s + 1), third, b);
    DemandFirst(slots, (d + 2, s + 2), [], b);
  }

  lemma DemandFirst(slots: seq<Slot>, p: Pair, ps: seq<Pair>, b: nat)
    ensures Demand(slots, [p] + ps, b) == Needs(slots, p.1, b) + Demand(slots, ps, b)
  {
    assert ([p] + ps)[1..] == ps;
  }

  lemma {:induction false} RunConcat(st: State, a: seq<Op>, b: seq<Op>)
    requires LegalRun(st, a) && LegalRun(Ran(st, a), b)
    ensures LegalRun(st, a + b) && Ran(st, a + b) == Ran(Ran(st, a), b)
    decreases |a|
  {
    hide Legal, After, Anchored;
    if a == [] {
      assert a + b == b;
    } else {
      assert (a + b)[1..] == a[1..] + b;
      RunConcat(After(st, a[0]), a[1..], b);
    }
  }

  /** A message is announced for bulk copying once for each target, and then copied to each: all of this may be
      done, every target is the same message, nothing else changes, and no chunk is owed more than before. */
  lemma MsgBulkCopied(st: State, ds: seq<nat>, s: nat)
    requires Inv(st) && Apart(AllPairs(ds, s)) && Sources(st, AllPairs(ds, s))
    requires BulkRoom(st, MsgPairs(s, s), |ds|)
    ensures var ops := Starts(MsgPairs(s, s), |ds|) + Ops(ByBulk, AllPairs(ds, s));
      && LegalRun(st, ops) && Inv(Ran(st, ops))
      && Carried(Meanings(st), Meanings(Ran(st, ops)), ByBulk, AllPairs(ds, s))
      && |Ran(st, ops).blocks| == |st.blocks|
      && forall b | 0 <= b < |st.blocks| :: Ran(st, ops).blocks[b].owed == st.blocks[b].owed
  {
    hide Legal, After, Meanings, Counted, Anchored, Carried, BulkRoom, Demand, Apart;
    var starts, copies := Starts(MsgPairs(s, s), |ds|), Ops(ByBulk, AllPairs(ds, s));
    StartsSucceed(st, MsgPairs(s, s), |ds|);
    var mid := Ran(st, starts);
    assert forall x: nat :: Spare(mid, x) == Spare(st, x) && Reference(mid, x) == Reference(st, x);
    forall b | 0 <= b < |st.blocks|
      ensures Demand(st.slots, AllPairs(ds, s), b) == |ds| * Demand(st.slots, MsgPairs(s, s), b)
    {
      AllDemand(st.slots, ds, s, b);
    }
    SeriesSucceeds(mid, ByBulk, AllPairs(ds, s));
    RunConcat(st, starts, copies);
  }
}
