/** Producers and one consumer around a ring of numbers in shared memory, with three semaphores.  Every semaphore
    operation and every access to the shared fields is a step of its own. */
module BoundedBuffer {
  const BUFFER_SIZE := 10000

  /** Where a process is in its round: before the first wait, before the wait for the mutex, before each of the
      three statements of the critical section, before the post of the mutex, before the last post. */
  datatype Pc = Idle | Claimed | Entered | Moved | Advanced | Counted | Left

  datatype Producer = Producer(pc: Pc, i: nat)

  /** rounds: the number of items of each producer.  inserted and consumed record what was written to the buffer,
      and by whom, and what was read from it. */
  datatype State = State(
    empty: int, full: int, mutex: int, inn: int, out: int, count: int, buffer: seq<int>,
    producers: seq<Producer>, pc: Pc, i: nat, rounds: nat,
    inserted: seq<(nat, int)>, consumed: seq<int>)

  function Start(threads: nat, rounds: nat): State {
    State(BUFFER_SIZE, 0, 1, 0, 0, 0, seq(BUFFER_SIZE, i => 0), seq(threads, i => Producer(Idle, 0)), Idle, 0, rounds,
          [], [])
  }

  datatype Who = Send(k: nat) | Receive

  predicate Enabled(st: State, who: Who) {
    match who
    case Send(k) => (
      && k < |st.producers| && st.producers[k].i < st.rounds
      && (st.producers[k].pc.Idle? ==> st.empty > 0)
      && (st.producers[k].pc.Claimed? ==> st.mutex > 0)
      && (st.producers[k].pc.Entered? ==> 0 <= st.inn < |st.buffer|))
    case Receive => (
      && st.i < st.rounds * |st.producers|
      && (st.pc.Idle? ==> st.full > 0)
      && (st.pc.Claimed? ==> st.mutex > 0)
      && (st.pc.Entered? ==> 0 <= st.out < |st.buffer|))
  }

  function After(st: State, who: Who): State
    requires Enabled(st, who)
  {
    match who
    case Send(k) =>
      var p := st.producers[k];
      (match p.pc
       case Idle => st.(empty := st.empty - 1, producers := st.producers[k := p.(pc := Claimed)])
       case Claimed => st.(mutex := st.mutex - 1, producers := st.producers[k := p.(pc := Entered)])
       case Entered => st.(buffer := st.buffer[st.inn := p.i], inserted := st.inserted + [(k, p.i)],
                           producers := st.producers[k := p.(pc := Moved)])
       case Moved => st.(inn := (st.inn + 1) % BUFFER_SIZE, producers := st.producers[k := p.(pc := Advanced)])
       case Advanced => st.(count := st.count + 1, producers := st.producers[k := p.(pc := Counted)])
       case Counted => st.(mutex := st.mutex + 1, producers := st.producers[k := p.(pc := Left)])
       case Left => st.(full := st.full + 1, producers := st.producers[k := Producer(Idle, p.i + 1)]))
    case Receive =>
      (match st.pc
       case Idle => st.(full := st.full - 1, pc := Claimed)
       case Claimed => st.(mutex := st.mutex - 1, pc := Entered)
       case Entered => st.(consumed := st.consumed + [st.buffer[st.out]], pc := Moved)
       case Moved => st.(out := (st.out + 1) % BUFFER_SIZE, pc := Advanced)
       case Advanced => st.(count := st.count - 1, pc := Counted)
       case Counted => st.(mutex := st.mutex + 1, pc := Left)
       case Left => st.(empty := st.empty + 1, pc := Idle, i := st.i + 1))
  }

  // --- Sums over the producers

  function Sum(ps: seq<Producer>, f: Producer -> int): int {
    if ps == [] then 0 else f(ps[0]) + Sum(ps[1..], f)
  }

  lemma {:induction false} SumUpdate(ps: seq<Producer>, k: nat, p: Producer, f: Producer -> int)
    requires k < |ps|
    ensures Sum(ps[k := p], f) == Sum(ps, f) - f(ps[k]) + f(p)
  {
    if k == 0 {
      assert ps[k := p][1..] == ps[1..];
    } else {
      assert ps[k := p][1..] == ps[1..][k - 1 := p];
      SumUpdate(ps[1..], k - 1, p, f);
    }
  }

  /** A larger weight has a larger sum. */
  lemma {:induction false} SumAtMost(ps: seq<Producer>, f: Producer -> int, g: Producer -> int)
    requires forall p :: f(p) <= g(p)
    ensures Sum(ps, f) <= Sum(ps, g)
  {
    if ps != [] {
      SumAtMost(ps[1..], f, g);
    }
  }

  lemma {:induction false} SumOf(ps: seq<Producer>, f: Producer -> int, c: int)
    requires forall k | 0 <= k < |ps| :: f(ps[k]) == c
    ensures Sum(ps, f) == c * |ps|
  {
    if ps != [] {
      SumOf(ps[1..], f, c);
    }
  }

  function Bit(b: bool): int {
    if b then 1 else 0
  }

  // --- The weights

  predicate Inside(pc: Pc) {
    pc.Entered? || pc.Moved? || pc.Advanced? || pc.Counted?
  }

  /** The slot is claimed and not used yet. */
  predicate Before(pc: Pc) {
    pc.Claimed? || pc.Entered?
  }

  /** The slot has been used and not passed on yet. */
  predicate Behind(pc: Pc) {
    pc.Moved? || pc.Advanced? || pc.Counted? || pc.Left?
  }

  predicate Uncounted(pc: Pc) {
    pc.Moved? || pc.Advanced?
  }

  const IN_CS := (p: Producer) => Bit(Inside(p.pc))
  const CLAIMS := (p: Producer) => Bit(Before(p.pc))
  const BEHINDS := (p: Producer) => Bit(Behind(p.pc))
  const AT_MOVED := (p: Producer) => Bit(p.pc.Moved?)
  const UNCOUNTED := (p: Producer) => Bit(Uncounted(p.pc))
  const WRITTEN := (p: Producer) => p.i + Bit(Behind(p.pc))
  const ZERO := (p: Producer) => 0

  // --- What holds in every reachable state

  /** The numbers of producer k, in the order of their insertion. */
  function Of(s: seq<(nat, int)>, k: nat): seq<int> {
    if s == [] then []
    else Of(s[..|s| - 1], k) + if s[|s| - 1].0 == k then [s[|s| - 1].1] else []
  }

  function UpTo(n: nat): seq<int> {
    seq(n, i => i)
  }

  /** The items in the buffer. */
  function Held(st: State): int {
    |st.inserted| - |st.consumed|
  }

  ghost predicate Exclusive(st: State) {
    st.mutex >= 0 && st.mutex + Sum(st.producers, IN_CS) + Bit(Inside(st.pc)) == 1
  }

  /** Every slot is free, claimed, full, or on its way between the semaphores. */
  ghost predicate Slots(st: State) {
    && st.empty >= 0 && st.full >= 0
    && Held(st) == st.full + Sum(st.producers, BEHINDS) + Bit(Before(st.pc))
    && BUFFER_SIZE - Held(st) == st.empty + Sum(st.producers, CLAIMS) + Bit(Behind(st.pc))
  }

  ghost predicate Indices(st: State) {
    && |st.buffer| == BUFFER_SIZE
    && st.inn == (|st.inserted| - Sum(st.producers, AT_MOVED)) % BUFFER_SIZE
    && st.out == (|st.consumed| - Bit(st.pc.Moved?)) % BUFFER_SIZE
    && st.count == Held(st) - Sum(st.producers, UNCOUNTED) + Bit(Uncounted(st.pc))
  }

  /** The ring holds what was inserted and not consumed yet, and what was consumed came in that order. */
  ghost predicate Fifo(st: State) {
    && 0 <= Held(st) && |st.buffer| == BUFFER_SIZE
    && (forall j | 0 <= j < |st.consumed| :: st.consumed[j] == st.inserted[j].1)
    && (forall j | |st.consumed| <= j < |st.inserted| :: st.buffer[j % BUFFER_SIZE] == st.inserted[j].1)
  }

  ghost predicate Progress(st: State) {
    && |st.inserted| == Sum(st.producers, WRITTEN)
    && |st.consumed| == st.i + Bit(Behind(st.pc))
    && st.i <= st.rounds * |st.producers| && (st.i == st.rounds * |st.producers| ==> st.pc.Idle?)
    && forall k | 0 <= k < |st.producers| :: InTurn(st, k)
  }

  /** Producer k has inserted its numbers so far, in order. */
  ghost predicate InTurn(st: State, k: nat)
    requires k < |st.producers|
  {
    var p := st.producers[k];
    && p.i <= st.rounds && (p.i == st.rounds ==> p.pc.Idle?)
    && Of(st.inserted, k) == UpTo(p.i + Bit(Behind(p.pc)))
  }

  ghost predicate Inv(st: State) {
    Exclusive(st) && Slots(st) && Indices(st) && Fifo(st) && Progress(st)
  }

  lemma NotNegative(ps: seq<Producer>, f: Producer -> int)
    requires forall p :: 0 <= f(p)
    ensures 0 <= Sum(ps, f)
  {
    SumAtMost(ps, ZERO, f);
    SumOf(ps, ZERO, 0);
  }

  /** A producer inside the critical section is alone there: whatever is counted of processes inside is counted
      of it. */
  lemma ProducerAlone(st: State, k: nat, f: Producer -> int)
    requires Exclusive(st) && k < |st.producers| && Inside(st.producers[k].pc)
    requires forall p :: 0 <= f(p) <= IN_CS(p)
    ensures Sum(st.producers, f) == f(st.producers[k]) && !Inside(st.pc) && st.mutex == 0
  {
    var idle := Producer(Idle, 0);
    var others := st.producers[k := idle];
    SumUpdate(st.producers, k, idle, IN_CS);
    SumUpdate(st.producers, k, idle, f);
    NotNegative(others, f);
    SumAtMost(others, f, IN_CS);
    assert IN_CS(idle) == 0 && f(idle) == 0;
  }

  function Moving(st: State, k: nat): Producer
    requires Enabled(st, Send(k))
  {
    After(st, Send(k)).producers[k]
  }

  lemma OneMoves(st: State, k: nat, f: Producer -> int)
    requires Enabled(st, Send(k))
    ensures After(st, Send(k)).producers == st.producers[k := Moving(st, k)]
    ensures Sum(After(st, Send(k)).producers, f) == Sum(st.producers, f) - f(st.producers[k]) + f(Moving(st, k))
  {
    SumUpdate(st.producers, k, Moving(st, k), f);
  }

  lemma StepExclusive(st: State, who: Who)
    requires Exclusive(st) && Enabled(st, who)
    ensures Exclusive(After(st, who))
  {
    if who.Send? {
      OneMoves(st, who.k, IN_CS);
      NotNegative(After(st, who).producers, IN_CS);
    } else {
      NotNegative(st.producers, IN_CS);
    }
  }

  lemma SendSlots(st: State, k: nat)
    requires Slots(st) && Enabled(st, Send(k))
    ensures Slots(After(st, Send(k)))
  {
    hide Sum;
    OneMoves(st, k, BEHINDS);
    OneMoves(st, k, CLAIMS);
  }

  lemma ReceiveSlots(st: State)
    requires Slots(st) && Enabled(st, Receive)
    ensures Slots(After(st, Receive))
  {
    hide Sum;
  }

  lemma ModStep(x: int)
    ensures ((x - 1) % BUFFER_SIZE + 1) % BUFFER_SIZE == x % BUFFER_SIZE
  {
  }

  lemma ModApart(x: int, y: int)
    requires x < y < x + BUFFER_SIZE
    ensures x % BUFFER_SIZE != y % BUFFER_SIZE
  {
  }

  lemma SendIndices(st: State, k: nat)
    requires Exclusive(st) && Indices(st) && Enabled(st, Send(k))
    ensures Indices(After(st, Send(k)))
  {
    hide Sum;
    ModStep(|st.inserted|);
    OneMoves(st, k, AT_MOVED);
    OneMoves(st, k, UNCOUNTED);
    if Inside(st.producers[k].pc) {
      ProducerAlone(st, k, AT_MOVED);
      ProducerAlone(st, k, UNCOUNTED);
    }
  }

  lemma ReceiveIndices(st: State)
    requires Indices(st) && Enabled(st, Receive)
    ensures Indices(After(st, Receive))
  {
    hide Sum;
    ModStep(|st.consumed|);
  }

  lemma StepFifo(st: State, who: Who)
    requires Inv(st) && Enabled(st, who)
    ensures Fifo(After(st, who))
  {
    match who
    case Send(k) =>
      if st.producers[k].pc.Entered? {
        PutsBehind(st, k);
      }
    case Receive =>
      if st.pc.Entered? {
        TakesFirst(st);
      }
  }

  /** A producer that writes has a free slot, behind the last item. */
  lemma PutsBehind(st: State, k: nat)
    requires Inv(st) && Enabled(st, Send(k)) && st.producers[k].pc.Entered?
    ensures Held(st) < BUFFER_SIZE && Fifo(After(st, Send(k)))
  {
    hide Progress, Sum;
    ProducerAlone(st, k, AT_MOVED);
    OneMoves(st, k, CLAIMS);
    NotNegative(After(st, Send(k)).producers, CLAIMS);
    var st' := After(st, Send(k));
    assert st.inn == |st.inserted| % BUFFER_SIZE;
    forall j | |st'.consumed| <= j < |st'.inserted| ensures st'.buffer[j % BUFFER_SIZE] == st'.inserted[j].1 {
      if j < |st.inserted| {
        ModApart(j, |st.inserted|);
      }
    }
  }

  /** A consumer that reads has an item, and it is the first. */
  lemma TakesFirst(st: State)
    requires Inv(st) && Enabled(st, Receive) && st.pc.Entered?
    ensures Held(st) > 0 && Fifo(After(st, Receive))
  {
    hide Progress, Sum;
    NotNegative(st.producers, BEHINDS);
    assert st.buffer[st.out] == st.inserted[|st.consumed|].1;
  }

  lemma OfAppend(s: seq<(nat, int)>, x: (nat, int), k: nat)
    ensures Of(s + [x], k) == Of(s, k) + if x.0 == k then [x.1] else []
  {
    assert (s + [x])[..|s|] == s;
  }

  lemma UpToStep(n: nat)
    ensures UpTo(n + 1) == UpTo(n) + [n as int]
  {
  }

  lemma StepInTurn(st: State, who: Who, k: nat)
    requires Enabled(st, who) && k < |st.producers| && InTurn(st, k)
    ensures InTurn(After(st, who), k)
  {
    hide Of, UpTo;
    if who.Send? && st.producers[who.k].pc.Entered? {
      OfAppend(st.inserted, (who.k, st.producers[who.k].i), k);
      UpToStep(st.producers[k].i);
      assert Of(st.inserted, k) + [] == Of(st.inserted, k);
    }
  }

  lemma StepProgress(st: State, who: Who)
    requires Progress(st) && Enabled(st, who)
    ensures Progress(After(st, who))
  {
    var st' := After(st, who);
    assert |st'.producers| == |st.producers|;
    if who.Send? {
      OneMoves(st, who.k, WRITTEN);
    }
    forall k | 0 <= k < |st'.producers| ensures InTurn(st', k) {
      StepInTurn(st, who, k);
    }
  }

  lemma StepKeeps(st: State, who: Who)
    requires Inv(st) && Enabled(st, who)
    ensures Inv(After(st, who))
  {
    hide Exclusive, Slots, Indices, Fifo, Progress;
    StepExclusive(st, who);
    match who {
      case Send(k) =>
        SendSlots(st, k);
        SendIndices(st, k);
      case Receive =>
        ReceiveSlots(st);
        ReceiveIndices(st);
    }
    StepFifo(st, who);
    StepProgress(st, who);
  }

  lemma StartInv(threads: nat, rounds: nat)
    ensures Inv(Start(threads, rounds))
  {
    var ps := Start(threads, rounds).producers;
    hide Sum;
    SumOf(ps, IN_CS, 0);
    SumOf(ps, CLAIMS, 0);
    SumOf(ps, BEHINDS, 0);
    SumOf(ps, AT_MOVED, 0);
    SumOf(ps, UNCOUNTED, 0);
    SumOf(ps, WRITTEN, 0);
    Product(rounds, threads);
  }

  lemma Product(a: nat, b: nat)
    ensures 0 <= a * b
  {
  }

  // --- What a reader of the shared fields can rely on

  /** The count stays between 0 and the size, the places and the semaphores add up to it, the indices are in
      the buffer, and at most one process is between the operations on the mutex. */
  lemma Bounds(st: State)
    requires Inv(st)
    ensures 0 <= st.count <= BUFFER_SIZE && 0 <= st.inn < BUFFER_SIZE && 0 <= st.out < BUFFER_SIZE
    ensures st.empty + st.full + Sum(st.producers, CLAIMS) + Sum(st.producers, BEHINDS)
      + Bit(Before(st.pc)) + Bit(Behind(st.pc)) == BUFFER_SIZE
    ensures Sum(st.producers, IN_CS) + Bit(Inside(st.pc)) <= 1
  {
    hide Progress, Fifo;
    NotNegative(st.producers, CLAIMS);
    NotNegative(st.producers, BEHINDS);
    NotNegative(st.producers, IN_CS);
    SumAtMost(st.producers, UNCOUNTED, BEHINDS);
    NotNegative(st.producers, UNCOUNTED);
  }

  // --- No run gets stuck

  predicate Done(st: State) {
    st.i == st.rounds * |st.producers| && forall k | 0 <= k < |st.producers| :: st.producers[k].i == st.rounds
  }

  /** Producer k is in the middle of a round, and not at the wait for the mutex. */
  predicate Runs(p: Producer) {
    !p.pc.Idle? && !p.pc.Claimed?
  }

  lemma Unstuck(st: State)
    requires Inv(st) && !Done(st)
    ensures exists who :: Enabled(st, who)
  {
    hide Fifo, Slots, Exclusive;
    if k :| 0 <= k < |st.producers| && Runs(st.producers[k]) {
      assert InTurn(st, k);
      ModInside(st);
      assert Enabled(st, Send(k));
    } else if !st.pc.Idle? && !st.pc.Claimed? {
      ModInside(st);
      assert Enabled(st, Receive);
    } else {
      MutexFree(st);
      if k :| 0 <= k < |st.producers| && st.producers[k].pc.Claimed? {
        assert InTurn(st, k);
        assert Enabled(st, Send(k));
      } else if st.pc.Claimed? {
        assert Enabled(st, Receive);
      } else {
        AllIdle(st);
      }
    }
  }

  lemma ModInside(st: State)
    requires Indices(st)
    ensures 0 <= st.inn < |st.buffer| && 0 <= st.out < |st.buffer|
  {
  }

  lemma MutexFree(st: State)
    requires Exclusive(st) && (forall k | 0 <= k < |st.producers| :: !Runs(st.producers[k])) && !Inside(st.pc)
    ensures st.mutex > 0
  {
    SumOf(st.producers, IN_CS, 0);
  }

  /** With everybody at the start of a round, either a slot is free and somebody has something to insert, or
      there is an item to be consumed. */
  lemma AllIdle(st: State)
    requires Inv(st) && !Done(st) && st.pc.Idle? && forall k | 0 <= k < |st.producers| :: st.producers[k].pc.Idle?
    ensures exists who :: Enabled(st, who)
  {
    var ps := st.producers;
    SumOf(ps, CLAIMS, 0);
    SumOf(ps, BEHINDS, 0);
    assert st.empty + st.full == BUFFER_SIZE && Held(st) == st.full;
    if k :| 0 <= k < |ps| && ps[k].i != st.rounds {
      assert InTurn(st, k);
      if st.empty > 0 {
        assert Enabled(st, Send(k));
      } else {
        WrittenAtMost(st, k);
        assert Enabled(st, Receive);
      }
    } else {
      SumOf(ps, WRITTEN, st.rounds);
      assert Enabled(st, Receive);
    }
  }

  /** While a producer has numbers left, not all have been inserted. */
  lemma WrittenAtMost(st: State, k: nat)
    requires Progress(st) && k < |st.producers| && st.producers[k].i < st.rounds && st.producers[k].pc.Idle?
    ensures |st.inserted| < st.rounds * |st.producers|
  {
    forall j | 0 <= j < |st.producers| ensures WRITTEN(st.producers[j]) <= st.rounds {
      assert InTurn(st, j);
    }
    WrittenBelow(st.producers, st.rounds, k);
  }

  lemma {:induction false} WrittenBelow(ps: seq<Producer>, n: int, k: nat)
    requires k < |ps| && (forall j | 0 <= j < |ps| :: WRITTEN(ps[j]) <= n) && WRITTEN(ps[k]) < n
    ensures Sum(ps, WRITTEN) < n * |ps|
  {
    OneFewer(n, |ps|);
    if k == 0 {
      SumBelow(ps[1..], WRITTEN, n);
    } else {
      WrittenBelow(ps[1..], n, k - 1);
    }
  }

  lemma {:induction false} SumBelow(ps: seq<Producer>, f: Producer -> int, n: int)
    requires forall j | 0 <= j < |ps| :: f(ps[j]) <= n
    ensures Sum(ps, f) <= n * |ps|
  {
    if ps != [] {
      OneFewer(n, |ps|);
      SumBelow(ps[1..], f, n);
    }
  }

  lemma OneFewer(n: int, m: int)
    ensures n * m == n * (m - 1) + n
  {
  }

  // --- Every run ends

  function Rank(pc: Pc): nat {
    match pc
    case Idle => 0
    case Claimed => 1
    case Entered => 2
    case Moved => 3
    case Advanced => 4
    case Counted => 5
    case Left => 6
  }

  const STEPS := (p: Producer) => 7 * p.i + Rank(p.pc)

  /** The steps that have been taken. */
  function Taken(st: State): int {
    Sum(st.producers, STEPS) + 7 * st.i + Rank(st.pc)
  }

  lemma StepTaken(st: State, who: Who)
    requires Enabled(st, who)
    ensures Taken(After(st, who)) == Taken(st) + 1
    ensures |After(st, who).producers| == |st.producers| && After(st, who).rounds == st.rounds
  {
    if who.Send? {
      OneMoves(st, who.k, STEPS);
    }
  }

  ghost predicate Run(st: State, whos: seq<Who>)
    decreases |whos|
  {
    whos == [] || (Enabled(st, whos[0]) && Run(After(st, whos[0]), whos[1..]))
  }

  function Ran(st: State, whos: seq<Who>): State
    requires Run(st, whos)
    decreases |whos|
  {
    if whos == [] then st else Ran(After(st, whos[0]), whos[1..])
  }

  lemma {:induction false} RunKeeps(st: State, whos: seq<Who>)
    requires Inv(st) && Run(st, whos)
    ensures var end := Ran(st, whos);
      && Inv(end) && Taken(end) == Taken(st) + |whos|
      && |end.producers| == |st.producers| && end.rounds == st.rounds
    decreases |whos|
  {
    hide Inv, Enabled, After, Taken;
    if whos != [] {
      StepKeeps(st, whos[0]);
      StepTaken(st, whos[0]);
      RunKeeps(After(st, whos[0]), whos[1..]);
    }
  }

  lemma DoneTaken(st: State)
    requires Inv(st) && Done(st)
    ensures Taken(st) == 7 * (st.rounds * |st.producers|) + 7 * (st.rounds * |st.producers|)
  {
    var n, ps := st.rounds, st.producers;
    forall k | 0 <= k < |ps| ensures STEPS(ps[k]) == 7 * n {
      assert InTurn(st, k);
    }
    SumOf(ps, STEPS, 7 * n);
    Sevenfold(n, |ps|);
  }

  lemma Sevenfold(n: int, m: int)
    ensures 7 * n * m == 7 * (n * m)
  {
  }

  /** However the processes interleave, a run that cannot go on has consumed everything that every producer had
      to send, each producer's numbers in their order, after 14 steps for each item. */
  lemma RunEnds(threads: nat, rounds: nat, whos: seq<Who>)
    requires Run(Start(threads, rounds), whos)
    ensures var end := Ran(Start(threads, rounds), whos);
      (forall who :: !Enabled(end, who)) ==>
        && |whos| == 14 * (rounds * threads)
        && |end.consumed| == |end.inserted| == rounds * threads
        && (forall j | 0 <= j < |end.consumed| :: end.consumed[j] == end.inserted[j].1)
        && forall k | 0 <= k < threads :: Of(end.inserted, k) == UpTo(rounds)
  {
    var start := Start(threads, rounds);
    StartInv(threads, rounds);
    RunKeeps(start, whos);
    SumOf(start.producers, STEPS, 0);
    var end := Ran(start, whos);
    if forall who :: !Enabled(end, who) {
      if !Done(end) {
        Unstuck(end);
      }
      DoneTaken(end);
      AllConsumed(end);
    }
  }

  lemma AllConsumed(st: State)
    requires Inv(st) && Done(st)
    ensures |st.consumed| == |st.inserted| == st.rounds * |st.producers|
    ensures forall j | 0 <= j < |st.consumed| :: st.consumed[j] == st.inserted[j].1
    ensures forall k | 0 <= k < |st.producers| :: Of(st.inserted, k) == UpTo(st.rounds)
  {
    forall k | 0 <= k < |st.producers| ensures WRITTEN(st.producers[k]) == st.rounds && st.producers[k].pc.Idle? {
      assert InTurn(st, k);
    }
    SumOf(st.producers, WRITTEN, st.rounds);
    forall k | 0 <= k < |st.producers| ensures Of(st.inserted, k) == UpTo(st.rounds) {
      assert InTurn(st, k);
    }
  }

  /** At any moment of a run what has been consumed is the beginning of what has been inserted. */
  lemma RunInOrder(threads: nat, rounds: nat, whos: seq<Who>)
    requires Run(Start(threads, rounds), whos)
    ensures var end := Ran(Start(threads, rounds), whos);
      && |end.consumed| <= |end.inserted|
      && (forall j | 0 <= j < |end.consumed| :: end.consumed[j] == end.inserted[j].1)
      && |whos| <= 14 * (rounds * threads)
  {
    StartInv(threads, rounds);
    RunKeeps(Start(threads, rounds), whos);
    SumOf(Start(threads, rounds).producers, STEPS, 0);
    TakenAtMost(Ran(Start(threads, rounds), whos));
  }

  lemma TakenAtMost(st: State)
    requires Inv(st)
    ensures Taken(st) <= 14 * (st.rounds * |st.producers|)
  {
    hide Sum, Fifo, Slots, Indices, Exclusive, Of, UpTo;
    StepsAtMost(st);
    ConsumerAtMost(st.i, st.pc, st.rounds * |st.producers|);
  }

  lemma StepsAtMost(st: State)
    requires Progress(st)
    ensures Sum(st.producers, STEPS) <= 7 * (st.rounds * |st.producers|)
  {
    hide Sum, Of, UpTo;
    forall k | 0 <= k < |st.producers| ensures STEPS(st.producers[k]) <= 7 * st.rounds {
      assert InTurn(st, k);
    }
    SumBelow(st.producers, STEPS, 7 * st.rounds);
    Sevenfold(st.rounds, |st.producers|);
  }

  lemma ConsumerAtMost(i: nat, pc: Pc, total: int)
    requires i <= total && (i == total ==> pc.Idle?)
    ensures 7 * i + Rank(pc) <= 7 * total
  {
  }
}
