/** The life of a socket: holds of API calls, endpoints that stop on their own time, one close, and the two
    semaphores the closing thread waits for.  Each step is atomic under the lock or context it runs in. */
module Sockets {
  datatype Phase = Active | StoppingEps | Stopping | Fini

  /** Where the closing thread is.  The global lock is held from Held up to the second release. */
  datatype Closer = Idle | Held | Stopped | ReleasedOne | AwaitTerm | AwaitRele | Freeing | Freed

  /** Calls in waiting have a hold and still have to do their work; calls in leaving have done it.  The counts
      of posts say how often each semaphore was ever posted. */
  datatype State = State(
    phase: Phase, holds: int, waiting: nat, leaving: nat,
    eps: seq<nat>, sdeps: seq<nat>, destroyed: seq<nat>, eid: nat,
    termsem: nat, relesem: nat, termposts: nat, releposts: nat,
    delayed: bool, closer: Closer)

  /** delayed: the socket type has a stop function, which answers later. */
  function Start(delayed: bool): State {
    State(Active, 1, 0, 0, [], [], [], 1, 0, 0, 0, 0, delayed, Idle)
  }

  datatype Op =
    | Hold
    | AddEp
    | RmEp(eid: nat)
    | Work                  // a call that does not touch the endpoints
    | Rele
    | EpStopped(ep: nat)
    | ProtocolStopped
    | CloseHold
    | CloseStop
    | CloseRele
    | CloseTerm
    | CloseWait
    | CloseFree

  predicate Locked(c: Closer) {
    c.Held? || c.Stopped? || c.ReleasedOne?
  }

  function Find(s: seq<nat>, e: nat): (k: nat)
    ensures k <= |s|
    ensures e in s <==> k < |s|
    ensures k < |s| ==> s[k] == e
    ensures forall i | 0 <= i < k :: s[i] != e
  {
    if s == [] || s[0] == e then 0 else 1 + Find(s[1..], e)
  }

  function Without(s: seq<nat>, e: nat): seq<nat> {
    var k := Find(s, e);
    if k == |s| then s else s[..k] + s[k + 1..]
  }

  /** A hold is released; the last one is reported to the closing thread. */
  function Released(st: State): State {
    var left := st.holds - 1;
    if left == 0 then st.(holds := left, relesem := st.relesem + 1, releposts := st.releposts + 1)
    else st.(holds := left)
  }

  /** When the last endpoint has stopped, the socket type is stopped, at once or with a delay. */
  function Finish2(st: State): State {
    if st.sdeps != [] then st.(phase := StoppingEps)
    else if st.delayed then st.(phase := Stopping)
    else Finish1(st)
  }

  function Finish1(st: State): State {
    st.(phase := Fini, termsem := st.termsem + 1, termposts := st.termposts + 1)
  }

  /** The step can be taken.  A call that comes too late for a hold gets an error and does nothing.  Endpoints
      are added before the stop only. */
  predicate Enabled(st: State, op: Op) {
    match op
    case Hold => !Locked(st.closer) && st.phase.Active?
    case AddEp => st.waiting > 0 && st.phase.Active?
    case RmEp(_) => st.waiting > 0
    case Work => st.waiting > 0
    case Rele => !Locked(st.closer) && st.leaving > 0
    case EpStopped(ep) => ep in st.sdeps
    case ProtocolStopped => st.phase.Stopping?
    case CloseHold => st.closer.Idle? && st.phase.Active?
    case CloseStop => st.closer.Held?
    case CloseRele => st.closer.Stopped? || st.closer.ReleasedOne?
    case CloseTerm => st.closer.AwaitTerm? && st.termsem > 0
    case CloseWait => st.closer.AwaitRele? && st.relesem > 0
    case CloseFree => st.closer.Freeing?
  }

  function After(st: State, op: Op): State
    requires Enabled(st, op)
  {
    match op
    case Hold => st.(holds := st.holds + 1, waiting := st.waiting + 1)
    case AddEp => Acted(st).(eps := st.eps + [st.eid], eid := st.eid + 1)
    case RmEp(e) => (
      if e in st.eps then Acted(st).(eps := Without(st.eps, e), sdeps := st.sdeps + [e]) else Acted(st))
    case Work => Acted(st)
    case Rele => Released(st.(leaving := st.leaving - 1))
    case EpStopped(ep) => EpGone(st, ep)
    case ProtocolStopped => Finish1(st)
    case CloseHold => st.(holds := st.holds + 1, closer := Held)
    case CloseStop => Shutdown(st).(closer := Stopped)
    case CloseRele => Released(st.(closer := if st.closer.Stopped? then ReleasedOne else AwaitTerm))
    case CloseTerm => st.(termsem := st.termsem - 1, closer := AwaitRele)
    case CloseWait => st.(relesem := st.relesem - 1, closer := Freeing)
    case CloseFree => st.(closer := Freed)
  }

  function Acted(st: State): State
    requires st.waiting > 0
  {
    st.(waiting := st.waiting - 1, leaving := st.leaving + 1)
  }

  /** An endpoint that has stopped is deallocated. */
  function EpGone(st: State, ep: nat): State {
    var less := st.(sdeps := Without(st.sdeps, ep), destroyed := st.destroyed + [ep]);
    if st.phase.StoppingEps? then Finish2(less) else less
  }

  /** All endpoints are asked to stop. */
  function Shutdown(st: State): State {
    Finish2(st.(eps := [], sdeps := st.sdeps + st.eps))
  }

  // --- What every step keeps

  /** The holds of the owner and of the closing thread. */
  function OwnHolds(c: Closer): int {
    match c
    case Idle => 1
    case Held => 2
    case Stopped => 2
    case ReleasedOne => 1
    case _ => 0
  }

  function Endpoints(st: State): seq<nat> {
    st.eps + st.sdeps + st.destroyed
  }

  /** Every endpoint ever made is in one place. */
  ghost predicate Placed(st: State) {
    forall e: nat :: multiset(Endpoints(st))[e] == if 1 <= e < st.eid then 1 else 0
  }

  ghost predicate Counted(st: State) {
    && st.holds == st.waiting + st.leaving + OwnHolds(st.closer)
    && st.releposts == (if st.holds == 0 then 1 else 0)
    && st.termposts == (if st.phase.Fini? then 1 else 0)
    && st.relesem == st.releposts - (if st.closer.Freeing? || st.closer.Freed? then 1 else 0)
    && st.termsem == st.termposts - (if st.closer.AwaitRele? || st.closer.Freeing? || st.closer.Freed? then 1 else 0)
  }

  ghost predicate InPhase(st: State) {
    && (st.phase.Active? <==> st.closer.Idle? || st.closer.Held?)
    && (!st.phase.Active? ==> st.eps == [])
    && (st.phase.StoppingEps? ==> st.sdeps != [])
    && (st.phase.Stopping? || st.phase.Fini? ==> st.sdeps == [])
  }

  ghost predicate Inv(st: State) {
    Placed(st) && st.eid > 0 && Counted(st) && InPhase(st)
  }

  lemma WithoutOne(s: seq<nat>, e: nat)
    requires e in s
    ensures multiset(s) == multiset(Without(s, e)) + multiset{e}
    ensures |Without(s, e)| == |s| - 1
  {
    var k := Find(s, e);
    assert s == s[..k] + [e] + s[k + 1..];
  }

  lemma SamePlaces(st: State, st': State)
    requires Placed(st) && st'.eid == st.eid && multiset(Endpoints(st')) == multiset(Endpoints(st))
    ensures Placed(st')
  {
  }

  lemma AddEpPlaced(st: State)
    requires Placed(st) && Enabled(st, AddEp) && st.eid > 0
    ensures Placed(After(st, AddEp))
  {
    var st' := After(st, AddEp);
    assert multiset(Endpoints(st')) == multiset(Endpoints(st)) + multiset{st.eid};
  }

  lemma RmEpPlaced(st: State, e: nat)
    requires Placed(st) && Enabled(st, RmEp(e))
    ensures Placed(After(st, RmEp(e)))
  {
    var st' := After(st, RmEp(e));
    if e in st.eps {
      WithoutOne(st.eps, e);
    }
    assert multiset(Endpoints(st')) == multiset(Endpoints(st));
  }

  lemma EpGonePlaced(st: State, ep: nat)
    requires Placed(st) && ep in st.sdeps
    ensures Placed(EpGone(st, ep))
  {
    hide Placed;
    WithoutOne(st.sdeps, ep);
    var st' := EpGone(st, ep);
    assert multiset(Endpoints(st')) == multiset(Endpoints(st));
    SamePlaces(st, st');
  }

  lemma ShutdownPlaced(st: State)
    requires Placed(st)
    ensures Placed(Shutdown(st))
  {
    hide Placed;
    assert multiset(Endpoints(Shutdown(st))) == multiset(Endpoints(st));
    SamePlaces(st, Shutdown(st));
  }

  lemma StepPlaced(st: State, op: Op)
    requires Placed(st) && Enabled(st, op) && st.eid > 0
    ensures Placed(After(st, op)) && After(st, op).eid > 0
  {
    match op
    case AddEp => AddEpPlaced(st);
    case RmEp(e) => RmEpPlaced(st, e);
    case EpStopped(ep) => EpGonePlaced(st, ep);
    case CloseStop =>
      ShutdownPlaced(st);
      SamePlaces(Shutdown(st), After(st, op));
    case _ => SamePlaces(st, After(st, op));
  }

  lemma StepCounted(st: State, op: Op)
    requires Inv(st) && Enabled(st, op)
    ensures Counted(After(st, op))
  {
    hide Placed, Find, Without;
  }

  lemma StepInPhase(st: State, op: Op)
    requires Inv(st) && Enabled(st, op)
    ensures InPhase(After(st, op))
  {
    hide Placed, Find, Without;
  }

  /** In every reachable state: the holds are those of the calls and of the owner, every endpoint is in one
      place, each semaphore is posted once at most, and the phases follow. */
  lemma StepKeeps(st: State, op: Op)
    requires Inv(st) && Enabled(st, op)
    ensures Inv(After(st, op))
  {
    hide Placed, Counted, InPhase;
    StepPlaced(st, op);
    StepCounted(st, op);
    StepInPhase(st, op);
  }

  // --- Which endpoint a step concerns

  /** s is t without one element, which is e; the others keep their order. */
  ghost predicate TakenOut(s: seq<nat>, t: seq<nat>, e: nat) {
    exists k | 0 <= k < |t| :: t[k] == e && s == t[..k] + t[k + 1..]
  }

  lemma WithoutTakesOut(t: seq<nat>, e: nat)
    requires e in t
    ensures TakenOut(Without(t, e), t, e)
  {
    assert t[Find(t, e)] == e;
  }

  /** An endpoint is in one list only, and there once. */
  lemma OnePlace(st: State, e: nat)
    requires Placed(st)
    ensures multiset(st.eps)[e] + multiset(st.sdeps)[e] + multiset(st.destroyed)[e] <= 1
  {
    assert multiset(Endpoints(st)) == multiset(st.eps) + multiset(st.sdeps) + multiset(st.destroyed);
    assert multiset(Endpoints(st))[e] <= 1;
  }

  /** The endpoint that is named is the one that is asked to stop, and no other. */
  lemma RmEpStops(st: State, e: nat)
    requires Inv(st) && st.waiting > 0
    ensures var now := After(st, RmEp(e));
      if e in st.eps
      then e !in now.eps && TakenOut(now.eps, st.eps, e) && now.sdeps == st.sdeps + [e]
      else now.eps == st.eps && now.sdeps == st.sdeps
    ensures var now := After(st, RmEp(e));
      now.destroyed == st.destroyed && now.phase == st.phase && now.eid == st.eid
  {
    hide Without, Find, Placed, Counted, InPhase, TakenOut;
    if e in st.eps {
      var now := After(st, RmEp(e));
      RmEpPlaced(st, e);
      WithoutTakesOut(st.eps, e);
      assert now.eps == Without(st.eps, e) && now.sdeps == st.sdeps + [e];
      hide After, Enabled;
      LastIsIn(st.sdeps, e);
      OnePlace(now, e);
    }
  }

  lemma LastIsIn(s: seq<nat>, e: nat)
    ensures multiset(s + [e])[e] > 0
  {
    assert (s + [e])[|s|] == e;
  }

  /** The endpoint that reports is the one that is deallocated; behind the last one the socket type is stopped,
      and a socket type without a stop function has stopped at once. */
  lemma EpGoneGoes(st: State, ep: nat)
    requires Inv(st) && ep in st.sdeps
    ensures var now := EpGone(st, ep);
      && now.destroyed == st.destroyed + [ep] && ep !in now.sdeps && TakenOut(now.sdeps, st.sdeps, ep)
      && now.eps == st.eps
      && now.phase == (if !st.phase.StoppingEps? || st.sdeps != [ep] then st.phase
                       else if st.delayed then Stopping else Fini)
      && now.termposts == st.termposts + (if st.phase.StoppingEps? && now.phase.Fini? then 1 else 0)
  {
    hide Find, Without, Placed, Counted, InPhase, TakenOut;
    EpGonePlaced(st, ep);
    WithoutTakesOut(st.sdeps, ep);
    WithoutOne(st.sdeps, ep);
    OnePlace(EpGone(st, ep), ep);
    assert ep in EpGone(st, ep).destroyed;
    if Without(st.sdeps, ep) == [] {
      assert st.sdeps == [st.sdeps[0]];
    }
  }

  ghost predicate Run(st: State, ops: seq<Op>)
    decreases |ops|
  {
    ops == [] || (Enabled(st, ops[0]) && Run(After(st, ops[0]), ops[1..]))
  }

  function Ran(st: State, ops: seq<Op>): State
    requires Run(st, ops)
    decreases |ops|
  {
    if ops == [] then st else Ran(After(st, ops[0]), ops[1..])
  }

  lemma {:induction false} RunKeeps(st: State, ops: seq<Op>)
    requires Inv(st) && Run(st, ops)
    ensures Inv(Ran(st, ops))
    decreases |ops|
  {
    if ops != [] {
      StepKeeps(st, ops[0]);
      RunKeeps(After(st, ops[0]), ops[1..]);
    }
  }

  lemma StartInv(delayed: bool)
    ensures Inv(Start(delayed))
  {
  }

  /** When the closing thread frees the socket, every endpoint has been deallocated, once, no call has a hold,
      and each semaphore has been posted exactly once. */
  lemma FreedIsUnused(delayed: bool, ops: seq<Op>)
    requires Run(Start(delayed), ops)
    ensures var st := Ran(Start(delayed), ops);
      st.closer.Freeing? || st.closer.Freed? ==>
        && st.eps == [] && st.sdeps == []
        && (forall e: nat :: multiset(st.destroyed)[e] == if 1 <= e < st.eid then 1 else 0)
        && st.holds == 0 && st.waiting == 0 && st.leaving == 0
        && st.termposts == 1 && st.releposts == 1 && st.termsem == 0 && st.relesem == 0 && st.phase.Fini?
  {
    hide Inv;
    StartInv(delayed);
    RunKeeps(Start(delayed), ops);
    var st := Ran(Start(delayed), ops);
    if st.closer.Freeing? || st.closer.Freed? {
      UnusedAtTheEnd(st);
    }
  }

  lemma UnusedAtTheEnd(st: State)
    requires Inv(st) && (st.closer.Freeing? || st.closer.Freed?)
    ensures st.eps == [] && st.sdeps == []
    ensures forall e: nat :: multiset(st.destroyed)[e] == if 1 <= e < st.eid then 1 else 0
    ensures st.holds == 0 && st.waiting == 0 && st.leaving == 0
    ensures st.termposts == 1 && st.releposts == 1 && st.termsem == 0 && st.relesem == 0 && st.phase.Fini?
  {
    assert Endpoints(st) == st.destroyed;
  }

  /** Nothing can be done to a socket after it has been freed. */
  lemma NothingAfterFree(st: State, op: Op)
    requires Inv(st) && st.closer.Freed?
    ensures !Enabled(st, op)
  {
    hide Placed;
  }

  // --- The close comes to an end

  predicate Closing(st: State) {
    !st.closer.Idle? && !st.closer.Freed?
  }

  /** Some step of the closing, some call or some endpoint can always go on. */
  function NextStep(st: State): Op {
    if st.closer.Held? then CloseStop
    else if st.closer.Stopped? || st.closer.ReleasedOne? then CloseRele
    else if st.closer.Freeing? then CloseFree
    else if st.waiting > 0 then Work
    else if st.leaving > 0 then Rele
    else if st.sdeps != [] then EpStopped(st.sdeps[0])
    else if st.phase.Stopping? then ProtocolStopped
    else if st.closer.AwaitTerm? then CloseTerm
    else CloseWait
  }

  lemma NoDeadlock(st: State)
    requires Inv(st) && Closing(st)
    ensures Enabled(st, NextStep(st))
  {
    hide Placed;
  }

  function PhaseRank(p: Phase): nat {
    match p case Active => 3 case StoppingEps => 2 case Stopping => 1 case Fini => 0
  }

  function CloserRank(c: Closer): nat {
    match c
    case Idle => 8 case Held => 7 case Stopped => 6 case ReleasedOne => 5
    case AwaitTerm => 4 case AwaitRele => 3 case Freeing => 2 case Freed => 0
  }

  /** The work that is left. */
  function Left(st: State): nat {
    6 * st.waiting + st.leaving + 2 * |st.eps| + |st.sdeps| + PhaseRank(st.phase) + CloserRank(st.closer)
  }

  lemma StepLess(st: State, op: Op)
    requires Inv(st) && Closing(st) && Enabled(st, op)
    ensures Left(After(st, op)) < Left(st) && !After(st, op).closer.Idle?
  {
    hide Placed, Counted, Find, Without;
    match op
    case RmEp(e) =>
      if e in st.eps {
        WithoutOne(st.eps, e);
      }
    case EpStopped(ep) => WithoutOne(st.sdeps, ep);
    case _ =>
  }

  /** From the moment of the close, whatever the calls and the endpoints do and in whatever order: a run is no
      longer than the work that was left, and a run that cannot go on has freed the socket. */
  lemma {:induction false} CloseEnds(st: State, ops: seq<Op>)
    requires Inv(st) && !st.closer.Idle? && Run(st, ops)
    ensures |ops| <= Left(st)
    ensures (forall op :: !Enabled(Ran(st, ops), op)) <==> Ran(st, ops).closer.Freed?
    decreases |ops|
  {
    if ops == [] {
      if st.closer.Freed? {
        forall op ensures !Enabled(st, op) {
          NothingAfterFree(st, op);
        }
      } else {
        NoDeadlock(st);
      }
    } else {
      if st.closer.Freed? {
        NothingAfterFree(st, ops[0]);
      }
      StepKeeps(st, ops[0]);
      StepLess(st, ops[0]);
      CloseEnds(After(st, ops[0]), ops[1..]);
    }
  }

  // --- An endpoint that comes late

  /** What adding an endpoint does, whatever the phase: the source does not look at it. */
  function AddEpAnyway(st: State): State
    requires st.waiting > 0
  {
    Acted(st).(eps := st.eps + [st.eid], eid := st.eid + 1)
  }

  /** Adding an endpoint keeps the invariant exactly before the stop. */
  lemma LateEndpoint(st: State)
    requires Inv(st) && st.waiting > 0
    ensures Inv(AddEpAnyway(st)) <==> st.phase.Active?
  {
    if st.phase.Active? {
      StepKeeps(st, AddEp);
    }
  }

  lemma Then(st: State, op: Op, ops: seq<Op>)
    requires Enabled(st, op) && Run(After(st, op), ops)
    ensures Run(st, [op] + ops) && Ran(st, [op] + ops) == Ran(After(st, op), ops)
  {
    assert ([op] + ops)[1..] == ops;
  }

  const HURRIED := [Hold] + ([CloseHold] + ([CloseStop] + ([CloseRele] + ([CloseRele] + []))))
  const LATE := State(Fini, 1, 1, 0, [], [], [], 1, 1, 0, 1, 0, false, AwaitTerm)

  lemma HurriedSteps()
    ensures var s0 := Start(false);
      && Enabled(s0, Hold) && Enabled(After(s0, Hold), CloseHold)
      && var s2 := After(After(s0, Hold), CloseHold);
      && Enabled(s2, CloseStop) && Enabled(After(s2, CloseStop), CloseRele)
      && var s4 := After(After(s2, CloseStop), CloseRele);
      && Enabled(s4, CloseRele) && After(s4, CloseRele) == LATE
  {
    hide Run, Ran, Find, Without;
  }

  /** A call gets its hold just before the close, and the socket is stopped. */
  lemma HurriedRun()
    ensures Run(Start(false), HURRIED) && Ran(Start(false), HURRIED) == LATE
  {
    HurriedSteps();
    var s1 := After(Start(false), Hold);
    var s2 := After(s1, CloseHold);
    var s3 := After(s2, CloseStop);
    var s4 := After(s3, CloseRele);
    hide Run, Ran, Enabled, After, Start, Shutdown, Released;
    Nil(LATE);
    Then(s4, CloseRele, []);
    Then(s3, CloseRele, [CloseRele] + []);
    Then(s2, CloseStop, [CloseRele] + ([CloseRele] + []));
    Then(s1, CloseHold, [CloseStop] + ([CloseRele] + ([CloseRele] + [])));
    Then(Start(false), Hold, [CloseHold] + ([CloseStop] + ([CloseRele] + ([CloseRele] + []))));
  }

  /** When the call adds its endpoint now, the closing thread comes to free the socket with the endpoint still
      in the list. */
  lemma LateEndpointRun()
    ensures var st, ops := AddEpAnyway(LATE), [Rele] + ([CloseTerm] + ([CloseWait] + []));
      Run(st, ops) && Ran(st, ops).closer.Freeing? && Ran(st, ops).eps == [1]
  {
    hide Run, Ran;
    var t0 := AddEpAnyway(LATE);
    var t1 := After(t0, Rele);
    var t2 := After(t1, CloseTerm);
    var t3 := After(t2, CloseWait);
    Nil(t3);
    Then(t2, CloseWait, []);
    Then(t1, CloseTerm, [CloseWait] + []);
    Then(t0, Rele, [CloseTerm] + ([CloseWait] + []));
  }

  lemma Nil(st: State)
    ensures Run(st, []) && Ran(st, []) == st
  {
  }
}
