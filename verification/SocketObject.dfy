/** The socket as an object whose fields the calls and the events change. */
module SocketObject {
  import opened Sockets

  const EBADF := 9
  const EINVAL := 22

  class Sock {
    var phase: Phase
    var holds: int
    var eps: seq<nat>
    var sdeps: seq<nat>
    var eid: nat
    var termsem: nat
    var relesem: nat
    const delayed: bool
    ghost var waiting: nat
    ghost var leaving: nat
    ghost var destroyed: seq<nat>
    ghost var termposts: nat
    ghost var releposts: nat
    ghost var closer: Closer

    ghost function Abs(): State
      reads this
    {
      State(phase, holds, waiting, leaving, eps, sdeps, destroyed, eid, termsem, relesem, termposts, releposts,
            delayed, closer)
    }

    constructor (delayed: bool)
      ensures Abs() == Start(delayed)
    {
      phase, holds, eps, sdeps, eid, termsem, relesem, this.delayed := Active, 1, [], [], 1, 0, 0, delayed;
      waiting, leaving, destroyed, termposts, releposts, closer := 0, 0, [], 0, 0, Idle;
    }

    /** A hold for a call, as long as the socket is not being stopped. */
    method Hold() returns (rc: int)
      requires !Locked(closer)
      modifies this
      ensures rc == if old(Enabled(Abs(), Op.Hold)) then 0 else -EBADF
      ensures Abs() == if rc == 0 then After(old(Abs()), Op.Hold) else old(Abs())
      ensures rc == 0 <==> old(phase).Active?
      ensures holds == old(holds) + if rc == 0 then 1 else 0
    {
      match phase
      case Active =>
        holds, waiting := holds + 1, waiting + 1;
        rc := 0;
      case _ => rc := -EBADF;
    }

    /** Gives up a hold; the last one wakes the closing thread. */
    method Release()
      modifies this
      ensures Abs() == Released(old(Abs()))
      ensures holds == old(holds) - 1 && relesem == old(relesem) + if holds == 0 then 1 else 0
    {
      holds := holds - 1;
      if holds == 0 {
        relesem, releposts := relesem + 1, releposts + 1;
      }
    }

    method AddEp() returns (id: nat)
      requires waiting > 0
      modifies this
      ensures id == old(eid) && Abs() == AddEpAnyway(old(Abs()))
      ensures eps == old(eps) + [id] && eid == id + 1 && sdeps == old(sdeps) && phase == old(phase)
      ensures old(phase.Active?) ==> Abs() == After(old(Abs()), Op.AddEp)
    {
      id := eid;
      eid := eid + 1;
      eps := eps + [id];
      waiting, leaving := waiting - 1, leaving + 1;
    }

    /** Asks an active endpoint to stop. */
    method RmEp(id: nat) returns (rc: int)
      requires waiting > 0
      modifies this
      ensures rc == if id in old(eps) then 0 else -EINVAL
      ensures Abs() == After(old(Abs()), Op.RmEp(id))
      ensures if id in old(eps) then TakenOut(eps, old(eps), id) && sdeps == old(sdeps) + [id]
              else eps == old(eps) && sdeps == old(sdeps)
      ensures old(Inv(Abs())) ==> id !in eps
    {
      ghost var was := Abs();
      RmEpTakes(was, id);
      hide Inv, After, TakenOut, Find, Without;
      waiting, leaving := waiting - 1, leaving + 1;
      var k := 0;
      while k < |eps| && eps[k] != id
        invariant 0 <= k <= |eps|
        invariant forall i | 0 <= i < k :: eps[i] != id
      {
        k := k + 1;
      }
      FoundAt(eps, id, k);
      if k == |eps| {
        return -EINVAL;
      }
      eps, sdeps := eps[..k] + eps[k + 1..], sdeps + [id];
      rc := 0;
    }

    /** The stop: every endpoint is asked to stop; with none left the socket type is next. */
    method Shutdown()
      modifies this
      ensures Abs() == Sockets.Shutdown(old(Abs()))
      ensures eps == [] && sdeps == old(sdeps) + old(eps) && destroyed == old(destroyed)
      ensures phase == if sdeps != [] then StoppingEps else if delayed then Stopping else Fini
    {
      ghost var was, all := Abs(), sdeps + eps;
      while eps != []
        invariant sdeps + eps == all
        invariant Abs() == was.(eps := eps, sdeps := sdeps)
        decreases |eps|
      {
        var ep := eps[0];
        eps, sdeps := eps[1..], sdeps + [ep];
      }
      assert sdeps + [] == sdeps;
      phase := StoppingEps;
      Finish();
    }

    /** Goes on when the last endpoint has gone. */
    method Finish()
      requires phase.StoppingEps?
      modifies this
      ensures Abs() == Finish2(old(Abs()))
      ensures phase == if sdeps != [] then StoppingEps else if delayed then Stopping else Fini
    {
      if sdeps != [] {
        return;
      }
      phase := Stopping;
      if !delayed {
        ProtocolStopped();
      }
    }

    method ProtocolStopped()
      modifies this
      ensures Abs() == Finish1(old(Abs()))
      ensures phase == Fini && termsem == old(termsem) + 1
    {
      phase := Fini;
      termsem, termposts := termsem + 1, termposts + 1;
    }

    /** An endpoint reports that it has stopped. */
    method EpStopped(ep: nat)
      requires ep in sdeps
      modifies this
      ensures Abs() == EpGone(old(Abs()), ep)
      ensures destroyed == old(destroyed) + [ep] && TakenOut(sdeps, old(sdeps), ep) && eps == old(eps)
      ensures old(Inv(Abs())) ==> ep !in sdeps
      ensures phase == (if !old(phase).StoppingEps? || old(sdeps) != [ep] then old(phase)
                        else if delayed then Stopping else Fini)
    {
      ghost var was := Abs();
      EpGoneTakes(was, ep);
      hide Inv, TakenOut, Find, Without;
      var k := 0;
      while sdeps[k] != ep
        invariant 0 <= k < |sdeps|
        invariant forall i | 0 <= i < k :: sdeps[i] != ep
        decreases |sdeps| - k
      {
        k := k + 1;
      }
      FoundAt(sdeps, ep, k);
      sdeps, destroyed := sdeps[..k] + sdeps[k + 1..], destroyed + [ep];
      if phase.StoppingEps? {
        Finish();
      }
    }
  }

  lemma RmEpTakes(st: State, id: nat)
    requires st.waiting > 0
    ensures After(st, RmEp(id)) == if id in st.eps
                                   then Acted(st).(eps := Without(st.eps, id), sdeps := st.sdeps + [id])
                                   else Acted(st)
    ensures id in st.eps ==> TakenOut(Without(st.eps, id), st.eps, id)
    ensures Inv(st) ==> id !in After(st, RmEp(id)).eps
  {
    if id in st.eps {
      WithoutTakesOut(st.eps, id);
    }
    if Inv(st) {
      RmEpStops(st, id);
    }
  }

  lemma EpGoneTakes(st: State, ep: nat)
    requires ep in st.sdeps
    ensures TakenOut(Without(st.sdeps, ep), st.sdeps, ep)
    ensures Without(st.sdeps, ep) == [] <==> st.sdeps == [ep]
    ensures Inv(st) ==> ep !in EpGone(st, ep).sdeps
  {
    WithoutTakesOut(st.sdeps, ep);
    WithoutOne(st.sdeps, ep);
    if Inv(st) {
      EpGoneGoes(st, ep);
    }
  }

  lemma FoundAt(s: seq<nat>, e: nat, k: nat)
    requires k <= |s| && (forall i | 0 <= i < k :: s[i] != e) && (k < |s| ==> s[k] == e)
    ensures e in s <==> k < |s|
    ensures Without(s, e) == if k == |s| then s else s[..k] + s[k + 1..]
  {
    FindIs(s, e, k);
  }

  lemma {:induction false} FindIs(s: seq<nat>, e: nat, k: nat)
    requires k <= |s| && (forall i | 0 <= i < k :: s[i] != e) && (k < |s| ==> s[k] == e)
    ensures Find(s, e) == k
  {
    if k > 0 {
      FindIs(s[1..], e, k - 1);
    }
  }
}
