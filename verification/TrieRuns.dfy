/** Whole runs of subscribe and unsubscribe calls, and the inputs on which the trie departs from its
    interface. */
module TrieRuns {
  import opened Trie
  import opened Words
  import opened TrieCounts
  import opened TrieRemoval
  import opened TrieShape
  import opened TrieMisses

  datatype Call = Sub(s: bytes) | Unsub(s: bytes)

  /** The calls a run may make: no counter wraps, and an unsubscribe call hits a subscription or is harmless; these
      are the calls that return with a well-shaped trie. */
  ghost predicate Legal(t: Tree, call: Call)
    requires Formed(t)
  {
    match call
    case Sub(s) => Count(t, s) + 1 < WORD32
    case Unsub(s) => Target(t, s).At? || Harmless(t, s)
  }

  function Outcomes(t: Tree, call: Call): Outcome
    requires Formed(t)
  {
    match call
    case Sub(s) => Subscribe(t, s)
    case Unsub(s) => Unsubscribe(t, s)
  }

  /** The string whose count a call raises or lowers. */
  function Hit(t: Tree, call: Call): Spot
    requires Formed(t)
  {
    match call
    case Sub(s) => At(s)
    case Unsub(s) => Target(t, s)
  }

  /** The string whose count a call loses to a change of layout. */
  function Lost(t: Tree, call: Call): Spot
    requires Formed(t)
  {
    match call
    case Sub(s) => Converted(t, s)
    case Unsub(s) => if Target(t, s).At? then Reverted(t, Target(t, s).s) else Nowhere
  }

  lemma {:induction false} LegalStep(t: Tree, call: Call)
    requires Ok(t) && Formed(t) && Legal(t, call)
    ensures Outcomes(t, call).Done? && Ok(Outcomes(t, call).tree) && Formed(Outcomes(t, call).tree)
  {
    match call
    case Sub(s) =>
      SubscribeOk(t, s);
      OkFormed(Subscribe(t, s).tree);
    case Unsub(s) =>
      CallSettles(t, s);
      OkFormed(Unsubscribe(t, s).tree);
  }

  /** A run of calls, the latest last. */
  datatype History = Start | Then(past: History, call: Call)

  /** The state after a run.  A run with a call it may not make has none. */
  ghost function After(h: History): Outcome
    ensures After(h).Done? ==> Formed(After(h).tree)
  {
    match h
    case Start => Done(Null, 0)
    case Then(past, call) =>
      var o := After(past);
      if o.Done? && Ok(o.tree) && Legal(o.tree, call) then
        LegalStep(o.tree, call);
        Outcomes(o.tree, call)
      else Fault
  }

  /** The multiset of subscriptions after a call that hits one string and may lose all those to another. */
  function Tally(m: multiset<bytes>, call: Call, hit: Spot, lost: Spot): multiset<bytes> {
    var kept := if lost.At? then m[lost.s := 0] else m;
    if hit.Nowhere? then kept else if call.Sub? then kept + multiset{hit.s} else kept - multiset{hit.s}
  }

  ghost function Tallied(h: History): multiset<bytes>
    requires After(h).Done?
  {
    match h
    case Start => multiset{}
    case Then(past, call) =>
      var t := After(past).tree;
      Tally(Tallied(past), call, Hit(t, call), Lost(t, call))
  }

  lemma {:induction false} LostAbove(t: Tree, c: byte, gone: bool, below: Spot, rest: bytes)
    requires t.Node? && LostAt(t, c, gone, below).At? && (below.At? ==> below.s < rest)
    ensures LostAt(t, c, gone, below).s < t.prefix + [c] + rest
  {
    if below.At? {
      ThroughPrefix(t.prefix, c, below.s, t.prefix + [c] + rest);
    }
  }

  lemma {:induction false} RevertedAbove(t: Tree, s: bytes)
    requires Formed(t)
    ensures Reverted(t, s).At? ==> Reverted(t, s).s < s
    decreases t
  {
    if Steps(t, s) && Reverted(t, s).At? {
      var c, ch, rest := s[|t.prefix|], Below(t, s), s[|t.prefix| + 1..];
      RevertedStep(t, s);
      RevertedAbove(ch, rest);
      LostAbove(t, c, Vanishes(ch, rest), Reverted(ch, rest), rest);
      ThroughPrefix(t.prefix, c, rest, s);
    }
  }

  /** A lost string lies elsewhere than the string that is hit. */
  lemma LostElsewhere(t: Tree, call: Call)
    requires Formed(t)
    ensures Lost(t, call).At? ==> Lost(t, call) != Hit(t, call)
  {
    if Lost(t, call).At? {
      match call
      case Sub(s) => ConvertedAbove(t, s);
      case Unsub(s) => RevertedAbove(t, Target(t, s).s);
    }
  }

  /** What a call does to the count of x. */
  lemma StepCount(t: Tree, call: Call, x: bytes)
    requires Ok(t) && Formed(t) && Legal(t, call)
    ensures var o := Outcomes(t, call);
      && o.Done? && Formed(o.tree) && (call.Unsub? && Hit(t, call).At? ==> Count(t, Hit(t, call).s) > 0)
      && Count(o.tree, x) ==
         if Hit(t, call) == At(x) then Count(t, x) + (if call.Sub? then 1 else -1)
         else if Lost(t, call) == At(x) then 0
         else Count(t, x)
  {
    hide Count, Subscribe, Unsubscribe, Converted, Reverted, Ok, Formed, Target, Harmless;
    LegalStep(t, call);
    LostElsewhere(t, call);
    if call.Sub? {
      SubscribeCounts(t, call.s, x);
    } else if Target(t, call.s).At? {
      UnsubscribeTarget(t, call.s);
      UnsubscribeCounts(t, Target(t, call.s).s, x);
    } else {
      HarmlessKeeps(t, call.s);
    }
  }

  /** After every run the trie is well-shaped and holds, for every string, exactly the subscriptions
      of the multiset. */
  lemma {:induction false} RunCounts(h: History, x: bytes)
    requires After(h).Done?
    ensures Ok(After(h).tree) && Count(After(h).tree, x) == Tallied(h)[x]
  {
    match h
    case Start =>
    case Then(past, call) =>
      var hit := Hit(After(past).tree, call);
      RunCounts(past, x);
      if hit.At? {
        RunCounts(past, hit.s);
      }
      StepTallied(past, call, x);
  }

  lemma StepTallied(past: History, call: Call, x: bytes)
    requires After(Then(past, call)).Done? && After(past).Done? && Ok(After(past).tree)
    requires Count(After(past).tree, x) == Tallied(past)[x]
    requires var t := After(past).tree;
      Hit(t, call).At? ==> Count(t, Hit(t, call).s) == Tallied(past)[Hit(t, call).s]
    ensures Ok(After(Then(past, call)).tree)
    ensures Count(After(Then(past, call)).tree, x) == Tallied(Then(past, call))[x]
  {
    hide Count, Outcomes, Ok, Formed, Legal, Hit, Lost, Tally;
    var t, m := After(past).tree, Tallied(past);
    LegalStep(t, call);
    LostElsewhere(t, call);
    HitsItself(t, call);
    StepCount(t, call, x);
    TallyCounts(m, call, Hit(t, call), Lost(t, call), x);
  }

  lemma TallyCounts(m: multiset<bytes>, call: Call, hit: Spot, lost: Spot, x: bytes)
    requires (lost.At? ==> lost != hit) && (call.Unsub? && hit.At? ==> m[hit.s] > 0)
    ensures Tally(m, call, hit, lost)[x] ==
      if hit == At(x) then m[x] + (if call.Sub? then 1 else -1) else if lost == At(x) then 0 else m[x]
  {
  }

  /** A run goes on exactly as long as its calls are legal: no legal call faults. */
  lemma {:induction false} RunGoesOn(h: History, call: Call)
    requires After(h).Done?
    ensures After(Then(h, call)).Done? <==> Legal(After(h).tree, call)
  {
    RunCounts(h, call.s);
    if Legal(After(h).tree, call) { LegalStep(After(h).tree, call); }
  }

  /** The multiset of subscriptions the interface promises. */
  function Promised(h: History): multiset<bytes> {
    match h
    case Start => multiset{}
    case Then(past, call) => Tally(Promised(past), call, At(call.s), Nowhere)
  }

  /** A call loses no count, and hits no string but its own. */
  ghost predicate Straight(t: Tree, call: Call)
    requires Formed(t)
  {
    && (Lost(t, call).At? ==> Count(t, Lost(t, call).s) == 0)
    && (Hit(t, call).At? ==> Hit(t, call).s == call.s)
  }

  /** All calls of the run are like that. */
  ghost predicate Lossless(h: History)
    requires After(h).Done?
  {
    h.Then? ==> Lossless(h.past) && Straight(After(h.past).tree, h.call)
  }

  /** A run of such calls keeps the promise: the trie holds what a map from strings to counts would hold. */
  lemma {:induction false} LosslessRun(h: History)
    requires After(h).Done? && Lossless(h)
    ensures Tallied(h) == Promised(h)
    ensures forall x :: Count(After(h).tree, x) == Promised(h)[x]
  {
    if h.Then? {
      LosslessRun(h.past);
      StraightTally(h);
    }
    forall x ensures Count(After(h).tree, x) == Promised(h)[x] {
      RunCounts(h, x);
    }
  }

  lemma StraightTally(h: History)
    requires h.Then? && After(h).Done? && Lossless(h) && Tallied(h.past) == Promised(h.past)
    ensures Tallied(h) == Promised(h)
  {
    var t, call, m := After(h.past).tree, h.call, Tallied(h.past);
    var lost := Lost(t, call);
    if lost.At? {
      RunCounts(h.past, lost.s);
      assert m[lost.s := 0] == m;
    }
    if Hit(t, call).Nowhere? {
      RunCounts(h.past, call.s);
      NotHit(t, call);
      assert m - multiset{call.s} == m;
    }
  }

  lemma NotHit(t: Tree, call: Call)
    requires Formed(t) && Hit(t, call).Nowhere?
    ensures call.Unsub? && Count(t, call.s) == 0
  {
    if Count(t, call.s) > 0 {
      SubscribedTarget(t, call.s);
    }
  }

  /** A straight call acts as promised, and one that is not straight does not. */
  lemma CallKeepsPromise(t: Tree, call: Call)
    requires Ok(t) && Formed(t) && Legal(t, call)
    ensures Outcomes(t, call).Done? && Formed(Outcomes(t, call).tree)
    ensures (forall x | x != call.s :: Count(Outcomes(t, call).tree, x) == Count(t, x)) <==> Straight(t, call)
  {
    hide Count, Outcomes, Ok, Formed, Legal, Hit, Lost;
    LegalStep(t, call);
    LostElsewhere(t, call);
    var after, hit, lost := Outcomes(t, call).tree, Hit(t, call), Lost(t, call);
    HitsItself(t, call);
    forall x ensures Count(after, x) ==
      if hit == At(x) then Count(t, x) + (if call.Sub? then 1 else -1) else if lost == At(x) then 0 else Count(t, x)
    {
      StepCount(t, call, x);
    }
    if hit.At? && hit.s != call.s {
      var y := hit.s;
      assert hit == At(y) && y != call.s && Count(after, y) != Count(t, y);
      assert exists x :: x != call.s && Count(after, x) != Count(t, x);
    } else if lost.At? && Count(t, lost.s) != 0 {
      var y := lost.s;
      assert y != call.s && Count(after, y) == 0 && Count(t, y) != 0;
      assert exists x :: x != call.s && Count(after, x) != Count(t, x);
    } else {
      forall x | x != call.s ensures Count(after, x) == Count(t, x) {
      }
    }
  }

  /** What is lost is never the string of a call that hits it. */
  lemma HitsItself(t: Tree, call: Call)
    requires Formed(t)
    ensures call.Sub? ==> Hit(t, call) == At(call.s)
    ensures Hit(t, call).Nowhere? ==> Lost(t, call).Nowhere?
  {
  }

  // ---------------------------------------------------------------------------------------
  // Shape over runs

  /** No subscribe call of the run splits an only child so near its front that it could be merged again. */
  ghost predicate SplitsFar(h: History)
    requires After(h).Done?
  {
    h.Then? ==> SplitsFar(h.past) && (h.call.Sub? ==> !Loosens(After(h.past).tree, h.call.s))
  }

  /** Such a run leaves no node that could be merged into its only child. */
  lemma {:induction false} RunTight(h: History)
    requires After(h).Done? && SplitsFar(h)
    ensures Tight(After(h).tree)
  {
    if h.Then? {
      var t, s := After(h.past).tree, h.call.s;
      RunTight(h.past);
      if h.call.Sub? {
        SubscribeTight(t, s);
      } else if Target(t, s).At? {
        UnsubscribeTarget(t, s);
        UnsubscribeOk(t, Target(t, s).s);
      } else {
        HarmlessKeeps(t, s);
      }
    }
  }
}
