/** Unsubscribing takes one subscription away, from the string it is asked to or from another. */
module TrieRemoval {
  import opened Trie
  import opened Words
  import opened TrieCounts

  // ---------------------------------------------------------------------------------------
  // Slots in use

  lemma {:induction false} UsedSet(slots: seq<Tree>, i: nat, t: Tree)
    requires i < |slots|
    ensures Used(slots[i := t]) ==
            Used(slots) - (if slots[i].Node? then 1 else 0) + (if t.Node? then 1 else 0)
    decreases |slots|
  {
    if i > 0 {
      UsedSet(slots[1..], i - 1, t);
      assert slots[i := t][1..] == slots[1..][i - 1 := t];
    }
  }

  lemma {:induction false} UsedConcat(a: seq<Tree>, b: seq<Tree>)
    ensures Used(a + b) == Used(a) + Used(b)
    decreases |a|
  {
    if a == [] {
      assert a + b == b;
    } else {
      UsedConcat(a[1..], b);
      assert (a + b)[1..] == a[1..] + b;
    }
  }

  lemma {:induction false} UsedNone(slots: seq<Tree>)
    requires forall i :: 0 <= i < |slots| ==> slots[i].Null?
    ensures Used(slots) == 0
    decreases |slots|
  {
    if slots != [] { UsedNone(slots[1..]); }
  }

  // ---------------------------------------------------------------------------------------
  // Taking a vanished child out of the array

  /** The child for c, at slot i of a well-shaped array, has just been replaced by Null. */
  ghost predicate Vanished(kids: Kids, was: Kids, c: byte, i: int) {
    && KidsOk(was) && NextIndex(was, c) == i >= 0
    && kids == WithChild(was, i, Null)
  }

  lemma {:induction false} PrunedSparse(t: Tree, was: Kids, c: byte, i: nat, x: bytes)
    requires t.Node? && Formed(t) && t.kids.Sparse? && Vanished(t.kids, was, c, i)
    ensures Prune(t, i, c).Done? && Prune(t, i, c).rc == 1
    ensures Formed(Prune(t, i, c).tree) && Count(Prune(t, i, c).tree, x) == Count(t, x)
  {
    var n := t.(kids := Unlink(t.kids, i));
    UnlinkFrom(t.kids, i);
    if t.prefix < x {
      UnlinkBranch(t.kids, i, x[|t.prefix|]);
    }
    SameBranches(t, n.kids, x);
    CompactCount(n, x);
  }

  /** Does taking a child out turn the array from dense to sparse? */
  predicate Reverts(kids: Kids) {
    kids.Dense? && kids.nbr <= SPARSE_MAX + 1
  }

  lemma TrimBranch(kids: Kids, c: byte, x: byte)
    requires kids.Dense? && Sized(kids) && (c == kids.min ==> FirstUsed(kids.slots) < |kids.slots|)
    ensures Branch(Trim(kids, c), x) == Branch(kids, x)
  {
  }

  lemma {:induction false} GatherBranch(kids: Kids, x: byte)
    requires kids.Dense? && Sized(kids) && |Gather(kids.slots, kids.min).0| <= SPARSE_MAX
    ensures var (chars, nodes) := Gather(kids.slots, kids.min);
            Branch(Sparse(chars, nodes), x) == Branch(kids, x)
  {
    GatherAt(kids.slots, kids.min, x);
  }

  /** A slot of a well-shaped dense array has been emptied: eight or more are still in use. */
  lemma {:induction false} StillUsed(kids: Kids, was: Kids, c: byte, i: nat)
    requires kids.Dense? && Vanished(kids, was, c, i)
    ensures Used(kids.slots) == if was.slots[i].Node? then kids.nbr - 1 else kids.nbr
    ensures kids.nbr > SPARSE_MAX + 1 ==> FirstUsed(kids.slots) < |kids.slots|
  {
    UsedSet(was.slots, i, Null);
    if FirstUsed(kids.slots) == |kids.slots| {
      UsedNone(kids.slots);
    }
  }

  lemma {:induction false} PrunedKids(t: Tree, was: Kids, c: byte, i: nat, d: byte)
    requires t.Node? && Formed(t) && t.kids.Dense? && Vanished(t.kids, was, c, i)
    requires Prune(t, i, c).Done?
    ensures var n := Prune(t, i, c).tree;
            && n.Node? && Sized(n.kids)
            && From(Children(n.kids), Children(t.kids), Null)
            && Branch(n.kids, d) == Branch(t.kids, d)
  {
    if Reverts(t.kids) {
      GatherFrom(t.kids.slots, t.kids.min);
      GatherBranch(t.kids, d);
    } else {
      TrimBranch(t.kids, c, d);
    }
  }

  lemma {:induction false} PrunedDense(t: Tree, was: Kids, c: byte, i: nat, x: bytes)
    requires t.Node? && Formed(t) && t.kids.Dense? && Vanished(t.kids, was, c, i)
    requires Prune(t, i, c).Done?
    ensures Formed(Prune(t, i, c).tree) && Prune(t, i, c).rc == 1
    ensures Count(Prune(t, i, c).tree, x) == if Reverts(t.kids) && x == t.prefix then 0 else Count(t, x)
  {
    var n := Prune(t, i, c).tree;
    assert n.prefix == t.prefix && n.refcount == if Reverts(t.kids) then 0 else t.refcount;
    var d := if t.prefix < x then x[|t.prefix|] else c;
    PrunedKids(t, was, c, i, d);
    if t.prefix < x {
      assert Count(n, x) == Count(Branch(n.kids, d), x[|t.prefix| + 1..]);
      assert Count(t, x) == Count(Branch(t.kids, d), x[|t.prefix| + 1..]);
    }
  }

  lemma {:induction false} PrunedCounts(t: Tree, was: Kids, c: byte, i: nat, x: bytes)
    requires t.Node? && Formed(t) && Vanished(t.kids, was, c, i) && Children(was)[i].Node?
    ensures var o := Prune(t, i, c);
            && o.Done? && o.rc == 1 && Formed(o.tree)
            && Count(o.tree, x) == if Reverts(t.kids) && x == t.prefix then 0 else Count(t, x)
  {
    if t.kids.Sparse? {
      PrunedSparse(t, was, c, i, x);
    } else {
      StillUsed(t.kids, was, c, i);
      PrunedDense(t, was, c, i, x);
    }
  }

  // ---------------------------------------------------------------------------------------
  // Whose subscription goes, and whose is lost

  /** The string whose count an unsubscribe call lowers.  When the data end on entry to a node, the
      node's own prefix is never compared. */
  function Target(t: Tree, data: bytes): Spot
    requires Formed(t)
    decreases t
  {
    if t.Null? then Nowhere
    else if data == [] || data == t.prefix then if t.refcount > 0 then At(t.prefix) else Nowhere
    else if !(t.prefix <= data) then Nowhere
    else
      var c := data[|t.prefix|];
      var i := NextIndex(t.kids, c);
      if i < 0 then Nowhere
      else Under(t.prefix, c, Target(Children(t.kids)[i], data[|t.prefix| + 1..]))
  }

  /** Does unsubscribing s leave nothing of t?  The trie is a single chain of sparse nodes, and its one
      subscription is to s. */
  predicate Vanishes(t: Tree, s: bytes)
    requires Formed(t)
    decreases t
  {
    t.Node? && t.kids.Sparse? &&
    if s == t.prefix then t.refcount == 1 && t.kids.nodes == []
    else
      && t.refcount == 0 && |t.kids.nodes| == 1 && t.prefix < s
      && NextIndex(t.kids, s[|t.prefix|]) == 0
      && Vanishes(t.kids.nodes[0], s[|t.prefix| + 1..])
  }

  /** The outcome of a call that removed the whole trie. */
  predicate Gone(o: Outcome) {
    o.Done? && o.rc != 0 && o.tree.Null?
  }

  /** Which node loses its count when the child in the branch for c has gone or stays. */
  function LostAt(t: Tree, c: byte, gone: bool, below: Spot): Spot
    requires t.Node?
  {
    if gone then if Reverts(t.kids) then At(t.prefix) else Nowhere
    else Under(t.prefix, c, below)
  }

  /** The string of the node whose child array an unsubscribe call turns from dense to sparse. */
  function Reverted(t: Tree, data: bytes): Spot
    requires Formed(t)
    decreases t
  {
    if t.Null? || !(t.prefix < data) then Nowhere
    else
      var c, rest := data[|t.prefix|], data[|t.prefix| + 1..];
      var i := NextIndex(t.kids, c);
      if i < 0 then Nowhere
      else
        var ch := Children(t.kids)[i];
        LostAt(t, c, Vanishes(ch, rest), Reverted(ch, rest))
  }

  /** One step down the trie. */
  ghost predicate Steps(t: Tree, s: bytes)
    requires Formed(t)
  {
    t.Node? && t.prefix < s && NextIndex(t.kids, s[|t.prefix|]) >= 0
  }

  ghost function Below(t: Tree, s: bytes): Tree
    requires Formed(t) && Steps(t, s)
  {
    Children(t.kids)[NextIndex(t.kids, s[|t.prefix|])]
  }

  lemma {:induction false} UnsubscribeStep(t: Tree, s: bytes)
    requires Formed(t) && Steps(t, s)
    ensures var c, rest := s[|t.prefix|], s[|t.prefix| + 1..];
            var i := NextIndex(t.kids, c);
            && Target(t, s) == Under(t.prefix, c, Target(Below(t, s), rest))
            && Unsubscribe(t, s) == Relink(t, i, c, Unsubscribe(Below(t, s), rest))
  {
    assert s[|t.prefix|..][1..] == s[|t.prefix| + 1..];
  }

  lemma {:induction false} RevertedStep(t: Tree, s: bytes)
    requires Formed(t) && Steps(t, s)
    ensures var c, rest := s[|t.prefix|], s[|t.prefix| + 1..];
            Reverted(t, s) == LostAt(t, c, Vanishes(Below(t, s), rest), Reverted(Below(t, s), rest))
  {
  }

  lemma {:induction false} TargetHere(t: Tree, s: bytes)
    requires Formed(t) && Target(t, s).At? && !Steps(t, s)
    ensures t.Node? && t.refcount > 0 && Target(t, s) == At(t.prefix) && s <= t.prefix
    ensures Unsubscribe(t, s) == Found(t) == Unsubscribe(t, t.prefix)
  {
  }

  /** A call for s does to the trie exactly what a call for its target would have done, and the
      target is subscribed. */
  lemma {:induction false} UnsubscribeTarget(t: Tree, s: bytes)
    requires Formed(t) && Target(t, s).At?
    ensures var g := Target(t, s).s;
            && s <= g && Count(t, g) > 0
            && Target(t, g) == At(g)
            && Unsubscribe(t, s) == Unsubscribe(t, g)
    decreases t
  {
    hide Target, Unsubscribe, Count;
    if Steps(t, s) {
      UnsubscribeStep(t, s);
      UnsubscribeTarget(Below(t, s), s[|t.prefix| + 1..]);
      TargetBelow(t, s);
    } else {
      TargetEnds(t, s);
    }
  }

  lemma TargetEnds(t: Tree, s: bytes)
    requires Formed(t) && Target(t, s).At? && !Steps(t, s)
    ensures var g := Target(t, s).s;
      s <= g && Count(t, g) > 0 && Target(t, g) == At(g) && Unsubscribe(t, s) == Unsubscribe(t, g)
  {
    TargetHere(t, s);
    TargetHere(t, t.prefix);
  }

  lemma TargetBelow(t: Tree, s: bytes)
    requires Formed(t) && Steps(t, s) && Target(Below(t, s), s[|t.prefix| + 1..]).At?
    requires var ch, rest := Below(t, s), s[|t.prefix| + 1..];
      var g := Target(ch, rest).s;
      rest <= g && Count(ch, g) > 0 && Target(ch, g) == At(g) && Unsubscribe(ch, rest) == Unsubscribe(ch, g)
    ensures Target(t, s).At?
    ensures var g := Target(t, s).s;
      s <= g && Count(t, g) > 0 && Target(t, g) == At(g) && Unsubscribe(t, s) == Unsubscribe(t, g)
  {
    hide Target, Unsubscribe, Count, Relink;
    var c, rest := s[|t.prefix|], s[|t.prefix| + 1..];
    UnsubscribeStep(t, s);
    var g := Target(Below(t, s), rest).s;
    var w := t.prefix + [c] + g;
    ThroughPrefix(t.prefix, c, g, w);
    ThroughPrefix(t.prefix, c, rest, s);
    ThroughPrefix(t.prefix, c, rest, w);
    CountBelow(t, c, w);
    UnsubscribeStep(t, w);
  }

  /** A subscribed string is its own target. */
  lemma {:induction false} SubscribedTarget(t: Tree, s: bytes)
    requires Formed(t) && Count(t, s) > 0
    ensures Target(t, s) == At(s)
    decreases t
  {
    if t.prefix < s {
      var n, c, rest := |t.prefix|, s[|t.prefix|], s[|t.prefix| + 1..];
      SubscribedTarget(Below(t, s), rest);
      ThroughPrefix(t.prefix, c, rest, s);
    }
  }

  // ---------------------------------------------------------------------------------------
  // Counts after a call

  /** The outcome o of a call for s took one from the count of s, and lost the count of lost. */
  ghost predicate Lowered(t: Tree, o: Outcome, s: bytes, lost: Spot, x: bytes)
    requires Formed(t)
  {
    && o.Done? && Formed(o.tree) && (o.tree.Null? ==> lost == Nowhere)
    && o.rc == (if Count(t, s) == 1 then 1 else 0)
    && Count(o.tree, x) == if x == s then Count(t, s) - 1
                           else if lost == At(x) then 0
                           else Count(t, x)
  }

  lemma {:induction false} FoundCounts(t: Tree, x: bytes)
    requires t.Node? && Formed(t) && t.refcount > 0
    ensures Lowered(t, Found(t), t.prefix, Nowhere, x)
  {
    CompactCount(t.(refcount := t.refcount - 1), x);
  }

  lemma {:induction false} LoweredRelink(t: Tree, c: byte, rest: bytes, o: Outcome, lost: Spot, x: bytes)
    requires t.Node? && Ok(t) && Formed(t) && NextIndex(t.kids, c) >= 0
    requires Count(Branch(t.kids, c), rest) > 0
    requires Lowered(Branch(t.kids, c), o, rest, lost, if Through(t.prefix, c, x) then x[|t.prefix| + 1..] else rest)
    ensures Lowered(t, Relink(t, NextIndex(t.kids, c), c, o), t.prefix + [c] + rest, LostAt(t, c, Gone(o), lost), x)
  {
    if o.rc != 0 && o.tree.Null? {
      LoweredPruned(t, c, rest, o, lost, x);
    } else {
      LoweredKept(t, c, rest, o, lost, x);
    }
  }

  /** The child has gone and is taken out of its parent. */
  lemma LoweredPruned(t: Tree, c: byte, rest: bytes, o: Outcome, lost: Spot, x: bytes)
    requires t.Node? && Ok(t) && Formed(t) && NextIndex(t.kids, c) >= 0
    requires Count(Branch(t.kids, c), rest) > 0 && o.Done? && o.rc != 0 && o.tree.Null?
    requires Lowered(Branch(t.kids, c), o, rest, lost, if Through(t.prefix, c, x) then x[|t.prefix| + 1..] else rest)
    ensures Lowered(t, Relink(t, NextIndex(t.kids, c), c, o), t.prefix + [c] + rest, LostAt(t, c, Gone(o), lost), x)
  {
    assert Branch(t.kids, c).Node?;
    hide Count, Prune;
    var i := NextIndex(t.kids, c);
    var s := t.prefix + [c] + rest;
    ThroughPrefix(t.prefix, c, rest, x);
    ThroughPrefix(t.prefix, c, rest, s);
    CountBelow(t, c, s);
    CountBelow(t, c, x);
    ReplaceCount(t, c, Null, x);
    var m := t.(kids := WithChild(t.kids, i, Null));
    assert Reverts(m.kids) == Reverts(t.kids);
    PrunedCounts(m, t.kids, c, i, x);
  }

  /** The child, or what has become of it, stays. */
  lemma LoweredKept(t: Tree, c: byte, rest: bytes, o: Outcome, lost: Spot, x: bytes)
    requires t.Node? && Ok(t) && Formed(t) && NextIndex(t.kids, c) >= 0
    requires Count(Branch(t.kids, c), rest) > 0 && o.Done? && (o.rc == 0 || o.tree.Node?)
    requires Lowered(Branch(t.kids, c), o, rest, lost, if Through(t.prefix, c, x) then x[|t.prefix| + 1..] else rest)
    ensures Lowered(t, Relink(t, NextIndex(t.kids, c), c, o), t.prefix + [c] + rest, LostAt(t, c, Gone(o), lost), x)
  {
    hide Count, Prune;
    ThroughPrefix(t.prefix, c, rest, x);
    ThroughPrefix(t.prefix, c, rest, t.prefix + [c] + rest);
    CountBelow(t, c, t.prefix + [c] + rest);
    CountBelow(t, c, x);
    ReplaceCount(t, c, o.tree, x);
    if lost.At? {
      ThroughPrefix(t.prefix, c, lost.s, x);
    }
  }

  /** What vanishes can be told before the call. */
  lemma {:induction false} VanishesExactly(t: Tree, s: bytes)
    requires Ok(t) && Formed(t) && Count(t, s) > 0
    ensures Vanishes(t, s) <==> Gone(Unsubscribe(t, s))
    decreases t
  {
    if t.prefix < s {
      VanishesExactly(Below(t, s), s[|t.prefix| + 1..]);
      VanishesBelow(t, s);
    }
  }

  lemma VanishesBelow(t: Tree, s: bytes)
    requires Formed(t) && Steps(t, s)
    requires var ch, rest := Below(t, s), s[|t.prefix| + 1..];
      Vanishes(ch, rest) <==> Gone(Unsubscribe(ch, rest))
    ensures Vanishes(t, s) <==> Gone(Unsubscribe(t, s))
  {
    hide Unsubscribe, Relink;
    var c, o := s[|t.prefix|], Unsubscribe(Below(t, s), s[|t.prefix| + 1..]);
    UnsubscribeStep(t, s);
    RelinkGone(t, NextIndex(t.kids, c), c, o);
  }

  lemma RelinkGone(t: Tree, i: nat, c: byte, o: Outcome)
    requires t.Node? && Sized(t.kids) && i < |Children(t.kids)|
    ensures Gone(Relink(t, i, c, o)) <==> Gone(o) && t.kids.Sparse? && |t.kids.nodes| == 1 && t.refcount == 0
  {
    hide Gather, FirstUsed, Trim;
  }

  /** An unsubscribe call for a subscribed string neither faults nor fails: it takes one from that
      string's count and returns 1 exactly when none is left.  It leaves every other count as it
      was, but for a node it turns from dense to sparse: that node's count is lost. */
  lemma {:induction false} UnsubscribeCounts(t: Tree, s: bytes, x: bytes)
    requires Ok(t) && Formed(t) && Count(t, s) > 0
    ensures Lowered(t, Unsubscribe(t, s), s, Reverted(t, s), x)
    decreases t
  {
    if t.prefix < s {
      var c, rest, ch := s[|t.prefix|], s[|t.prefix| + 1..], Below(t, s);
      UnsubscribeCounts(ch, rest, if Through(t.prefix, c, x) then x[|t.prefix| + 1..] else rest);
      CountsBelow(t, s, x);
    } else {
      FoundCounts(t, x);
    }
  }

  lemma CountsBelow(t: Tree, s: bytes, x: bytes)
    requires Ok(t) && Formed(t) && Steps(t, s) && Count(Below(t, s), s[|t.prefix| + 1..]) > 0
    requires var c, rest, ch := s[|t.prefix|], s[|t.prefix| + 1..], Below(t, s);
      Lowered(ch, Unsubscribe(ch, rest), rest, Reverted(ch, rest),
              if Through(t.prefix, c, x) then x[|t.prefix| + 1..] else rest)
    ensures Lowered(t, Unsubscribe(t, s), s, Reverted(t, s), x)
  {
    hide Unsubscribe, Reverted, Vanishes, Count, Relink, Lowered;
    var c, rest, ch := s[|t.prefix|], s[|t.prefix| + 1..], Below(t, s);
    UnsubscribeStep(t, s);
    RevertedStep(t, s);
    VanishesExactly(ch, rest);
    LoweredRelink(t, c, rest, Unsubscribe(ch, rest), Reverted(ch, rest), x);
    ThroughPrefix(t.prefix, c, rest, s);
  }

  /** The outcome o changed no count, if it is one. */
  ghost predicate Kept(t: Tree, o: Outcome, x: bytes)
    requires Formed(t)
  {
    o.Done? ==> (t.Node? ==> o.tree.Node?) && Formed(o.tree) && Count(o.tree, x) == Count(t, x)
  }

  lemma {:induction false} UntargetedHere(t: Tree, s: bytes)
    requires Formed(t) && Target(t, s) == Nowhere && !Steps(t, s)
    ensures Unsubscribe(t, s).Done? ==> Unsubscribe(t, s).tree == t
  {
  }

  lemma {:induction false} UntargetedBelow(t: Tree, s: bytes, x: bytes)
    requires Ok(t) && Formed(t) && Steps(t, s)
    requires var rest := s[|t.prefix| + 1..];
             Kept(Below(t, s), Unsubscribe(Below(t, s), rest),
                  if Through(t.prefix, s[|t.prefix|], x) then x[|t.prefix| + 1..] else rest)
    ensures Kept(t, Unsubscribe(t, s), x)
  {
    var c, rest := s[|t.prefix|], s[|t.prefix| + 1..];
    UnsubscribeStep(t, s);
    UntargetedRelink(t, c, rest, Unsubscribe(Below(t, s), rest), x);
  }

  /** A call without a target changes no count, if it returns at all. */
  lemma {:induction false} UntargetedCounts(t: Tree, s: bytes, x: bytes)
    requires Ok(t) && Formed(t) && Target(t, s) == Nowhere
    ensures Kept(t, Unsubscribe(t, s), x)
    decreases t
  {
    if Steps(t, s) {
      var c, rest := s[|t.prefix|], s[|t.prefix| + 1..];
      UntargetedCounts(Below(t, s), rest, if Through(t.prefix, c, x) then x[|t.prefix| + 1..] else rest);
      UntargetedBelow(t, s, x);
    } else {
      UntargetedHere(t, s);
    }
  }

  /** Pruning a dense slot that was empty all along either faults or keeps every count. */
  lemma {:induction false} NullSlotCounts(t: Tree, c: byte, x: bytes)
    requires t.Node? && Ok(t) && Formed(t) && NextIndex(t.kids, c) >= 0 && Branch(t.kids, c).Null?
    ensures var o := Prune(t, NextIndex(t.kids, c), c);
            o.Done? ==> o.tree.Node? && Formed(o.tree) && Count(o.tree, x) == Count(t, x)
  {
    var i := NextIndex(t.kids, c);
    assert t.kids.Dense?;
    assert WithChild(t.kids, i, Null) == t.kids;
    if Prune(t, i, c).Done? {
      PrunedDense(t, t.kids, c, i, x);
    }
  }

  lemma {:induction false} UntargetedRelink(t: Tree, c: byte, rest: bytes, o: Outcome, x: bytes)
    requires t.Node? && Ok(t) && Formed(t) && NextIndex(t.kids, c) >= 0
    requires Kept(Branch(t.kids, c), o, if Through(t.prefix, c, x) then x[|t.prefix| + 1..] else rest)
    ensures Kept(t, Relink(t, NextIndex(t.kids, c), c, o), x)
  {
    var i := NextIndex(t.kids, c);
    if o.Done? {
      if o.tree.Null? {
        assert WithChild(t.kids, i, Null) == t.kids;
        NullSlotCounts(t, c, x);
      } else {
        ReplaceCount(t, c, o.tree, x);
      }
    }
  }
}
