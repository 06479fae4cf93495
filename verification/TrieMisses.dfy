/** Unsubscribe calls for any string at all: which of them leave the trie alone, which take a subscription, and
    which damage it. */
module TrieMisses {
  import opened Trie
  import opened Words
  import opened TrieCounts
  import opened TrieRemoval
  import opened TrieShape

  /** The walk of a call ends where the source copes with it: at a node without subscribers, or at a missing
      branch or a different prefix; and not at an empty slot of a dense array. */
  predicate Harmless(t: Tree, s: bytes)
    requires Formed(t)
    decreases t
  {
    if t.Null? then s == []
    else if s == [] || s == t.prefix then t.refcount == 0
    else if !(t.prefix <= s) then true
    else
      var i := NextIndex(t.kids, s[|t.prefix|]);
      i < 0 || (Children(t.kids)[i].Node? && Harmless(Children(t.kids)[i], s[|t.prefix| + 1..]))
  }

  /** Does the walk end at a node?  Otherwise it comes to a missing branch or a different prefix. */
  predicate EndsAtNode(t: Tree, s: bytes)
    requires Formed(t)
    decreases t
  {
    s == [] ||
    (t.Node? && t.prefix <= s &&
     (s == t.prefix ||
      (var i := NextIndex(t.kids, s[|t.prefix|]);
       i >= 0 && EndsAtNode(Children(t.kids)[i], s[|t.prefix| + 1..]))))
  }

  /** What a harmless call answers.  Only at the root is the missing subscription reported; below it, the error is
      taken for a removal. */
  function MissAnswer(t: Tree, s: bytes): int
    requires Formed(t)
  {
    if !EndsAtNode(t, s) then 0
    else if t.Null? || s == [] || s == t.prefix then -EINVAL
    else 1
  }

  lemma {:induction false} HarmlessKeeps(t: Tree, s: bytes)
    requires Formed(t) && Harmless(t, s)
    ensures Unsubscribe(t, s) == Done(t, MissAnswer(t, s))
    decreases t
  {
    if Steps(t, s) {
      HarmlessKeeps(Below(t, s), s[|t.prefix| + 1..]);
      HarmlessBelow(t, s);
    }
  }

  lemma HarmlessBelow(t: Tree, s: bytes)
    requires Formed(t) && Steps(t, s) && Below(t, s).Node?
    requires var ch, rest := Below(t, s), s[|t.prefix| + 1..];
      Unsubscribe(ch, rest) == Done(ch, MissAnswer(ch, rest))
    ensures Unsubscribe(t, s) == Done(t, MissAnswer(t, s))
  {
    hide Unsubscribe;
    UnsubscribeStep(t, s);
    var i := NextIndex(t.kids, s[|t.prefix|]);
    assert WithChild(t.kids, i, Children(t.kids)[i]) == t.kids;
  }

  // ---------------------------------------------------------------------------------------
  // Empty slots

  /** The call ended badly: it followed a null pointer, failed an assertion, or left a malformed trie. */
  ghost predicate Bad(o: Outcome) {
    o.Done? ==> o.tree.Node? && !Ok(o.tree)
  }

  /** Taking a child out of a dense slot that is empty makes the number of used slots wrong, or finds it wrong. */
  lemma PruneEmpty(t: Tree, c: byte)
    requires t.Node? && Ok(t) && Formed(t) && NextIndex(t.kids, c) >= 0 && Branch(t.kids, c).Null?
    ensures t.kids.Dense? && t.kids.min < c < t.kids.max && t.kids.nbr == Used(t.kids.slots) > SPARSE_MAX
    ensures t.kids.nbr == SPARSE_MAX + 1 ==> Prune(t, NextIndex(t.kids, c), c) == Fault
    ensures t.kids.nbr > SPARSE_MAX + 1 ==>
      Prune(t, NextIndex(t.kids, c), c) == Done(t.(kids := t.kids.(nbr := t.kids.nbr - 1)), 1)
    ensures Bad(Prune(t, NextIndex(t.kids, c), c))
  {
    EmptySlot(t.kids, c);
    hide Gather, FirstUsed, LastUsed, Used, Ok;
    if t.kids.nbr > SPARSE_MAX + 1 {
      var kids := t.kids.(nbr := t.kids.nbr - 1);
      assert Trim(t.kids, c) == kids;
      Miscounted(t, kids);
    }
  }

  /** An empty slot lies strictly inside a dense array. */
  lemma EmptySlot(kids: Kids, c: byte)
    requires KidsOk(kids) && NextIndex(kids, c) >= 0 && Branch(kids, c).Null?
    ensures kids.Dense? && kids.min < c < kids.max
  {
    hide Used;
    assert kids.Dense? ==> c != kids.min && c != kids.max;
  }

  lemma Miscounted(t: Tree, kids: Kids)
    requires t.Node? && kids.Dense? && kids.nbr != Used(kids.slots)
    ensures !Ok(t.(kids := kids))
  {
    hide Used;
    assert !KidsOk(kids);
  }

  /** A call that hits no subscription and is not harmless ends badly. */
  lemma {:induction false} MissDamages(t: Tree, s: bytes)
    requires Ok(t) && Formed(t) && Target(t, s) == Nowhere && !Harmless(t, s)
    ensures Bad(Unsubscribe(t, s))
    decreases t
  {
    hide Unsubscribe, Bad;
    MissStep(t, s);
    if t.Node? {
      if Below(t, s).Node? {
        MissDamages(Below(t, s), s[|t.prefix| + 1..]);
      }
      DamageBelow(t, s);
    }
  }

  lemma MissStep(t: Tree, s: bytes)
    requires Ok(t) && Formed(t) && Target(t, s) == Nowhere && !Harmless(t, s)
    ensures t.Null? ==> Bad(Unsubscribe(t, s))
    ensures t.Node? ==>
      && Steps(t, s)
      && (var ch, rest := Below(t, s), s[|t.prefix| + 1..];
          ch.Node? ==> Ok(ch) && Target(ch, rest) == Nowhere && !Harmless(ch, rest))
  {
  }

  lemma DamageBelow(t: Tree, s: bytes)
    requires Ok(t) && Formed(t) && Steps(t, s)
    requires Below(t, s).Null? || Bad(Unsubscribe(Below(t, s), s[|t.prefix| + 1..]))
    ensures Bad(Unsubscribe(t, s))
  {
    hide Unsubscribe;
    var c, o := s[|t.prefix|], Unsubscribe(Below(t, s), s[|t.prefix| + 1..]);
    var i := NextIndex(t.kids, c);
    UnsubscribeStep(t, s);
    if Below(t, s).Null? {
      NullCall(s[|t.prefix| + 1..]);
      assert WithChild(t.kids, i, Null) == t.kids;
      PruneEmpty(t, c);
    } else if o.Done? {
      assert Children(WithChild(t.kids, i, o.tree))[i] == o.tree;
      assert o.tree in Children(WithChild(t.kids, i, o.tree));
    }
  }

  lemma NullCall(s: bytes)
    ensures Unsubscribe(Null, s) == if s == [] then Done(Null, -EINVAL) else Fault
  {
  }

  /** A call that comes to an empty slot with its last character: with nine children left it fails an assertion,
      with more it reports a removal, although there was none, and counts one child too few. */
  lemma EmptySlotCall(t: Tree, c: byte)
    requires t.Node? && Ok(t) && Formed(t) && NextIndex(t.kids, c) >= 0 && Branch(t.kids, c).Null?
    ensures var s := t.prefix + [c];
      && Count(t, s) == 0 && Target(t, s) == Nowhere
      && Unsubscribe(t, s) == (if t.kids.nbr == SPARSE_MAX + 1 then Fault
                               else Done(t.(kids := t.kids.(nbr := t.kids.nbr - 1)), 1))
      && Bad(Unsubscribe(t, s))
  {
    hide Prune, Ok;
    var s := t.prefix + [c];
    assert s[|t.prefix|] == c && s[|t.prefix| + 1..] == [];
    assert Steps(t, s);
    PruneEmpty(t, c);
    UnsubscribeStep(t, s);
    NullCall([]);
    assert WithChild(t.kids, NextIndex(t.kids, c), Null) == t.kids;
  }

  // ---------------------------------------------------------------------------------------
  // The exact conditions

  /** A call leaves the trie as it was exactly when its walk is harmless. */
  lemma MissIsHarmless(t: Tree, s: bytes)
    requires Ok(t) && Formed(t)
    ensures Unsubscribe(t, s).Done? && Unsubscribe(t, s).tree == t <==> Harmless(t, s)
  {
    hide Unsubscribe;
    if Harmless(t, s) {
      HarmlessKeeps(t, s);
    } else if Target(t, s).At? {
      var g := Target(t, s).s;
      UnsubscribeTarget(t, s);
      UnsubscribeCounts(t, g, g);
    } else {
      MissDamages(t, s);
    }
  }

  /** A call returns and leaves a well-shaped trie exactly when it hits a subscription or is harmless. */
  lemma CallSettles(t: Tree, s: bytes)
    requires Ok(t) && Formed(t)
    ensures Unsubscribe(t, s).Done? && Ok(Unsubscribe(t, s).tree) <==> Target(t, s).At? || Harmless(t, s)
  {
    hide Unsubscribe;
    if Harmless(t, s) {
      HarmlessKeeps(t, s);
    } else if Target(t, s).At? {
      UnsubscribeTarget(t, s);
      UnsubscribeOk(t, Target(t, s).s);
    } else {
      MissDamages(t, s);
    }
  }
}
