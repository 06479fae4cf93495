/** Which shape the trie keeps through every subscribe and unsubscribe call. */
module TrieShape {
  import opened Trie
  import opened Words
  import opened TrieCounts
  import opened TrieRemoval

  /** Everything Ok asks of a node but for the child it needs when it has no subscribers. */
  ghost predicate Loose(t: Tree) {
    && t.Node? && t.refcount < WORD32 && |t.prefix| <= PREFIX_MAX
    && KidsOk(t.kids)
    && forall u :: u in Children(t.kids) ==> Ok(u)
  }

  ghost predicate KidsTight(kids: Kids) {
    forall u :: u in Children(kids) ==> Tight(u)
  }

  // ---------------------------------------------------------------------------------------
  // Child arrays

  lemma {:induction false} ScatterUsed(chars: bytes, nodes: seq<Tree>, min: byte, slots: seq<Tree>)
    requires |chars| == |nodes| && Distinct(chars) && Null !in nodes
    requires forall i :: 0 <= i < |chars| ==> min <= chars[i] < min + |slots| && slots[chars[i] - min].Null?
    ensures Used(Scatter(chars, nodes, min, slots)) == Used(slots) + |nodes|
    decreases |chars|
  {
    if chars != [] {
      UsedSet(slots, chars[0] - min, nodes[0]);
      assert nodes[0] in nodes;
      ScatterUsed(chars[1..], nodes[1..], min, slots[chars[0] - min := nodes[0]]);
    }
  }

  lemma {:induction false} ToDenseUsed(kids: Kids, c: byte)
    requires KidsOk(kids) && Converts(kids)
    ensures Used(ToDense(kids, c).slots) == SPARSE_MAX && ToDense(kids, c).nbr == SPARSE_MAX + 1
  {
    var k := ToDense(kids, c);
    var blank := Nulls(k.max - k.min + 1);
    UsedNone(blank);
    ScatterUsed(kids.chars, kids.nodes, k.min, blank);
  }

  lemma {:induction false} ToDenseEnds(kids: Kids, c: byte)
    requires KidsOk(kids) && Converts(kids)
    ensures var k := ToDense(kids, c);
            && (c != k.min ==> k.slots[0].Node?)
            && (c != k.max ==> k.slots[|k.slots| - 1].Node?)
  {
    var k := ToDense(kids, c);
    ToDenseBranch(kids, c, k.min);
    ToDenseBranch(kids, c, k.max);
    assert forall i :: 0 <= i < |kids.nodes| ==> kids.nodes[i] in kids.nodes;
  }

  lemma {:induction false} WidenUsed(kids: Kids, c: byte)
    requires KidsOk(kids) && kids.Dense?
    ensures var k := Widen(kids, c);
            && Used(k.slots) == Used(kids.slots)
            && (c != k.min ==> k.slots[0].Node?)
            && (c != k.max ==> k.slots[|k.slots| - 1].Node?)
  {
    if c < kids.min {
      UsedNone(Nulls(kids.min - c));
      UsedConcat(Nulls(kids.min - c), kids.slots);
    } else if c > kids.max {
      UsedNone(Nulls(c - kids.max));
      UsedConcat(kids.slots, Nulls(c - kids.max));
    }
  }

  lemma {:induction false} AddKidOk(kids: Kids, c: byte, t: Tree)
    requires KidsOk(kids) && Branch(kids, c).Null? && t.Node?
    ensures KidsOk(AddKid(kids, c, t))
    ensures AddKid(kids, c, t).Sparse? ==> |Children(AddKid(kids, c, t))| == |Children(kids)| + 1
  {
    if kids.Dense? {
      hide Widen;
      WidenUsed(kids, c);
      WidenBranch(kids, c, c);
      FillOk(Widen(kids, c), c, t, kids.nbr + 1);
    } else if Converts(kids) {
      hide ToDense;
      ToDenseUsed(kids, c);
      ToDenseEnds(kids, c);
      ToDenseBranch(kids, c, c);
      FillOk(ToDense(kids, c), c, t, |kids.chars| + 1);
    }
  }

  lemma FillOk(k: Kids, c: byte, t: Tree, nbr: int)
    requires k.Dense? && Sized(k) && k.min <= c <= k.max && Branch(k, c).Null? && t.Node?
    requires nbr == Used(k.slots) + 1 > SPARSE_MAX
    requires (c != k.min ==> k.slots[0].Node?) && (c != k.max ==> k.slots[|k.slots| - 1].Node?)
    ensures KidsOk(Fill(k, c, t, nbr))
  {
    hide Used;
    UsedSet(k.slots, c - k.min, t);
  }

  // ---------------------------------------------------------------------------------------
  // Nodes

  lemma {:induction false} NewChainOk(data: bytes)
    ensures Ok(NewChain(data)) && Tight(NewChain(data))
    decreases |data|
  {
    if |data| > PREFIX_MAX {
      NewChainOk(data[PREFIX_MAX + 1..]);
    }
  }

  lemma {:induction false} CompactOk(t: Tree)
    requires Loose(t) && (t.refcount == 0 ==> Children(t.kids) != [])
    ensures Ok(Compact(t)) && Compact(t).Node? && t.prefix <= Compact(t).prefix
    ensures KidsTight(t.kids) ==> Tight(Compact(t))
  {
    var m := Compact(t);
    if m != t {
      var ch := t.kids.nodes[0];
      assert ch in Children(t.kids);
      assert m.kids == ch.kids && |m.prefix| >= |ch.prefix|;
    } else if t.refcount == 0 && t.kids.Sparse? && |t.kids.nodes| == 1 {
      assert t.kids.nodes[0] in t.kids.nodes;
    }
  }

  lemma {:induction false} SplitOk(t: Tree, pos: nat)
    requires Ok(t) && t.Node? && pos < |t.prefix|
    ensures Loose(Split(t, pos)) && Children(Split(t, pos).kids) != []
    ensures Tight(t) ==> KidsTight(Split(t, pos).kids)
  {
    CompactOk(t.(prefix := t.prefix[pos + 1..]));
  }

  lemma {:induction false} AddBranchOk(t: Tree, data: bytes)
    requires Loose(t) && data != [] && Branch(t.kids, data[0]).Null?
    requires t.refcount == 0 ==> Children(t.kids) != []
    ensures Ok(AddBranch(t, data))
    ensures KidsTight(t.kids) ==> Tight(AddBranch(t, data))
  {
    var chain := NewChain(data[1..]);
    NewChainOk(data[1..]);
    AddKidOk(t.kids, data[0], chain);
    AddKidFrom(t.kids, data[0], chain);
  }

  lemma {:induction false} RelinkedOk(t: Tree, i: nat, u: Tree)
    requires Ok(t) && t.Node? && i < |Children(t.kids)| && Children(t.kids)[i].Node? && Ok(u) && u.Node?
    ensures Ok(t.(kids := WithChild(t.kids, i, u)))
    ensures Tight(t) && Tight(u) ==>
              (Tight(t.(kids := WithChild(t.kids, i, u)))
               <==> !Mergeable(t.refcount, t.prefix, WithChild(t.kids, i, u)))
  {
    var kids := WithChild(t.kids, i, u);
    assert From(Children(kids), Children(t.kids), u);
    if kids.Dense? {
      UsedSet(t.kids.slots, i, u);
    }
  }

  // ---------------------------------------------------------------------------------------
  // Subscribing

  lemma {:induction false} SubscribedHereOk(t: Tree, s: bytes)
    requires Ok(t) && Formed(t) && Count(t, s) + 1 < WORD32 && !Descends(t, s)
    ensures Ok(Subscribe(t, s).tree)
    ensures Tight(t) ==> Tight(Subscribe(t, s).tree)
  {
    if t.Null? {
      NewChainOk(s);
    } else {
      var pos := CheckPrefix(t.prefix, s);
      if pos < |t.prefix| {
        SplitOk(t, pos);
        if s[pos..] != [] {
          AddBranchOk(Split(t, pos), s[pos..]);
        }
      } else if s[pos..] != [] {
        AddBranchOk(t, s[pos..]);
      }
    }
  }

  /** Subscribing keeps the shape of the trie, as long as the 32-bit counter does not wrap. */
  lemma {:induction false} SubscribeOk(t: Tree, s: bytes)
    requires Ok(t) && Formed(t) && Count(t, s) + 1 < WORD32
    ensures Ok(Subscribe(t, s).tree)
    decreases t
  {
    if Descends(t, s) {
      var ch, rest := Branch(t.kids, s[|t.prefix|]), s[|t.prefix| + 1..];
      SubscribeOk(ch, rest);
      SubscribeStep(t, s);
      RelinkedOk(t, NextIndex(t.kids, s[|t.prefix|]), Subscribe(ch, rest).tree);
    } else {
      SubscribedHereOk(t, s);
    }
  }

  /** Does a subscribe call split the only child of a node without subscribers so near its front that
      the two could now be merged? */
  predicate Loosens(t: Tree, s: bytes)
    requires Formed(t)
    decreases t
  {
    t.Node? && t.prefix < s &&
    var i := NextIndex(t.kids, s[|t.prefix|]);
    i >= 0 &&
    var ch, rest := Children(t.kids)[i], s[|t.prefix| + 1..];
    ch.Node? &&
    if ch.prefix <= rest then Loosens(ch, rest)
    else t.refcount == 0 && t.kids.Sparse? && |t.kids.nodes| == 1
         && |t.prefix| + CheckPrefix(ch.prefix, rest) + 1 <= PREFIX_MAX
  }

  lemma {:induction false} SubscribePrefix(t: Tree, s: bytes)
    requires Formed(t) && t.Node?
    ensures Subscribe(t, s).tree.prefix == t.prefix[..CheckPrefix(t.prefix, s)]
  {
  }

  /** Whether the parent of a replaced only child could be merged into it. */
  lemma MergeableAfter(t: Tree, i: nat, u: Tree)
    requires t.Node? && Sized(t.kids) && i < |Children(t.kids)| && u.Node?
    ensures Mergeable(t.refcount, t.prefix, WithChild(t.kids, i, u)) <==>
            t.refcount == 0 && t.kids.Sparse? && |t.kids.nodes| == 1 && |t.prefix| + |u.prefix| + 1 <= PREFIX_MAX
  {
  }

  lemma TightWith(t: Tree, i: nat, u: Tree)
    requires t.Node? && Sized(t.kids) && i < |Children(t.kids)| && Tight(t)
    ensures var kids := WithChild(t.kids, i, u);
            Tight(t.(kids := kids)) <==> !Mergeable(t.refcount, t.prefix, kids) && Tight(u)
  {
    var kids := WithChild(t.kids, i, u);
    assert Children(kids)[i] == u;
    assert forall v :: v in Children(kids) ==> v == u || v in Children(t.kids);
  }

  /** Where the walk ends below t: the child is split, or it is not. */
  lemma LoosensBelow(t: Tree, s: bytes)
    requires Formed(t) && Descends(t, s) && Tight(t)
    ensures var ch, rest := Branch(t.kids, s[|t.prefix|]), s[|t.prefix| + 1..];
      var k := CheckPrefix(ch.prefix, rest);
      var merges := t.refcount == 0 && t.kids.Sparse? && |t.kids.nodes| == 1 && |t.prefix| + k + 1 <= PREFIX_MAX;
      Loosens(t, s) <==> Loosens(ch, rest) || merges
  {
    hide Tight;
    var ch, rest := Branch(t.kids, s[|t.prefix|]), s[|t.prefix| + 1..];
    NotMergeable(t);
    assert !(ch.prefix <= rest) ==> !Loosens(ch, rest);
  }

  lemma NotMergeable(t: Tree)
    requires t.Node? && Tight(t)
    ensures !Mergeable(t.refcount, t.prefix, t.kids)
  {
  }

  lemma TightBelow(t: Tree, s: bytes)
    requires Ok(t) && Formed(t) && Descends(t, s) && Tight(t)
    requires var ch, rest := Branch(t.kids, s[|t.prefix|]), s[|t.prefix| + 1..];
      Tight(Subscribe(ch, rest).tree) <==> !Loosens(ch, rest)
    ensures Tight(Subscribe(t, s).tree) <==> !Loosens(t, s)
  {
    hide Tight, Subscribe, Loosens, Mergeable, Ok;
    var ch, rest, i := Branch(t.kids, s[|t.prefix|]), s[|t.prefix| + 1..], NextIndex(t.kids, s[|t.prefix|]);
    var u := Subscribe(ch, rest).tree;
    SubscribeStep(t, s);
    SubscribePrefix(ch, rest);
    MergeableAfter(t, i, u);
    TightWith(t, i, u);
    LoosensBelow(t, s);
  }

  /** A trie with nothing to merge stays so exactly when the call does not split too near. */
  lemma {:induction false} SubscribeTight(t: Tree, s: bytes)
    requires Ok(t) && Formed(t) && Count(t, s) + 1 < WORD32 && Tight(t)
    ensures Tight(Subscribe(t, s).tree) <==> !Loosens(t, s)
    decreases t
  {
    if Descends(t, s) {
      var ch, rest := Branch(t.kids, s[|t.prefix|]), s[|t.prefix| + 1..];
      SubscribeTight(ch, rest);
      TightBelow(t, s);
    } else {
      SubscribedHereOk(t, s);
    }
  }

  // ---------------------------------------------------------------------------------------
  // Unsubscribing

  lemma {:induction false} UsedBound(slots: seq<Tree>)
    ensures Used(slots) <= |slots|
    decreases |slots|
  {
    if slots != [] { UsedBound(slots[1..]); }
  }

  lemma {:induction false} TrimmedFirst(slots: seq<Tree>)
    ensures Used(slots[FirstUsed(slots)..]) == Used(slots)
  {
    var j := FirstUsed(slots);
    UsedNone(slots[..j]);
    UsedConcat(slots[..j], slots[j..]);
    assert slots == slots[..j] + slots[j..];
  }

  lemma {:induction false} TrimmedLast(slots: seq<Tree>)
    requires slots != []
    ensures Used(slots[..LastUsed(slots) + 1]) == Used(slots)
  {
    var j := LastUsed(slots);
    UsedNone(slots[j + 1..]);
    UsedConcat(slots[..j + 1], slots[j + 1..]);
    assert slots == slots[..j + 1] + slots[j + 1..];
  }

  /** The call returned, and left a well-shaped trie in place of t. */
  ghost predicate Settled(t: Tree, o: Outcome) {
    && o.Done? && Ok(o.tree) && (Tight(t) ==> Tight(o.tree))
    && (o.tree.Node? ==> t.Node? && |o.tree.prefix| >= |t.prefix|)
  }

  lemma {:induction false} PrunedSparseOk(t: Tree, c: byte, i: nat)
    requires Ok(t) && t.Node? && t.kids.Sparse? && NextIndex(t.kids, c) == i
    ensures Settled(t, Prune(t.(kids := WithChild(t.kids, i, Null)), i, c))
  {
    var m := t.(kids := WithChild(t.kids, i, Null));
    var n := m.(kids := Unlink(m.kids, i));
    UnlinkBranch(m.kids, i, c);
    assert forall u :: u in n.kids.nodes ==> u in t.kids.nodes;
    if |n.kids.chars| != 0 || n.refcount != 0 {
      CompactOk(n);
    }
  }

  lemma {:induction false} TrimFirstOk(kids: Kids)
    requires kids.Dense? && Sized(kids) && kids.nbr - 1 == Used(kids.slots) > SPARSE_MAX
    requires kids.slots[|kids.slots| - 1].Node?
    ensures FirstUsed(kids.slots) < |kids.slots| && KidsOk(Trim(kids, kids.min))
  {
    TrimmedFirst(kids.slots);
  }

  lemma {:induction false} TrimLastOk(kids: Kids)
    requires kids.Dense? && Sized(kids) && kids.nbr - 1 == Used(kids.slots) > SPARSE_MAX
    requires kids.slots[0].Node? && kids.min != kids.max
    ensures KidsOk(Trim(kids, kids.max))
  {
    TrimmedLast(kids.slots);
  }

  lemma {:induction false} TrimKidsOk(kids: Kids, was: Kids, c: byte, i: nat)
    requires kids.Dense? && Vanished(kids, was, c, i) && was.slots[i].Node? && kids.nbr > SPARSE_MAX + 1
    ensures c == kids.min ==> FirstUsed(kids.slots) < |kids.slots|
    ensures KidsOk(Trim(kids, c))
  {
    StillUsed(kids, was, c, i);
    UsedBound(kids.slots);
    if c == kids.min {
      TrimFirstOk(kids);
    } else if c == kids.max {
      TrimLastOk(kids);
    }
  }

  lemma {:induction false} TrimmedOk(t: Tree, c: byte, i: nat)
    requires Ok(t) && t.Node? && t.kids.Dense? && NextIndex(t.kids, c) == i && Branch(t.kids, c).Node?
    requires t.kids.nbr > SPARSE_MAX + 1
    ensures Settled(t, Prune(t.(kids := WithChild(t.kids, i, Null)), i, c))
  {
    var kids := WithChild(t.kids, i, Null);
    TrimKidsOk(kids, t.kids, c, i);
    var k := Trim(kids, c);
    assert From(Children(k), Children(t.kids), Null);
    assert Prune(t.(kids := kids), i, c) == Done(t.(kids := k), 1);
  }

  lemma {:induction false} RevertedOk(t: Tree, c: byte, i: nat)
    requires Ok(t) && t.Node? && t.kids.Dense? && NextIndex(t.kids, c) == i && Branch(t.kids, c).Node?
    requires t.kids.nbr <= SPARSE_MAX + 1
    ensures Settled(t, Prune(t.(kids := WithChild(t.kids, i, Null)), i, c))
  {
    var kids := WithChild(t.kids, i, Null);
    StillUsed(kids, t.kids, c, i);
    GatherChars(kids.slots, kids.min);
    GatherFrom(kids.slots, kids.min);
    var o := Prune(t.(kids := kids), i, c);
    assert o.Done? && From(Children(o.tree.kids), Children(t.kids), Null);
  }

  /** Pruning a child that has just gone leaves a well-shaped node, or none. */
  lemma {:induction false} PrunedOk(t: Tree, c: byte, i: nat)
    requires Ok(t) && t.Node? && NextIndex(t.kids, c) == i && Branch(t.kids, c).Node?
    ensures Settled(t, Prune(t.(kids := WithChild(t.kids, i, Null)), i, c))
  {
    if t.kids.Sparse? {
      PrunedSparseOk(t, c, i);
    } else if t.kids.nbr > SPARSE_MAX + 1 {
      TrimmedOk(t, c, i);
    } else {
      RevertedOk(t, c, i);
    }
  }

  lemma {:induction false} FoundOk(t: Tree)
    requires Ok(t) && t.Node? && t.refcount > 0
    ensures Settled(t, Found(t))
  {
    var n := t.(refcount := t.refcount - 1);
    if n.refcount == 0 && Children(n.kids) != [] {
      CompactOk(n);
    }
  }

  lemma {:induction false} RelinkSettled(t: Tree, c: byte, o: Outcome)
    requires Ok(t) && t.Node? && NextIndex(t.kids, c) >= 0 && Branch(t.kids, c).Node?
    requires Settled(Branch(t.kids, c), o) && (o.tree.Null? ==> o.rc != 0)
    ensures Settled(t, Relink(t, NextIndex(t.kids, c), c, o))
  {
    var i := NextIndex(t.kids, c);
    assert Children(t.kids)[i] in Children(t.kids);
    if o.tree.Node? {
      RelinkedOk(t, i, o.tree);
    } else {
      PrunedOk(t, c, i);
    }
  }

  /** Unsubscribing a subscribed string keeps the shape of the trie and leaves nothing to merge. */
  lemma {:induction false} UnsubscribeOk(t: Tree, s: bytes)
    requires Ok(t) && Formed(t) && Count(t, s) > 0
    ensures Settled(t, Unsubscribe(t, s))
    decreases t
  {
    if t.prefix < s {
      var c, rest, ch := s[|t.prefix|], s[|t.prefix| + 1..], Below(t, s);
      UnsubscribeOk(ch, rest);
      UnsubscribeCounts(ch, rest, rest);
      UnsubscribeStep(t, s);
      RelinkSettled(t, c, Unsubscribe(ch, rest));
    } else {
      FoundOk(t);
    }
  }
}
