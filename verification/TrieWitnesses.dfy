/** Runs that end in the states where the trie departs from its interface. */
module TrieWitnesses {
  import opened Trie
  import opened Words
  import opened TrieCounts
  import opened TrieRemoval
  import opened TrieShape
  import opened TrieMisses
  import opened TrieRuns

  function Leaf(prefix: bytes): (t: Tree)
    ensures t.Node?
  {
    Node(1, prefix, Sparse([], []))
  }

  /** A subscribed root with k leaves, for the characters from 0 on. */
  function Fan(k: nat): (t: Tree)
    requires k <= SPARSE_MAX
    ensures t.Node?
  {
    Node(1, [], Sparse(seq(k, i requires 0 <= i < k => i), seq(k, _ => Leaf([]))))
  }

  /** Subscriptions to the empty string and to the first k characters. */
  function FanRun(k: nat): History
    requires k <= SPARSE_MAX
  {
    if k == 0 then Then(Start, Sub([])) else Then(FanRun(k - 1), Sub([k - 1]))
  }

  lemma FanGrows(k: nat)
    requires k < SPARSE_MAX
    ensures Formed(Fan(k)) && Subscribe(Fan(k), [k]) == Done(Fan(k + 1), 1)
  {
    var t := Fan(k);
    assert forall u :: u in Children(t.kids) ==> u == Leaf([]);
    assert k !in t.kids.chars;
    assert [k][0..] == [k] && NewChain([k][1..]) == Leaf([]);
    assert AddBranch(t, [k]).kids.chars == Fan(k + 1).kids.chars;
    assert AddBranch(t, [k]).kids.nodes == Fan(k + 1).kids.nodes;
  }

  /** Nothing is subscribed under a character without a leaf. */
  lemma FanCount(k: nat, c: byte)
    requires k <= SPARSE_MAX && k <= c
    ensures Formed(Fan(k)) && Count(Fan(k), [c]) == 0 && Count(Fan(k), []) == 1
    ensures NextIndex(Fan(k).kids, c) < 0
  {
    var t := Fan(k);
    assert forall u :: u in Children(t.kids) ==> u == Leaf([]);
    assert c !in t.kids.chars;
  }

  lemma FanOk(k: nat)
    requires k <= SPARSE_MAX
    ensures Ok(Fan(k))
  {
    var t := Fan(k);
    assert Ok(Leaf([]));
    assert forall u :: u in Children(t.kids) ==> u == Leaf([]);
  }

  /** One more subscribe call. */
  lemma Subscribing(h: History, s: bytes)
    requires After(h).Done? && Ok(After(h).tree) && Count(After(h).tree, s) + 1 < WORD32
    ensures After(Then(h, Sub(s))) == Subscribe(After(h).tree, s)
    ensures Promised(Then(h, Sub(s))) == Promised(h) + multiset{s}
  {
  }

  lemma Unsubscribing(h: History, s: bytes)
    requires After(h).Done? && Ok(After(h).tree) && Count(After(h).tree, s) > 0
    ensures After(Then(h, Unsub(s))) == Unsubscribe(After(h).tree, s)
  {
    SubscribedTarget(After(h).tree, s);
  }

  lemma {:induction false} FanReached(k: nat)
    requires k <= SPARSE_MAX
    ensures After(FanRun(k)) == Done(Fan(k), 1) && Promised(FanRun(k))[[]] > 0
    decreases k
  {
    hide Fan, Subscribe, Promised, After;
    if k == 0 {
      FirstSubscription([]);
    } else {
      var c: byte := k - 1;
      FanReached(k - 1);
      FanOk(k - 1);
      FanCount(k - 1, c);
      FanGrows(k - 1);
      Subscribing(FanRun(k - 1), [c]);
    }
  }

  lemma FirstSubscription(s: bytes)
    requires |s| <= PREFIX_MAX
    ensures After(Then(Start, Sub(s))) == Done(Leaf(s), 1) && Promised(Then(Start, Sub(s)))[s] > 0
    ensures s == [] ==> Leaf(s) == Fan(0)
  {
    assert Count(Null, s) == 0;
    assert Legal(Null, Sub(s));
  }

  /** A subscribed root with a full sparse array. */
  ghost predicate Full(t: Tree) {
    && t.Node? && Ok(t) && Formed(t) && t.prefix == [] && t.refcount == 1 && Converts(t.kids)
    && Branch(t.kids, 0).Node?
    && forall c: byte | SPARSE_MAX <= c :: Branch(t.kids, c).Null? && Count(t, [c]) == 0
  }

  lemma FullReached()
    ensures After(FanRun(SPARSE_MAX)).Done? && Full(After(FanRun(SPARSE_MAX)).tree)
    ensures Promised(FanRun(SPARSE_MAX))[[]] > 0
  {
    hide Ok, Formed, Count, After, Promised, FanRun;
    FanReached(SPARSE_MAX);
    FanOk(SPARSE_MAX);
    forall c: byte | SPARSE_MAX <= c
      ensures Formed(Fan(SPARSE_MAX)) && Branch(Fan(SPARSE_MAX).kids, c).Null? && Count(Fan(SPARSE_MAX), [c]) == 0
    {
      FanCount(SPARSE_MAX, c);
    }
    FanCount(SPARSE_MAX, SPARSE_MAX);
  }

  // ---------------------------------------------------------------------------------------
  // Lost counts

  /** A ninth child turns a node's array dense, and the subscriptions to its own string are gone. */
  lemma ConversionLoses(t: Tree, c: byte)
    requires t.Node? && Ok(t) && Formed(t) && Converts(t.kids) && Branch(t.kids, c).Null? && t.refcount > 0
    ensures var after := Subscribe(t, t.prefix + [c]).tree;
            Count(t, t.prefix) > 0 && Formed(after) && Count(after, t.prefix) == 0
  {
    assert (t.prefix + [c])[|t.prefix|] == c;
    SubscribeCounts(t, t.prefix + [c], t.prefix);
  }

  /** A run of ten subscriptions, none of which is taken back, after which the first is not held. */
  lemma LossReached()
    ensures var h := Then(FanRun(SPARSE_MAX), Sub([8]));
      After(h).Done? && Promised(h)[[]] > 0 && Count(After(h).tree, []) == 0
  {
    hide Ok, Formed, Count, After, Promised, FanRun, Subscribe;
    FullReached();
    var t := After(FanRun(SPARSE_MAX)).tree;
    Subscribing(FanRun(SPARSE_MAX), [8]);
    assert t.prefix + [8] == [8];
    ConversionLoses(t, 8);
  }

  /** The ninth child goes again, and the array turns sparse: the subscriptions to the node's own string, made in
      the meantime, are gone. */
  lemma ReversionLoses(t: Tree, c: byte)
    requires t.Node? && Ok(t) && Formed(t) && t.prefix == [] && t.refcount > 0
    requires Reverts(t.kids) && Branch(t.kids, c) == Leaf([])
    ensures Count(t, []) > 0 && Count(t, [c]) == 1
    ensures Unsubscribe(t, [c]).Done? && Formed(Unsubscribe(t, [c]).tree) && Count(Unsubscribe(t, [c]).tree, []) == 0
  {
    assert [c][1..] == [] && [] < [c];
    CountBelow(t, c, [c]);
    assert Count(Leaf([]), []) == 1 && Vanishes(Leaf([]), []);
    assert Reverted(t, [c]) == At([]);
    UnsubscribeCounts(t, [c], []);
  }

  /** Two subscriptions to the empty string are promised; the first is lost when the array turns dense, the second
      when it turns sparse again. */
  lemma SecondLossReached()
    ensures var h := Then(Then(Then(FanRun(SPARSE_MAX), Sub([8])), Sub([])), Unsub([8]));
      After(h).Done? && Promised(h)[[]] >= 2 && Count(After(h).tree, []) == 0
  {
    hide Ok, Formed, Count, After, Promised, FanRun, Subscribe, Unsubscribe;
    FullReached();
    var t := After(FanRun(SPARSE_MAX)).tree;
    var h1 := Then(FanRun(SPARSE_MAX), Sub([8]));
    var h2 := Then(h1, Sub([]));
    var u := Subscribe(t, [8]).tree;
    Subscribing(FanRun(SPARSE_MAX), [8]);
    SubscribesBranch(t, 8, 8);
    RunCounts(h1, []);
    OkFormed(u);
    SubscribesRoot(u);
    Subscribing(h1, []);
    RunCounts(h2, []);
    OkFormed(After(h2).tree);
    ReversionLoses(After(h2).tree, 8);
    Unsubscribing(h2, [8]);
    LastPromise(h2, [8]);
  }

  lemma LastPromise(h: History, s: bytes)
    requires s != []
    ensures Promised(Then(h, Unsub(s)))[[]] == Promised(h)[[]]
  {
  }

  /** A subscribe call for the empty string, at a root without a prefix and without subscribers. */
  lemma SubscribesRoot(t: Tree)
    requires t.Node? && Formed(t) && t.prefix == [] && t.refcount == 0
    ensures Subscribe(t, []) == Done(t.(refcount := 1), 1) && Count(t, []) == 0
  {
  }

  // ---------------------------------------------------------------------------------------
  // Calls for strings that are not subscribed

  /** Unsubscribing the empty string, to which nobody has subscribed, removes another subscription
      and reports success. */
  lemma WrongTarget(s: bytes)
    requires 0 < |s| <= PREFIX_MAX
    ensures var h := Then(Start, Sub(s));
      After(h) == Done(Leaf(s), 1) && Count(Leaf(s), []) == 0 && Count(Leaf(s), s) == 1
    ensures Unsubscribe(Leaf(s), []) == Done(Null, 1)
  {
    FirstSubscription(s);
  }

  /** A dense root with an empty slot for the character 8. */
  ghost predicate Gap(t: Tree, nbr: int) {
    && t.Node? && Ok(t) && Formed(t) && t.prefix == [] && t.kids.Dense? && t.kids.nbr == nbr
    && Branch(t.kids, 0).Node? && Branch(t.kids, 8).Null? && Branch(t.kids, 9).Node? && Branch(t.kids, 10).Null?
  }

  /** Subscriptions to the empty string, to the first eight characters and to a later one. */
  function GapRun(): History {
    Then(FanRun(SPARSE_MAX), Sub([9]))
  }

  lemma GapReached()
    ensures After(GapRun()).Done? && Gap(After(GapRun()).tree, 9)
  {
    hide Ok, Formed, Count, After, Promised, FanRun, Subscribe, AddBranch;
    FullReached();
    var t := After(FanRun(SPARSE_MAX)).tree;
    Subscribing(FanRun(SPARSE_MAX), [9]);
    RunCounts(GapRun(), []);
    OkFormed(After(GapRun()).tree);
    SubscribesBranch(t, 9, 0);
    SubscribesBranch(t, 9, 8);
    SubscribesBranch(t, 9, 9);
    SubscribesBranch(t, 9, 10);
  }

  /** A subscribe call that adds a branch to the root. */
  lemma SubscribesBranch(t: Tree, c: byte, x: byte)
    requires t.Node? && Ok(t) && Formed(t) && t.prefix == [] && Branch(t.kids, c).Null?
    ensures var u := Subscribe(t, [c]).tree;
      && Subscribe(t, [c]).Done? && u.Node? && u.prefix == [] && Sized(u.kids)
      && (Branch(u.kids, x) == if x == c then Leaf([]) else Branch(t.kids, x))
      && u.refcount == (if Converts(t.kids) then 0 else t.refcount)
      && (Converts(t.kids) ==> u.kids.Dense? && u.kids.nbr == 9)
      && (t.kids.Dense? ==> u.kids.Dense? && u.kids.nbr == t.kids.nbr + 1)
  {
    assert [c][0..] == [c];
    hide Ok, Formed;
    assert Subscribe(t, [c]) == Done(AddBranch(t, [c]), 1);
    AddKidBranch(t.kids, c, NewChain([c][1..]), x);
  }

  lemma GapIsEmpty(t: Tree, nbr: int)
    requires Gap(t, nbr)
    ensures NextIndex(t.kids, 8) >= 0 && t.prefix + [8] == [8]
  {
    hide Ok, Formed;
  }

  /** After ten subscriptions, unsubscribing a string that was never subscribed fails an assertion. */
  lemma FaultReached()
    ensures After(GapRun()).Done? && Count(After(GapRun()).tree, [8]) == 0
    ensures Unsubscribe(After(GapRun()).tree, [8]) == Fault
  {
    hide Ok, Formed, Count, After, GapRun, Unsubscribe;
    GapReached();
    GapIsEmpty(After(GapRun()).tree, 9);
    EmptySlotCall(After(GapRun()).tree, 8);
  }

  /** After eleven, it reports a removal and leaves a malformed trie. */
  lemma DamageReached()
    ensures var h := Then(GapRun(), Sub([10]));
      && After(h).Done? && Count(After(h).tree, [8]) == 0
      && var o := Unsubscribe(After(h).tree, [8]);
      o.Done? && o.rc == 1 && !Ok(o.tree)
  {
    hide Ok, Formed, Count, After, GapRun, Unsubscribe, Subscribe;
    GapReached();
    var h, t := Then(GapRun(), Sub([10])), After(GapRun()).tree;
    NotHeld(t, 10);
    Subscribing(GapRun(), [10]);
    RunCounts(h, []);
    OkFormed(After(h).tree);
    SubscribesBranch(t, 10, 0);
    SubscribesBranch(t, 10, 8);
    SubscribesBranch(t, 10, 9);
    EmptySlotInside(After(h).tree);
    EmptySlotCall(After(h).tree, 8);
  }

  lemma NotHeld(t: Tree, c: byte)
    requires t.Node? && Formed(t) && t.prefix == [] && Branch(t.kids, c).Null?
    ensures Count(t, [c]) == 0
  {
  }

  lemma EmptySlotInside(t: Tree)
    requires t.Node? && Formed(t) && t.prefix == [] && t.kids.Dense?
    requires Branch(t.kids, 0).Node? && Branch(t.kids, 9).Node?
    ensures NextIndex(t.kids, 8) >= 0 && t.prefix + [8] == [8]
  {
    hide Formed;
  }

  // ---------------------------------------------------------------------------------------
  // A node that could be merged

  /** Four legal calls, after which a node without subscribers could be merged into its only child. */
  function SplitRun(p: bytes, c: byte, q: bytes): History
    requires q != []
  {
    Then(Then(Then(Then(Start, Sub(p)), Sub(p + [c] + q)), Unsub(p)), Sub(p + [c] + q[..1]))
  }

  /** The node above the split, before and after its own subscription is taken back. */
  function Stem(refcount: nat, p: bytes, c: byte, q: bytes): Tree {
    Node(refcount, p, Sparse([c], [Leaf(q)]))
  }

  lemma StemOk(refcount: nat, p: bytes, c: byte, q: bytes)
    requires refcount <= 1 && |p| == 5 && |q| == 6
    ensures var t := Stem(refcount, p, c, q);
      Ok(t) && Tight(t) && Formed(t) && Count(t, p) == refcount && Count(t, p + [c] + q[..1]) == 0
  {
    var t, s := Stem(refcount, p, c, q), p + [c] + q[..1];
    OkFormed(t);
    CountBelow(t, c, s);
    ThroughPrefix(p, c, q[..1], s);
  }

  lemma StemCalls(p: bytes, c: byte, q: bytes)
    requires |p| == 5 && |q| == 6
    ensures Ok(Leaf(p)) && Formed(Leaf(p)) && Count(Leaf(p), p + [c] + q) == 0
    ensures Subscribe(Leaf(p), p + [c] + q) == Done(Stem(1, p, c, q), 1)
    ensures Formed(Stem(1, p, c, q)) && Unsubscribe(Stem(1, p, c, q), p) == Done(Stem(0, p, c, q), 1)
  {
    var s := p + [c] + q;
    assert p < s && s[5..] == [c] + q && ([c] + q)[1..] == q;
    StemOk(1, p, c, q);
  }

  lemma SplitLoosens(p: bytes, c: byte, q: bytes)
    requires |p| == 5 && |q| == 6
    ensures var t, s := Stem(0, p, c, q), p + [c] + q[..1];
      Ok(t) && Tight(t) && Formed(t) && !Tight(Subscribe(t, s).tree)
  {
    var t, s := Stem(0, p, c, q), p + [c] + q[..1];
    StemOk(0, p, c, q);
    ThroughPrefix(p, c, q[..1], s);
    assert s[6..] == q[..1] && CheckPrefix(q, q[..1]) <= 1;
    SubscribeTight(t, s);
  }

  /** The run is legal throughout, and its last call leaves the trie with a node to merge. */
  lemma SplitReached(p: bytes, c: byte, q: bytes)
    requires |p| == 5 && |q| == 6
    ensures After(SplitRun(p, c, q)).Done? && !Tight(After(SplitRun(p, c, q)).tree)
    ensures Tight(After(SplitRun(p, c, q).past).tree)
  {
    hide Ok, Formed, Count, Subscribe, Unsubscribe, Tight, Stem, Leaf, Promised, After;
    var h1 := Then(Start, Sub(p));
    var h2 := Then(h1, Sub(p + [c] + q));
    var h3 := Then(h2, Unsub(p));
    StemOk(1, p, c, q);
    StemOk(0, p, c, q);
    StemCalls(p, c, q);
    FirstSubscription(p);
    Subscribing(h1, p + [c] + q);
    Unsubscribing(h2, p);
    Subscribing(h3, p + [c] + q[..1]);
    SplitLoosens(p, c, q);
  }
}
