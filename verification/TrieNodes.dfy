/** The trie as the program keeps it: nodes on the heap, overwritten in place.  Every operation is
    proved to change the tree of values it stands for as the functions of module Trie say. */
module TrieNodes {
  import opened Trie
  import opened Words
  import S = TrieShape
  import C = TrieCounts
  import R = TrieRemoval
  import M = TrieMisses
  import opened TrieMatch

  class TrieNode {
    var refcount: nat
    var prefix: bytes
    var dense: bool
    var chars: bytes           // the characters of a sparse array
    var min: byte              // the range of a dense one, and its number of slots in use
    var max: byte
    var nbr: int
    var kids: seq<TrieNode?>   // the child pointers that follow the node
    ghost var tree: Tree       // the value this node and the nodes below it stand for
    ghost var Repr: set<object>

    /** The header of this node, and the tree of each child, are those of the node's tree. */
    ghost predicate Shows()
      reads this, kids
    {
      && tree.Node? && tree.refcount == refcount && tree.prefix == prefix
      && Sized(tree.kids) && |Children(tree.kids)| == |kids|
      && (if dense then tree.kids.Dense? && tree.kids.min == min && tree.kids.max == max && tree.kids.nbr == nbr
          else tree.kids.Sparse? && tree.kids.chars == chars)
      && forall i :: 0 <= i < |kids| ==>
           Children(tree.kids)[i] == if kids[i] == null then Null else kids[i].tree
    }

    ghost predicate Valid()
      reads this, Repr
      ensures Valid() ==> this in Repr && tree.Node? && Formed(tree)
      decreases Repr
    {
      && this in Repr
      && (forall k :: k in kids && k != null ==> k in Repr && k.Repr <= Repr && this !in k.Repr)
      && (forall k :: k in kids && k != null ==> k.Valid())
      && Apart(kids) && Shows() && Formed(tree)
    }

    /** Valid, but for child i, about which nothing is said. */
    ghost predicate OpenAt(i: nat)
      reads this, Repr
    {
      && this in Repr && i < |kids|
      && tree.Node? && tree.refcount == refcount && tree.prefix == prefix && Formed(tree)
      && |Children(tree.kids)| == |kids|
      && (if dense then tree.kids.Dense? && tree.kids.min == min && tree.kids.max == max && tree.kids.nbr == nbr
          else tree.kids.Sparse? && tree.kids.chars == chars)
      && (forall j :: 0 <= j < |kids| && j != i && kids[j] != null ==>
            kids[j] in Repr && kids[j].Repr <= Repr && this !in kids[j].Repr)
      && (forall j :: 0 <= j < |kids| && j != i ==>
            if kids[j] == null then Children(tree.kids)[j] == Null
            else kids[j].Valid() && Children(tree.kids)[j] == kids[j].tree)
      && (forall j, k :: 0 <= j < |kids| && 0 <= k < |kids| && j != k && j != i && k != i
                         && kids[j] != null && kids[k] != null ==>
            kids[j].Repr !! kids[k].Repr)
    }

    /** A node without children. */
    constructor (refcount: nat, prefix: bytes)
      ensures Valid() && fresh(Repr) && tree == Node(refcount, prefix, Sparse([], []))
      ensures kids == [] && !dense
    {
      this.refcount, this.prefix, dense, chars, kids := refcount, prefix, false, [], [];
      min, max, nbr := 0, 0, 0;
      tree := Node(refcount, prefix, Sparse([], []));
      Repr := {this};
    }
  }

  /** No two child pointers lead to a common object. */
  ghost predicate Apart(kids: seq<TrieNode?>)
    reads kids
  {
    forall i, j :: 0 <= i < |kids| && 0 <= j < |kids| && i != j && kids[i] != null && kids[j] != null ==>
      kids[i].Repr !! kids[j].Repr
  }

  ghost function TreeOf(n: TrieNode?): Tree
    reads n
  {
    if n == null then Null else n.tree
  }

  ghost function ReprOf(n: TrieNode?): set<object>
    reads n
  {
    if n == null then {} else n.Repr
  }

  ghost predicate ValidOf(n: TrieNode?)
    reads n, ReprOf(n)
  {
    n != null ==> n.Valid()
  }

  // ---------------------------------------------------------------------------------------
  // Scanning loops

  /** How many characters of data match the prefix. */
  method ScanPrefix(prefix: bytes, data: bytes) returns (i: nat)
    ensures i == CheckPrefix(prefix, data)
  {
    i := 0;
    while i < |prefix|
      invariant i <= |prefix| && i <= |data|
      invariant CheckPrefix(prefix, data) == i + CheckPrefix(prefix[i..], data[i..])
    {
      if i == |data| || prefix[i] != data[i] {
        return;
      }
      assert prefix[i..][1..] == prefix[i + 1..] && data[i..][1..] == data[i + 1..];
      i := i + 1;
    }
  }

  /** The position of c, or -1. */
  method ScanChars(chars: bytes, c: byte) returns (i: int)
    ensures i == IndexOf(chars, c)
  {
    i := 0;
    while i < |chars|
      invariant 0 <= i <= |chars|
      invariant IndexOf(chars, c) == if IndexOf(chars[i..], c) < 0 then -1 else i + IndexOf(chars[i..], c)
    {
      if chars[i] == c {
        return;
      }
      assert chars[i..][1..] == chars[i + 1..];
      i := i + 1;
    }
    i := -1;
  }

  /** The range of the characters and c, scanning from the end of the array. */
  method Range(chars: bytes, c: byte) returns (min: byte, max: byte)
    ensures min == MinOf(chars, c) && max == MaxOf(chars, c)
  {
    min, max := c, c;
    var i := |chars|;
    while i > 0
      invariant 0 <= i <= |chars|
      invariant min == MinOf(chars[i..], c) && max == MaxOf(chars[i..], c)
    {
      i := i - 1;
      assert chars[i..][1..] == chars[i + 1..];
      min := Min(chars[i], min);
      max := Max(chars[i], max);
    }
  }

  // ---------------------------------------------------------------------------------------
  // Overwriting a node

  /** Overwrites child i of n by r, which stands in for the node that was there. */
  method SetKid(n: TrieNode, i: nat, r: TrieNode?)
    requires n.OpenAt(i) && ValidOf(r)
    requires n !in ReprOf(r)
    requires forall j :: 0 <= j < |n.kids| && j != i && n.kids[j] != null ==> n.kids[j].Repr !! ReprOf(r)
    modifies n
    ensures n.Valid() && n.Repr == old(n.Repr) + ReprOf(r)
    ensures n.tree == old(n.tree).(kids := WithChild(old(n.tree.kids), i, old(TreeOf(r))))
    ensures n.kids == old(n.kids)[i := r]
    ensures n.dense == old(n.dense)
  {
    n.kids := n.kids[i := r];
    n.tree := n.tree.(kids := WithChild(n.tree.kids, i, TreeOf(r)));
    n.Repr := n.Repr + ReprOf(r);
    forall k | k in n.kids && k != null
      ensures k in n.Repr && k.Repr <= n.Repr && n !in k.Repr && k.Valid()
    {
      var j :| 0 <= j < |n.kids| && n.kids[j] == k;
      if j != i { assert k == old(n.kids)[j]; }
    }
    assert Formed(n.tree) by {
      forall u | u in Children(n.tree.kids) ensures Formed(u) {
        if u != TreeOf(r) { assert u in Children(old(n.tree.kids)); }
      }
    }
  }

  /** Merges a node without subscribers into its only child when the prefixes fit together. */
  method CompactNode(n: TrieNode) returns (r: TrieNode)
    requires n.Valid()
    modifies n.Repr
    ensures r.Valid() && r.Repr <= old(n.Repr) && r.tree == Compact(old(n.tree))
  {
    ghost var t := n.tree;
    r := n;
    if n.refcount == 0 && !n.dense && |n.chars| == 1 {
      var ch := n.kids[0];
      assert ch in n.kids && t.kids == Sparse(n.chars, [TreeOf(ch)]);
      if ch != null && |n.prefix| + |ch.prefix| + 1 <= PREFIX_MAX {
        ch.prefix := n.prefix + [n.chars[0]] + ch.prefix;
        ch.tree := Compact(t);
        r := ch;
      }
    }
  }

  /** A fresh chain of nodes holding data, with one subscription at its end. */
  method MakeChain(data: bytes) returns (n: TrieNode)
    ensures n.Valid() && fresh(n.Repr) && n.tree == NewChain(data)
    decreases |data|
  {
    if |data| <= PREFIX_MAX {
      n := new TrieNode(1, data);
    } else {
      var below := MakeChain(data[PREFIX_MAX + 1..]);
      n := new TrieNode(0, data[..PREFIX_MAX]);
      n.chars, n.kids := [data[PREFIX_MAX]], [below];
      n.tree := NewChain(data);
      n.Repr := {n} + below.Repr;
    }
  }

  // ---------------------------------------------------------------------------------------
  // Changing the layout of a node

  /** Each pointer of slots is null or one of kids, and none of those is used twice. */
  ghost predicate Picks(slots: seq<TrieNode?>, kids: seq<TrieNode?>, src: seq<int>) {
    && |src| == |slots|
    && (forall j :: 0 <= j < |slots| && slots[j] != null ==> 0 <= src[j] < |kids| && slots[j] == kids[src[j]])
    && forall i, j :: 0 <= i < |slots| && 0 <= j < |slots| && i != j && slots[i] != null && slots[j] != null ==>
         src[i] != src[j]
  }

  ghost predicate Header(kids: Kids, dense: bool, chars: bytes, min: byte, max: byte, nbr: int) {
    if dense then kids.Dense? && kids.min == min && kids.max == max && kids.nbr == nbr
    else kids.Sparse? && kids.chars == chars
  }

  lemma PickedApart(slots: seq<TrieNode?>, kids: seq<TrieNode?>, src: seq<int>)
    requires Apart(kids) && Picks(slots, kids, src)
    ensures Apart(slots) && forall k :: k in slots && k != null ==> k in kids
  {
    forall k | k in slots && k != null ensures k in kids {
      var j :| 0 <= j < |slots| && slots[j] == k;
      assert k == kids[src[j]];
    }
  }

  lemma PickedFormed(n: TrieNode, slots: seq<TrieNode?>, trees: seq<Tree>)
    requires n.Valid() && forall k :: k in slots && k != null ==> k in n.kids
    requires |trees| == |slots| && forall j :: 0 <= j < |slots| ==> trees[j] == TreeOf(slots[j])
    ensures forall u :: u in trees ==> Formed(u)
  {
    forall u | u in trees ensures Formed(u) {
      var j :| 0 <= j < |trees| && trees[j] == u;
      assert slots[j] in slots;
      if slots[j] != null { assert slots[j].Valid(); }
    }
  }

  /** Gives a node a new child array, made of its old children. */
  method Relayout(n: TrieNode, refcount: nat, dense: bool, chars: bytes, min: byte, max: byte, nbr: int,
                  slots: seq<TrieNode?>, ghost src: seq<int>, ghost kids: Kids)
    requires n.Valid() && Picks(slots, n.kids, src)
    requires Sized(kids) && Header(kids, dense, chars, min, max, nbr) && |Children(kids)| == |slots|
    requires forall j :: 0 <= j < |slots| ==> Children(kids)[j] == TreeOf(slots[j])
    modifies n
    ensures n.Valid() && n.Repr == old(n.Repr) && n.tree == Node(refcount, old(n.prefix), kids)
    ensures n.kids == slots && n.dense == dense
  {
    PickedApart(slots, n.kids, src);
    PickedFormed(n, slots, Children(kids));
    n.refcount, n.dense, n.chars, n.min, n.max, n.nbr := refcount, dense, chars, min, max, nbr;
    n.kids := slots;
    n.tree := Node(refcount, n.prefix, kids);
    assert n.Shows();
  }

  /** Stretches a dense array so that its range includes c. */
  method Stretch(n: TrieNode, c: byte)
    requires n.Valid() && n.dense
    modifies n
    ensures n.Valid() && n.Repr == old(n.Repr) && n.dense && n.min <= c <= n.max
    ensures n.tree == old(n.tree).(kids := Widen(old(n.tree.kids), c))
  {
    ghost var k := Widen(n.tree.kids, c);
    if c < n.min {
      var pad := n.min - c;
      ghost var src := seq(pad + |n.kids|, j => j - pad);
      Relayout(n, n.refcount, true, n.chars, c, n.max, n.nbr, seq(pad, _ => null) + n.kids, src, k);
    } else if c > n.max {
      var pad := c - n.max;
      ghost var src := seq(pad + |n.kids|, j => j);
      Relayout(n, n.refcount, true, n.chars, n.min, c, n.nbr, n.kids + seq(pad, _ => null), src, k);
    }
  }

  /** Writes each child of a full sparse array into the slot of its character. */
  method ScatterKids(chars: bytes, nodes: seq<TrieNode?>, min: byte, size: nat, ghost trees: seq<Tree>)
    returns (slots: seq<TrieNode?>, ghost src: seq<int>)
    requires |chars| == |nodes| == |trees|
    requires forall i :: 0 <= i < |chars| ==> min <= chars[i] < min + size && trees[i] == TreeOf(nodes[i])
    ensures |slots| == size && Picks(slots, nodes, src)
    ensures forall j :: 0 <= j < size ==> Scatter(chars, trees, min, Nulls(size))[j] == TreeOf(slots[j])
  {
    slots, src := seq(size, _ => null), seq(size, _ => -1);
    ghost var shown := Nulls(size);
    var i := 0;
    while i < |chars|
      invariant 0 <= i <= |chars| && |slots| == |shown| == size
      invariant forall j :: 0 <= j < size ==> shown[j] == TreeOf(slots[j])
      invariant Picks(slots, nodes, src) && forall j :: 0 <= j < size ==> src[j] < i
      invariant Scatter(chars[i..], trees[i..], min, shown) == Scatter(chars, trees, min, Nulls(size))
    {
      assert chars[i..][1..] == chars[i + 1..] && trees[i..][1..] == trees[i + 1..];
      var j := chars[i] - min;
      slots, src, shown := slots[j := nodes[i]], src[j := i], shown[j := trees[i]];
      i := i + 1;
    }
  }

  /** The dense layout for the children of a full sparse array and one more, for c. */
  method DenseLayout(chars: bytes, nodes: seq<TrieNode?>, c: byte, ghost kids: Kids)
    returns (min: byte, max: byte, slots: seq<TrieNode?>, ghost src: seq<int>)
    requires kids.Sparse? && Sized(kids) && kids.chars == chars && |nodes| == |chars|
    requires forall i :: 0 <= i < |nodes| ==> kids.nodes[i] == TreeOf(nodes[i])
    ensures var k := ToDense(kids, c);
            && Header(k, true, chars, min, max, |chars| + 1)
            && |k.slots| == |slots| && forall j :: 0 <= j < |slots| ==> k.slots[j] == TreeOf(slots[j])
    ensures Picks(slots, nodes, src)
  {
    min, max := Range(chars, c);
    var lo: int, hi: int := min, max;
    slots, src := ScatterKids(chars, nodes, min, hi - lo + 1, kids.nodes);
  }

  /** Turns a full sparse array into a dense one with room for c; the count is not carried over. */
  method Densify(n: TrieNode, c: byte)
    requires n.Valid() && !n.dense
    modifies n
    ensures n.Valid() && n.Repr == old(n.Repr) && n.dense && n.min <= c <= n.max
    ensures n.tree == Node(0, old(n.prefix), ToDense(old(n.tree.kids), c))
  {
    var min, max, slots, src := DenseLayout(n.chars, n.kids, c, n.tree.kids);
    Relayout(n, 0, true, n.chars, min, max, |n.chars| + 1, slots, src, ToDense(n.tree.kids, c));
  }

  // ---------------------------------------------------------------------------------------
  // Subscribing

  lemma ValidOpen(n: TrieNode, i: nat)
    requires n.Valid() && i < |n.kids|
    ensures n.OpenAt(i)
  {
    forall j | 0 <= j < |n.kids| && n.kids[j] != null ensures n.kids[j] in n.kids && n.kids[j].Valid() {
    }
  }

  /** Counts one more slot in use. */
  method CountSlot(n: TrieNode)
    requires n.Valid() && n.dense
    modifies n
    ensures n.Valid() && n.Repr == old(n.Repr) && n.dense && n.min == old(n.min) && n.max == old(n.max)
    ensures n.tree == old(n.tree).(kids := old(n.tree.kids).(nbr := old(n.nbr) + 1))
    ensures n.kids == old(n.kids)
  {
    n.nbr := n.nbr + 1;
    n.tree := n.tree.(kids := n.tree.kids.(nbr := n.nbr));
    assert Children(n.tree.kids) == Children(old(n.tree.kids));
  }

  /** Appends an empty slot for c to a sparse array. */
  method Append(n: TrieNode, c: byte)
    requires n.Valid() && !n.dense && |n.chars| < SPARSE_MAX
    modifies n
    ensures n.Valid() && n.Repr == old(n.Repr) && |n.kids| == |old(n.kids)| + 1
    ensures var was := old(n.tree.kids);
            n.tree == old(n.tree).(kids := Sparse(was.chars + [c], was.nodes + [Null]))
  {
    ghost var k := Sparse(n.chars + [c], n.tree.kids.nodes + [Null]);
    ghost var src := seq(|n.kids| + 1, j => j);
    Relayout(n, n.refcount, false, n.chars + [c], n.min, n.max, n.nbr, n.kids + [null], src, k);
  }

  /** Stretches a dense array for one more child, for c, and counts it. */
  method StretchFor(n: TrieNode, c: byte) returns (i: nat)
    requires n.Valid() && n.dense
    modifies n
    ensures n.Valid() && n.Repr == old(n.Repr) && i < |n.kids|
    ensures var k := Widen(old(n.tree.kids), c);
            n.tree == old(n.tree).(kids := k.(nbr := k.nbr + 1)) && i == c - k.min
  {
    Stretch(n, c);
    CountSlot(n);
    i := c - n.min;
  }

  /** Filling the slot made for c, in each of the three layouts. */
  lemma SlotFilled(was: Kids, c: byte, t: Tree)
    requires Sized(was)
    ensures was.Dense? ==>
              var k := Widen(was, c); WithChild(k.(nbr := was.nbr + 1), c - k.min, t) == AddKid(was, c, t)
    ensures was.Sparse? && Converts(was) ==>
              var k := ToDense(was, c); WithChild(k, c - k.min, t) == AddKid(was, c, t)
    ensures was.Sparse? && !Converts(was) ==>
              WithChild(Sparse(was.chars + [c], was.nodes + [Null]), |was.chars|, t) == AddKid(was, c, t)
  {
  }

  /** Makes an empty slot for c in the child array of n; filling it with t adds t as a branch. */
  method MakeSlot(n: TrieNode, c: byte, ghost t: Tree) returns (i: nat)
    requires n.Valid()
    modifies n
    ensures n.Valid() && n.Repr == old(n.Repr) && i < |n.kids|
    ensures n.tree.(kids := WithChild(n.tree.kids, i, t)) ==
            var was := old(n.tree);
            Node(if Converts(was.kids) then 0 else was.refcount, was.prefix, AddKid(was.kids, c, t))
  {
    hide Widen, ToDense, AddKid;
    SlotFilled(n.tree.kids, c, t);
    if n.dense {
      i := StretchFor(n, c);
    } else if |n.chars| < SPARSE_MAX {
      i := |n.chars|;
      Append(n, c);
    } else {
      Densify(n, c);
      i := c - n.min;
    }
  }

  /** Adds a branch for the rest of a subscription to a node. */
  method GrowNode(n: TrieNode, data: bytes)
    requires n.Valid() && data != []
    modifies n
    ensures n.Valid() && fresh(n.Repr - old(n.Repr)) && n.tree == AddBranch(old(n.tree), data)
  {
    var i := MakeSlot(n, data[0], NewChain(data[1..]));
    var chain := MakeChain(data[1..]);
    ValidOpen(n, i);
    SetKid(n, i, chain);
  }

  /** A new node above n, with the first pos characters of its prefix. */
  method SplitNode(n: TrieNode, pos: nat) returns (r: TrieNode)
    requires n.Valid() && pos < |n.prefix|
    modifies n.Repr
    ensures r.Valid() && fresh(r.Repr - old(n.Repr)) && r.tree == Split(old(n.tree), pos)
  {
    var head, c := n.prefix[..pos], n.prefix[pos];
    n.prefix := n.prefix[pos + 1..];
    n.tree := n.tree.(prefix := n.prefix);
    var ch := CompactNode(n);
    r := new TrieNode(0, head);
    r.chars, r.kids := [c], [ch];
    r.tree := Node(0, head, Sparse([c], [ch.tree]));
    r.Repr := {r} + ch.Repr;
  }

  /** Splits n and puts the rest of a subscription at, or below, the new node. */
  method SplitAndSubscribe(n: TrieNode, pos: nat, rest: bytes) returns (r: TrieNode, rc: int)
    requires n.Valid() && pos < |n.prefix|
    modifies n.Repr
    ensures r.Valid() && fresh(r.Repr - old(n.Repr))
    ensures var s := Split(old(n.tree), pos);
            Done(r.tree, rc) == if rest == [] then Bump(s) else Done(AddBranch(s, rest), 1)
  {
    r := SplitNode(n, pos);
    if rest == [] {
      rc := BumpNode(r);
    } else {
      GrowNode(r, rest);
      rc := 1;
    }
  }

  method BumpNode(n: TrieNode) returns (rc: int)
    requires n.Valid()
    modifies n
    ensures n.Valid() && n.Repr == old(n.Repr) && Done(n.tree, rc) == Bump(old(n.tree))
  {
    n.refcount := Inc(n.refcount);
    n.tree := n.tree.(refcount := n.refcount);
    rc := if n.refcount == 1 then 1 else 0;
  }

  /** The child slot for c, or -1. */
  method NextSlot(n: TrieNode, c: byte) returns (i: int)
    requires n.Valid()
    ensures i == NextIndex(n.tree.kids, c) && -1 <= i < |n.kids|
  {
    if n.dense {
      i := if c < n.min || c > n.max then -1 else c - n.min;
    } else {
      i := ScanChars(n.chars, c);
    }
  }

  /** One subscribe call, from the node n down.  The node returned takes the place of n in its
      parent. */
  method SubscribeNode(n: TrieNode?, data: bytes) returns (r: TrieNode, rc: int)
    requires ValidOf(n)
    modifies ReprOf(n)
    ensures r.Valid() && fresh(r.Repr - old(ReprOf(n)))
    ensures Done(r.tree, rc) == Subscribe(old(TreeOf(n)), data)
    decreases |data|
  {
    if n == null {
      r := MakeChain(data);
      return r, 1;
    }
    r := n;
    ghost var t := n.tree;
    var pos := ScanPrefix(n.prefix, data);
    var rest := data[pos..];
    if pos < |n.prefix| {
      r, rc := SplitAndSubscribe(n, pos, rest);
    } else if rest == [] {
      rc := BumpNode(n);
    } else {
      var i := NextSlot(n, rest[0]);
      assert i >= 0 ==> Children(t.kids)[i] == TreeOf(n.kids[i]) && n.kids[i] in n.kids;
      if i < 0 || n.kids[i] == null {
        GrowNode(n, rest);
        rc := 1;
        assert Subscribe(t, data) == Done(AddBranch(t, rest), 1);
      } else {
        rc := SubscribeChild(n, i, rest);
      }
    }
  }

  /** The call for child i, whose new node takes the place of the old one. */
  method SubscribeChild(n: TrieNode, i: nat, rest: bytes) returns (rc: int)
    requires n.Valid() && rest != [] && i < |n.kids|
    modifies n.Repr
    ensures n.Valid() && fresh(n.Repr - old(n.Repr))
    ensures var o := Subscribe(Children(old(n.tree.kids))[i], rest[1..]);
            n.tree == old(n.tree).(kids := WithChild(old(n.tree.kids), i, o.tree)) && rc == o.rc
    decreases |rest|, 0
  {
    assert n.kids[i] in n.kids;
    ValidOpen(n, i);
    var ch;
    ch, rc := SubscribeNode(n.kids[i], rest[1..]);
    SetKid(n, i, ch);
  }

  // ---------------------------------------------------------------------------------------
  // Unsubscribing

  /** The node at the end of the data loses a subscription. */
  method FoundNode(n: TrieNode?) returns (r: TrieNode?, rc: int)
    requires ValidOf(n)
    modifies ReprOf(n)
    ensures ValidOf(r) && ReprOf(r) <= old(ReprOf(n))
    ensures Done(TreeOf(r), rc) == Found(old(TreeOf(n)))
  {
    if n == null || n.refcount == 0 {
      return n, -EINVAL;
    }
    n.refcount := n.refcount - 1;
    n.tree := n.tree.(refcount := n.refcount);
    if n.refcount != 0 {
      return n, 0;
    }
    if !n.dense && |n.chars| == 0 {
      return null, 1;
    }
    r := CompactNode(n);
    rc := 1;
  }

  /** Takes child i out of a sparse array. */
  method UnlinkNode(n: TrieNode, i: nat)
    requires n.Valid() && !n.dense && i < |n.kids|
    modifies n
    ensures n.Valid() && n.Repr == old(n.Repr) && !n.dense
    ensures n.tree == old(n.tree).(kids := Unlink(old(n.tree.kids), i))
  {
    var slots := n.kids[..i] + n.kids[i + 1..];
    ghost var src := seq(|slots|, j => if j < i then j else j + 1);
    Relayout(n, n.refcount, false, n.chars[..i] + n.chars[i + 1..], n.min, n.max, n.nbr, slots, src,
             Unlink(n.tree.kids, i));
  }

  /** The first slot in use. */
  method FindFirst(slots: seq<TrieNode?>, ghost trees: seq<Tree>) returns (j: nat)
    requires |trees| == |slots| && forall i :: 0 <= i < |slots| ==> trees[i] == TreeOf(slots[i])
    requires forall k :: k in slots && k != null ==> k.tree.Node?
    ensures j == FirstUsed(trees)
  {
    j := 0;
    while j < |slots| && slots[j] == null
      invariant j <= |slots| && FirstUsed(trees) == j + FirstUsed(trees[j..])
    {
      assert trees[j..][1..] == trees[j + 1..];
      j := j + 1;
    }
    if j < |slots| { assert slots[j] in slots; }
  }

  /** The last slot in use. */
  method FindLast(slots: seq<TrieNode?>, ghost trees: seq<Tree>) returns (j: nat)
    requires |trees| == |slots| > 0 && forall i :: 0 <= i < |slots| ==> trees[i] == TreeOf(slots[i])
    requires forall k :: k in slots && k != null ==> k.tree.Node?
    ensures j == LastUsed(trees)
  {
    j := |slots| - 1;
    while j != 0 && slots[j] == null
      invariant j < |slots| && LastUsed(trees) == LastUsed(trees[..j + 1])
    {
      assert trees[..j + 1][..j] == trees[..j];
      j := j - 1;
    }
    assert slots[j] in slots;
    assert trees[..j + 1][j] == TreeOf(slots[j]);
  }

  /** Adjusts a dense array to the loss of its child for c. */
  method TrimNode(n: TrieNode, c: byte)
    requires n.Valid() && n.dense && (c == n.min ==> FirstUsed(n.tree.kids.slots) < |n.kids|)
    modifies n
    ensures n.Valid() && n.Repr == old(n.Repr)
    ensures n.tree == old(n.tree).(kids := Trim(old(n.tree.kids), c))
  {
    ghost var k := Trim(n.tree.kids, c);
    if c == n.min {
      var j := FindFirst(n.kids, n.tree.kids.slots);
      ghost var src := seq(|n.kids| - j, i => i + j);
      Relayout(n, n.refcount, true, n.chars, n.min + j, n.max, n.nbr - 1, n.kids[j..], src, k);
    } else if c == n.max {
      var j := FindLast(n.kids, n.tree.kids.slots);
      ghost var src := seq(j + 1, i => i);
      Relayout(n, n.refcount, true, n.chars, n.min, n.min + j, n.nbr - 1, n.kids[..j + 1], src, k);
    } else {
      ghost var src := seq(|n.kids|, i => i);
      Relayout(n, n.refcount, true, n.chars, n.min, n.max, n.nbr - 1, n.kids, src, k);
    }
  }

  /** The children gathered so far, before slot i, and those to come make up all of them. */
  ghost predicate Gathered(trees: seq<Tree>, min: nat, i: nat, chars: bytes, shown: seq<Tree>)
    requires i <= |trees| && min + |trees| <= 256
  {
    var all, rest := Gather(trees, min), Gather(trees[i..], min + i);
    all.0 == chars + rest.0 && all.1 == shown + rest.1
  }

  lemma GatheredNext(trees: seq<Tree>, min: nat, i: nat, chars: bytes, shown: seq<Tree>)
    requires i < |trees| && min + |trees| <= 256 && Gathered(trees, min, i, chars, shown)
    ensures if trees[i].Null? then Gathered(trees, min, i + 1, chars, shown)
            else Gathered(trees, min, i + 1, chars + [min + i], shown + [trees[i]])
  {
    var rest := Gather(trees[i + 1..], min + i + 1);
    assert trees[i..][1..] == trees[i + 1..];
    assert chars + ([min + i] + rest.0) == (chars + [min + i]) + rest.0;
    assert shown + ([trees[i]] + rest.1) == (shown + [trees[i]]) + rest.1;
  }

  /** Collects the slots in use, with their characters. */
  method GatherKids(slots: seq<TrieNode?>, min: byte, ghost trees: seq<Tree>)
    returns (chars: bytes, nodes: seq<TrieNode?>, ghost src: seq<int>)
    requires |trees| == |slots| && min + |slots| <= 256
    requires forall i :: 0 <= i < |slots| ==> trees[i] == TreeOf(slots[i])
    requires forall i :: 0 <= i < |slots| && slots[i] != null ==> trees[i].Node?
    ensures chars == Gather(trees, min).0 && |nodes| == |chars|
    ensures forall j :: 0 <= j < |nodes| ==> Gather(trees, min).1[j] == TreeOf(nodes[j])
    ensures Picks(nodes, slots, src)
  {
    chars, nodes, src := [], [], [];
    ghost var shown: seq<Tree> := [];
    assert trees[0..] == trees;
    var i := 0;
    while i < |slots|
      invariant 0 <= i <= |slots| && |nodes| == |src| == |shown|
      invariant Gathered(trees, min, i, chars, shown)
      invariant forall j :: 0 <= j < |nodes| ==> 0 <= src[j] < i && nodes[j] == slots[src[j]]
      invariant forall j, k :: 0 <= j < |nodes| && 0 <= k < |nodes| && j != k ==> src[j] != src[k]
      invariant forall j :: 0 <= j < |nodes| ==> shown[j] == TreeOf(nodes[j])
    {
      GatheredNext(trees, min, i, chars, shown);
      if slots[i] != null {
        chars, shown := chars + [min + i], shown + [trees[i]];
        nodes, src := nodes + [slots[i]], src + [i];
      }
      i := i + 1;
    }
    assert trees[i..] == [];
  }

  /** Turns a dense array with eight children left into a sparse one; the count is not carried over. */
  method Sparsify(n: TrieNode)
    requires n.Valid() && n.dense && |Gather(n.tree.kids.slots, n.tree.kids.min).0| == SPARSE_MAX
    modifies n
    ensures n.Valid() && n.Repr == old(n.Repr)
    ensures var (chars, nodes) := Gather(old(n.tree.kids.slots), old(n.tree.kids.min));
            n.tree == Node(0, old(n.prefix), Sparse(chars, nodes))
  {
    assert forall i :: 0 <= i < |n.kids| && n.kids[i] != null ==> n.kids[i] in n.kids;
    var chars, nodes, src := GatherKids(n.kids, n.min, n.tree.kids.slots);
    ghost var k := Sparse(chars, Gather(n.tree.kids.slots, n.tree.kids.min).1);
    Relayout(n, 0, false, chars, n.min, n.max, n.nbr, nodes, src, k);
  }

  /** Takes the vanished child for c, at slot i, out of the child array. */
  method PruneNode(n: TrieNode, i: nat, c: byte) returns (r: TrieNode?, rc: int)
    requires n.Valid() && i < |n.kids| && Prune(n.tree, i, c).Done?
    modifies n.Repr
    ensures ValidOf(r) && ReprOf(r) <= old(n.Repr)
    ensures Done(TreeOf(r), rc) == Prune(old(n.tree), i, c)
  {
    rc := 1;
    r := n;
    if !n.dense {
      UnlinkNode(n, i);
      if |n.chars| == 0 && n.refcount == 0 {
        return null, 1;
      }
      r := CompactNode(n);
    } else if n.nbr > SPARSE_MAX + 1 {
      TrimNode(n, c);
    } else {
      Sparsify(n);
    }
  }

  /** One unsubscribe call, from the node n down.  The node returned, if any, takes the place of n in
      its parent. */
  method UnsubscribeNode(n: TrieNode?, data: bytes) returns (r: TrieNode?, rc: int)
    requires ValidOf(n) && Unsubscribe(TreeOf(n), data).Done?
    modifies ReprOf(n)
    ensures ValidOf(r) && ReprOf(r) <= old(ReprOf(n))
    ensures Done(TreeOf(r), rc) == Unsubscribe(old(TreeOf(n)), data)
    decreases |data|
  {
    if data == [] {
      r, rc := FoundNode(n);
      return;
    }
    var pos := ScanPrefix(n.prefix, data);
    if pos != |n.prefix| {
      return n, 0;
    }
    var rest := data[pos..];
    if rest == [] {
      r, rc := FoundNode(n);
      return;
    }
    var i := NextSlot(n, rest[0]);
    if i < 0 {
      return n, 0;
    }
    r, rc := UnsubscribeChild(n, i, rest);
  }

  /** The call for child i, and what it means for n. */
  method UnsubscribeChild(n: TrieNode, i: nat, rest: bytes) returns (r: TrieNode?, rc: int)
    requires n.Valid() && rest != [] && i < |n.kids|
    requires Relink(n.tree, i, rest[0], Unsubscribe(Children(n.tree.kids)[i], rest[1..])).Done?
    modifies n.Repr
    ensures ValidOf(r) && ReprOf(r) <= old(n.Repr)
    ensures Done(TreeOf(r), rc) ==
            Relink(old(n.tree), i, rest[0], Unsubscribe(Children(old(n.tree.kids))[i], rest[1..]))
    decreases |rest|, 0
  {
    assert n.kids[i] in n.kids;
    ValidOpen(n, i);
    var ch;
    ch, rc := UnsubscribeNode(n.kids[i], rest[1..]);
    SetKid(n, i, ch);
    if rc == 0 {
      r := n;
    } else if ch != null {
      r, rc := n, 1;
    } else {
      r, rc := PruneNode(n, i, rest[0]);
    }
  }

  // ---------------------------------------------------------------------------------------
  // The trie

  lemma SubscribeEffect(t: Tree, data: bytes)
    requires Ok(t) && Formed(t) && Count(t, data) + 1 < WORD32
    ensures var o := Subscribe(t, data);
            && Ok(o.tree) && Formed(o.tree)
            && Count(o.tree, data) == Count(t, data) + 1
            && o.rc == if Count(t, data) == 0 then 1 else 0
  {
    S.SubscribeOk(t, data);
    C.SubscribeCounts(t, data, data);
  }

  lemma UnsubscribeEffect(t: Tree, data: bytes)
    requires Ok(t) && Formed(t) && (R.Target(t, data).At? || M.Harmless(t, data))
    ensures Unsubscribe(t, data).Done? && Ok(Unsubscribe(t, data).tree) && Formed(Unsubscribe(t, data).tree)
    ensures var o := Unsubscribe(t, data);
            match R.Target(t, data)
            case At(g) =>
              && Count(t, g) > 0 && Count(o.tree, g) == Count(t, g) - 1
              && (o.rc == if Count(t, g) == 1 then 1 else 0) && (Count(t, data) > 0 ==> g == data)
            case Nowhere => o.tree == t && o.rc == M.MissAnswer(t, data)
  {
    hide Unsubscribe, Count;
    M.CallSettles(t, data);
    OkFormed(Unsubscribe(t, data).tree);
    if R.Target(t, data).At? {
      var g := R.Target(t, data).s;
      R.UnsubscribeTarget(t, data);
      R.UnsubscribeCounts(t, g, g);
      if Count(t, data) > 0 {
        R.SubscribedTarget(t, data);
      }
    } else {
      M.HarmlessKeeps(t, data);
    }
  }

  class SubscriptionTrie {
    var root: TrieNode?
    ghost var Repr: set<object>

    ghost predicate Valid()
      reads this, Repr
      ensures Valid() ==> this in Repr && Formed(Contents())
    {
      && this in Repr
      && (root != null ==> root in Repr && root.Repr <= Repr && this !in root.Repr && root.Valid())
      && Ok(Contents())
      && Formed(Contents())
    }

    ghost function Contents(): Tree
      reads this, root
    {
      TreeOf(root)
    }

    constructor ()
      ensures Valid() && fresh(Repr) && Contents() == Null
    {
      root := null;
      Repr := {this};
    }

    /** Adds a subscription.  The shape of the trie needs a 32-bit counter that does not wrap. */
    method SubscribeTo(data: bytes) returns (rc: int)
      requires Valid() && Count(Contents(), data) + 1 < WORD32
      modifies Repr
      ensures Valid() && fresh(Repr - old(Repr))
      ensures Done(Contents(), rc) == Subscribe(old(Contents()), data)
      ensures Count(Contents(), data) == old(Count(Contents(), data)) + 1
      ensures rc == if old(Count(Contents(), data)) == 0 then 1 else 0
    {
      SubscribeEffect(Contents(), data);
      root, rc := SubscribeNode(root, data);
      Repr := Repr + root.Repr;
    }
  
    /** Takes a subscription away: that to the target of the call, which is the string itself if it is
        subscribed.  Without a target nothing changes.  The other calls are those that fault or damage the
        trie. */
    method UnsubscribeFrom(data: bytes) returns (rc: int)
      requires Valid() && (R.Target(Contents(), data).At? || M.Harmless(Contents(), data))
      modifies Repr
      ensures Valid() && Repr == old(Repr)
      ensures Done(Contents(), rc) == Unsubscribe(old(Contents()), data)
      ensures old(R.Target(Contents(), data).At?) ==>
        var g := old(R.Target(Contents(), data).s);
        && Count(Contents(), g) == old(Count(Contents(), R.Target(Contents(), data).s)) - 1
        && (rc == if Count(Contents(), g) == 0 then 1 else 0)
        && (old(Count(Contents(), data)) > 0 ==> g == data)
      ensures old(R.Target(Contents(), data) == C.Nowhere) ==>
        Contents() == old(Contents()) && rc == old(M.MissAnswer(Contents(), data))
    {
      UnsubscribeEffect(Contents(), data);
      root, rc := UnsubscribeNode(root, data);
      OkFormed(Contents());
    }

    /** Does the first size bytes of data have a subscribed prefix?  What the answer means is the
        subject of module TrieMatch. */
    method Matches(data: Memory, size: nat) returns (a: Answer)
      requires Valid() && size <= |data|
      ensures a == Walk(Contents(), data, size)
    {
      var node, rest, left := root, data, size;
      while node != null
        invariant ValidOf(node)
        invariant Walk(TreeOf(node), rest, left) == Walk(Contents(), data, size)
        decreases node != null, TreeOf(node)
      {
        var stop;
        stop, a, node, rest, left := MatchNode(node, rest, left);
        if stop {
          return;
        }
      }
      a := Miss;
    }
  }

  /** One round of the walk: an answer, or the next node and what is left of the message. */
  method MatchNode(n: TrieNode, data: Memory, size: nat)
    returns (stop: bool, a: Answer, next: TrieNode?, rest: Memory, left: nat)
    requires n.Valid()
    ensures stop ==> a == Walk(n.tree, data, size)
    ensures !stop ==> ValidOf(next) && Walk(TreeOf(next), rest, left) == Walk(n.tree, data, size)
    ensures !stop ==> next == null || next.tree < n.tree
  {
    stop, next, rest, left := true, null, data, size;
    var k := ScanMemory(n.prefix, data, size);
    if k < 0 {
      a := OutOfBounds;
    } else if k != |n.prefix| {
      a := Miss;
    } else if n.refcount != 0 {
      a := Hit;
    } else if k == |data| {
      a := OutOfBounds;
    } else {
      var i := NextSlot(n, data[k]);
      a := Miss;
      if i >= 0 {
        assert n.kids[i] in n.kids && Children(n.tree.kids)[i] == TreeOf(n.kids[i]);
        stop, next, rest, left := false, n.kids[i], data[k + 1..], Lowered(size, k);
      }
    }
  }

  /** Compares a prefix with memory, never looking further than size bytes. */
  method ScanMemory(prefix: bytes, data: Memory, size: nat) returns (k: int)
    ensures k == MatchPrefix(prefix, data, size)
  {
    k := 0;
    var left: nat := size;
    while k < |prefix|
      invariant 0 <= k <= |prefix| && k <= |data| && left + k == size
      invariant var m := MatchPrefix(prefix[k..], data[k..], left);
                MatchPrefix(prefix, data, size) == if m < 0 then -1 else k + m
    {
      if left == 0 {
        return;
      }
      if k == |data| {
        return -1;
      }
      if prefix[k] != data[k] {
        return;
      }
      assert prefix[k..][1..] == prefix[k + 1..] && data[k..][1..] == data[k + 1..];
      k, left := k + 1, left - 1;
    }
  }
}
