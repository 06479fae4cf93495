/** The compressed subscription trie of nanomsg's publish/subscribe protocol, on values.

    A node carries a subscription count, a prefix of at most ten bytes and an array of children
    in one of two layouts.  The functions below follow the C functions branch by branch; what a
    trie means is given by Count, the number of subscriptions to a string. */
module Trie {
  import opened Words

  const PREFIX_MAX := 10
  const SPARSE_MAX := 8
  const EINVAL := 22

  /** A node pointer.  The children of a node are either sparse, an unordered list of at most
      eight characters each with its child, or dense, one slot per character of min..max, where
      nbr is the recorded number of slots in use. */
  datatype Tree = Null | Node(refcount: nat, prefix: bytes, kids: Kids)
  datatype Kids =
    | Sparse(chars: bytes, nodes: seq<Tree>)
    | Dense(min: byte, max: byte, slots: seq<Tree>, nbr: int)

  // ---------------------------------------------------------------------------------------
  // Reading a node

  /** How many characters of data match the prefix. */
  function CheckPrefix(prefix: bytes, data: bytes): (k: nat)
    ensures k <= |prefix| && k <= |data|
    ensures prefix[..k] == data[..k]
    ensures k < |prefix| && k < |data| ==> prefix[k] != data[k]
    ensures k == |prefix| <==> prefix <= data
  {
    if prefix == [] || data == [] || prefix[0] != data[0] then 0
    else
      var k := 1 + CheckPrefix(prefix[1..], data[1..]);
      assert prefix == [prefix[0]] + prefix[1..] && data == [data[0]] + data[1..];
      k
  }

  /** The first position of c, or -1. */
  function IndexOf(chars: bytes, c: byte): (i: int)
    ensures -1 <= i < |chars|
    ensures i >= 0 ==> chars[i] == c
    ensures i >= 0 <==> c in chars
  {
    if chars == [] then -1
    else if chars[0] == c then 0
    else
      var i := IndexOf(chars[1..], c);
      if i < 0 then -1 else i + 1
  }

  /** The child array, whatever the layout. */
  function Children(kids: Kids): seq<Tree> {
    match kids
    case Sparse(_, nodes) => nodes
    case Dense(_, _, slots, _) => slots
  }

  /** The array sizes agree with the node header. */
  predicate Sized(kids: Kids) {
    match kids
    case Sparse(chars, nodes) => |chars| == |nodes| <= SPARSE_MAX
    case Dense(min, max, slots, _) => min <= max && |slots| == max - min + 1
  }

  /** The child slot for character c, or -1 when there is none. */
  function NextIndex(kids: Kids, c: byte): (i: int)
    requires Sized(kids)
    ensures -1 <= i < |Children(kids)|
  {
    match kids
    case Sparse(chars, _) => IndexOf(chars, c)
    case Dense(min, max, _, _) => if c < min || c > max then -1 else c - min
  }

  /** The child for character c; a missing slot and an empty slot both read as Null. */
  function Branch(kids: Kids, c: byte): (t: Tree)
    requires Sized(kids)
    ensures t.Null? || t in Children(kids)
  {
    var i := NextIndex(kids, c);
    if i < 0 then Null else Children(kids)[i]
  }

  /** The child array with slot i overwritten. */
  function WithChild(kids: Kids, i: nat, t: Tree): (k: Kids)
    requires Sized(kids) && i < |Children(kids)|
    ensures Sized(k) && Children(k) == Children(kids)[i := t]
  {
    match kids
    case Sparse(chars, nodes) => Sparse(chars, nodes[i := t])
    case Dense(min, max, slots, nbr) => Dense(min, max, slots[i := t], nbr)
  }

  // ---------------------------------------------------------------------------------------
  // What a trie means, and its shape

  /** Every array of the trie has the size its header says. */
  ghost predicate Formed(t: Tree)
    decreases t
  {
    t.Node? ==>
      && Sized(t.kids)
      && forall u | u in Children(t.kids) :: Formed(u)
  }

  /** The number of subscriptions to s.  A node represents the string spelled by the prefixes and
      branch characters on the way to it, its own prefix included. */
  ghost function Count(t: Tree, s: bytes): nat
    requires Formed(t)
    decreases t
  {
    if t.Null? || !(t.prefix <= s) then 0
    else if |s| == |t.prefix| then t.refcount
    else
      var i := NextIndex(t.kids, s[|t.prefix|]);
      if i < 0 then 0 else Count(Children(t.kids)[i], s[|t.prefix| + 1..])
  }

  ghost predicate Distinct(s: bytes) {
    forall i, j :: 0 <= i < j < |s| ==> s[i] != s[j]
  }

  /** The number of slots in use. */
  function Used(slots: seq<Tree>): nat {
    if slots == [] then 0 else (if slots[0].Null? then 0 else 1) + Used(slots[1..])
  }

  ghost predicate KidsOk(kids: Kids) {
    && Sized(kids)
    && match kids
       case Sparse(chars, nodes) => Distinct(chars) && Null !in nodes
       case Dense(_, _, slots, nbr) =>
         && nbr == Used(slots) > SPARSE_MAX
         && slots[0].Node? && slots[|slots| - 1].Node?
  }

  /** The shape every reachable trie has.  A node without subscribers has a child. */
  ghost predicate Ok(t: Tree)
    decreases t
  {
    t.Node? ==>
      && t.refcount < WORD32
      && |t.prefix| <= PREFIX_MAX
      && KidsOk(t.kids)
      && (forall u | u in Children(t.kids) :: Ok(u))
      && (t.refcount == 0 ==> Children(t.kids) != [])
  }

  /** Could this node be merged into an only child? */
  predicate Mergeable(refcount: nat, prefix: bytes, kids: Kids) {
    && refcount == 0 && kids.Sparse? && |kids.nodes| == 1 && kids.nodes[0].Node?
    && |prefix| + |kids.nodes[0].prefix| + 1 <= PREFIX_MAX
  }

  /** No node is waiting to be merged into an only child. */
  ghost predicate Tight(t: Tree)
    decreases t
  {
    t.Node? ==>
      && !Mergeable(t.refcount, t.prefix, t.kids)
      && forall u | u in Children(t.kids) :: Tight(u)
  }

  lemma {:induction false} OkFormed(t: Tree)
    requires Ok(t)
    ensures Formed(t)
    decreases t
  {
    if t.Node? {
      forall u | u in Children(t.kids) ensures Formed(u) {
        OkFormed(u);
      }
    }
  }

  // ---------------------------------------------------------------------------------------
  // Subscribing

  /** What a call does: it returns rc and leaves the trie as tree, or it follows a null pointer or
      trips an assertion. */
  datatype Outcome = Done(tree: Tree, rc: int) | Fault

  /** Merges a node without subscribers into its only child when the prefixes fit together. */
  function Compact(t: Tree): Tree
    requires t.Node? && Sized(t.kids)
  {
    if t.refcount != 0 || !t.kids.Sparse? || |t.kids.chars| != 1 then t
    else
      var ch := t.kids.nodes[0];
      if ch.Null? || |t.prefix| + |ch.prefix| + 1 > PREFIX_MAX then t
      else Node(ch.refcount, t.prefix + [t.kids.chars[0]] + ch.prefix, ch.kids)
  }

  /** Unsigned 32-bit increment. */
  function Inc(n: nat): nat { (n + 1) % WORD32 }

  /** Counts one more subscription at t; a count of one afterwards makes it a fresh one. */
  function Bump(t: Tree): (o: Outcome)
    requires t.Node?
    ensures o.Done? && o.tree.Node?
  {
    Done(t.(refcount := Inc(t.refcount)), if Inc(t.refcount) == 1 then 1 else 0)
  }

  /** A fresh chain of nodes holding data, with one subscription at its end. */
  function NewChain(data: bytes): (t: Tree)
    ensures t.Node?
    decreases |data|
  {
    if |data| > PREFIX_MAX then
      Node(0, data[..PREFIX_MAX], Sparse([data[PREFIX_MAX]], [NewChain(data[PREFIX_MAX + 1..])]))
    else
      Node(1, data, Sparse([], []))
  }

  function Nulls(n: nat): (s: seq<Tree>)
    ensures |s| == n && forall i :: 0 <= i < n ==> s[i] == Null
  {
    seq(n, _ => Null)
  }

  function Min(a: byte, b: byte): byte { if a < b then a else b }
  function Max(a: byte, b: byte): byte { if a > b then a else b }

  /** Stretches a dense array so that its range includes c. */
  function Widen(kids: Kids, c: byte): (k: Kids)
    requires kids.Dense? && Sized(kids)
    ensures k.Dense? && Sized(k) && k.min <= c <= k.max && k.nbr == kids.nbr
  {
    if c < kids.min then Dense(c, kids.max, Nulls(kids.min - c) + kids.slots, kids.nbr)
    else if c > kids.max then Dense(kids.min, c, kids.slots + Nulls(c - kids.max), kids.nbr)
    else kids
  }

  function MinOf(chars: bytes, c: byte): (m: byte)
    ensures m <= c && forall i :: 0 <= i < |chars| ==> m <= chars[i]
    ensures m == c || m in chars
  {
    if chars == [] then c
    else
      var m := MinOf(chars[1..], c);
      assert chars == [chars[0]] + chars[1..];
      Min(chars[0], m)
  }

  function MaxOf(chars: bytes, c: byte): (m: byte)
    ensures m >= c && forall i :: 0 <= i < |chars| ==> m >= chars[i]
    ensures m == c || m in chars
  {
    if chars == [] then c
    else
      var m := MaxOf(chars[1..], c);
      assert chars == [chars[0]] + chars[1..];
      Max(chars[0], m)
  }

  /** Writes each sparse child into the slot of its character. */
  function Scatter(chars: bytes, nodes: seq<Tree>, min: byte, slots: seq<Tree>): (r: seq<Tree>)
    requires |chars| == |nodes|
    requires forall i :: 0 <= i < |chars| ==> min <= chars[i] < min + |slots|
    ensures |r| == |slots|
  {
    if chars == [] then slots
    else Scatter(chars[1..], nodes[1..], min, slots[chars[0] - min := nodes[0]])
  }

  /** The dense array with the children of a full sparse one and a free slot for c. */
  function ToDense(kids: Kids, c: byte): (k: Kids)
    requires kids.Sparse? && Sized(kids)
    ensures k.Dense? && Sized(k) && k.min <= c <= k.max
  {
    var min := MinOf(kids.chars, c);
    var max := MaxOf(kids.chars, c);
    Dense(min, max, Scatter(kids.chars, kids.nodes, min, Nulls(max - min + 1)), |kids.chars| + 1)
  }

  /** Whether adding a branch for a new character turns the array from sparse to dense. */
  predicate Converts(kids: Kids) {
    kids.Sparse? && |kids.chars| >= SPARSE_MAX
  }

  /** A dense array with the slot for c filled. */
  function Fill(kids: Kids, c: byte, t: Tree, nbr: int): (k: Kids)
    requires kids.Dense? && Sized(kids) && kids.min <= c <= kids.max
    ensures Sized(k)
  {
    Dense(kids.min, kids.max, kids.slots[c - kids.min := t], nbr)
  }

  /** The child array with a branch for c added. */
  function AddKid(kids: Kids, c: byte, t: Tree): (k: Kids)
    requires Sized(kids)
    ensures Sized(k)
  {
    if kids.Dense? then Fill(Widen(kids, c), c, t, kids.nbr + 1)
    else if Converts(kids) then Fill(ToDense(kids, c), c, t, |kids.chars| + 1)
    else Sparse(kids.chars + [c], kids.nodes + [t])
  }

  /** Adds a branch for the rest of a subscription to a node.  A node whose child array is
      converted starts again with a subscription count of zero. */
  function AddBranch(t: Tree, data: bytes): Tree
    requires t.Node? && Sized(t.kids) && data != []
  {
    Node(if Converts(t.kids) then 0 else t.refcount, t.prefix,
         AddKid(t.kids, data[0], NewChain(data[1..])))
  }

  /** Splits a node whose prefix agrees with a subscription on its first pos characters only. */
  function Split(t: Tree, pos: nat): (r: Tree)
    requires t.Node? && Sized(t.kids) && pos < |t.prefix|
    ensures r.Node? && Sized(r.kids)
  {
    Node(0, t.prefix[..pos],
         Sparse([t.prefix[pos]], [Compact(t.(prefix := t.prefix[pos + 1..]))]))
  }

  /** One subscribe call. */
  function Subscribe(t: Tree, data: bytes): (o: Outcome)
    requires Formed(t)
    ensures o.Done? && o.tree.Node?
    decreases t
  {
    if t.Null? then Done(NewChain(data), 1)
    else
      var pos := CheckPrefix(t.prefix, data);
      var rest := data[pos..];
      if pos < |t.prefix| then
        var n := Split(t, pos);
        if rest == [] then Bump(n) else Done(AddBranch(n, rest), 1)
      else if rest == [] then Bump(t)
      else
        var i := NextIndex(t.kids, rest[0]);
        if i < 0 || Children(t.kids)[i].Null? then Done(AddBranch(t, rest), 1)
        else
          var o := Subscribe(Children(t.kids)[i], rest[1..]);
          Done(t.(kids := WithChild(t.kids, i, o.tree)), o.rc)
  }

  // ---------------------------------------------------------------------------------------
  // Unsubscribing

  /** The end of the subscription has been reached at t. */
  function Found(t: Tree): Outcome
    requires t.Node? ==> Sized(t.kids)
  {
    if t.Null? || t.refcount == 0 then Done(t, -EINVAL)
    else
      var n := t.(refcount := t.refcount - 1);
      if n.refcount != 0 then Done(n, 0)
      else if n.kids.Sparse? && |n.kids.chars| == 0 then Done(Null, 1)
      else Done(Compact(n), 1)
  }

  /** The position of the first slot in use, or the size of the array. */
  function FirstUsed(slots: seq<Tree>): (i: nat)
    ensures i <= |slots| && (forall j :: 0 <= j < i ==> slots[j].Null?)
    ensures i < |slots| ==> slots[i].Node?
  {
    if slots == [] || slots[0].Node? then 0 else 1 + FirstUsed(slots[1..])
  }

  /** The position of the last slot in use, or zero. */
  function LastUsed(slots: seq<Tree>): (i: nat)
    requires slots != []
    ensures i < |slots| && (forall j :: i < j < |slots| ==> slots[j].Null?)
    ensures i == 0 || slots[i].Node?
  {
    if |slots| == 1 || slots[|slots| - 1].Node? then |slots| - 1 else LastUsed(slots[..|slots| - 1])
  }

  /** The slots in use, with their characters, counting up from base. */
  function Gather(slots: seq<Tree>, base: nat): (r: (bytes, seq<Tree>))
    requires base + |slots| <= 256
    ensures |r.0| == |r.1| == Used(slots)
  {
    if slots == [] then ([], [])
    else
      var r := Gather(slots[1..], base + 1);
      if slots[0].Null? then r else ([base] + r.0, [slots[0]] + r.1)
  }

  /** A sparse array without its child i. */
  function Unlink(kids: Kids, i: nat): (k: Kids)
    requires kids.Sparse? && Sized(kids) && i < |kids.nodes|
    ensures k.Sparse? && Sized(k) && |k.nodes| == |kids.nodes| - 1
  {
    Sparse(kids.chars[..i] + kids.chars[i + 1..], kids.nodes[..i] + kids.nodes[i + 1..])
  }

  /** Adjusts a dense array to the loss of its child for c. */
  function Trim(kids: Kids, c: byte): (k: Kids)
    requires kids.Dense? && Sized(kids) && (c == kids.min ==> FirstUsed(kids.slots) < |kids.slots|)
    ensures k.Dense? && Sized(k) && k.nbr == kids.nbr - 1
  {
    if c == kids.min then
      var j := FirstUsed(kids.slots);
      Dense(kids.min + j, kids.max, kids.slots[j..], kids.nbr - 1)
    else if c == kids.max then
      var j := LastUsed(kids.slots);
      Dense(kids.min, kids.min + j, kids.slots[..j + 1], kids.nbr - 1)
    else kids.(nbr := kids.nbr - 1)
  }

  /** Takes the vanished child for character c, at slot i, out of the child array. */
  function Prune(t: Tree, i: nat, c: byte): Outcome
    requires t.Node? && Sized(t.kids) && i < |Children(t.kids)|
  {
    match t.kids
    case Sparse(chars, nodes) =>
      var k := Unlink(t.kids, i);
      if |k.chars| == 0 && t.refcount == 0 then Done(Null, 1)
      else Done(Compact(t.(kids := k)), 1)
    case Dense(min, max, slots, nbr) =>
      if nbr > SPARSE_MAX + 1 then
        if c == min && FirstUsed(slots) == |slots| then Fault
        else Done(t.(kids := Trim(t.kids, c)), 1)
      else
        var (chars, nodes) := Gather(slots, min);
        if |chars| != SPARSE_MAX then Fault
        else Done(Node(0, t.prefix, Sparse(chars, nodes)), 1)
  }

  /** What a node does with the outcome of the call for its child in slot i. */
  function Relink(t: Tree, i: nat, c: byte, o: Outcome): Outcome
    requires t.Node? && Sized(t.kids) && i < |Children(t.kids)|
  {
    match o
    case Fault => Fault
    case Done(ch, rc) =>
      var n := t.(kids := WithChild(t.kids, i, ch));
      if rc == 0 then Done(n, 0)
      else if ch.Node? then Done(n, 1)
      else Prune(n, i, c)
  }

  /** One unsubscribe call, for any string at all. */
  function Unsubscribe(t: Tree, data: bytes): Outcome
    requires Formed(t)
    decreases t
  {
    if data == [] then Found(t)
    else if t.Null? then Fault
    else if CheckPrefix(t.prefix, data) != |t.prefix| then Done(t, 0)
    else
      var rest := data[|t.prefix|..];
      if rest == [] then Found(t)
      else
        var i := NextIndex(t.kids, rest[0]);
        if i < 0 then Done(t, 0)
        else Relink(t, i, rest[0], Unsubscribe(Children(t.kids)[i], rest[1..]))
  }
}
