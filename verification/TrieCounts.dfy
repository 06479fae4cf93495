/** Subscribing and unsubscribing act on the subscription counts as the trie's interface promises. */
module TrieCounts {
  import opened Trie
  import opened Words

  // ---------------------------------------------------------------------------------------
  // Each change to a child array, seen through Branch

  lemma UniqueIndex(chars: bytes, c: byte, i: nat)
    requires Distinct(chars) && i < |chars| && chars[i] == c
    ensures IndexOf(chars, c) == i
  {
  }

  lemma SetBranch(kids: Kids, c: byte, t: Tree, x: byte)
    requires Sized(kids) && NextIndex(kids, c) >= 0
    ensures Branch(WithChild(kids, NextIndex(kids, c), t), x) == if x == c then t else Branch(kids, x)
  {
  }

  lemma {:induction false} AppendBranch(kids: Kids, c: byte, t: Tree, x: byte)
    requires kids.Sparse? && |kids.chars| == |kids.nodes| < SPARSE_MAX
    requires Distinct(kids.chars) && c !in kids.chars
    ensures var k := Sparse(kids.chars + [c], kids.nodes + [t]);
            Distinct(k.chars) && Branch(k, x) == if x == c then t else Branch(kids, x)
  {
    var chars := kids.chars + [c];
    var i := if x == c then |kids.chars| else IndexOf(kids.chars, x);
    if i >= 0 {
      UniqueIndex(chars, x, i);
    }
  }

  lemma {:induction false} ScatterAt(chars: bytes, nodes: seq<Tree>, min: byte, slots: seq<Tree>, x: byte)
    requires |chars| == |nodes| && Distinct(chars)
    requires forall i :: 0 <= i < |chars| ==> min <= chars[i] < min + |slots|
    requires min <= x < min + |slots|
    ensures var i := IndexOf(chars, x);
            Scatter(chars, nodes, min, slots)[x - min] == if i < 0 then slots[x - min] else nodes[i]
    decreases |chars|
  {
    if chars != [] {
      assert chars[0] !in chars[1..];
      ScatterAt(chars[1..], nodes[1..], min, slots[chars[0] - min := nodes[0]], x);
    }
  }

  lemma {:induction false} ToDenseBranch(kids: Kids, c: byte, x: byte)
    requires kids.Sparse? && Sized(kids) && Distinct(kids.chars)
    ensures c !in kids.chars ==> Branch(ToDense(kids, c), c).Null?
    ensures Branch(ToDense(kids, c), x) == Branch(kids, x)
  {
    var k := ToDense(kids, c);
    ScatterAt(kids.chars, kids.nodes, k.min, Nulls(k.max - k.min + 1), c);
    if k.min <= x <= k.max {
      ScatterAt(kids.chars, kids.nodes, k.min, Nulls(k.max - k.min + 1), x);
    }
  }

  lemma WidenBranch(kids: Kids, c: byte, x: byte)
    requires kids.Dense? && Sized(kids)
    ensures Branch(Widen(kids, c), x) == Branch(kids, x)
  {
  }

  lemma FillBranch(kids: Kids, c: byte, t: Tree, nbr: int, x: byte)
    requires kids.Dense? && Sized(kids) && kids.min <= c <= kids.max
    ensures Branch(Fill(kids, c, t, nbr), x) == if x == c then t else Branch(kids, x)
  {
  }

  lemma {:induction false} ConvertBranch(kids: Kids, c: byte, t: Tree, x: byte)
    requires kids.Sparse? && Sized(kids) && Distinct(kids.chars)
    ensures var k := Fill(ToDense(kids, c), c, t, |kids.chars| + 1);
            Branch(k, x) == if x == c then t else Branch(kids, x)
  {
    ToDenseBranch(kids, c, x);
    FillBranch(ToDense(kids, c), c, t, |kids.chars| + 1, x);
  }

  /** Adding a branch for a new character changes that branch and no other, in every layout. */
  lemma {:induction false} AddKidBranch(kids: Kids, c: byte, t: Tree, x: byte)
    requires KidsOk(kids) && Branch(kids, c).Null?
    ensures Branch(AddKid(kids, c, t), x) == if x == c then t else Branch(kids, x)
  {
    if kids.Dense? {
      WidenBranch(kids, c, x);
      FillBranch(Widen(kids, c), c, t, kids.nbr + 1, x);
    } else if Converts(kids) {
      ConvertBranch(kids, c, t, x);
    } else {
      AppendBranch(kids, c, t, x);
    }
  }

  lemma {:induction false} UnlinkIndex(chars: bytes, i: nat, x: byte)
    requires i < |chars| && Distinct(chars)
    ensures var j := IndexOf(chars, x);
            IndexOf(chars[..i] + chars[i + 1..], x) == if j == i then -1 else if j < i then j else j - 1
  {
    var rest := chars[..i] + chars[i + 1..];
    assert forall m :: 0 <= m < |rest| ==> rest[m] == chars[if m < i then m else m + 1];
    var j := IndexOf(chars, x);
    if j >= 0 && j != i {
      UniqueIndex(rest, x, if j < i then j else j - 1);
    }
  }

  lemma UnlinkDistinct(chars: bytes, i: nat)
    requires i < |chars| && Distinct(chars)
    ensures Distinct(chars[..i] + chars[i + 1..])
  {
    var rest := chars[..i] + chars[i + 1..];
    assert forall m :: 0 <= m < |rest| ==> rest[m] == chars[if m < i then m else m + 1];
  }

  lemma {:induction false} UnlinkBranch(kids: Kids, i: nat, x: byte)
    requires kids.Sparse? && Sized(kids) && i < |kids.chars| && Distinct(kids.chars)
    ensures Distinct(Unlink(kids, i).chars)
    ensures Branch(Unlink(kids, i), x) == if x == kids.chars[i] then Null else Branch(kids, x)
  {
    hide Distinct, IndexOf;
    UnlinkDistinct(kids.chars, i);
    UnlinkIndex(kids.chars, i, x);
    UniqueIndex(kids.chars, kids.chars[i], i);
    var j, k := IndexOf(kids.chars, x), Unlink(kids, i);
    if j >= 0 && j != i {
      assert k.nodes[if j < i then j else j - 1] == kids.nodes[j];
    }
  }

  /** The child for x in a sparse array of any length. */
  function Pick(chars: bytes, nodes: seq<Tree>, x: byte): Tree
    requires |chars| == |nodes|
  {
    var i := IndexOf(chars, x);
    if i < 0 then Null else nodes[i]
  }

  lemma PickCons(c: byte, chars: bytes, t: Tree, nodes: seq<Tree>, x: byte)
    requires |chars| == |nodes|
    ensures Pick([c] + chars, [t] + nodes, x) == if x == c then t else Pick(chars, nodes, x)
  {
    assert ([c] + chars)[1..] == chars;
  }

  lemma {:induction false} GatherChars(slots: seq<Tree>, base: nat)
    requires base + |slots| <= 256
    ensures var (chars, nodes) := Gather(slots, base);
            && Distinct(chars) && Null !in nodes
            && forall i :: 0 <= i < |chars| ==> base <= chars[i] < base + |slots|
    decreases |slots|
  {
    if slots != [] {
      GatherChars(slots[1..], base + 1);
    }
  }

  lemma {:induction false} GatherAt(slots: seq<Tree>, base: nat, x: byte)
    requires base + |slots| <= 256
    ensures var (chars, nodes) := Gather(slots, base);
            Pick(chars, nodes, x) == if base <= x < base + |slots| then slots[x - base] else Null
    decreases |slots|
  {
    if slots != [] {
      GatherAt(slots[1..], base + 1, x);
      var (chars, nodes) := Gather(slots[1..], base + 1);
      PickCons(base, chars, slots[0], nodes, x);
    }
  }

  // ---------------------------------------------------------------------------------------
  // Where the children of a changed array come from

  ghost predicate From(slots: seq<Tree>, old_: seq<Tree>, extra: Tree) {
    forall u :: u in slots ==> u.Null? || u == extra || u in old_
  }

  lemma {:induction false} ScatterFrom(chars: bytes, nodes: seq<Tree>, min: byte, slots: seq<Tree>)
    requires |chars| == |nodes|
    requires forall i :: 0 <= i < |chars| ==> min <= chars[i] < min + |slots|
    ensures forall u :: u in Scatter(chars, nodes, min, slots) ==> u in slots || u in nodes
    decreases |chars|
  {
    if chars != [] {
      ScatterFrom(chars[1..], nodes[1..], min, slots[chars[0] - min := nodes[0]]);
    }
  }

  lemma {:induction false} GatherFrom(slots: seq<Tree>, base: nat)
    requires base + |slots| <= 256
    ensures From(Gather(slots, base).1, slots, Null)
    decreases |slots|
  {
    if slots != [] {
      GatherFrom(slots[1..], base + 1);
    }
  }

  lemma UnlinkFrom(kids: Kids, i: nat)
    requires kids.Sparse? && Sized(kids) && i < |kids.nodes|
    ensures From(Unlink(kids, i).nodes, kids.nodes, Null)
  {
  }

  lemma {:induction false} AddKidFrom(kids: Kids, c: byte, t: Tree)
    requires Sized(kids)
    ensures From(Children(AddKid(kids, c, t)), Children(kids), t)
  {
    if Converts(kids) {
      var k := ToDense(kids, c);
      ScatterFrom(kids.chars, kids.nodes, k.min, Nulls(k.max - k.min + 1));
    }
  }

  // ---------------------------------------------------------------------------------------
  // Strings below a node

  /** Does x continue below a node through its branch for c? */
  predicate Through(prefix: bytes, c: byte, x: bytes) {
    |prefix| < |x| && prefix <= x && x[|prefix|] == c
  }

  lemma ThroughPrefix(p: bytes, c: byte, q: bytes, x: bytes)
    ensures p + [c] + q <= x <==> Through(p, c, x) && q <= x[|p| + 1..]
    ensures x == p + [c] + q <==> Through(p, c, x) && q == x[|p| + 1..]
  {
    var w := p + [c] + q;
    assert w[..|p|] == p && w[|p|] == c && w[|p| + 1..] == q;
    if Through(p, c, x) {
      assert x == p + [c] + x[|p| + 1..];
    }
    if w <= x {
      assert x[..|p|] == x[..|w|][..|p|];
      assert x[|p| + 1..][..|q|] == x[..|w|][|p| + 1..];
    }
  }

  lemma JoinRest(p: bytes, data: bytes)
    requires data != []
    ensures p + data == p + [data[0]] + data[1..]
  {
    assert data == [data[0]] + data[1..];
  }

  // ---------------------------------------------------------------------------------------
  // Counts below a node

  /** A node without subscribers and with one child adds characters and nothing else. */
  lemma {:induction false} UnaryCount(p: bytes, c: byte, u: Tree, x: bytes)
    requires Formed(u)
    ensures var t := Node(0, p, Sparse([c], [u]));
            && Formed(t)
            && Count(t, x) == if Through(p, c, x) then Count(u, x[|p| + 1..]) else 0
  {
  }

  /** So does a longer prefix. */
  lemma {:induction false} LongPrefixCount(p: bytes, c: byte, u: Tree, x: bytes)
    requires u.Node? && Formed(u)
    ensures var t := u.(prefix := p + [c] + u.prefix);
            && Formed(t)
            && Count(t, x) == if Through(p, c, x) then Count(u, x[|p| + 1..]) else 0
  {
    ThroughPrefix(p, c, u.prefix, x);
    var n := |p| + 1 + |u.prefix|;
    if p + [c] + u.prefix < x {
      assert x[|p| + 1..][|u.prefix| + 1..] == x[n + 1..];
    }
  }

  lemma {:induction false} NewChainCount(data: bytes, x: bytes)
    ensures Formed(NewChain(data))
    ensures Count(NewChain(data), x) == if x == data then 1 else 0
    decreases |data|
  {
    if |data| > PREFIX_MAX {
      var p, c, rest := data[..PREFIX_MAX], data[PREFIX_MAX], data[PREFIX_MAX + 1..];
      NewChainCount(rest, if Through(p, c, x) then x[|p| + 1..] else x);
      UnaryCount(p, c, NewChain(rest), x);
      ThroughPrefix(p, c, rest, x);
      assert data == p + [c] + rest;
    }
  }

  lemma {:induction false} CompactCount(t: Tree, x: bytes)
    requires t.Node? && Formed(t)
    ensures Formed(Compact(t))
    ensures Count(Compact(t), x) == Count(t, x)
  {
    if Compact(t) != t {
      var ch, c := t.kids.nodes[0], t.kids.chars[0];
      LongPrefixCount(t.prefix, c, ch, x);
      UnaryCount(t.prefix, c, ch, x);
      assert t.kids == Sparse([c], [ch]);
    }
  }

  lemma {:induction false} SplitCount(t: Tree, pos: nat, x: bytes)
    requires t.Node? && Formed(t) && pos < |t.prefix|
    ensures Formed(Split(t, pos))
    ensures Count(Split(t, pos), x) == Count(t, x)
  {
    var p, c, low := t.prefix[..pos], t.prefix[pos], t.(prefix := t.prefix[pos + 1..]);
    assert t.prefix == p + [c] + low.prefix;
    LongPrefixCount(p, c, low, x);
    CompactCount(low, if Through(p, c, x) then x[pos + 1..] else x);
    UnaryCount(p, c, Compact(low), x);
  }

  /** Two nodes that differ in the layout of their children only mean the same. */
  lemma {:induction false} SameBranches(t: Tree, kids: Kids, x: bytes)
    requires t.Node? && Formed(t) && Sized(kids) && Formed(t.(kids := kids))
    requires t.prefix < x ==> Branch(kids, x[|t.prefix|]) == Branch(t.kids, x[|t.prefix|])
    ensures Count(t.(kids := kids), x) == Count(t, x)
  {
  }

  lemma {:induction false} AddBranchCount(t: Tree, data: bytes, x: bytes)
    requires t.Node? && Formed(t) && KidsOk(t.kids) && data != [] && Branch(t.kids, data[0]).Null?
    ensures Formed(AddBranch(t, data))
    ensures Count(AddBranch(t, data), x) ==
            if x == t.prefix + data then 1
            else if x == t.prefix then (if Converts(t.kids) then 0 else t.refcount)
            else Count(t, x)
  {
    var c, chain := data[0], NewChain(data[1..]);
    var kids := AddKid(t.kids, c, chain);
    assert Formed(AddBranch(t, data)) by {
      NewChainCount(data[1..], x);
      AddKidFrom(t.kids, c, chain);
    }
    JoinRest(t.prefix, data);
    ThroughPrefix(t.prefix, c, data[1..], x);
    if Through(t.prefix, c, x) {
      AddKidBranch(t.kids, c, chain, c);
      NewChainCount(data[1..], x[|t.prefix| + 1..]);
    } else if x != t.prefix {
      if t.prefix < x { AddKidBranch(t.kids, c, chain, x[|t.prefix|]); }
      SameBranches(t, kids, x);
    }
  }

  lemma {:induction false} ReplaceCount(t: Tree, c: byte, u: Tree, x: bytes)
    requires t.Node? && Formed(t) && Formed(u) && NextIndex(t.kids, c) >= 0
    ensures var n := t.(kids := WithChild(t.kids, NextIndex(t.kids, c), u));
            && Formed(n)
            && Count(n, x) == if Through(t.prefix, c, x) then Count(u, x[|t.prefix| + 1..])
                              else Count(t, x)
  {
    if t.prefix <= x && |x| > |t.prefix| {
      SetBranch(t.kids, c, u, x[|t.prefix|]);
    }
  }

  // ---------------------------------------------------------------------------------------
  // Subscribing

  datatype Spot = Nowhere | At(s: bytes)

  function Under(prefix: bytes, c: byte, spot: Spot): Spot {
    if spot.At? then At(prefix + [c] + spot.s) else Nowhere
  }

  /** The string of the node whose child array a subscribe call turns from sparse to dense. */
  function Converted(t: Tree, data: bytes): Spot
    requires Formed(t)
    decreases t
  {
    if t.Null? || CheckPrefix(t.prefix, data) < |t.prefix| || |data| == |t.prefix| then Nowhere
    else
      var c := data[|t.prefix|];
      var i := NextIndex(t.kids, c);
      if i < 0 || Children(t.kids)[i].Null? then
        if Converts(t.kids) then At(t.prefix) else Nowhere
      else Under(t.prefix, c, Converted(Children(t.kids)[i], data[|t.prefix| + 1..]))
  }

  /** A converted node lies strictly above the subscribed string. */
  lemma {:induction false} ConvertedAbove(t: Tree, s: bytes)
    requires Formed(t) && Converted(t, s).At?
    ensures Converted(t, s).s < s
    decreases t
  {
    var n := |t.prefix|;
    var i := NextIndex(t.kids, s[n]);
    if i >= 0 && Children(t.kids)[i].Node? {
      var ch := Children(t.kids)[i];
      ConvertedAbove(ch, s[n + 1..]);
      ThroughPrefix(t.prefix, s[n], Converted(ch, s[n + 1..]).s, s);
    }
  }

  /** One step down the trie. */
  ghost predicate Descends(t: Tree, s: bytes)
    requires Formed(t)
  {
    t.Node? && t.prefix < s && Branch(t.kids, s[|t.prefix|]).Node?
  }

  lemma {:induction false} SubscribeStep(t: Tree, s: bytes)
    requires Formed(t) && Descends(t, s)
    ensures var c, rest := s[|t.prefix|], s[|t.prefix| + 1..];
            var i := NextIndex(t.kids, c);
            var o := Subscribe(Children(t.kids)[i], rest);
            && Subscribe(t, s) == Done(t.(kids := WithChild(t.kids, i, o.tree)), o.rc)
            && Converted(t, s) == Under(t.prefix, c, Converted(Children(t.kids)[i], rest))
  {
    assert s[|t.prefix|..][1..] == s[|t.prefix| + 1..];
  }

  /** What a subscribe call must do to the count of x. */
  ghost predicate Subscribed(t: Tree, s: bytes, x: bytes)
    requires Formed(t)
  {
    var after := Subscribe(t, s).tree;
    && Formed(after)
    && Subscribe(t, s).rc == (if Count(t, s) == 0 then 1 else 0)
    && Count(after, x) == if x == s then Inc(Count(t, s))
                          else if Converted(t, s) == At(x) then 0
                          else Count(t, x)
  }

  /** A subscribe call adds one, modulo the 32-bit counter, to the count of its string and returns 1
      exactly when that count was zero.  It leaves every other count as it was, but for a node it
      converts: that node's count is lost. */
  lemma {:induction false} SubscribeCounts(t: Tree, s: bytes, x: bytes)
    requires Ok(t)
    ensures Formed(t) && Subscribed(t, s, x)
    decreases t
  {
    OkFormed(t);
    if t.Null? {
      NewChainCount(s, x);
    } else if Descends(t, s) {
      var n, c, rest := |t.prefix|, s[|t.prefix|], s[|t.prefix| + 1..];
      var ch := Branch(t.kids, c);
      var y := if Through(t.prefix, c, x) then x[n + 1..] else rest;
      SubscribeCounts(ch, rest, y);
      SubscribeStep(t, s);
      SubscribedBelow(t, s, x);
    } else {
      SubscribedHere(t, s, x);
    }
  }

  lemma {:induction false} SubscribedHere(t: Tree, s: bytes, x: bytes)
    requires t.Node? && Ok(t) && Formed(t) && !Descends(t, s)
    ensures Subscribed(t, s, x)
  {
    if CheckPrefix(t.prefix, s) < |t.prefix| {
      SubscribedSplit(t, s, x);
    } else if |t.prefix| < |s| {
      var rest := s[|t.prefix|..];
      AddBranchCount(t, rest, x);
      assert s == t.prefix + rest;
      assert Subscribe(t, s).tree == AddBranch(t, rest);
    }
  }

  lemma {:induction false} SubscribedSplit(t: Tree, s: bytes, x: bytes)
    requires t.Node? && Ok(t) && Formed(t) && !(t.prefix <= s)
    ensures Subscribed(t, s, x)
  {
    var pos := CheckPrefix(t.prefix, s);
    var rest, n := s[pos..], Split(t, pos);
    SplitCount(t, pos, x);
    SplitCount(t, pos, s);
    assert s == n.prefix + rest;
    if rest == [] {
      assert Subscribe(t, s) == Bump(n);
    } else {
      assert Subscribe(t, s).tree == AddBranch(n, rest);
      AddBranchCount(n, rest, x);
    }
  }

  lemma CountBelow(t: Tree, c: byte, x: bytes)
    requires Formed(t) && t.Node? && NextIndex(t.kids, c) >= 0
    ensures Through(t.prefix, c, x) ==> Count(t, x) == Count(Branch(t.kids, c), x[|t.prefix| + 1..])
  {
  }

  lemma {:induction false} SubscribedBelow(t: Tree, s: bytes, x: bytes)
    requires Ok(t) && Formed(t) && Descends(t, s)
    requires var c, rest := s[|t.prefix|], s[|t.prefix| + 1..];
             Subscribed(Branch(t.kids, c), rest, if Through(t.prefix, c, x) then x[|t.prefix| + 1..] else rest)
    ensures Subscribed(t, s, x)
  {
    hide Count, Subscribe, Converted;
    var c, rest := s[|t.prefix|], s[|t.prefix| + 1..];
    var ch := Branch(t.kids, c);
    SubscribeStep(t, s);
    CountBelow(t, c, s);
    CountBelow(t, c, x);
    ReplaceCount(t, c, Subscribe(ch, rest).tree, x);
    ThroughPrefix(t.prefix, c, rest, x);
    ThroughPrefix(t.prefix, c, rest, s);
    if Converted(ch, rest).At? {
      ThroughPrefix(t.prefix, c, Converted(ch, rest).s, x);
    }
  }
}
