/** Matching a message against the trie, and when the answer is the right one. */
module TrieMatch {
  import opened Trie
  import opened Words
  import opened TrieCounts

  /** The walk returns 1, returns 0, or reads past the end of the memory it can see. */
  datatype Answer = Hit | Miss | OutOfBounds

  /** The memory from some address on. */
  type Memory = s: bytes | |s| < WORD64

  /** Compares a prefix with the data, never looking further than size bytes.  The result is the
      length matched, or -1 for a read outside memory. */
  function MatchPrefix(prefix: bytes, data: Memory, size: nat): (k: int)
    ensures -1 <= k <= |prefix|
    ensures k == |prefix| ==> k <= size && prefix <= data
  {
    if prefix == [] || size == 0 then 0
    else if data == [] then -1
    else if prefix[0] != data[0] then 0
    else
      var k := MatchPrefix(prefix[1..], data[1..], size - 1);
      assert prefix == [prefix[0]] + prefix[1..] && data == [data[0]] + data[1..];
      if k < 0 then -1 else k + 1
  }

  /** The size after a prefix of k characters and one more character, unsigned 64-bit arithmetic. */
  function Lowered(size: nat, k: nat): nat
    requires k <= size
  {
    if k == size then WORD64 - 1 else size - k - 1
  }

  /** The walk down the trie from t; the first size bytes of data are the rest of the message.
      Nothing tests for its end: the character after a matched prefix is read, and the size, an
      unsigned 64-bit number, is lowered, even when no byte is left. */
  function Walk(t: Tree, data: Memory, size: nat): Answer
    requires Formed(t)
    decreases t
  {
    if t.Null? then Miss
    else
      var k := MatchPrefix(t.prefix, data, size);
      if k < 0 then OutOfBounds
      else if k != |t.prefix| then Miss
      else if t.refcount != 0 then Hit
      else if k == |data| then OutOfBounds
      else
        var i := NextIndex(t.kids, data[k]);
        if i < 0 then Miss else Walk(Children(t.kids)[i], data[k + 1..], Lowered(size, k))
  }

  /** Is some prefix of s subscribed? */
  ghost predicate PrefixSubscribed(t: Tree, s: bytes)
    requires Formed(t)
  {
    exists k :: 0 <= k <= |s| && Count(t, s[..k]) > 0
  }

  /** The walk ends a prefix exactly where the message ends, at a node without subscribers. */
  predicate Overruns(t: Tree, s: bytes)
    requires Formed(t)
    decreases t
  {
    t.Node? && t.prefix <= s && t.refcount == 0 &&
    if |s| == |t.prefix| then true
    else
      var i := NextIndex(t.kids, s[|t.prefix|]);
      i >= 0 && Overruns(Children(t.kids)[i], s[|t.prefix| + 1..])
  }

  // ---------------------------------------------------------------------------------------
  // One step

  lemma {:induction false} MatchPrefixInside(prefix: bytes, s: bytes, beyond: bytes)
    requires |s + beyond| < WORD64
    ensures MatchPrefix(prefix, s + beyond, |s|) == CheckPrefix(prefix, s)
    decreases |prefix|
  {
    if prefix != [] && s != [] {
      MatchPrefixInside(prefix[1..], s[1..], beyond);
      assert (s + beyond)[1..] == s[1..] + beyond;
    }
  }

  /** A subscribed prefix of s is the node's own string or lies below the branch s takes. */
  lemma {:induction false} PrefixStep(t: Tree, s: bytes)
    requires t.Node? && Formed(t)
    ensures !(t.prefix <= s) ==> !PrefixSubscribed(t, s)
    ensures t.prefix <= s && t.refcount > 0 ==> PrefixSubscribed(t, s)
    ensures t.prefix == s && t.refcount == 0 ==> !PrefixSubscribed(t, s)
    ensures t.prefix < s && t.refcount == 0 ==>
              PrefixSubscribed(t, s) == PrefixSubscribed(Branch(t.kids, s[|t.prefix|]), s[|t.prefix| + 1..])
  {
    var n := |t.prefix|;
    if PrefixSubscribed(t, s) {
      var k :| 0 <= k <= |s| && Count(t, s[..k]) > 0;
      if k > n {
        assert s[..k][n + 1..] == s[n + 1..][..k - n - 1];
      }
    }
    if t.prefix <= s && t.refcount > 0 {
      assert s[..n] == t.prefix;
    }
    if t.prefix < s && PrefixSubscribed(Branch(t.kids, s[n]), s[n + 1..]) {
      var k :| 0 <= k <= |s| - n - 1 && Count(Branch(t.kids, s[n]), s[n + 1..][..k]) > 0;
      assert s[..n + 1 + k][n + 1..] == s[n + 1..][..k];
      assert Count(t, s[..n + 1 + k]) > 0;
    }
  }

  lemma {:induction false} WalkStep(t: Tree, s: bytes, beyond: bytes)
    requires t.Node? && Formed(t) && |s + beyond| < WORD64
    ensures Walk(t, s + beyond, |s|) ==
            if !(t.prefix <= s) then Miss
            else if t.refcount > 0 then Hit
            else if t.prefix < s then
              Walk(Branch(t.kids, s[|t.prefix|]), s[|t.prefix| + 1..] + beyond, |s| - |t.prefix| - 1)
            else if beyond == [] then OutOfBounds
            else Walk(Branch(t.kids, beyond[0]), beyond[1..], WORD64 - 1)
  {
    var n := |t.prefix|;
    MatchPrefixInside(t.prefix, s, beyond);
    if t.prefix < s {
      assert (s + beyond)[n + 1..] == s[n + 1..] + beyond;
    } else if t.prefix == s && beyond != [] {
      assert (s + beyond)[n + 1..] == beyond[1..];
    }
  }

  // ---------------------------------------------------------------------------------------
  // Whole walks

  /** As long as the message does not run out, the walk agrees with testing every prefix. */
  lemma {:induction false} WalkInside(t: Tree, s: bytes, beyond: bytes)
    requires Formed(t) && |s + beyond| < WORD64 && !Overruns(t, s)
    ensures Walk(t, s + beyond, |s|) == if PrefixSubscribed(t, s) then Hit else Miss
    decreases t
  {
    if t.Node? {
      WalkStep(t, s, beyond);
      PrefixStep(t, s);
      if t.prefix < s && t.refcount == 0 {
        var ch := Branch(t.kids, s[|t.prefix|]);
        if ch.Node? { WalkInside(ch, s[|t.prefix| + 1..], beyond); }
      }
    }
  }

  lemma {:induction false} MatchPrefixBeyond(prefix: bytes, data: Memory, size: nat)
    requires |data| <= size
    ensures MatchPrefix(prefix, data, size) == |prefix| <==> prefix <= data
    decreases |prefix|
  {
    if prefix != [] && data != [] {
      MatchPrefixBeyond(prefix[1..], data[1..], size - 1);
      assert prefix == [prefix[0]] + prefix[1..] && data == [data[0]] + data[1..];
    }
  }

  /** A walk with no less size left than memory treats all of memory as the message. */
  lemma {:induction false} WalkBeyond(t: Tree, data: Memory, size: nat)
    requires Formed(t) && |data| <= size < WORD64
    ensures Walk(t, data, size) == Hit <==> PrefixSubscribed(t, data)
    decreases t
  {
    if t.Node? {
      var n := |t.prefix|;
      MatchPrefixBeyond(t.prefix, data, size);
      PrefixStep(t, data);
      if t.prefix < data && t.refcount == 0 {
        var ch := Branch(t.kids, data[n]);
        if ch.Node? { WalkBeyond(ch, data[n + 1..], size - n - 1); }
      }
    }
  }

  /** A message that runs out this way has no subscribed prefix. */
  lemma {:induction false} OverrunUnmatched(t: Tree, s: bytes)
    requires Formed(t) && Overruns(t, s)
    ensures !PrefixSubscribed(t, s)
    decreases t
  {
    PrefixStep(t, s);
    if t.prefix < s {
      OverrunUnmatched(Branch(t.kids, s[|t.prefix|]), s[|t.prefix| + 1..]);
    }
  }

  /** With nothing after the message, the walk leaves memory. */
  lemma {:induction false} OverrunFaults(t: Tree, s: bytes)
    requires Formed(t) && |s| < WORD64 && Overruns(t, s)
    ensures Walk(t, s, |s|) == OutOfBounds
    decreases t
  {
    assert s + [] == s;
    WalkStep(t, s, []);
    if t.prefix < s {
      assert s[|t.prefix| + 1..] + [] == s[|t.prefix| + 1..];
      OverrunFaults(Branch(t.kids, s[|t.prefix|]), s[|t.prefix| + 1..]);
    }
  }

  lemma {:induction false} OverrunHere(t: Tree, beyond: bytes)
    requires t.Node? && Formed(t) && t.refcount == 0 && |t.prefix + beyond| < WORD64
    ensures Walk(t, t.prefix + beyond, |t.prefix|) == Hit <==> PrefixSubscribed(t, t.prefix + beyond)
  {
    WalkStep(t, t.prefix, beyond);
    PrefixStep(t, t.prefix + beyond);
    if beyond == [] {
      assert t.prefix + beyond == t.prefix;
    } else {
      assert (t.prefix + beyond)[|t.prefix| + 1..] == beyond[1..];
      WalkBeyond(Branch(t.kids, beyond[0]), beyond[1..], WORD64 - 1);
    }
  }

  /** Otherwise it goes on through whatever follows the message, as if that were part of it. */
  lemma {:induction false} WalkOverrun(t: Tree, s: bytes, beyond: bytes)
    requires Formed(t) && |s + beyond| < WORD64 && Overruns(t, s)
    ensures Walk(t, s + beyond, |s|) == Hit <==> PrefixSubscribed(t, s + beyond)
    decreases t
  {
    if t.prefix == s {
      OverrunHere(t, beyond);
    } else {
      var n, data := |t.prefix|, s + beyond;
      hide Walk, PrefixSubscribed, Count;
      WalkStep(t, s, beyond);
      PrefixStep(t, data);
      assert t.prefix < data && data[n] == s[n] && data[n + 1..] == s[n + 1..] + beyond;
      WalkOverrun(Branch(t.kids, s[n]), s[n + 1..], beyond);
    }
  }

  // ---------------------------------------------------------------------------------------
  // Matching

  /** Matching msg, with beyond in memory after it. */
  function Match(t: Tree, msg: bytes, beyond: bytes): Answer
    requires Formed(t) && |msg + beyond| < WORD64
  {
    Walk(t, msg + beyond, |msg|)
  }

  ghost function Expected(t: Tree, msg: bytes): Answer
    requires Formed(t)
  {
    if PrefixSubscribed(t, msg) then Hit else Miss
  }

  /** Completeness, whatever follows the message in memory: a message with a subscribed prefix is
      always matched. */
  lemma {:induction false} MatchComplete(t: Tree, msg: bytes, beyond: bytes)
    requires Formed(t) && |msg + beyond| < WORD64 && PrefixSubscribed(t, msg)
    ensures Match(t, msg, beyond) == Hit
  {
    if Overruns(t, msg) {
      OverrunUnmatched(t, msg);
    } else {
      WalkInside(t, msg, beyond);
    }
  }

  /** The answer is right for every content of the memory after the message exactly when the walk
      does not run out of the message at a node without subscribers. */
  lemma {:induction false} MatchCorrect(t: Tree, msg: bytes)
    requires Formed(t) && |msg| < WORD64
    ensures (forall beyond | |msg + beyond| < WORD64 :: Match(t, msg, beyond) == Expected(t, msg))
            <==> !Overruns(t, msg)
  {
    if Overruns(t, msg) {
      assert msg + [] == msg;
      OverrunFaults(t, msg);
      assert Match(t, msg, []) == OutOfBounds;
    } else {
      forall beyond | |msg + beyond| < WORD64 ensures Match(t, msg, beyond) == Expected(t, msg) {
        WalkInside(t, msg, beyond);
      }
    }
  }

  /** When it does, a subscription that the message is only the beginning of can be matched. */
  lemma {:induction false} MatchFalsely(t: Tree, msg: bytes, rest: bytes)
    requires Formed(t) && |msg + rest| < WORD64 && Overruns(t, msg) && Count(t, msg + rest) > 0
    ensures !PrefixSubscribed(t, msg) && Match(t, msg, rest) == Hit
  {
    OverrunUnmatched(t, msg);
    WalkOverrun(t, msg, rest);
    assert (msg + rest)[..|msg + rest|] == msg + rest;
  }

  /** And in a well-shaped trie there is such a subscription. */
  lemma {:induction false} OverrunExtends(t: Tree, msg: bytes) returns (rest: bytes)
    requires Ok(t) && Formed(t) && Overruns(t, msg)
    ensures Count(t, msg + rest) > 0
    decreases t
  {
    var n := |t.prefix|;
    if |msg| > n {
      rest := OverrunExtends(Branch(t.kids, msg[n]), msg[n + 1..]);
      var s := msg + rest;
      assert t.prefix < s && s[n] == msg[n] && s[n + 1..] == msg[n + 1..] + rest;
    } else {
      rest := SomeBelow(t);
      assert msg == t.prefix;
    }
  }

  /** Some string strictly below a well-shaped node without subscribers is subscribed. */
  lemma {:induction false} SomeBelow(t: Tree) returns (rest: bytes)
    requires Ok(t) && Formed(t) && t.Node? && t.refcount == 0
    ensures rest != [] && Count(t, t.prefix + rest) > 0
    decreases t
  {
    var c: byte := if t.kids.Sparse? then t.kids.chars[0] else t.kids.min;
    var ch := Children(t.kids)[0];
    assert ch in Children(t.kids);
    assert NextIndex(t.kids, c) == 0;
    var tail := [];
    if ch.refcount == 0 {
      tail := SomeBelow(ch);
    } else {
      assert ch.prefix + tail == ch.prefix;
    }
    rest := [c] + (ch.prefix + tail);
    ThroughPrefix(t.prefix, c, ch.prefix + tail, t.prefix + rest);
    assert t.prefix + rest == t.prefix + [c] + (ch.prefix + tail);
  }
}
