/** How a new subscription is cut into nodes: ten characters each, and one for the branch to the next. */
module TrieChains {
  import opened Trie
  import opened Words
  import opened TrieCounts
  import opened TrieRemoval
  import opened TrieMatch

  /** A message makes the walk down a new chain run out of data exactly where one of its full nodes ends. */
  lemma {:induction false} ChainOverruns(s: bytes, m: bytes)
    ensures Formed(NewChain(s))
    ensures Overruns(NewChain(s), m) <==> m < s && |m| % 11 == 10
    decreases |s|
  {
    NewChainCount(s, s);
    if |s| > 10 && |m| > 10 && m[..10] == s[..10] && m[10] == s[10] {
      ChainOverruns(s[11..], m[11..]);
      assert s == s[..10] + [s[10]] + s[11..] && m == m[..10] + [m[10]] + m[11..];
    }
  }

  /** One node down where there is a single branch. */
  lemma UnaryTarget(p: bytes, c: byte, ch: Tree, x: bytes)
    requires Formed(ch)
    ensures var t := Node(0, p, Sparse([c], [ch]));
            && Formed(t)
            && Target(t, x) == if p + [c] <= x then Under(p, c, Target(ch, x[|p| + 1..])) else Nowhere
  {
    var t := Node(0, p, Sparse([c], [ch]));
    if p <= x && x != [] && x != p {
      assert Target(t, x) == if x[|p|] == c then Under(p, c, Target(ch, x[|p| + 1..])) else Nowhere;
    }
  }

  /** One full node down a long chain. */
  lemma ChainTargetDown(s: bytes, x: bytes)
    requires |s| > 10
    ensures Formed(NewChain(s)) && Formed(NewChain(s[11..]))
    ensures Target(NewChain(s), x) ==
            if |x| > 10 && x[..11] == s[..11] then Under(s[..10], s[10], Target(NewChain(s[11..]), x[11..]))
            else Nowhere
  {
    hide Target;
    NewChainCount(s[11..], s);
    assert NewChain(s) == Node(0, s[..10], Sparse([s[10]], [NewChain(s[11..])]));
    UnaryTarget(s[..10], s[10], NewChain(s[11..]), x);
    assert s[..11] == s[..10] + [s[10]];
  }

  /** Where the last node of a chain begins, from the node before. */
  lemma LastNode(s: bytes, x: bytes)
    requires |s| > 10 && |x| > 10 && x[..11] == s[..11]
    ensures x == s <==> x[11..] == s[11..]
    ensures x == s[..11 * (|s| / 11)] <==> x[11..] == s[11..][..11 * (|s[11..]| / 11)]
    ensures s == s[..10] + [s[10]] + s[11..]
  {
    var n := 11 * (|s| / 11);
    assert |s[11..]| / 11 == |s| / 11 - 1;
    assert x == x[..11] + x[11..] && s == s[..11] + s[11..];
    assert s[..n] == s[..11] + s[11..][..n - 11];
  }

  /** What an unsubscribe call can take from a new chain: the string itself, and where its last node begins, since
      the prefix of that node is not compared. */
  lemma {:induction false} ChainTarget(s: bytes, x: bytes)
    ensures Formed(NewChain(s))
    ensures Target(NewChain(s), x).At? <==> x == s || x == s[..11 * (|s| / 11)]
    ensures Target(NewChain(s), x).At? ==> Target(NewChain(s), x) == At(s)
    decreases |s|
  {
    if |s| > 10 {
      hide NewChain, Target;
      ChainTargetDown(s, x);
      if |x| > 10 && x[..11] == s[..11] {
        ChainTarget(s[11..], x[11..]);
        LastNode(s, x);
      }
    }
  }

  /** The first subscription of a trie. */
  lemma FirstSubscriptionTarget(s: bytes, x: bytes)
    ensures Formed(Subscribe(Null, s).tree)
    ensures Target(Subscribe(Null, s).tree, x).At? <==> x == s || x == s[..11 * (|s| / 11)]
  {
    ChainTarget(s, x);
  }
}
