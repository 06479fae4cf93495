/** When the search for the protocol header in a control buffer ends, and when it stays in the buffer. */
module ControlSearch {
  import opened Words
  import opened Wire
  import opened Ancillary

  // --- The search as the program performs it, step by step

  /** At pos there is a property, and it is not the one that is searched. */
  predicate Goes(buf: bytes, pos: nat) {
    Accepted(buf, pos) && !IsSpHdr(buf, pos)
  }

  /** Where the search is after k steps; it stays where it stops. */
  function At(buf: bytes, pos: nat, k: nat): (p: nat)
    requires pos <= |buf|
    ensures p <= |buf|
  {
    if k == 0 then pos
    else
      var p := At(buf, pos, k - 1);
      if Goes(buf, p) then Next(buf, p) else p
  }

  /** What it comes to where it stops. */
  function Stopped(buf: bytes, pos: nat): Found
    requires !Goes(buf, pos)
  {
    if Accepted(buf, pos) then Take(buf, pos) else Nothing
  }

  /** The search has come to pos after k steps, and seen are the offsets it was at before, all different. */
  ghost predicate Trail(buf: bytes, start: nat, pos: nat, seen: set<nat>, k: nat)
    requires start <= |buf|
  {
    && At(buf, start, k) == pos && pos !in seen
    && (forall i: nat | i < k :: At(buf, start, i) in seen && Goes(buf, At(buf, start, i)))
    && (forall p | p in seen :: Visited(buf, start, p, k))
  }

  ghost predicate Visited(buf: bytes, start: nat, p: nat, k: nat)
    requires start <= |buf|
  {
    exists i: nat :: i < k && At(buf, start, i) == p
  }

  lemma TrailGoesOn(buf: bytes, start: nat, pos: nat, seen: set<nat>, k: nat)
    requires start <= |buf| && Trail(buf, start, pos, seen, k) && Goes(buf, pos)
    ensures At(buf, start, k + 1) == Next(buf, pos)
    ensures Next(buf, pos) !in seen + {pos} ==> Trail(buf, start, Next(buf, pos), seen + {pos}, k + 1)
    ensures Next(buf, pos) in seen + {pos} ==> Visited(buf, start, Next(buf, pos), k + 1)
  {
    hide Accepted, IsSpHdr, Next;
    assert Visited(buf, start, pos, k + 1);
    forall p | p in seen ensures Visited(buf, start, p, k + 1) {
      assert Visited(buf, start, p, k);
    }
  }

  /** Once the search has come back to an offset, it never stops. */
  lemma {:induction false} GoesRound(buf: bytes, start: nat, k: nat, n: nat)
    requires start <= |buf| && (forall i: nat | i <= k :: Goes(buf, At(buf, start, i)))
    requires Visited(buf, start, At(buf, start, k + 1), k + 1)
    ensures Goes(buf, At(buf, start, n)) && Visited(buf, start, At(buf, start, n), k + 1)
  {
    hide Goes, Accepted, IsSpHdr, Next;
    if n > k {
      GoesRound(buf, start, k, n - 1);
      var i: nat :| i < k + 1 && At(buf, start, i) == At(buf, start, n - 1);
      assert At(buf, start, i + 1) == At(buf, start, n);
    }
  }

  /** What Search says is what the program does, for any bytes at all. */
  lemma {:induction false} SearchFollows(buf: bytes, start: nat, pos: nat, seen: set<nat>, k: nat)
    requires start <= |buf| && pos <= |buf| && Trail(buf, start, pos, seen, k)
    ensures var f := Search(buf, pos, seen);
      if f == Forever then forall n: nat :: Goes(buf, At(buf, start, n))
      else exists n: nat :: !Goes(buf, At(buf, start, n)) && f == Stopped(buf, At(buf, start, n))
    decreases UpTo(|buf|) - seen
  {
    hide Load64, Load, Align, Take;
    StoppedIsNotForever(buf);
    if Goes(buf, pos) {
      TrailGoesOn(buf, start, pos, seen, k);
      var next := Next(buf, pos);
      if next in seen + {pos} {
        forall n: nat ensures Goes(buf, At(buf, start, n)) {
          GoesRound(buf, start, k, n);
        }
      } else {
        assert pos in UpTo(|buf|);
        SearchFollows(buf, start, next, seen + {pos}, k + 1);
      }
    } else {
      assert !Goes(buf, At(buf, start, k));
    }
  }

  /** The search never ends exactly when Search says so; where it ends, it comes to what Search says. */
  lemma SearchExact(buf: bytes)
    ensures Search(buf, 0, {}) == Forever <==> forall n: nat :: Goes(buf, At(buf, 0, n))
    ensures forall n: nat | !Goes(buf, At(buf, 0, n)) :: Search(buf, 0, {}) == Stopped(buf, At(buf, 0, n))
  {
    hide Accepted, IsSpHdr, Next, Take, Search;
    assert Trail(buf, 0, 0, {}, 0);
    SearchFollows(buf, 0, 0, {}, 0);
    StoppedIsNotForever(buf);
    forall n: nat, m: nat | !Goes(buf, At(buf, 0, n)) && !Goes(buf, At(buf, 0, m))
      ensures At(buf, 0, n) == At(buf, 0, m)
    {
      StaysStopped(buf, 0, n, m);
      StaysStopped(buf, 0, m, n);
    }
  }

  lemma {:induction false} StaysStopped(buf: bytes, start: nat, n: nat, m: nat)
    requires start <= |buf| && !Goes(buf, At(buf, start, n))
    ensures n <= m ==> At(buf, start, m) == At(buf, start, n)
    decreases m
  {
    hide Goes;
    if n < m {
      StaysStopped(buf, start, n, m - 1);
    }
  }

  lemma StoppedIsNotForever(buf: bytes)
    ensures forall p: nat | p <= |buf| && !Goes(buf, p) :: Stopped(buf, p) != Forever
  {
  }

  // --- When it ends, inside of the buffer

  /** The size and the bytes of the protocol header at pos are in the buffer, as far as they are read. */
  predicate Inside(buf: bytes, pos: nat)
    requires pos + CMSGHDR <= |buf|
  {
    var clen := (Load64(buf, pos) - Space(0)) % WORD64;
    clen <= WORD ||
    (pos + CMSGHDR + WORD <= |buf| &&
     (Load64(buf, pos + CMSGHDR) > clen - WORD || pos + CMSGHDR + WORD + Load64(buf, pos + CMSGHDR) <= |buf|))
  }

  /** The lengths lead to a protocol header inside the buffer, or out of the list, without coming back to an offset
      where the search has been. */
  predicate Leads(buf: bytes, pos: nat, seen: set<nat>)
    requires pos <= |buf| && pos !in seen
    decreases UpTo(|buf|) - seen
  {
    Accepted(buf, pos) ==>
      if IsSpHdr(buf, pos) then Inside(buf, pos)
      else
        Next(buf, pos) !in seen + {pos} &&
        (assert pos in UpTo(|buf|) - seen && pos !in UpTo(|buf|) - (seen + {pos});
         Leads(buf, Next(buf, pos), seen + {pos}))
  }

  /** The search ends and reads nothing outside of the buffer if and only if the lengths lead there. */
  lemma {:induction false} SearchIsSafe(buf: bytes, pos: nat, seen: set<nat>)
    requires pos <= |buf| && pos !in seen
    ensures Search(buf, pos, seen).Nothing? || Search(buf, pos, seen).Header? <==> Leads(buf, pos, seen)
    decreases UpTo(|buf|) - seen
  {
    hide Load64, Load, Align;
    SpaceOfNothing();
    if Goes(buf, pos) && Next(buf, pos) !in seen + {pos} {
      assert pos in UpTo(|buf|);
      SearchIsSafe(buf, Next(buf, pos), seen + {pos});
    }
  }

  /** The same, without a look back. */
  predicate LeadsForward(buf: bytes, pos: nat)
    requires pos <= |buf|
    decreases |buf| - pos
  {
    Accepted(buf, pos) ==>
      if IsSpHdr(buf, pos) then Inside(buf, pos) else pos < Next(buf, pos) && LeadsForward(buf, Next(buf, pos))
  }

  /** In a buffer where no length leads backward the search is safe if and only if every length that is met leads
      forward. */
  lemma {:induction false} ForwardIsSafe(buf: bytes, pos: nat, seen: set<nat>)
    requires pos <= |buf| && (forall i | i in seen :: i < pos)
    requires forall p: nat | p <= |buf| && Goes(buf, p) :: p <= Next(buf, p)
    ensures Search(buf, pos, seen).Nothing? || Search(buf, pos, seen).Header? <==> LeadsForward(buf, pos)
    decreases |buf| - pos
  {
    hide Load64, Load, Align;
    SpaceOfNothing();
    if Goes(buf, pos) && pos < Next(buf, pos) {
      ForwardIsSafe(buf, Next(buf, pos), seen + {pos});
    }
  }

  // --- Buffers on which it fails, and one on which it only seems to

  function Zeros(n: nat): (b: bytes)
    ensures |b| == n && forall i | 0 <= i < n :: b[i] == 0
  {
    seq(n, i => 0)
  }

  /** A length, and a word of level and type. */
  function Head(len: uint64, level: uint32, kind: uint32): (b: bytes)
    ensures |b| == CMSGHDR
  {
    SizeBytes(len) + Bytes32(level) + Bytes32(kind)
  }

  /** A header in a buffer is read back. */
  lemma HeadRead(buf: bytes, pos: nat, len: uint64, level: uint32, kind: uint32)
    requires pos + CMSGHDR <= |buf| && buf[pos..pos + CMSGHDR] == Head(len, level, kind)
    ensures Load64(buf, pos) == len && Load(buf, pos + 8) == level && Load(buf, pos + 12) == kind
  {
    hide Load64, SizeBytes, Bytes32, Word32;
    var head := Head(len, level, kind);
    assert head[0..8] == SizeBytes(len) && head[8..12] == Bytes32(level) && head[12..16] == Bytes32(kind);
    SliceInside(buf, pos, head, 0, 8);
    SliceInside(buf, pos, head, 8, 12);
    SliceInside(buf, pos, head, 12, 16);
    SizeRoundTrip(len);
    LoadInside(buf, pos, SizeBytes(len), 0);
    Word32RoundTrip(level);
    Word32RoundTrip(kind);
  }

  /** A buffer of zeros has a length that leads nowhere, and the search stays where it is for ever. */
  lemma ZerosNeverEnd(n: nat)
    requires n >= CMSGHDR
    ensures Search(Zeros(n), 0, {}) == Forever
  {
    var buf := Zeros(n);
    SpaceOfNothing();
    assert Bytes32(0) == [0, 0, 0, 0];
    assert buf[0..0 + CMSGHDR] == Head(0, 0, 0);
    HeadRead(buf, 0, 0, 0, 0);
    hide Load64, Load, Align;
    assert Next(buf, 0) == 0;
  }

  /** A protocol header whose length is less than that of its own head: the rest is taken to be huge, and the size
      word leads outside. */
  function TooShort(): (b: bytes)
    ensures |b| == 32
  {
    Head(8, PROTO_SP, SP_HDR) + SizeBytes(100) + Zeros(8)
  }

  lemma TooShortLeadsOutside()
    ensures Search(TooShort(), 0, {}) == Outside
  {
    hide SizeBytes, Bytes32, Load64, Load, Align, Head;
    var buf := TooShort();
    assert buf[0..0 + CMSGHDR] == Head(8, PROTO_SP, SP_HDR);
    HeadRead(buf, 0, 8, PROTO_SP, SP_HDR);
    assert SizeBytes(100) == buf[16..16 + 8];
    SizeRoundTrip(100);
    LoadInside(buf, 16, SizeBytes(100), 0);
    SpaceOfNothing();
    SmallAlign(8);
    assert IsSpHdr(buf, 0) && Accepted(buf, 0);
  }

  lemma SmallAlign(n: nat)
    requires n <= 1000 && n % WORD == 0
    ensures Align(n) == n
  {
  }

  /** A length that wraps to an earlier offset, where there is no property: the search ends. */
  function Wrapping(): (b: bytes)
    ensures |b| == 64
  {
    Head(40, 0, 0) + Zeros(8) + SizeBytes(1000) + Zeros(8) + Head(WORD64 - 16, 0, 0) + Zeros(8)
  }

  lemma WrappingEnds()
    ensures Search(Wrapping(), 0, {}) == Nothing && !LeadsForward(Wrapping(), 0)
  {
    hide SizeBytes, Bytes32, Load64, Load, Align, Head, Take;
    var buf := Wrapping();
    SpaceOfNothing();
    assert buf[0..0 + CMSGHDR] == Head(40, 0, 0);
    HeadRead(buf, 0, 40, 0, 0);
    SmallAlign(40);
    assert buf[40..40 + CMSGHDR] == Head(WORD64 - 16, 0, 0);
    HeadRead(buf, 40, WORD64 - 16, 0, 0);
    LargeAlign();
    assert SizeBytes(1000) == buf[24..24 + 8];
    SizeRoundTrip(1000);
    LoadInside(buf, 24, SizeBytes(1000), 0);
    SmallAlign(1000);
    assert Next(buf, 0) == 40 && Next(buf, 40) == 24 && !Accepted(buf, 24);
    assert Search(buf, 40, {} + {0}) == Search(buf, 24, {} + {0} + {40}) == Nothing;
  }

  lemma LargeAlign()
    ensures Align(WORD64 - 16) == WORD64 - 16
  {
  }
}
