/** Ancillary properties: a list of headers in one control buffer, each with its length, level, type and data,
    on a machine with 8-byte words (the macros of section 20.3 of RFC 3542). */
module Ancillary {
  import opened Words
  import opened Wire

  const WORD := 8
  const CMSGHDR := 16           // length, level, type
  const PROTO_SP: uint32 := 1
  const SP_HDR: uint32 := 1

  /** Rounded up to a multiple of the word size, as size_t arithmetic does it. */
  function Align(len: uint64): uint64 {
    (len + WORD - 1) % WORD64 / WORD * WORD
  }

  function Space(len: uint64): nat {
    Align(len) + Align(CMSGHDR)
  }

  function Len(len: nat): nat {
    Align(CMSGHDR) + len
  }

  function SizeBytes(v: uint64): (b: bytes)
    ensures |b| == WORD
  {
    Bytes32(v % WORD32) + Bytes32(v / WORD32)
  }

  function Load64(buf: bytes, p: nat): uint64
    requires p + WORD <= |buf|
  {
    var lo: int, hi: int := Load(buf, p), Load(buf, p + 4);
    hi * WORD32 + lo
  }

  // --- Sending

  /** The test for a property at offset pos: the length is read only where a header fits. */
  predicate Accepted(buf: bytes, pos: nat) {
    pos + Space(0) <= |buf| && (pos + Align(Load64(buf, pos))) % WORD64 <= |buf|
  }

  function Next(buf: bytes, pos: nat): uint64
    requires pos + Space(0) <= |buf|
  {
    (pos + Align(Load64(buf, pos))) % WORD64
  }

  predicate IsSpHdr(buf: bytes, pos: nat)
    requires pos + CMSGHDR <= |buf|
  {
    Load(buf, pos + 8) == PROTO_SP && Load(buf, pos + 12) == SP_HDR
  }

  /** What a search for the protocol header comes to.  Lengths that are not a property's may make it read outside
      of the buffer, or come back to where it was and never end. */
  datatype Found = Nothing | Header(sphdr: bytes) | Outside | Forever

  function Take(buf: bytes, pos: nat): Found
    requires pos + CMSGHDR <= |buf|
  {
    var clen := (Load64(buf, pos) - Space(0)) % WORD64;
    if clen <= WORD then Nothing
    else if pos + CMSGHDR + WORD > |buf| then Outside
    else
      var spsz := Load64(buf, pos + CMSGHDR);
      var at := pos + CMSGHDR + WORD;
      if spsz > clen - WORD then Nothing
      else if at + spsz > |buf| then Outside
      else Header(buf[at..at + spsz])
  }

  /** The numbers up to n. */
  function UpTo(n: nat): (s: set<nat>)
    ensures forall i: nat :: i in s <==> i <= n
  {
    if n == 0 then {0} else UpTo(n - 1) + {n}
  }

  /** The search from pos on, when it has been at the offsets seen.  A length can wrap to an earlier offset, from
      which the search goes on; it ends unless it comes back to an offset. */
  function Search(buf: bytes, pos: nat, seen: set<nat>): Found
    requires pos <= |buf| && pos !in seen
    decreases UpTo(|buf|) - seen
  {
    if !Accepted(buf, pos) then Nothing
    else if IsSpHdr(buf, pos) then Take(buf, pos)
    else if Next(buf, pos) in seen + {pos} then Forever
    else
      assert pos in UpTo(|buf|) - seen && pos !in UpTo(|buf|) - (seen + {pos});
      Search(buf, Next(buf, pos), seen + {pos})
  }

  /** The search along the control buffer, property by property.  Where the original goes round for ever, this says
      so. */
  method FindSpHdr(control: array<byte>) returns (f: Found)
    ensures f == Search(control[..], 0, {})
  {
    hide Load64, Load, Align, Take;
    SpaceOfNothing();
    ghost var buf := control[..];
    var pos: nat, more := 0, Accepted(control[..], 0);
    var seen: set<nat> := {};
    while more
      invariant pos <= |buf| && more == Accepted(buf, pos) && pos !in seen
      invariant Search(buf, 0, {}) == Search(buf, pos, seen)
      decreases UpTo(|buf|) - seen, more
    {
      if IsSpHdr(control[..], pos) {
        return Take(control[..], pos);
      }
      seen := seen + {pos};
      var next: nat := Next(control[..], pos);
      if next in seen {
        return Forever;
      }
      assert pos in UpTo(|buf|);
      pos, more := next, Accepted(control[..], next);
    }
    return Nothing;
  }

  // --- Property lists

  /** A property, with the bytes that fill it up to whole words. */
  datatype Property = Property(level: uint32, kind: uint32, data: bytes, pad: bytes)

  predicate Padded(p: Property) {
    |p.data| < WORD64 / 2 - 2 * CMSGHDR && |p.data| + |p.pad| == Align(|p.data|)
  }

  function EncodeOne(p: Property): (e: bytes)
    requires Padded(p)
    ensures |e| == CMSGHDR + |p.data| + |p.pad|
  {
    SizeBytes(Len(|p.data|)) + Bytes32(p.level) + Bytes32(p.kind) + p.data + p.pad
  }

  predicate AllPadded(ps: seq<Property>) {
    forall p <- ps :: Padded(p)
  }

  function Encode(ps: seq<Property>): bytes
    requires AllPadded(ps)
  {
    if ps == [] then [] else EncodeOne(ps[0]) + Encode(ps[1..])
  }

  /** What a walk by the macros sees of a buffer: level, type and data of each property. */
  datatype Seen = Seen(level: uint32, kind: uint32, data: bytes)

  /** Every length on the way covers its own header and stays in the buffer. */
  predicate Honest(buf: bytes, pos: nat)
    requires pos <= |buf|
    decreases |buf| - pos
  {
    Accepted(buf, pos) ==>
      && CMSGHDR <= Load64(buf, pos) && pos + Load64(buf, pos) <= |buf|
      && pos < Next(buf, pos)
      && Honest(buf, Next(buf, pos))
  }

  function Walk(buf: bytes, pos: nat): seq<Seen>
    requires pos <= |buf| && Honest(buf, pos)
    decreases |buf| - pos
  {
    if !Accepted(buf, pos) then []
    else
      var data := buf[pos + CMSGHDR..pos + Load64(buf, pos)];
      [Seen(Load(buf, pos + 8), Load(buf, pos + 12), data)] + Walk(buf, Next(buf, pos))
  }

  /** The protocol header named by the first property that is one. */
  function FirstSpHdr(seen: seq<Seen>): Found {
    if seen == [] then Nothing
    else if seen[0].level == PROTO_SP && seen[0].kind == SP_HDR then HeaderIn(seen[0].data)
    else FirstSpHdr(seen[1..])
  }

  function HeaderIn(data: bytes): Found {
    if |data| <= WORD || Load64(data, 0) > |data| - WORD then Nothing
    else Header(data[WORD..WORD + Load64(data, 0)])
  }

  /** On honest lengths the search stays inside, ends, and takes the first protocol header there is. */
  lemma {:induction false} SearchFindsFirst(buf: bytes, pos: nat, seen: set<nat>)
    requires pos <= |buf| < WORD64 && Honest(buf, pos) && forall i | i in seen :: i < pos
    ensures Search(buf, pos, seen) == FirstSpHdr(Walk(buf, pos))
    decreases |buf| - pos
  {
    hide Load64, Load, Align, Take, HeaderIn;
    SpaceOfNothing();
    if Accepted(buf, pos) {
      var next := Next(buf, pos);
      SearchFindsFirst(buf, next, seen + {pos});
      TakesItsHeader(buf, pos);
      var data := buf[pos + CMSGHDR..pos + Load64(buf, pos)];
      var shown := [Seen(Load(buf, pos + 8), Load(buf, pos + 12), data)] + Walk(buf, next);
      assert shown[1..] == Walk(buf, next);
    }
  }

  lemma TakesItsHeader(buf: bytes, pos: nat)
    requires pos + CMSGHDR <= |buf| < WORD64 && CMSGHDR <= Load64(buf, pos) && pos + Load64(buf, pos) <= |buf|
    ensures Take(buf, pos) == HeaderIn(buf[pos + CMSGHDR..pos + Load64(buf, pos)])
  {
    hide Load64, Load, Align;
    SpaceOfNothing();
    var data := buf[pos + CMSGHDR..pos + Load64(buf, pos)];
    assert (Load64(buf, pos) - Space(0)) % WORD64 == |data|;
    if |data| > WORD {
      LoadInside(buf, pos + CMSGHDR, data, 0);
      var spsz := Load64(data, 0);
      if spsz <= |data| - WORD {
        SliceInside(buf, pos + CMSGHDR, data, WORD, WORD + spsz);
      }
    }
  }

  lemma SpaceOfNothing()
    ensures Space(0) == CMSGHDR && Align(CMSGHDR) == CMSGHDR && Align(WORD) == WORD && Align(0) == 0
  {
  }

  /** A number in a part of a buffer. */
  lemma LoadInside(buf: bytes, base: nat, part: bytes, p: nat)
    requires base + |part| <= |buf| && part == buf[base..base + |part|] && p + WORD <= |part|
    ensures Load64(part, p) == Load64(buf, base + p)
  {
    SliceInside(buf, base, part, p, p + 4);
    SliceInside(buf, base, part, p + 4, p + 8);
  }

  lemma SliceInside(buf: bytes, base: nat, part: bytes, i: nat, j: nat)
    requires base + |part| <= |buf| && part == buf[base..base + |part|] && i <= j <= |part|
    ensures part[i..j] == buf[base + i..base + j]
  {
    forall k | 0 <= k < |part| ensures part[k] == buf[base + k] {
      assert part[k] == buf[base..base + |part|][k];
    }
  }

  lemma AlignIs(n: nat)
    requires n < WORD64 / 2
    ensures n <= Align(n) < n + 8 && Align(n) % 8 == 0 && Align(CMSGHDR + n) == CMSGHDR + Align(n)
  {
    var q, r := (n + 7) / 8, (n + 7) % 8;
    assert (CMSGHDR + n + 7) / 8 == q + 2;
  }

  lemma SizeRoundTrip(v: uint64)
    ensures Load64(SizeBytes(v), 0) == v
  {
    hide Word32, Bytes32;
    var b := SizeBytes(v);
    Word32RoundTrip(v % WORD32);
    Word32RoundTrip(v / WORD32);
    assert b[0..4] == Bytes32(v % WORD32) && b[4..8] == Bytes32(v / WORD32);
  }

  /** The sixteen bytes in front of a property are read back. */
  lemma HeadOf(p: Property, buf: bytes, pos: nat)
    requires Padded(p) && pos + CMSGHDR <= |buf| && buf[pos..pos + CMSGHDR] == EncodeOne(p)[..CMSGHDR]
    ensures Load64(buf, pos) == CMSGHDR + |p.data| && Load(buf, pos + 8) == p.level && Load(buf, pos + 12) == p.kind
  {
    hide Align, Bytes32, SizeBytes, Load64, Word32;
    SpaceOfNothing();
    var size := SizeBytes(Len(|p.data|));
    var head := buf[pos..pos + CMSGHDR];
    assert head == size + Bytes32(p.level) + Bytes32(p.kind);
    assert head[0..8] == size && head[8..12] == Bytes32(p.level) && head[12..16] == Bytes32(p.kind);
    SliceInside(buf, pos, head, 0, 8);
    SliceInside(buf, pos, head, 8, 12);
    SliceInside(buf, pos, head, 12, 16);
    SizeRoundTrip(Len(|p.data|));
    LoadInside(buf, pos, size, 0);
    Word32RoundTrip(p.level);
    Word32RoundTrip(p.kind);
  }

  function Shown(p: Property): Seen {
    Seen(p.level, p.kind, p.data)
  }

  /** The properties that are complete in the first k bytes of a list. */
  function Complete(ps: seq<Property>, k: nat): seq<Seen>
    requires AllPadded(ps)
  {
    if ps == [] || |EncodeOne(ps[0])| > k then []
    else [Shown(ps[0])] + Complete(ps[1..], k - |EncodeOne(ps[0])|)
  }

  /** Walking over a list that has been cut off anywhere visits its complete properties, in order, and nothing
      else. */
  lemma {:induction false} WalkEncoded(buf: bytes, pos: nat, ps: seq<Property>)
    requires AllPadded(ps) && pos <= |buf| < WORD64 / 2
    requires |buf| - pos <= |Encode(ps)| && buf[pos..] == Encode(ps)[..|buf| - pos]
    ensures Honest(buf, pos) && Walk(buf, pos) == Complete(ps, |buf| - pos)
    decreases |ps|
  {
    hide Align, Load64, Load, EncodeOne;
    SpaceOfNothing();
    var k := |buf| - pos;
    if ps != [] && k >= CMSGHDR {
      var p, e := ps[0], EncodeOne(ps[0]);
      assert Padded(p);
      EncodeOneSize(p);
      assert buf[pos..pos + CMSGHDR] == e[..CMSGHDR] by {
        assert buf[pos..pos + CMSGHDR] == buf[pos..][..CMSGHDR];
      }
      HeadOf(p, buf, pos);
      assert Next(buf, pos) == pos + |e|;
      if |e| <= k {
        var next := pos + |e|;
        assert buf[next..] == Encode(ps[1..])[..|buf| - next] by {
          assert buf[next..] == buf[pos..][|e|..];
        }
        WalkEncoded(buf, next, ps[1..]);
        DataOf(p, buf, pos);
      }
    }
  }

  function AllShown(ps: seq<Property>): (s: seq<Seen>)
    ensures |s| == |ps|
  {
    if ps == [] then [] else [Shown(ps[0])] + AllShown(ps[1..])
  }

  /** Where a whole list ends, the walk goes on with whatever stands there. */
  lemma {:induction false} WalkThen(buf: bytes, pos: nat, ps: seq<Property>)
    requires AllPadded(ps) && pos + |Encode(ps)| <= |buf| < WORD64 / 2
    requires buf[pos..pos + |Encode(ps)|] == Encode(ps)
    ensures var end := pos + |Encode(ps)|;
      Honest(buf, end) <==> Honest(buf, pos)
    ensures var end := pos + |Encode(ps)|;
      Honest(buf, end) ==> Walk(buf, pos) == AllShown(ps) + Walk(buf, end)
    decreases |ps|
  {
    hide Align, Load64, Load, EncodeOne, Accepted, Next, Honest, Walk;
    if ps != [] {
      var next := pos + |EncodeOne(ps[0])|;
      WalkOne(buf, pos, ps);
      WalkThen(buf, next, ps[1..]);
      WalkAcross(buf, pos, next);
    }
  }

  lemma WalkAcross(buf: bytes, pos: nat, next: nat)
    requires Accepted(buf, pos) && Next(buf, pos) == next > pos && next <= |buf|
    requires CMSGHDR <= Load64(buf, pos) && pos + Load64(buf, pos) <= |buf|
    ensures Honest(buf, pos) <==> Honest(buf, next)
    ensures Honest(buf, next) ==>
      Walk(buf, pos) ==
      [Seen(Load(buf, pos + 8), Load(buf, pos + 12), buf[pos + CMSGHDR..pos + Load64(buf, pos)])] + Walk(buf, next)
  {
    hide Align, Load64, Load;
  }

  /** The first property of a list is accepted, and behind it is the rest of the list. */
  lemma WalkOne(buf: bytes, pos: nat, ps: seq<Property>)
    requires AllPadded(ps) && ps != [] && pos + |Encode(ps)| <= |buf| < WORD64 / 2
    requires buf[pos..pos + |Encode(ps)|] == Encode(ps)
    ensures var next := pos + |EncodeOne(ps[0])|;
      && pos < next <= next + |Encode(ps[1..])| == pos + |Encode(ps)|
      && buf[next..next + |Encode(ps[1..])|] == Encode(ps[1..])
      && Accepted(buf, pos) && Next(buf, pos) == next
      && CMSGHDR <= Load64(buf, pos) && pos + Load64(buf, pos) <= |buf|
      && Seen(Load(buf, pos + 8), Load(buf, pos + 12), buf[pos + CMSGHDR..pos + Load64(buf, pos)]) == Shown(ps[0])
  {
    hide Align, Load64, Load, EncodeOne, Padded;
    SpaceOfNothing();
    var p, e := ps[0], EncodeOne(ps[0]);
    assert Padded(p);
    EncodeOneSize(p);
    var all := Encode(ps);
    assert all == e + Encode(ps[1..]);
    hide Encode;
    SliceInside(buf, pos, all, 0, |e|);
    SliceInside(buf, pos, all, |e|, |all|);
    SliceInside(buf, pos, all, 0, CMSGHDR);
    assert all[0..CMSGHDR] == e[..CMSGHDR];
    HeadOf(p, buf, pos);
    assert buf[pos..][..|e|] == e;
    DataOf(p, buf, pos);
  }

  lemma EncodeOneSize(p: Property)
    requires Padded(p)
    ensures CMSGHDR <= |EncodeOne(p)| == CMSGHDR + Align(|p.data|) < WORD64 / 2
    ensures |p.data| <= Align(|p.data|) && Align(CMSGHDR + |p.data|) == |EncodeOne(p)|
  {
    AlignIs(|p.data|);
  }

  lemma DataOf(p: Property, buf: bytes, pos: nat)
    requires Padded(p) && pos + |EncodeOne(p)| <= |buf| && buf[pos..][..|EncodeOne(p)|] == EncodeOne(p)
    ensures CMSGHDR + |p.data| <= |EncodeOne(p)|
    ensures buf[pos + CMSGHDR..pos + CMSGHDR + |p.data|] == p.data
  {
    hide Align, Bytes32, SizeBytes;
    var e := EncodeOne(p);
    assert e[CMSGHDR..CMSGHDR + |p.data|] == p.data;
    assert e == buf[pos..pos + |e|];
    SliceInside(buf, pos, e, CMSGHDR, CMSGHDR + |p.data|);
  }

  // --- Receiving

  /** The room a protocol header of n bytes takes, with its size in front. */
  function Total(n: nat): nat
    requires n + WORD < WORD64
  {
    Space(n + WORD)
  }

  /** What an old buffer has where the filling bytes of a protocol header of n bytes come to stand. */
  function Filling(was: bytes, n: nat): (rest: bytes)
    requires n < WORD64 / 4 && Total(n) <= |was|
    ensures WORD + n + |rest| == Align(WORD + n)
  {
    TotalIs(n);
    was[CMSGHDR + WORD + n..Total(n)]
  }

  /** The buffer after a receive: the protocol header first, then as much of the other properties as there is
      room for; or nothing, when not even the header fits. */
  function Received(was: bytes, sphdr: bytes, hdrs: bytes): (now: bytes)
    requires |sphdr| < WORD64 / 4
    ensures |now| == |was|
  {
    TotalIs(|sphdr|);
    var total := Total(|sphdr|);
    if |was| < total then was
    else
      var kept := if |hdrs| > |was| - total then |was| - total else |hdrs|;
      EncodeOne(SpProperty(sphdr, Filling(was, |sphdr|))) + hdrs[..kept] + was[total + kept..]
  }

  /** The header as a property; the filling bytes belong to its data. */
  function SpProperty(sphdr: bytes, rest: bytes): (p: Property)
    requires |sphdr| < WORD64 / 4 && WORD + |sphdr| + |rest| == Align(WORD + |sphdr|)
    ensures Padded(p)
  {
    TotalIs(|sphdr|);
    Property(PROTO_SP, SP_HDR, SizeBytes(|sphdr|) + sphdr + rest, [])
  }

  lemma TotalIs(n: nat)
    requires n < WORD64 / 4
    ensures Total(n) == CMSGHDR + Align(WORD + n) && WORD + n <= Align(WORD + n) < WORD + n + WORD
    ensures Align(Align(WORD + n)) == Align(WORD + n)
  {
    AlignIs(WORD + n);
    SpaceOfNothing();
  }

  method Receive(control: array<byte>, sphdr: bytes, hdrs: bytes)
    requires |sphdr| < WORD64 / 4
    modifies control
    ensures control[..] == Received(old(control[..]), sphdr, hdrs)
    ensures control.Length < Total(|sphdr|) ==> control[..] == old(control[..])
  {
    hide Align, SizeBytes, Bytes32, Spliced, EncodeOne;
    TotalIs(|sphdr|);
    ghost var was := control[..];
    var total, ctrlsz := Total(|sphdr|), control.Length;
    if ctrlsz >= total {
      var head := SizeBytes(total) + Bytes32(PROTO_SP) + Bytes32(SP_HDR) + SizeBytes(|sphdr|);
      Memcpy(control, 0, head);
      Memcpy(control, CMSGHDR + WORD, sphdr);
      var kept := |hdrs|;
      if kept > ctrlsz - total {
        kept := ctrlsz - total;
      }
      Memcpy(control, total, hdrs[..kept]);
      Assembled(was, head, sphdr, total, hdrs[..kept]);
      HeadIs(sphdr, was[CMSGHDR + WORD + |sphdr|..total]);
    }
  }

  method Memcpy(dst: array<byte>, at: nat, src: bytes)
    requires at + |src| <= dst.Length
    modifies dst
    ensures dst[..] == Spliced(old(dst[..]), at, src)
  {
    forall i | 0 <= i < |src| { dst[at + i] := src[i]; }
  }

  function Spliced(buf: bytes, at: nat, part: bytes): (r: bytes)
    requires at + |part| <= |buf|
    ensures |r| == |buf|
  {
    buf[..at] + part + buf[at + |part|..]
  }

  lemma Assembled(was: bytes, head: bytes, sphdr: bytes, total: nat, hdrs: bytes)
    requires |head| + |sphdr| <= total && total + |hdrs| <= |was|
    ensures Spliced(Spliced(Spliced(was, 0, head), |head|, sphdr), total, hdrs)
         == head + sphdr + was[|head| + |sphdr|..total] + hdrs + was[total + |hdrs|..]
  {
    var one := head + was[|head|..];
    assert Spliced(was, 0, head) == one;
    var n := |head| + |sphdr|;
    var two := head + sphdr + was[n..];
    assert Spliced(one, |head|, sphdr) == two;
    assert two[..total] == head + sphdr + was[n..total];
    assert two[total + |hdrs|..] == was[total + |hdrs|..];
  }

  lemma HeadIs(sphdr: bytes, rest: bytes)
    requires |sphdr| < WORD64 / 4 && WORD + |sphdr| + |rest| == Align(WORD + |sphdr|)
    ensures Total(|sphdr|) < WORD64
    ensures EncodeOne(SpProperty(sphdr, rest))
         == SizeBytes(Total(|sphdr|)) + Bytes32(PROTO_SP) + Bytes32(SP_HDR) + SizeBytes(|sphdr|) + sphdr + rest
  {
    hide Align, SizeBytes, Bytes32;
    TotalIs(|sphdr|);
  }

  /** What stands where after a receive: the size, level and type of the property, the size of the protocol header,
      the header, the old bytes that fill the property up to whole words, what there is room for of the other
      properties, and behind them the old bytes.  With no room for the first of these nothing changes. */
  lemma ReceivedBytes(was: bytes, sphdr: bytes, hdrs: bytes)
    requires |sphdr| < WORD64 / 4
    ensures var n, total := |sphdr|, Total(|sphdr|);
      24 + n <= total < 24 + n + 8 && total % 8 == 0
    ensures var n, total, now := |sphdr|, Total(|sphdr|), Received(was, sphdr, hdrs);
      if |was| < total then now == was
      else
        && Load64(now, 0) == total && Load(now, 8) == 1 && Load(now, 12) == 1 && Load64(now, 16) == n
        && now[24..24 + n] == sphdr && now[24 + n..total] == was[24 + n..total]
        && if total + |hdrs| <= |was|
           then now[total..total + |hdrs|] == hdrs && now[total + |hdrs|..] == was[total + |hdrs|..]
           else now[total..] == hdrs[..|was| - total]
  {
    hide Align, SizeBytes, Bytes32, Load64, Load, EncodeOne, SpProperty, Filling;
    TotalIs(|sphdr|);
    AlignIs(WORD + |sphdr|);
    if |was| >= Total(|sphdr|) {
      hide Received, Total;
      ReceivedParts(was, sphdr, hdrs);
    }
  }

  lemma ReceivedParts(was: bytes, sphdr: bytes, hdrs: bytes)
    requires |sphdr| < WORD64 / 4 && 24 + |sphdr| <= Total(|sphdr|) <= |was| && Total(|sphdr|) < WORD64
    ensures var n, total, now := |sphdr|, Total(|sphdr|), Received(was, sphdr, hdrs);
      && Load64(now, 0) == total && Load(now, 8) == 1 && Load(now, 12) == 1 && Load64(now, 16) == n
      && now[24..24 + n] == sphdr && now[24 + n..total] == was[24 + n..total]
      && if total + |hdrs| <= |was|
         then now[total..total + |hdrs|] == hdrs && now[total + |hdrs|..] == was[total + |hdrs|..]
         else now[total..] == hdrs[..|was| - total]
  {
    hide Align, SizeBytes, Bytes32, Load64, Load, Received, Total;
    var n, total, now := |sphdr|, Total(|sphdr|), Received(was, sphdr, hdrs);
    var rest, kept := was[24 + n..total], if |hdrs| > |was| - total then |was| - total else |hdrs|;
    var front := SizeBytes(total) + (Bytes32(PROTO_SP) + Bytes32(SP_HDR)) + SizeBytes(n);
    ReceivedIs(was, sphdr, hdrs, rest, kept);
    Pieces(now, front, sphdr, rest, hdrs[..kept], was[total + kept..]);
    NumbersInFront(now, total, n, sphdr + rest + (hdrs[..kept] + was[total + kept..]));
  }

  lemma ReceivedIs(was: bytes, sphdr: bytes, hdrs: bytes, rest: bytes, kept: nat)
    requires |sphdr| < WORD64 / 4 && 24 + |sphdr| <= Total(|sphdr|) <= |was|
    requires Total(|sphdr|) < WORD64 && rest == was[24 + |sphdr|..Total(|sphdr|)]
    requires kept == if |hdrs| > |was| - Total(|sphdr|) then |was| - Total(|sphdr|) else |hdrs|
    ensures var front := SizeBytes(Total(|sphdr|)) + (Bytes32(PROTO_SP) + Bytes32(SP_HDR)) + SizeBytes(|sphdr|);
      var end := hdrs[..kept] + was[Total(|sphdr|) + kept..];
      && Received(was, sphdr, hdrs) == front + sphdr + rest + end
      && Received(was, sphdr, hdrs) == front + (sphdr + rest + end)
  {
    hide Align, SizeBytes, Bytes32, SpProperty, EncodeOne;
    TotalIs(|sphdr|);
    HeadIs(sphdr, rest);
    hide Total;
    var total := Total(|sphdr|);
    var front := SizeBytes(total) + (Bytes32(PROTO_SP) + Bytes32(SP_HDR)) + SizeBytes(|sphdr|);
    var e := EncodeOne(SpProperty(sphdr, rest));
    assert e == front + sphdr + rest;
    assert Received(was, sphdr, hdrs) == e + hdrs[..kept] + was[total + kept..];
  }

  lemma Pieces(all: bytes, a: bytes, b: bytes, c: bytes, d: bytes, e: bytes)
    requires all == a + b + c + (d + e)
    ensures var i, j, k := |a| + |b|, |a| + |b| + |c|, |a| + |b| + |c| + |d|;
      && all[|a|..i] == b && all[i..j] == c && all[j..k] == d && all[k..] == e && all[j..] == d + e
  {
  }

  lemma NumbersInFront(buf: bytes, size: uint64, count: uint64, rest: bytes)
    requires buf == SizeBytes(size) + (Bytes32(PROTO_SP) + Bytes32(SP_HDR)) + SizeBytes(count) + rest
    ensures Load64(buf, 0) == size && Load(buf, 8) == 1 && Load(buf, 12) == 1 && Load64(buf, 16) == count
  {
    hide SizeBytes, Bytes32, Load64, Word32;
    var front, end := SizeBytes(size), SizeBytes(count);
    assert buf[0..8] == front && buf[16..24] == end;
    assert buf[8..12] == Bytes32(PROTO_SP) && buf[12..16] == Bytes32(SP_HDR);
    SizeRoundTrip(size);
    SizeRoundTrip(count);
    LoadInside(buf, 0, front, 0);
    LoadInside(buf, 16, end, 0);
    Word32RoundTrip(PROTO_SP);
    Word32RoundTrip(SP_HDR);
  }

  /** Whatever the header, its length and the rest of the buffer, a send finds in the control buffer exactly
      what the receive has put there. */
  lemma SphdrRoundTrip(was: bytes, sphdr: bytes, hdrs: bytes)
    requires |sphdr| < WORD64 / 4 && Total(|sphdr|) <= |was| < WORD64 / 2
    ensures Search(Received(was, sphdr, hdrs), 0, {}) == if sphdr == [] then Nothing else Header(sphdr)
  {
    hide Align, Bytes32, SizeBytes, Load64, Load, Take, EncodeOne;
    TotalIs(|sphdr|);
    SpaceOfNothing();
    var buf := Received(was, sphdr, hdrs);
    var p := SpProperty(sphdr, Filling(was, |sphdr|));
    EncodeOneSize(p);
    assert buf[..|EncodeOne(p)|] == EncodeOne(p);
    assert buf[0..CMSGHDR] == EncodeOne(p)[..CMSGHDR] by {
      assert buf[0..CMSGHDR] == buf[..|EncodeOne(p)|][..CMSGHDR];
    }
    HeadOf(p, buf, 0);
    assert buf[0..] == buf;
    DataOf(p, buf, 0);
    TakesItsHeader(buf, 0);
    HeaderInProperty(sphdr, Filling(was, |sphdr|));
  }

  lemma HeaderInProperty(sphdr: bytes, rest: bytes)
    requires |sphdr| < WORD64 / 4 && WORD + |sphdr| + |rest| == Align(WORD + |sphdr|)
    ensures HeaderIn(SpProperty(sphdr, rest).data) == if sphdr == [] then Nothing else Header(sphdr)
  {
    hide SizeBytes, Load64, Align;
    SpaceOfNothing();
    TotalIs(|sphdr|);
    var data := SpProperty(sphdr, rest).data;
    var size := SizeBytes(|sphdr|);
    SizeRoundTrip(|sphdr|);
    assert size == data[0..8];
    LoadInside(data, 0, size, 0);
  }

  /** The other properties come through as well: a walk over the received buffer sees the protocol header and
      then those that are complete. */
  lemma PropertiesReceived(was: bytes, sphdr: bytes, ps: seq<Property>)
    requires |sphdr| < WORD64 / 4 && AllPadded(ps) && |was| < WORD64 / 2
    requires Total(|sphdr|) <= |was| <= Total(|sphdr|) + |Encode(ps)|
    ensures var buf := Received(was, sphdr, Encode(ps));
      && Honest(buf, 0)
      && Walk(buf, 0) == [Shown(SpProperty(sphdr, Filling(was, |sphdr|)))] + Complete(ps, |was| - Total(|sphdr|))
  {
    hide Total, Encode, EncodeOne, Received, Walk, Honest, SpProperty, Filling, Padded, Complete;
    var buf := Received(was, sphdr, Encode(ps));
    var p := SpProperty(sphdr, Filling(was, |sphdr|));
    ReceivedIsCut(was, sphdr, ps);
    assert buf[0..] == buf;
    WalkEncoded(buf, 0, [p] + ps);
    SpPropertySize(was, sphdr);
    CompleteCons(p, ps, |was|);
  }

  lemma CompleteCons(p: Property, ps: seq<Property>, k: nat)
    requires Padded(p) && AllPadded(ps) && |EncodeOne(p)| <= k
    ensures Complete([p] + ps, k) == [Shown(p)] + Complete(ps, k - |EncodeOne(p)|)
  {
    assert ([p] + ps)[1..] == ps;
  }

  lemma SpPropertySize(was: bytes, sphdr: bytes)
    requires |sphdr| < WORD64 / 4 && Total(|sphdr|) <= |was|
    ensures |EncodeOne(SpProperty(sphdr, Filling(was, |sphdr|)))| == Total(|sphdr|)
  {
    hide Align, SizeBytes;
    TotalIs(|sphdr|);
  }

  /** The buffer is a beginning of the list of the protocol header and the others. */
  lemma ReceivedIsCut(was: bytes, sphdr: bytes, ps: seq<Property>)
    requires |sphdr| < WORD64 / 4 && AllPadded(ps)
    requires Total(|sphdr|) <= |was| <= Total(|sphdr|) + |Encode(ps)|
    ensures var all := [SpProperty(sphdr, Filling(was, |sphdr|))] + ps;
      |was| <= |Encode(all)| && Received(was, sphdr, Encode(ps)) == Encode(all)[..|was|]
  {
    hide Align, EncodeOne, SpProperty, Filling;
    SpPropertySize(was, sphdr);
    var all := [SpProperty(sphdr, Filling(was, |sphdr|))] + ps;
    assert all[1..] == ps;
  }

  // --- Control buffers that are larger than needed

  /** The number of bytes a receive fills. */
  function Filled(n: nat, ps: seq<Property>): nat
    requires n < WORD64 / 4 && AllPadded(ps)
  {
    Total(n) + |Encode(ps)|
  }

  /** Whether the bytes at an offset read as a property depends on nothing in front of them. */
  lemma AcceptedBehind(a: bytes, b: bytes, pos: nat)
    requires |a| == |b| && pos <= |a| && a[pos..] == b[pos..]
    ensures Accepted(a, pos) == Accepted(b, pos)
  {
    hide Align, Word32;
    SpaceOfNothing();
    if pos + CMSGHDR <= |a| {
      assert a[pos..][0..4] == b[pos..][0..4] && a[pos..][4..8] == b[pos..][4..8];
      assert a[pos..pos + 4] == b[pos..pos + 4] && a[pos + 4..pos + 8] == b[pos + 4..pos + 8];
    }
  }

  /** A large buffer begins with the whole list, and keeps its old bytes behind it. */
  lemma ReceivedIsList(was: bytes, sphdr: bytes, ps: seq<Property>)
    requires |sphdr| < WORD64 / 4 && AllPadded(ps) && Filled(|sphdr|, ps) <= |was|
    ensures var all, now := [SpProperty(sphdr, Filling(was, |sphdr|))] + ps, Received(was, sphdr, Encode(ps));
      && |Encode(all)| == Filled(|sphdr|, ps)
      && now[0..0 + |Encode(all)|] == Encode(all)
      && now[Filled(|sphdr|, ps)..] == was[Filled(|sphdr|, ps)..]
  {
    hide Align, EncodeOne, SpProperty, Filling;
    SpPropertySize(was, sphdr);
    var all := [SpProperty(sphdr, Filling(was, |sphdr|))] + ps;
    assert all[1..] == ps;
    var list, rest := Encode(all), was[Filled(|sphdr|, ps)..];
    assert Encode(ps)[..|Encode(ps)|] == Encode(ps);
    assert Received(was, sphdr, Encode(ps)) == list + rest;
  }

  /** What a walk over a received buffer sees: everything that was received, and then whatever the old bytes
      behind it read as. */
  lemma ReceivedWalk(was: bytes, sphdr: bytes, ps: seq<Property>)
    requires |sphdr| < WORD64 / 4 && AllPadded(ps) && Filled(|sphdr|, ps) <= |was| < WORD64 / 2
    ensures var buf, end := Received(was, sphdr, Encode(ps)), Filled(|sphdr|, ps);
      && (Honest(buf, 0) <==> Honest(buf, end))
      && (Honest(buf, end) ==>
            Walk(buf, 0) == [Shown(SpProperty(sphdr, Filling(was, |sphdr|)))] + AllShown(ps) + Walk(buf, end))
      && Accepted(buf, end) == Accepted(was, end)
  {
    hide Total, Encode, EncodeOne, Received, Walk, Honest, Accepted, SpProperty, Filling, Padded;
    var buf, p := Received(was, sphdr, Encode(ps)), SpProperty(sphdr, Filling(was, |sphdr|));
    var all := [p] + ps;
    ReceivedIsList(was, sphdr, ps);
    WalkThen(buf, 0, all);
    assert all[1..] == ps;
    assert AllShown(all) == [Shown(p)] + AllShown(ps);
    AcceptedBehind(buf, was, Filled(|sphdr|, ps));
  }

  /** A receive into a buffer that is large enough is read back as exactly what was received if and only if the
      old bytes right behind do not happen to read as a property. */
  lemma PropertiesExact(was: bytes, sphdr: bytes, ps: seq<Property>)
    requires |sphdr| < WORD64 / 4 && AllPadded(ps) && Filled(|sphdr|, ps) <= |was| < WORD64 / 2
    ensures var buf := Received(was, sphdr, Encode(ps));
      Honest(buf, 0) && Walk(buf, 0) == [Shown(SpProperty(sphdr, Filling(was, |sphdr|)))] + AllShown(ps)
      <==> !Accepted(was, Filled(|sphdr|, ps))
  {
    hide Received, SpProperty, Filling, Accepted, Filled;
    var buf, end := Received(was, sphdr, Encode(ps)), Filled(|sphdr|, ps);
    ReceivedWalk(was, sphdr, ps);
    WalkSees(buf, end);
  }

  lemma WalkSees(buf: bytes, pos: nat)
    requires pos <= |buf|
    ensures !Accepted(buf, pos) ==> Honest(buf, pos) && Walk(buf, pos) == []
    ensures Accepted(buf, pos) && Honest(buf, pos) ==> Walk(buf, pos) != []
  {
  }

  /** A buffer that still ends with an old property: the next send takes it for one of this message. */
  lemma LeftOver(was: bytes, sphdr: bytes, ps: seq<Property>, stale: Property)
    requires |sphdr| < WORD64 / 4 && AllPadded(ps) && Padded(stale)
    requires Filled(|sphdr|, ps) <= |was| < WORD64 / 2 && was[Filled(|sphdr|, ps)..] == EncodeOne(stale)
    ensures var buf := Received(was, sphdr, Encode(ps));
      && Honest(buf, 0)
      && Walk(buf, 0) == [Shown(SpProperty(sphdr, Filling(was, |sphdr|)))] + AllShown(ps) + [Shown(stale)]
  {
    hide Received, SpProperty, Filling, Accepted, Filled, Encode, EncodeOne, Walk, Honest, Padded;
    var buf, end := Received(was, sphdr, Encode(ps)), Filled(|sphdr|, ps);
    ReceivedWalk(was, sphdr, ps);
    ReceivedIsList(was, sphdr, ps);
    OneProperty(buf, end, stale);
  }

  lemma {:induction false} EncodeAppend(ps: seq<Property>, p: Property)
    requires AllPadded(ps) && Padded(p)
    ensures AllPadded(ps + [p]) && Encode(ps + [p]) == Encode(ps) + EncodeOne(p)
    decreases |ps|
  {
    hide EncodeOne, Padded;
    if ps == [] {
      OneEncoded(p);
      assert ps + [p] == [p];
    } else {
      EncodeAppend(ps[1..], p);
      assert (ps + [p])[1..] == ps[1..] + [p];
    }
  }

  /** So a buffer that is used again for a message with one property fewer shows that property once more. */
  lemma ReusedBuffer(was: bytes, first: bytes, second: bytes, ps: seq<Property>, p: Property)
    requires |first| == |second| < WORD64 / 4 && AllPadded(ps) && Padded(p) && |was| < WORD64 / 2
    requires |was| == Filled(|first|, ps) + |EncodeOne(p)|
    ensures AllPadded(ps + [p])
    ensures var buf := Received(Received(was, first, Encode(ps + [p])), second, Encode(ps));
      && Honest(buf, 0)
      && |Walk(buf, 0)| == |ps| + 2 && Walk(buf, 0)[|ps| + 1] == Shown(p)
  {
    hide Received, SpProperty, Filling, Accepted, Encode, EncodeOne, Walk, Honest, Padded, Total;
    EncodeAppend(ps, p);
    var once := Received(was, first, Encode(ps + [p]));
    ReceivedIsList(was, first, ps + [p]);
    var sp := SpProperty(first, Filling(was, |first|));
    EncodeAppend([sp] + ps, p);
    EncodedHead(sp, ps);
    SpPropertySize(was, first);
    assert [sp] + (ps + [p]) == [sp] + ps + [p];
    var n := Filled(|first|, ps);
    assert once == once[0..0 + |was|] == Encode([sp] + ps) + EncodeOne(p);
    assert once[n..] == EncodeOne(p);
    LeftOver(once, second, ps, p);
  }

  lemma EncodedHead(p: Property, ps: seq<Property>)
    requires Padded(p) && AllPadded(ps)
    ensures Encode([p] + ps) == EncodeOne(p) + Encode(ps)
  {
    assert ([p] + ps)[1..] == ps;
  }

  lemma OneProperty(buf: bytes, pos: nat, p: Property)
    requires Padded(p) && pos <= |buf| < WORD64 / 2 && buf[pos..] == EncodeOne(p)
    ensures Honest(buf, pos) && Walk(buf, pos) == [Shown(p)]
  {
    hide EncodeOne, Padded, Walk, Honest, Encode, AllShown;
    var ps := [p];
    OneEncoded(p);
    assert buf[pos..pos + |Encode(ps)|] == buf[pos..];
    WalkThen(buf, pos, ps);
    NothingAtEnd(buf);
  }

  lemma OneEncoded(p: Property)
    requires Padded(p)
    ensures Encode([p]) == EncodeOne(p) && AllShown([p]) == [Shown(p)]
  {
    hide EncodeOne;
    assert [p][1..] == [] && EncodeOne(p) + [] == EncodeOne(p);
  }

  lemma NothingAtEnd(buf: bytes)
    ensures Honest(buf, |buf|) && Walk(buf, |buf|) == []
  {
    SpaceOfNothing();
  }
}
