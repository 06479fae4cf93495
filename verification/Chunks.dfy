/** Reference-counted message chunks.  A chunk is one block of memory: a structure, some empty space, the
    size of that space and a tag, both in big-endian order, and the message. */
module Chunks {
  import opened Words
  import opened Wire

  const CHUNK_TAG: uint32 := 0xdead_cafe
  const CHUNK_TAG_DEALLOCATED: uint32 := 0xbead_feed
  const STRUCT_SIZE := 24       // refcount, size and deallocation function, with 8-byte pointers
  const HEADER_SIZE := STRUCT_SIZE + 8
  const ENOMEM := 12
  const EINVAL := 22

  /** p is the data pointer of a block of memory with size bytes of message: the tag stands in front of the
      message, and in front of the tag the distance from the structure. */
  ghost predicate Framed(mem: bytes, size: nat, p: nat) {
    && HEADER_SIZE <= p && p + size == |mem|
    && GetAt(mem, p - 4) == CHUNK_TAG
    && GetAt(mem, p - 8) == p - HEADER_SIZE
  }

  /** The block with n bytes dropped from the front of its message. */
  function Trimmed(mem: bytes, p: nat, n: nat): (m: bytes)
    requires HEADER_SIZE <= p && p + n <= |mem| && p + n - HEADER_SIZE < WORD32
    ensures |m| == |mem|
  {
    PutAt(PutAt(mem, p + n - 4, CHUNK_TAG), p + n - 8, p + n - HEADER_SIZE)
  }

  lemma TrimmedFramed(mem: bytes, size: nat, p: nat, n: nat)
    requires Framed(mem, size, p) && n <= size && p + n - HEADER_SIZE < WORD32
    ensures Framed(Trimmed(mem, p, n), size - n, p + n)
    ensures Trimmed(mem, p, n)[p + n..] == mem[p..][n..]
    ensures Trimmed(mem, p, n)[..STRUCT_SIZE] == mem[..STRUCT_SIZE]
  {
    hide GetAt, PutAt;
    var q := p + n;
    var once := PutAt(mem, q - 4, CHUNK_TAG);
    PutThenGet(mem, q - 4, CHUNK_TAG);
    PutThenGet(once, q - 8, q - HEADER_SIZE);
    GetElsewhere(once, q - 8, q - HEADER_SIZE, q - 4);
    PutElsewhere(mem, q - 4, CHUNK_TAG, q, |mem|);
    PutElsewhere(once, q - 8, q - HEADER_SIZE, q, |mem|);
    PutElsewhere(mem, q - 4, CHUNK_TAG, 0, STRUCT_SIZE);
    PutElsewhere(once, q - 8, q - HEADER_SIZE, 0, STRUCT_SIZE);
    assert mem[q..|mem|] == mem[p..][n..];
    assert Trimmed(mem, p, n)[q..|mem|] == Trimmed(mem, p, n)[q..];
  }

  /** A new block around a message. */
  function Laid(data: bytes): (m: bytes)
    ensures |m| == HEADER_SIZE + |data|
  {
    seq(STRUCT_SIZE, i => 0) + BigBytes32(0) + BigBytes32(CHUNK_TAG) + data
  }

  lemma LaidFramed(data: bytes)
    ensures Framed(Laid(data), |data|, HEADER_SIZE) && Laid(data)[HEADER_SIZE..] == data
  {
    assert Laid(data)[HEADER_SIZE - 4..HEADER_SIZE] == BigBytes32(CHUNK_TAG);
    assert Laid(data)[HEADER_SIZE - 8..HEADER_SIZE - 4] == BigBytes32(0);
    RoundTrip32(0);
    RoundTrip32(CHUNK_TAG);
  }

  /** A data pointer is the offset of the message in the block. */
  class Chunk {
    const mem: array<byte>
    var refcount: uint32
    var size: nat

    ghost predicate Valid(p: nat)
      reads this, mem
    {
      Framed(mem[..], size, p)
    }

    ghost function Contents(p: nat): (c: bytes)
      requires Valid(p)
      reads this, mem
      ensures |c| == size
    {
      mem[p..]
    }

    constructor (size: nat)
      requires HEADER_SIZE + size < WORD64
      ensures Valid(HEADER_SIZE) && fresh(mem) && refcount == 1 && this.size == size
      ensures mem[..] == Laid(mem[HEADER_SIZE..])
    {
      mem := new byte[HEADER_SIZE + size](_ => 0);
      refcount, this.size := 1, size;
      new;
      Putl(mem, STRUCT_SIZE, 0);
      Putl(mem, STRUCT_SIZE + 4, CHUNK_TAG);
      ghost var data := mem[HEADER_SIZE..];
      assert mem[..] == Laid(data);
      LaidFramed(data);
    }

    /** From a data pointer back to the base of the block, by the distance stored in front of the message:
        the base is found, however much has been trimmed. */
    method GetPtr(p: nat) returns (base: int)
      requires Valid(p)
      ensures base == 0
    {
      var off := GetAt(mem[..], p - 8);
      base := p - 8 - off - STRUCT_SIZE;
    }

    /** Drops the first n bytes of the message.  The structure at the base is not touched but for its size
        field. */
    method Trim(p: nat, n: nat) returns (q: nat)
      requires Valid(p) && n <= size
      requires p + n - HEADER_SIZE < 0xffff_ffff   // the empty space fits into its field
      modifies this`size, mem
      ensures q == p + n && Valid(q) && Contents(q) == old(Contents(p))[n..]
      ensures mem[..STRUCT_SIZE] == old(mem[..STRUCT_SIZE]) && size == old(size) - n
      ensures mem[..] == Trimmed(old(mem[..]), p, n)
    {
      hide GetAt, PutAt;
      TrimmedFramed(mem[..], size, p, n);
      q := p + n;
      Putl(mem, q - 4, CHUNK_TAG);
      Putl(mem, q - 8, q - HEADER_SIZE);
      size := size - n;
    }

    method AddRef(p: nat, n: uint32)
      requires Valid(p)
      modifies this`refcount
      ensures Valid(p) && Contents(p) == old(Contents(p)) && refcount == (old(refcount) + n) % WORD32
    {
      refcount := (refcount + n) % WORD32;
    }

    /** Gives up one reference.  The last one marks the block as deallocated, and only then is it gone. */
    method Free(p: nat) returns (deallocated: bool)
      requires Valid(p) && refcount > 0
      modifies this`refcount, mem
      ensures refcount == old(refcount) - 1 && deallocated == (old(refcount) == 1)
      ensures !deallocated ==> mem[..] == old(mem[..])
      ensures deallocated ==> mem[..] == PutAt(old(mem[..]), p - 4, CHUNK_TAG_DEALLOCATED) && !Valid(p)
    {
      refcount := refcount - 1;
      deallocated := refcount == 0;
      if deallocated {
        PutThenGet(mem[..], p - 4, CHUNK_TAG_DEALLOCATED);
        Putl(mem, p - 4, CHUNK_TAG_DEALLOCATED);
      }
    }
  }

  /** Allocation, for a size that is a machine word. */
  method Alloc(size: uint64, kind: int) returns (rc: int, c: Chunk?, p: nat)
    ensures rc == if HEADER_SIZE + size >= WORD64 then -ENOMEM else if kind != 0 then -EINVAL else 0
    ensures rc == 0 ==> c != null && fresh(c) && fresh(c.mem) && c.Valid(p) && c.size == size && c.refcount == 1
    ensures rc == 0 ==> p == HEADER_SIZE && c.mem[..] == Laid(c.mem[HEADER_SIZE..])
    ensures rc != 0 ==> c == null
  {
    var total := (HEADER_SIZE + size) % WORD64;
    c, p := null, 0;
    if total < HEADER_SIZE {
      return -ENOMEM, null, 0;
    }
    if kind != 0 {
      return -EINVAL, null, 0;
    }
    c := new Chunk(size);
    rc, p := 0, HEADER_SIZE;
  }

  /** Any series of trims amounts to one. */
  method TrimAll(c: Chunk, p: nat, cuts: seq<nat>) returns (q: nat)
    requires c.Valid(p) && p + Sum(cuts) - HEADER_SIZE < 0xffff_ffff && Sum(cuts) <= c.size
    modifies c`size, c.mem
    ensures q == p + Sum(cuts) && c.Valid(q) && c.Contents(q) == old(c.Contents(p))[Sum(cuts)..]
    ensures c.mem[..STRUCT_SIZE] == old(c.mem[..STRUCT_SIZE])
  {
    q := p;
    var i := 0;
    while i < |cuts|
      invariant 0 <= i <= |cuts| && q + Sum(cuts[i..]) == p + Sum(cuts)
      invariant p <= q && c.Valid(q) && c.Contents(q) == old(c.Contents(p))[q - p..]
      invariant Sum(cuts[i..]) <= c.size
      invariant c.mem[..STRUCT_SIZE] == old(c.mem[..STRUCT_SIZE])
    {
      assert cuts[i..][1..] == cuts[i + 1..];
      q := c.Trim(q, cuts[i]);
      i := i + 1;
    }
  }

  function Sum(s: seq<nat>): nat {
    if s == [] then 0 else s[0] + Sum(s[1..])
  }
}
