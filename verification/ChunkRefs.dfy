/** References to messages.  A short message is kept in the reference itself, a long one in a chunk; either way
    the reference stands for one string of bytes. */
module ChunkRefs {
  import opened Words
  import opened Wire
  import opened Chunks

  const CHUNKREF_MAX := 32
  const HEAP: byte := 0xff
  const HEAP_FORM := 16      // bytes of the tag and the pointer of a reference to a chunk

  ghost function RefCount(c: Chunk?): int
    reads c
  {
    if c == null then 0 else c.refcount
  }

  ghost function SizeOf(c: Chunk?): int
    reads c
  {
    if c == null then 0 else c.size
  }

  ghost function MemOf(c: Chunk?): bytes
    reads c, if c == null then {} else {c.mem}
  {
    if c == null then [] else c.mem[..]
  }

  class ChunkRef {
    /** The first byte is the length of a short message, or HEAP. */
    const ref: array<byte>
    var chunk: Chunk?           // of a long message, with the offset of its data
    var p: nat

    ghost predicate Valid()
      reads this, ref, chunk, if chunk == null then {} else {chunk.mem}
    {
      && ref.Length == CHUNKREF_MAX
      && (ref[0] == HEAP ==> chunk != null && chunk.mem != ref && chunk.Valid(p))
      && (ref[0] != HEAP ==> ref[0] < CHUNKREF_MAX)
    }

    /** The message, wherever it is kept. */
    ghost function Contents(): bytes
      requires Valid()
      reads this, ref, chunk, if chunk == null then {} else {chunk.mem}
    {
      if ref[0] == HEAP then chunk.Contents(p) else ref[1..1 + ref[0]]
    }

    ghost predicate OnHeap()
      requires Valid()
      reads this, ref, chunk, if chunk == null then {} else {chunk.mem}
    {
      ref[0] == HEAP
    }

    /** A reference to a new message; the failed assertion on exhausted address space is a precondition. */
    constructor (size: nat)
      requires HEADER_SIZE + size < WORD64
      ensures Valid() && fresh(ref) && |Contents()| == size
      ensures OnHeap() <==> size >= CHUNKREF_MAX
      ensures OnHeap() ==> fresh(chunk) && fresh(chunk.mem) && chunk.refcount == 1 && chunk.size == size
      ensures OnHeap() ==> p == HEADER_SIZE && chunk.mem[..] == Laid(chunk.mem[HEADER_SIZE..])
    {
      ref := new byte[CHUNKREF_MAX](_ => 0);
      chunk, p := null, 0;
      new;
      if size < CHUNKREF_MAX {
        ref[0] := size;
        return;
      }
      ref[0] := HEAP;
      var rc;
      rc, chunk, p := Alloc(size, 0);
    }

    constructor OfChunk(chunk: Chunk, p: nat)
      requires chunk.Valid(p)
      ensures Valid() && fresh(ref) && OnHeap() && this.chunk == chunk && this.p == p
      ensures Contents() == chunk.Contents(p)
    {
      ref := new byte[CHUNKREF_MAX](_ => 0);
      this.chunk, this.p := chunk, p;
      new;
      ref[0] := HEAP;
    }

    /** Ends the reference: whatever it was kept in loses one reference. */
    method Term() returns (deallocated: bool)
      requires Valid() && (OnHeap() ==> chunk.refcount > 0)
      modifies if ref[0] == HEAP then {chunk, chunk.mem} else {}
      ensures deallocated <==> ref[0] == HEAP && old(ref[0] == HEAP && chunk.refcount == 1)
      ensures ref[0] == HEAP ==> chunk.refcount == old(RefCount(chunk)) - 1
      ensures ref[0] == HEAP ==> chunk.size == old(SizeOf(chunk))
      ensures deallocated ==> chunk.mem[..] == PutAt(old(MemOf(chunk)), p - 4, CHUNK_TAG_DEALLOCATED)
      ensures ref[0] == HEAP && !deallocated ==> chunk.mem[..] == old(MemOf(chunk))
      ensures !deallocated ==> Valid() && Contents() == old(Contents())
    {
      deallocated := false;
      if ref[0] == HEAP {
        deallocated := chunk.Free(p);
      }
    }

    /** Hands the message over as a chunk, with the reference that was held, and is left empty. */
    method GetChunk() returns (c: Chunk, q: nat)
      requires Valid()
      modifies ref
      ensures Valid() && Contents() == [] && !OnHeap()
      ensures c.Valid(q) && c.Contents(q) == old(Contents())
      ensures old(OnHeap()) ==> c == old(chunk) && q == old(p)
      ensures !old(OnHeap()) ==> fresh(c) && fresh(c.mem) && c.refcount == 1 && c.size == |old(Contents())|
      ensures !old(OnHeap()) ==> q == HEADER_SIZE && c.mem[..] == Laid(old(Contents()))
    {
      if ref[0] == HEAP {
        ref[0] := 0;
        return chunk, p;
      }
      var size := ref[0];
      var rc, made, at := Alloc(size, 0);
      Fill(made, ref[1..1 + size]);
      ref[0] := 0;
      return made, at;
    }

    /** Drops the first n bytes, in the reference or in the chunk. */
    method Trim(n: nat)
      requires Valid() && n <= |Contents()|
      requires OnHeap() ==> p + n - HEADER_SIZE < 0xffff_ffff
      modifies this`p, if ref[0] == HEAP then {chunk, chunk.mem} else {ref}
      ensures Valid() && Contents() == old(Contents())[n..]
      ensures OnHeap() == old(OnHeap()) && chunk == old(chunk)
      ensures OnHeap() ==> chunk.refcount == old(RefCount(chunk)) && chunk.size == old(SizeOf(chunk)) - n
      ensures OnHeap() ==> p == old(p) + n && chunk.mem[..] == Trimmed(old(MemOf(chunk)), old(p), n)
    {
      if ref[0] == HEAP {
        p := chunk.Trim(p, n);
        return;
      }
      var left: int := ref[0] - n;
      forall i | 0 <= i < left { ref[1 + i] := ref[1 + n + i]; }
      ref[0] := left;
    }

    method Size() returns (size: nat)
      requires Valid()
      ensures size == |Contents()|
    {
      size := if ref[0] == HEAP then chunk.size else ref[0];
    }

    /** The buffer that holds the message, and where in it the message begins. */
    method Data() returns (mem: array<byte>, at: nat)
      requires Valid()
      ensures at + |Contents()| <= mem.Length && mem[at..at + |Contents()|] == Contents()
      ensures mem == if OnHeap() then chunk.mem else ref
    {
      if ref[0] == HEAP {
        mem, at := chunk.mem, p;
        assert mem[at..mem.Length] == mem[at..];
      } else {
        mem, at := ref, 1;
      }
    }
  }

  /** Writes the message of a new chunk. */
  method Fill(c: Chunk, data: bytes)
    requires c.Valid(HEADER_SIZE) && c.mem[..] == Laid(c.mem[HEADER_SIZE..]) && |data| == c.size
    modifies c.mem
    ensures c.mem[..] == Laid(data) && c.Valid(HEADER_SIZE) && c.Contents(HEADER_SIZE) == data
  {
    ghost var was := c.mem[..];
    forall i | 0 <= i < |data| { c.mem[HEADER_SIZE + i] := data[i]; }
    assert c.mem[..HEADER_SIZE] == was[..HEADER_SIZE] == Laid(data)[..HEADER_SIZE];
    assert c.mem[HEADER_SIZE..] == data;
    assert c.mem[..] == c.mem[..HEADER_SIZE] + c.mem[HEADER_SIZE..];
    LaidFramed(data);
  }

  /** Moves a reference: only the bytes in use are copied. */
  method Mv(dst: ChunkRef, src: ChunkRef)
    requires src.Valid() && dst.ref.Length == CHUNKREF_MAX && dst.ref != src.ref && dst != src
    requires src.OnHeap() ==> dst.ref != src.chunk.mem
    modifies dst, dst.ref
    ensures dst.Valid() && dst.Contents() == old(src.Contents()) && dst.OnHeap() == src.OnHeap()
    ensures dst.OnHeap() ==> dst.chunk == src.chunk && dst.p == src.p
  {
    var size: int := if src.ref[0] == HEAP then HEAP_FORM else src.ref[0] + 1;
    forall i | 0 <= i < size { dst.ref[i] := src.ref[i]; }
    if src.ref[0] == HEAP {
      dst.chunk, dst.p := src.chunk, src.p;
    }
  }

  /** Copies a reference: both stand for the message, and a chunk knows of both. */
  method Cp(dst: ChunkRef, src: ChunkRef)
    requires src.Valid() && dst.ref.Length == CHUNKREF_MAX && dst.ref != src.ref && dst != src
    requires src.OnHeap() ==> dst.ref != src.chunk.mem
    modifies dst, dst.ref, (if src.ref[0] == HEAP then {src.chunk} else {})`refcount
    ensures dst.Valid() && src.Valid() && dst.Contents() == src.Contents() == old(src.Contents())
    ensures dst.OnHeap() ==> dst.chunk == src.chunk && dst.p == src.p
    ensures dst.OnHeap() == src.OnHeap() == old(src.OnHeap())
    ensures src.OnHeap() ==> src.chunk.refcount == (old(RefCount(src.chunk)) + 1) % WORD32
  {
    if src.ref[0] == HEAP {
      src.chunk.AddRef(src.p, 1);
    }
    forall i | 0 <= i < CHUNKREF_MAX { dst.ref[i] := src.ref[i]; }
    dst.chunk, dst.p := src.chunk, src.p;
  }

  /** Announces n bulk copies. */
  method BulkcopyStart(src: ChunkRef, n: uint32)
    requires src.Valid()
    modifies (if src.ref[0] == HEAP then {src.chunk} else {})`refcount
    ensures src.Valid() && src.Contents() == old(src.Contents())
    ensures src.OnHeap() ==> src.chunk.refcount == (old(RefCount(src.chunk)) + n) % WORD32
  {
    if src.ref[0] == HEAP {
      src.chunk.AddRef(src.p, n);
    }
  }

  /** One of the announced copies: no count changes any more. */
  method BulkcopyCp(dst: ChunkRef, src: ChunkRef)
    requires src.Valid() && dst.ref.Length == CHUNKREF_MAX && dst.ref != src.ref && dst != src
    requires src.OnHeap() ==> dst.ref != src.chunk.mem
    modifies dst, dst.ref
    ensures dst.Valid() && dst.Contents() == src.Contents() == old(src.Contents())
    ensures dst.OnHeap() == src.OnHeap()
    ensures dst.OnHeap() ==> dst.chunk == src.chunk && dst.p == src.p
  {
    forall i | 0 <= i < CHUNKREF_MAX { dst.ref[i] := src.ref[i]; }
    dst.chunk, dst.p := src.chunk, src.p;
  }
}
