/** The operations on references in memory, as steps of the runs on shared chunks: for a target, a source, and the
    chunk that either may hold. */
module ReferenceObject {
  import opened Words
  import opened Chunks
  import opened ChunkRefs
  import R = References

  /** A chunk as a block of the runs, with the copies owed and the number of deallocations so far. */
  ghost function BlockOf(c: Chunk, owed: nat, frees: nat): R.Block
    reads c, c.mem
  {
    R.Block(c.mem[..], c.size, c.refcount, owed, frees)
  }

  /** A reference as a slot; one that is not in use holds nothing. */
  ghost function SlotOf(r: ChunkRef, live: bool): R.Slot
    requires live ==> r.Valid()
    reads r, r.ref, r.chunk, if r.chunk == null then {} else {r.chunk.mem}
  {
    if !live then R.Empty else if r.OnHeap() then R.Long(0, r.p) else R.Short(r.Contents())
  }

  /** The reference is in use, and if it holds a chunk, it holds c. */
  ghost predicate Of(r: ChunkRef, c: Chunk)
    reads r, r.ref, r.chunk, if r.chunk == null then {} else {r.chunk.mem}
  {
    r.Valid() && (r.OnHeap() ==> r.chunk == c)
  }

  /** A target that is not in use and a source, all in memory of their own. */
  ghost predicate Ready(dst: ChunkRef, src: ChunkRef, c: Chunk)
    reads src, src.ref, src.chunk, if src.chunk == null then {} else {src.chunk.mem}
  {
    && Of(src, c) && dst != src && dst.ref != src.ref && dst.ref.Length == CHUNKREF_MAX
    && c.mem != src.ref && c.mem != dst.ref
  }

  /** The two references, as far as they are in use, and the chunk. */
  ghost function Abs(dst: ChunkRef, dstUsed: bool, src: ChunkRef, srcUsed: bool, c: Chunk, owed: nat): R.State
    requires (dstUsed ==> dst.Valid()) && (srcUsed ==> src.Valid())
    reads dst, dst.ref, dst.chunk, if dst.chunk == null then {} else {dst.chunk.mem}
    reads src, src.ref, src.chunk, if src.chunk == null then {} else {src.chunk.mem}
    reads c, c.mem
  {
    R.State([BlockOf(c, owed, 0)], [SlotOf(dst, dstUsed), SlotOf(src, srcUsed)])
  }

  /** The memory was a state of the runs, and if its callers may ask for the operation there, it is now the state
      after it, but for the count of deallocations, which the memory does not keep. */
  ghost predicate Steps(was: R.State, op: R.Op, now: R.State) {
    R.Anchored(was) && (R.Legal(was, op) ==> now == Uncounted(R.After(was, op)))
  }

  ghost function Uncounted(st: R.State): R.State {
    R.State(seq(|st.blocks|, b requires 0 <= b < |st.blocks| => st.blocks[b].(frees := 0)), st.slots)
  }

  /** A new reference, filled by its owner: a chunk of its own from 32 bytes on. */
  method InitStep(data: bytes) returns (r: ChunkRef)
    requires HEADER_SIZE + |data| < WORD64
    ensures fresh(r) && r.Valid() && r.Contents() == data && (r.OnHeap() <==> |data| >= 32)
    ensures R.State(if r.OnHeap() then [BlockOf(r.chunk, 0, 0)] else [], [SlotOf(r, true)])
         == R.After(R.State([], [R.Empty]), R.Init(0, data))
  {
    hide Framed, Laid;
    r := new ChunkRef(|data|);
    if r.ref[0] == HEAP {
      Fill(r.chunk, data);
    } else {
      forall i | 0 <= i < |data| { r.ref[1 + i] := data[i]; }
    }
  }

  /** A reference to a chunk that was held by a bare pointer. */
  method InitChunkStep(c: Chunk, p: nat, ghost owed: nat) returns (r: ChunkRef)
    requires c.Valid(p)
    ensures fresh(r) && Of(r, c)
    ensures Steps(R.State([BlockOf(c, owed, 0)], [R.Empty, R.Bare(0, p)]), R.InitChunk(0, 1),
                  R.State([BlockOf(c, owed, 0)], [SlotOf(r, true), R.Empty]))
  {
    hide Framed;
    r := new ChunkRef.OfChunk(c, p);
  }

  /** The chunk of a reference, with the reference held; for a short message a new one. */
  method GetChunkStep(src: ChunkRef, c: Chunk, ghost owed: nat) returns (made: Chunk, q: nat)
    requires Of(src, c) && c.mem != src.ref
    modifies src.ref
    ensures Of(src, c)
    ensures made == c || fresh(made)
    ensures Steps(old(R.State([BlockOf(c, owed, 0)], [R.Empty, SlotOf(src, true)])), R.GetChunk(0, 1),
                  if old(src.OnHeap())
                  then R.State([BlockOf(c, owed, 0)], [R.Bare(0, q), SlotOf(src, true)])
                  else R.State([BlockOf(c, owed, 0), BlockOf(made, 0, 0)], [R.Bare(1, q), SlotOf(src, true)]))
  {
    hide Framed, Laid, R.Due, R.Holders;
    made, q := src.GetChunk();
  }

  method CpStep(dst: ChunkRef, src: ChunkRef, c: Chunk, ghost owed: nat)
    requires Ready(dst, src, c)
    modifies dst, dst.ref, c`refcount
    ensures Of(dst, c) && Of(src, c)
    ensures Steps(old(Abs(dst, false, src, true, c, owed)), R.Cp(0, 1), Abs(dst, true, src, true, c, owed))
  {
    hide Framed;
    Cp(dst, src);
  }

  method MvStep(dst: ChunkRef, src: ChunkRef, c: Chunk, ghost owed: nat)
    requires Ready(dst, src, c)
    modifies dst, dst.ref
    ensures Of(dst, c)
    ensures Steps(old(Abs(dst, false, src, true, c, owed)), R.Mv(0, 1), Abs(dst, true, src, false, c, owed))
  {
    hide Framed;
    Mv(dst, src);
  }

  /** A copy that was announced: one fewer is owed, if it is of a chunk. */
  method BulkCpStep(dst: ChunkRef, src: ChunkRef, c: Chunk, ghost owed: nat)
    requires Ready(dst, src, c) && (src.OnHeap() ==> owed > 0)
    modifies dst, dst.ref
    ensures Of(dst, c) && Of(src, c)
    ensures var left := if src.OnHeap() then owed - 1 else owed;
      Steps(old(Abs(dst, false, src, true, c, owed)), R.BulkCp(0, 1), Abs(dst, true, src, true, c, left))
  {
    hide Framed;
    BulkcopyCp(dst, src);
  }

  method BulkStartStep(dst: ChunkRef, src: ChunkRef, c: Chunk, n: uint32, ghost owed: nat)
    requires Ready(dst, src, c)
    modifies c`refcount
    ensures Of(src, c)
    ensures var more := if src.OnHeap() then owed + n else owed;
      Steps(old(Abs(dst, false, src, true, c, owed)), R.BulkStart(1, n), Abs(dst, false, src, true, c, more))
  {
    hide Framed;
    BulkcopyStart(src, n);
  }

  method TrimStep(dst: ChunkRef, src: ChunkRef, c: Chunk, n: nat, ghost owed: nat)
    requires Ready(dst, src, c) && n <= |src.Contents()| && (src.OnHeap() ==> R.Fits(src.p, n))
    modifies src`p, src.ref, c, c.mem
    ensures Of(src, c)
    ensures Steps(old(Abs(dst, false, src, true, c, owed)), R.Trim(1, n), Abs(dst, false, src, true, c, owed))
  {
    hide Framed, Trimmed, R.Due, R.Holders;
    src.Trim(n);
  }

  method TermStep(dst: ChunkRef, src: ChunkRef, c: Chunk, ghost owed: nat) returns (deallocated: bool)
    requires Ready(dst, src, c) && (src.OnHeap() ==> c.refcount > 0)
    modifies c, c.mem
    ensures Steps(old(Abs(dst, false, src, true, c, owed)), R.Term(1), Abs(dst, false, src, false, c, owed))
    ensures deallocated <==> old(src.OnHeap() && c.refcount == 1)
  {
    hide Framed;
    deallocated := src.Term();
  }
}
