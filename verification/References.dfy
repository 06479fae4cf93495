/** Runs of operations on message references that share chunks.  Every operation acts on the chunks in place
    and on counters; what the references stand for behaves as if each owned a message of its own. */
module References {
  import opened Words
  import opened Chunks
  import opened ChunkRefs

  /** A chunk: its memory, the fields of its structure, the copies announced and not made yet, and how often
      it was given back to the allocator. */
  datatype Block = Block(mem: bytes, size: nat, count: uint32, owed: nat, frees: nat)

  /** A variable of the program: a reference with a short or a long message, a bare pointer to a chunk, or
      nothing that needs ending. */
  datatype Slot = Empty | Short(data: bytes) | Long(block: nat, p: nat) | Bare(block: nat, p: nat)

  datatype State = State(blocks: seq<Block>, slots: seq<Slot>)

  datatype Op =
    | Init(d: nat, data: bytes)          // a new reference, filled by its owner
    | InitChunk(d: nat, s: nat)
    | Term(d: nat)
    | GetChunk(d: nat, s: nat)
    | Mv(d: nat, s: nat)
    | Cp(d: nat, s: nat)
    | Trim(d: nat, n: nat)
    | BulkStart(s: nat, copies: nat)
    | BulkCp(d: nat, s: nat)

  predicate PointsTo(s: Slot, b: nat) {
    (s.Long? || s.Bare?) && s.block == b
  }

  /** The number of slots that hold chunk b. */
  function Holders(slots: seq<Slot>, b: nat): nat {
    if slots == [] then 0 else (if PointsTo(slots[0], b) then 1 else 0) + Holders(slots[1..], b)
  }

  function Due(st: State, b: nat): nat
    requires b < |st.blocks|
  {
    Holders(st.slots, b) + st.blocks[b].owed
  }

  lemma {:induction false} HoldersUpdate(slots: seq<Slot>, i: nat, s: Slot, b: nat)
    requires i < |slots|
    ensures Holders(slots[i := s], b) + (if PointsTo(slots[i], b) then 1 else 0)
         == Holders(slots, b) + (if PointsTo(s, b) then 1 else 0)
  {
    var t := slots[i := s];
    if i == 0 {
      assert t[1..] == slots[1..];
    } else {
      assert t[1..] == slots[1..][i - 1 := s];
      HoldersUpdate(slots[1..], i - 1, s, b);
    }
  }

  lemma {:induction false} HoldersSome(slots: seq<Slot>, i: nat, b: nat)
    requires i < |slots| && PointsTo(slots[i], b)
    ensures Holders(slots, b) > 0
  {
    if i > 0 {
      HoldersSome(slots[1..], i - 1, b);
    }
  }

  lemma {:induction false} HoldersNone(slots: seq<Slot>, b: nat)
    requires forall i :: 0 <= i < |slots| ==> !PointsTo(slots[i], b)
    ensures Holders(slots, b) == 0
  {
    if slots != [] {
      HoldersNone(slots[1..], b);
    }
  }

  /** What the count of a live chunk says, and that exactly the chunks nobody needs any more have been given
      back, once. */
  ghost predicate Counted(st: State) {
    forall b | 0 <= b < |st.blocks| ::
      (st.blocks[b].frees == if Due(st, b) == 0 then 1 else 0) && (Due(st, b) > 0 ==> st.blocks[b].count == Due(st, b))
  }

  /** Every pointer is the data pointer of its chunk. */
  ghost predicate Anchored(st: State) {
    forall i | 0 <= i < |st.slots| :: Anchor(st.blocks, st.slots[i])
  }

  ghost predicate Anchor(blocks: seq<Block>, s: Slot) {
    match s
    case Empty => true
    case Short(data) => |data| < CHUNKREF_MAX
    case Long(b, p) => b < |blocks| && Framed(blocks[b].mem, blocks[b].size, p)
    case Bare(b, p) => b < |blocks| && Framed(blocks[b].mem, blocks[b].size, p)
  }

  ghost predicate Inv(st: State) {
    Counted(st) && Anchored(st)
  }

  /** What a slot stands for. */
  datatype Meaning = Nothing | Message(data: bytes) | Pointer(data: bytes)

  ghost function Denote(blocks: seq<Block>, s: Slot): Meaning
    requires Anchor(blocks, s)
  {
    match s
    case Empty => Nothing
    case Short(data) => Message(data)
    case Long(b, p) => Message(blocks[b].mem[p..])
    case Bare(b, p) => Pointer(blocks[b].mem[p..])
  }

  ghost function Meanings(st: State): (m: seq<Meaning>)
    requires Anchored(st)
    ensures |m| == |st.slots|
    ensures forall i | 0 <= i < |m| :: m[i] == Denote(st.blocks, st.slots[i])
  {
    seq(|st.slots|, i requires 0 <= i < |st.slots| => Denote(st.blocks, st.slots[i]))
  }

  /** One more or one less reference to a chunk, as the counter sees it. */
  function AddRef(k: Block, n: nat): Block {
    k.(count := (k.count + n) % WORD32)
  }

  function Free(k: Block, p: nat): Block
    requires 4 <= p <= |k.mem|
  {
    var left := (k.count - 1) % WORD32;
    if k.count <= 1 then k.(count := left, frees := k.frees + 1, mem := Wire.PutAt(k.mem, p - 4, CHUNK_TAG_DEALLOCATED))
    else k.(count := left)
  }

  function Allocated(data: bytes): Block {
    Block(Laid(data), |data|, 1, 0, 0)
  }

  /** The slot d may be overwritten. */
  predicate Spare(st: State, d: nat) {
    d < |st.slots| && !st.slots[d].Long? && !st.slots[d].Bare?
  }

  predicate Reference(st: State, s: nat) {
    s < |st.slots| && (st.slots[s].Short? || st.slots[s].Long?)
  }

  /** The space in front of the message, after n more bytes are dropped, has room in its field. */
  predicate Fits(p: nat, n: nat) {
    HEADER_SIZE <= p && p + n - HEADER_SIZE < 0xffff_ffff
  }

  /** What the callers of each operation owe it.  A slot is overwritten only when it holds no chunk; a chunk is
      trimmed by its only holder, unless by nothing; a bulk copy has been announced; there are fewer than 2^32
      references to a chunk. */
  ghost predicate Legal(st: State, op: Op)
    requires Anchored(st)
  {
    match op
    case Init(d, data) => Spare(st, d) && HEADER_SIZE + |data| < WORD64
    case InitChunk(d, s) => Spare(st, d) && s < |st.slots| && st.slots[s].Bare?
    case Term(d) => d < |st.slots| && !st.slots[d].Empty?
    case GetChunk(d, s) => Spare(st, d) && Reference(st, s) && d != s
    case Mv(d, s) => Spare(st, d) && Reference(st, s) && d != s
    case Cp(d, s) => (
      && Spare(st, d) && Reference(st, s) && d != s
      && (st.slots[s].Long? ==> Due(st, st.slots[s].block) + 1 < WORD32))
    case Trim(d, n) => (
      && Reference(st, d) && n <= |Denote(st.blocks, st.slots[d]).data|
      && (st.slots[d].Long? ==> (n == 0 || Holders(st.slots, st.slots[d].block) == 1) && Fits(st.slots[d].p, n)))
    case BulkStart(s, copies) => (
      && Reference(st, s)
      && (st.slots[s].Long? ==> Due(st, st.slots[s].block) + copies < WORD32))
    case BulkCp(d, s) => (
      && Spare(st, d) && Reference(st, s) && d != s
      && (st.slots[s].Long? ==> st.blocks[st.slots[s].block].owed > 0))
  }

  /** One operation, as the program performs it. */
  function After(st: State, op: Op): State
    requires Anchored(st) && Legal(st, op)
  {
    var blocks, slots := st.blocks, st.slots;
    match op
    case Init(d, data) => (
      if |data| < CHUNKREF_MAX then State(blocks, slots[d := Short(data)])
      else State(blocks + [Allocated(data)], slots[d := Long(|blocks|, HEADER_SIZE)]))
    case InitChunk(d, s) => State(blocks, slots[d := Long(slots[s].block, slots[s].p)][s := Empty])
    case Term(d) => (
      if slots[d].Short? then State(blocks, slots[d := Empty])
      else var b := slots[d].block; State(blocks[b := Free(blocks[b], slots[d].p)], slots[d := Empty]))
    case GetChunk(d, s) => (
      if slots[s].Long? then State(blocks, slots[d := Bare(slots[s].block, slots[s].p)][s := Short([])])
      else State(blocks + [Allocated(slots[s].data)], slots[d := Bare(|blocks|, HEADER_SIZE)][s := Short([])]))
    case Mv(d, s) => State(blocks, slots[d := slots[s]][s := Empty])
    case Cp(d, s) => (
      if slots[s].Short? then State(blocks, slots[d := slots[s]])
      else var b := slots[s].block; State(blocks[b := AddRef(blocks[b], 1)], slots[d := slots[s]]))
    case Trim(d, n) => (
      if slots[d].Short? then State(blocks, slots[d := Short(slots[d].data[n..])])
      else Trimming(st, d, n))
    case BulkStart(s, copies) => (
      if slots[s].Short? then st
      else var b := slots[s].block;
        State(blocks[b := AddRef(blocks[b], copies).(owed := blocks[b].owed + copies)], slots))
    case BulkCp(d, s) => (
      if slots[s].Short? then State(blocks, slots[d := slots[s]])
      else var b := slots[s].block; State(blocks[b := blocks[b].(owed := blocks[b].owed - 1)], slots[d := slots[s]]))
  }

  function Trimming(st: State, d: nat, n: nat): State
    requires d < |st.slots| && st.slots[d].Long? && st.slots[d].block < |st.blocks|
    requires Fits(st.slots[d].p, n) && st.slots[d].p + n <= |st.blocks[st.slots[d].block].mem|
    requires n <= st.blocks[st.slots[d].block].size
  {
    var b, p := st.slots[d].block, st.slots[d].p;
    var k := st.blocks[b].(mem := Trimmed(st.blocks[b].mem, p, n), size := st.blocks[b].size - n);
    State(st.blocks[b := k], st.slots[d := Long(b, p + n)])
  }

  function Bytes(m: Meaning): bytes {
    if m.Nothing? then [] else m.data
  }

  function Set(m: seq<Meaning>, i: nat, x: Meaning): (r: seq<Meaning>)
    ensures |r| == |m|
  {
    if i < |m| then m[i := x] else m
  }

  function At(m: seq<Meaning>, i: nat): Meaning {
    if i < |m| then m[i] else Nothing
  }

  /** The same operation on messages that are values. */
  function ByValue(m: seq<Meaning>, op: Op): (r: seq<Meaning>)
    ensures |r| == |m|
  {
    match op
    case Init(d, data) => Set(m, d, Message(data))
    case InitChunk(d, s) => Set(Set(m, d, Message(Bytes(At(m, s)))), s, Nothing)
    case Term(d) => Set(m, d, Nothing)
    case GetChunk(d, s) => Set(Set(m, d, Pointer(Bytes(At(m, s)))), s, Message([]))
    case Mv(d, s) => Set(Set(m, d, At(m, s)), s, Nothing)
    case Cp(d, s) => Set(m, d, At(m, s))
    case Trim(d, n) => Set(m, d, Message(if n <= |Bytes(At(m, d))| then Bytes(At(m, d))[n..] else []))
    case BulkStart(s, copies) => m
    case BulkCp(d, s) => Set(m, d, At(m, s))
  }

  // --- Slots

  /** A sole holder is the only one. */
  lemma SoleHolder(slots: seq<Slot>, d: nat, i: nat, b: nat)
    requires d < |slots| && PointsTo(slots[d], b) && Holders(slots, b) == 1
    requires i < |slots| && i != d
    ensures !PointsTo(slots[i], b)
  {
    HoldersUpdate(slots, d, Empty, b);
    if PointsTo(slots[i], b) {
      HoldersSome(slots[d := Empty], i, b);
    }
  }

  lemma NoHolderYet(st: State)
    requires Anchored(st)
    ensures Holders(st.slots, |st.blocks|) == 0
  {
    forall i | 0 <= i < |st.slots| ensures !PointsTo(st.slots[i], |st.blocks|) {
      assert Anchor(st.blocks, st.slots[i]);
    }
    HoldersNone(st.slots, |st.blocks|);
  }

  /** Rewriting one slot changes the meaning of that slot alone. */
  lemma Rewritten(st: State, d: nat, s: Slot)
    requires Anchored(st) && d < |st.slots| && Anchor(st.blocks, s)
    ensures var st' := State(st.blocks, st.slots[d := s]);
      Anchored(st') && Meanings(st') == Meanings(st)[d := Denote(st.blocks, s)]
  {
  }

  /** The chunks may change as long as those that are pointed at keep their bytes. */
  lemma SameMeanings(st: State, blocks: seq<Block>)
    requires Anchored(st) && |st.blocks| <= |blocks|
    requires forall b | 0 <= b < |st.blocks| ::
      (exists i | 0 <= i < |st.slots| :: PointsTo(st.slots[i], b)) ==>
        blocks[b].mem == st.blocks[b].mem && blocks[b].size == st.blocks[b].size
    ensures Anchored(State(blocks, st.slots)) && Meanings(State(blocks, st.slots)) == Meanings(st)
  {
    forall i | 0 <= i < |st.slots|
      ensures Anchor(blocks, st.slots[i]) && Denote(blocks, st.slots[i]) == Denote(st.blocks, st.slots[i])
    {
      assert Anchor(st.blocks, st.slots[i]);
      if st.slots[i].Long? || st.slots[i].Bare? {
        assert PointsTo(st.slots[i], st.slots[i].block);
      }
    }
  }

  // --- Each operation

  /** A slot that holds no chunk is overwritten with another such. */
  lemma Overwrite(st: State, d: nat, s: Slot)
    requires Inv(st) && Spare(st, d) && !s.Long? && !s.Bare? && Anchor(st.blocks, s)
    ensures var st' := State(st.blocks, st.slots[d := s]);
      Inv(st') && Meanings(st') == Meanings(st)[d := Denote(st.blocks, s)]
  {
    var st' := State(st.blocks, st.slots[d := s]);
    forall b | 0 <= b < |st.blocks| ensures Due(st', b) == Due(st, b) {
      HoldersUpdate(st.slots, d, s, b);
    }
    Rewritten(st, d, s);
  }

  /** A pointer goes from slot s to slot d. */
  lemma HandOver(st: State, d: nat, s: nat, x: Slot, y: Slot)
    requires Inv(st) && Spare(st, d) && s < |st.slots| && d != s
    requires Anchor(st.blocks, x) && Anchor(st.blocks, y) && !y.Long? && !y.Bare?
    requires forall b | 0 <= b < |st.blocks| :: PointsTo(x, b) <==> PointsTo(st.slots[s], b)
    ensures var st' := State(st.blocks, st.slots[d := x][s := y]);
      Inv(st') && Meanings(st') == Meanings(st)[d := Denote(st.blocks, x)][s := Denote(st.blocks, y)]
  {
    var mid := State(st.blocks, st.slots[d := x]);
    var st' := State(st.blocks, mid.slots[s := y]);
    forall b | 0 <= b < |st.blocks| ensures Due(st', b) == Due(st, b) {
      HoldersUpdate(st.slots, d, x, b);
      HoldersUpdate(mid.slots, s, y, b);
    }
    Rewritten(st, d, x);
    Rewritten(mid, s, y);
  }

  /** A new chunk with one holder. */
  lemma NewChunk(st: State, d: nat, data: bytes, x: Slot)
    requires Inv(st) && Spare(st, d)
    requires x == Long(|st.blocks|, HEADER_SIZE) || x == Bare(|st.blocks|, HEADER_SIZE)
    ensures var blocks := st.blocks + [Allocated(data)];
      var st' := State(blocks, st.slots[d := x]);
      Inv(st') && Meanings(st') == Meanings(st)[d := if x.Long? then Message(data) else Pointer(data)]
  {
    var blocks := st.blocks + [Allocated(data)];
    var st' := State(blocks, st.slots[d := x]);
    LaidFramed(data);
    SameMeanings(st, blocks);
    Rewritten(State(blocks, st.slots), d, x);
    NoHolderYet(st);
    forall b | 0 <= b < |blocks| ensures Due(st', b) == if b < |st.blocks| then Due(st, b) else 1 {
      HoldersUpdate(st.slots, d, x, b);
    }
  }

  /** One chunk's counters follow its holders. */
  lemma Recount(st: State, b: nat, k: Block, slots: seq<Slot>)
    requires Inv(st) && b < |st.blocks| && k.frees == (if Holders(slots, b) + k.owed == 0 then 1 else 0)
    requires Holders(slots, b) + k.owed > 0 ==> k.count == Holders(slots, b) + k.owed
    requires forall c | 0 <= c < |st.blocks| && c != b :: Holders(slots, c) == Holders(st.slots, c)
    ensures Counted(State(st.blocks[b := k], slots))
  {
    var st' := State(st.blocks[b := k], slots);
    forall c | 0 <= c < |st'.blocks|
      ensures st'.blocks[c].frees == if Due(st', c) == 0 then 1 else 0
      ensures Due(st', c) > 0 ==> st'.blocks[c].count == Due(st', c)
    {
      if c != b {
        assert Due(st', c) == Due(st, c);
      }
    }
  }

  /** A copy, counted at once or announced before. */
  lemma Adopt(st: State, d: nat, s: nat, k: Block)
    requires Inv(st) && Spare(st, d) && s < |st.slots| && st.slots[s].Long?
    requires var was := st.blocks[st.slots[s].block];
      || (k == AddRef(was, 1) && Due(st, st.slots[s].block) + 1 < WORD32)
      || (was.owed > 0 && k == was.(owed := was.owed - 1))
    ensures var st' := State(st.blocks[st.slots[s].block := k], st.slots[d := st.slots[s]]);
      Inv(st') && Meanings(st') == Meanings(st)[d := Denote(st.blocks, st.slots[s])]
  {
    var b := st.slots[s].block;
    var blocks := st.blocks[b := k];
    HoldersSome(st.slots, s, b);
    forall c | 0 <= c < |st.blocks|
      ensures Holders(st.slots[d := st.slots[s]], c) == Holders(st.slots, c) + if c == b then 1 else 0
    {
      HoldersUpdate(st.slots, d, st.slots[s], c);
    }
    Recount(st, b, k, st.slots[d := st.slots[s]]);
    SameMeanings(st, blocks);
    assert Anchor(st.blocks, st.slots[s]) && Anchor(blocks, st.slots[s]);
    Rewritten(State(blocks, st.slots), d, st.slots[s]);
  }

  lemma Announce(st: State, s: nat, copies: nat)
    requires Inv(st) && s < |st.slots| && st.slots[s].Long? && Due(st, st.slots[s].block) + copies < WORD32
    ensures var b := st.slots[s].block;
      var k := AddRef(st.blocks[b], copies).(owed := st.blocks[b].owed + copies);
      var st' := State(st.blocks[b := k], st.slots);
      Inv(st') && Meanings(st') == Meanings(st)
  {
    var b := st.slots[s].block;
    var k := AddRef(st.blocks[b], copies).(owed := st.blocks[b].owed + copies);
    HoldersSome(st.slots, s, b);
    Recount(st, b, k, st.slots);
    SameMeanings(st, st.blocks[b := k]);
  }

  lemma FreeCounts(k: Block, p: nat)
    requires 4 <= p <= |k.mem| && k.count > 0
    ensures var f := Free(k, p);
      && f.owed == k.owed && f.size == k.size && f.frees == k.frees + (if k.count == 1 then 1 else 0)
      && (k.count > 1 ==> f.count == k.count - 1 && f.mem == k.mem)
  {
  }

  /** One holder less; the chunk goes back to the allocator with the last one. */
  lemma Drop(st: State, d: nat)
    requires Inv(st) && d < |st.slots| && (st.slots[d].Long? || st.slots[d].Bare?)
    ensures var b := st.slots[d].block;
      var st' := State(st.blocks[b := Free(st.blocks[b], st.slots[d].p)], st.slots[d := Empty]);
      Inv(st') && Meanings(st') == Meanings(st)[d := Nothing]
  {
    assert Anchor(st.blocks, st.slots[d]);
    var b := st.slots[d].block;
    HoldersSome(st.slots, d, b);
    CountOf(st, b);
    FreeCounts(st.blocks[b], st.slots[d].p);
    hide Free, Framed, Holders;
    var k := Free(st.blocks[b], st.slots[d].p);
    var mid := State(st.blocks, st.slots[d := Empty]);
    forall c | 0 <= c < |st.blocks|
      ensures Holders(mid.slots, c) == Holders(st.slots, c) - if c == b then 1 else 0
    {
      HoldersUpdate(st.slots, d, Empty, c);
    }
    Recount(st, b, k, mid.slots);
    Rewritten(st, d, Empty);
    forall i | 0 <= i < |mid.slots| && PointsTo(mid.slots[i], b) ensures Holders(mid.slots, b) > 0 {
      HoldersSome(mid.slots, i, b);
    }
    SameMeanings(mid, st.blocks[b := k]);
  }

  lemma TrimChunk(st: State, d: nat, n: nat)
    requires Inv(st) && d < |st.slots| && st.slots[d].Long?
    requires n <= st.blocks[st.slots[d].block].size && Fits(st.slots[d].p, n)
    requires n == 0 || Holders(st.slots, st.slots[d].block) == 1
    ensures var st' := Trimming(st, d, n);
      Inv(st') && Meanings(st') == Meanings(st)[d := Message(Meanings(st)[d].data[n..])]
  {
    hide Trimmed, Counted;
    var b, p := st.slots[d].block, st.slots[d].p;
    assert Anchor(st.blocks, st.slots[d]);
    var was := st.blocks[b];
    TrimmedFramed(was.mem, was.size, p, n);
    var st' := Trimming(st, d, n);
    var k := st'.blocks[b];
    forall i | 0 <= i < |st.slots| && i != d
      ensures Anchor(st'.blocks, st.slots[i]) && Denote(st'.blocks, st.slots[i]) == Denote(st.blocks, st.slots[i])
    {
      assert Anchor(st.blocks, st.slots[i]);
      if PointsTo(st.slots[i], b) {
        if n > 0 {
          SoleHolder(st.slots, d, i, b);
        }
        assert st.slots[i].p == p && was.mem[p..][0..] == was.mem[p..];
      }
    }
    forall c | 0 <= c < |st.blocks| ensures Holders(st'.slots, c) == Holders(st.slots, c) {
      HoldersUpdate(st.slots, d, Long(b, p + n), c);
    }
    HoldersSome(st.slots, d, b);
    CountOf(st, b);
    Recount(st, b, k, st'.slots);
  }

  lemma CountOf(st: State, b: nat)
    requires Counted(st) && b < |st.blocks|
    ensures st.blocks[b].frees == if Due(st, b) == 0 then 1 else 0
    ensures Due(st, b) > 0 ==> st.blocks[b].count == Due(st, b)
  {
  }

  // --- Runs

  ghost predicate StepOk(st: State, op: Op)
    requires Inv(st) && Legal(st, op)
  {
    Inv(After(st, op)) && Meanings(After(st, op)) == ByValue(Meanings(st), op)
  }

  lemma InitStep(st: State, op: Op)
    requires Inv(st) && Legal(st, op) && op.Init?
    ensures StepOk(st, op)
  {
    hide Inv;
    if |op.data| < CHUNKREF_MAX {
      Overwrite(st, op.d, Short(op.data));
    } else {
      NewChunk(st, op.d, op.data, Long(|st.blocks|, HEADER_SIZE));
    }
  }

  lemma MoveStep(st: State, op: Op)
    requires Inv(st) && Legal(st, op) && (op.InitChunk? || op.Mv?)
    ensures StepOk(st, op)
  {
    hide Counted, Framed;
    var x := st.slots[op.s];
    assert Anchor(st.blocks, x);
    HandOver(st, op.d, op.s, if op.Mv? then x else Long(x.block, x.p), Empty);
  }

  lemma GetChunkStep(st: State, op: Op)
    requires Inv(st) && Legal(st, op) && op.GetChunk?
    ensures StepOk(st, op)
  {
    hide Counted, Framed, Laid, Holders;
    var x, n := st.slots[op.s], |st.blocks|;
    assert Anchor(st.blocks, x);
    if x.Long? {
      HandOver(st, op.d, op.s, Bare(x.block, x.p), Short([]));
    } else {
      NewChunk(st, op.d, x.data, Bare(n, HEADER_SIZE));
      Overwrite(State(st.blocks + [Allocated(x.data)], st.slots[op.d := Bare(n, HEADER_SIZE)]), op.s, Short([]));
    }
  }

  lemma TermStep(st: State, op: Op)
    requires Inv(st) && Legal(st, op) && op.Term?
    ensures StepOk(st, op)
  {
    hide Counted, Framed, Free, Holders;
    assert Anchor(st.blocks, st.slots[op.d]);
    if st.slots[op.d].Short? {
      Overwrite(st, op.d, Empty);
    } else {
      Drop(st, op.d);
    }
  }

  lemma CopyStep(st: State, op: Op)
    requires Inv(st) && Legal(st, op) && (op.Cp? || op.BulkCp?)
    ensures StepOk(st, op)
  {
    hide Counted, Framed, Holders;
    var x := st.slots[op.s];
    assert Anchor(st.blocks, x);
    if x.Short? {
      Overwrite(st, op.d, x);
    } else {
      var was := st.blocks[x.block];
      Adopt(st, op.d, op.s, if op.Cp? then AddRef(was, 1) else was.(owed := was.owed - 1));
    }
  }

  lemma TrimStep(st: State, op: Op)
    requires Inv(st) && Legal(st, op) && op.Trim?
    ensures StepOk(st, op)
  {
    hide Counted, Trimmed, Holders, Trimming;
    assert Anchor(st.blocks, st.slots[op.d]);
    if st.slots[op.d].Short? {
      Overwrite(st, op.d, Short(st.slots[op.d].data[op.n..]));
    } else {
      TrimChunk(st, op.d, op.n);
    }
  }

  lemma BulkStartStep(st: State, op: Op)
    requires Inv(st) && Legal(st, op) && op.BulkStart?
    ensures StepOk(st, op)
  {
    hide Counted, Framed, Holders;
    if st.slots[op.s].Long? {
      Announce(st, op.s, op.copies);
    }
  }

  /** Every operation keeps the counts right, and does to the shared and trimmed chunks what it would do to
      messages that are values. */
  lemma StepMeans(st: State, op: Op)
    requires Inv(st) && Legal(st, op)
    ensures Inv(After(st, op)) && Meanings(After(st, op)) == ByValue(Meanings(st), op)
  {
    assert StepOk(st, op) by {
      hide *;
      match op
      case Init(_, _) => InitStep(st, op);
      case InitChunk(_, _) => MoveStep(st, op);
      case Term(_) => TermStep(st, op);
      case GetChunk(_, _) => GetChunkStep(st, op);
      case Mv(_, _) => MoveStep(st, op);
      case Cp(_, _) => CopyStep(st, op);
      case Trim(_, _) => TrimStep(st, op);
      case BulkStart(_, _) => BulkStartStep(st, op);
      case BulkCp(_, _) => CopyStep(st, op);
    }
  }

  ghost predicate LegalRun(st: State, ops: seq<Op>)
    decreases |ops|
  {
    ops == [] || (Anchored(st) && Legal(st, ops[0]) && LegalRun(After(st, ops[0]), ops[1..]))
  }

  ghost function Ran(st: State, ops: seq<Op>): State
    requires LegalRun(st, ops)
    decreases |ops|
  {
    if ops == [] then st else Ran(After(st, ops[0]), ops[1..])
  }

  function AllByValue(m: seq<Meaning>, ops: seq<Op>): seq<Meaning>
    decreases |ops|
  {
    if ops == [] then m else AllByValue(ByValue(m, ops[0]), ops[1..])
  }

  /** Over a whole run. */
  lemma {:induction false} RunMeans(st: State, ops: seq<Op>)
    requires Inv(st) && LegalRun(st, ops)
    ensures Inv(Ran(st, ops)) && Meanings(Ran(st, ops)) == AllByValue(Meanings(st), ops)
    decreases |ops|
  {
    if ops != [] {
      StepMeans(st, ops[0]);
      RunMeans(After(st, ops[0]), ops[1..]);
    }
  }

  /** A run from nothing: a chunk that is held or promised has not been given back and its counter says by how
      many; any other has been given back exactly once, and that is final. */
  lemma Conserved(n: nat, ops: seq<Op>, more: seq<Op>, b: nat)
    requires var st := State([], seq(n, i => Empty)); LegalRun(st, ops) && LegalRun(Ran(st, ops), more)
    requires b < |Ran(State([], seq(n, i => Empty)), ops).blocks|
    ensures var mid := Ran(State([], seq(n, i => Empty)), ops);
      var later := Ran(mid, more);
      && (Due(mid, b) > 0 ==> mid.blocks[b].frees == 0 && mid.blocks[b].count == Due(mid, b))
      && (Due(mid, b) == 0 ==> mid.blocks[b].frees == 1)
      && b < |later.blocks|
      && (mid.blocks[b].frees == 1 ==> later.blocks[b].frees == 1 && Due(later, b) == 0)
  {
    var st := State([], seq(n, i => Empty));
    RunMeans(st, ops);
    var mid := Ran(st, ops);
    CountOf(mid, b);
    RunMeans(mid, more);
    FreesGrow(mid, more, b);
    CountOf(Ran(mid, more), b);
  }

  lemma {:induction false} FreesGrow(st: State, ops: seq<Op>, b: nat)
    requires LegalRun(st, ops) && b < |st.blocks|
    ensures b < |Ran(st, ops).blocks| && st.blocks[b].frees <= Ran(st, ops).blocks[b].frees
    decreases |ops|
  {
    if ops != [] {
      FreesGrowStep(st, ops[0], b);
      FreesGrow(After(st, ops[0]), ops[1..], b);
    }
  }

  lemma FreesGrowStep(st: State, op: Op, b: nat)
    requires Anchored(st) && Legal(st, op) && b < |st.blocks|
    ensures b < |After(st, op).blocks| && st.blocks[b].frees <= After(st, op).blocks[b].frees
  {
    hide Holders, Framed, Trimmed, Laid, Denote;
  }

  /** Bulk copies into each of some slots. */
  function BulkCopies(ds: seq<nat>, s: nat): seq<Op> {
    if ds == [] then [] else [BulkCp(ds[0], s)] + BulkCopies(ds[1..], s)
  }

  function Owed(st: State, s: nat): nat {
    if s < |st.slots| && st.slots[s].Long? && st.slots[s].block < |st.blocks|
    then st.blocks[st.slots[s].block].owed else 0
  }

  /** The slots ds now stand for what s stands for, and all others for what they did. */
  ghost predicate Copied(was: seq<Meaning>, now: seq<Meaning>, ds: seq<nat>, s: nat)
    requires s < |was|
  {
    && |now| == |was|
    && forall d | 0 <= d < |was| :: now[d] == if d in ds then was[s] else was[d]
  }

  ghost predicate Targets(st: State, ds: seq<nat>, s: nat) {
    && Reference(st, s) && s !in ds
    && (forall i | 0 <= i < |ds| :: Spare(st, ds[i]))
    && (forall i, j | 0 <= i < j < |ds| :: ds[i] != ds[j])
  }

  /** The copies that were announced may all be made, and then that many fewer are owed. */
  lemma {:induction false} BulkCopiesMean(st: State, ds: seq<nat>, s: nat)
    requires Inv(st) && Targets(st, ds, s)
    requires st.slots[s].Long? ==> Owed(st, s) >= |ds|
    ensures LegalRun(st, BulkCopies(ds, s))
    ensures var end := Ran(st, BulkCopies(ds, s));
      && Inv(end) && Copied(Meanings(st), Meanings(end), ds, s)
      && |end.slots| == |st.slots| && end.slots[s] == st.slots[s]
      && (st.slots[s].Long? ==> Owed(end, s) == Owed(st, s) - |ds|)
    decreases |ds|
  {
    if ds != [] {
      BulkCopyFirst(st, ds, s);
      hide *;
      var op := BulkCp(ds[0], s);
      BulkCopiesMean(After(st, op), ds[1..], s);
      BulkRun(st, ds, s);
      CopiedFirst(Meanings(st), Meanings(After(st, op)), Meanings(Ran(st, BulkCopies(ds, s))), ds, s);
    }
  }

  lemma BulkRun(st: State, ds: seq<nat>, s: nat)
    requires ds != [] && Anchored(st) && Legal(st, BulkCp(ds[0], s))
    requires LegalRun(After(st, BulkCp(ds[0], s)), BulkCopies(ds[1..], s))
    ensures LegalRun(st, BulkCopies(ds, s))
    ensures Ran(st, BulkCopies(ds, s)) == Ran(After(st, BulkCp(ds[0], s)), BulkCopies(ds[1..], s))
  {
    assert BulkCopies(ds, s)[1..] == BulkCopies(ds[1..], s);
  }

  lemma CopiedFirst(was: seq<Meaning>, mid: seq<Meaning>, now: seq<Meaning>, ds: seq<nat>, s: nat)
    requires ds != [] && s < |was| && s != ds[0] && mid == Set(was, ds[0], was[s])
    requires s < |mid| && Copied(mid, now, ds[1..], s)
    ensures Copied(was, now, ds, s)
  {
    assert ds == [ds[0]] + ds[1..];
  }

  lemma BulkCopyFirst(st: State, ds: seq<nat>, s: nat)
    requires Inv(st) && Targets(st, ds, s) && ds != []
    requires st.slots[s].Long? ==> Owed(st, s) >= |ds|
    ensures var op := BulkCp(ds[0], s);
      && Legal(st, op)
      && var next := After(st, op);
      && Inv(next) && Targets(next, ds[1..], s) && Meanings(next) == Set(Meanings(st), ds[0], Meanings(st)[s])
      && |next.slots| == |st.slots| && next.slots[s] == st.slots[s]
      && (st.slots[s].Long? ==> Owed(next, s) == Owed(st, s) - 1)
  {
    hide Counted, Framed, Holders, Denote, Meanings;
    assert Anchor(st.blocks, st.slots[s]);
    var op := BulkCp(ds[0], s);
    StepMeans(st, op);
    var next := After(st, op);
    forall i | 0 <= i < |ds[1..]| ensures Spare(next, ds[1..][i]) {
      assert ds[1..][i] == ds[i + 1] && Spare(st, ds[i + 1]);
    }
  }

  /** An announcement of as many copies as there are targets, and then all the copies: each target stands for
      the message of the source, and no more copies are owed than before. */
  lemma BulkCopyComplete(st: State, ds: seq<nat>, s: nat)
    requires Inv(st) && Targets(st, ds, s) && Legal(st, BulkStart(s, |ds|))
    ensures var ops := [BulkStart(s, |ds|)] + BulkCopies(ds, s);
      && LegalRun(st, ops)
      && Inv(Ran(st, ops)) && Copied(Meanings(st), Meanings(Ran(st, ops)), ds, s)
      && Owed(Ran(st, ops), s) == Owed(st, s)
  {
    hide Counted, Framed, Holders, Denote, Meanings;
    var op := BulkStart(s, |ds|);
    assert Anchor(st.blocks, st.slots[s]);
    StepMeans(st, op);
    var next := After(st, op);
    assert next.slots == st.slots;
    BulkCopiesMean(next, ds, s);
    assert ([op] + BulkCopies(ds, s))[1..] == BulkCopies(ds, s);
  }

  /** Trimming a chunk by n > 0 bytes while somebody else holds it takes bytes from the other's message too:
      pointers stay anchored exactly when nothing is trimmed or nobody else is there. */
  lemma TrimIsSafeAlone(st: State, d: nat, n: nat)
    requires Inv(st) && d < |st.slots| && st.slots[d].Long?
    requires n <= st.blocks[st.slots[d].block].size && Fits(st.slots[d].p, n)
    ensures Anchored(Trimming(st, d, n)) <==> n == 0 || Holders(st.slots, st.slots[d].block) == 1
  {
    var b := st.slots[d].block;
    if n == 0 || Holders(st.slots, b) == 1 {
      TrimChunk(st, d, n);
    } else {
      var i := Another(st.slots, d, b);
      var st' := Trimming(st, d, n);
      assert Anchor(st.blocks, st.slots[i]) && Anchor(st.blocks, st.slots[d]);
      assert st'.slots[i] == st.slots[i];
      assert !Anchor(st'.blocks, st'.slots[i]);
    }
  }

  /** Who else holds the chunk. */
  lemma Another(slots: seq<Slot>, d: nat, b: nat) returns (i: nat)
    requires d < |slots| && PointsTo(slots[d], b) && Holders(slots, b) != 1
    ensures i < |slots| && i != d && PointsTo(slots[i], b)
  {
    HoldersUpdate(slots, d, Empty, b);
    HoldersSome(slots, d, b);
    var rest := slots[d := Empty];
    if forall i | 0 <= i < |rest| :: !PointsTo(rest[i], b) {
      HoldersNone(rest, b);
    }
    i :| 0 <= i < |rest| && PointsTo(rest[i], b);
  }

  /** A message of 32 bytes, copied: the two references share a chunk, and trimming one of them by a byte takes a
      byte from the other. */
  lemma SharedTrim(data: bytes)
    requires |data| == CHUNKREF_MAX
    ensures var start, ops := State([], [Empty, Empty]), [Init(0, data)] + ([Cp(1, 0)] + []);
      && LegalRun(start, ops)
      && var st := Ran(start, ops);
      && Inv(st)
      && st == State([Allocated(data).(count := 2)], [Long(0, HEADER_SIZE), Long(0, HEADER_SIZE)])
      && !Anchored(Trimming(st, 0, 1))
  {
    hide Trimmed, Laid;
    var start := State([], [Empty, Empty]);
    var one := After(start, Init(0, data));
    StepMeans(start, Init(0, data));
    assert one.slots == [Long(0, HEADER_SIZE), Empty];
    TwoHolders(HEADER_SIZE);
    assert Anchor(one.blocks, one.slots[0]);
    var two := After(one, Cp(1, 0));
    StepMeans(one, Cp(1, 0));
    assert two.slots == [Long(0, HEADER_SIZE), Long(0, HEADER_SIZE)];
    RunCons(one, Cp(1, 0), []);
    RunCons(start, Init(0, data), [Cp(1, 0)] + []);
    assert Anchor(two.blocks, two.slots[0]);
    TrimIsSafeAlone(two, 0, 1);
  }

  lemma TwoHolders(p: nat)
    ensures Holders([Long(0, p), Empty], 0) == 1 && Holders([Long(0, p), Long(0, p)], 0) == 2
  {
    assert [Long(0, p), Empty][1..] == [Empty] && [Long(0, p), Long(0, p)][1..] == [Long(0, p)];
    assert [Empty][1..] == [] && [Long(0, p)][1..] == [];
  }

  lemma RunCons(st: State, op: Op, ops: seq<Op>)
    requires Anchored(st) && Legal(st, op) && LegalRun(After(st, op), ops)
    ensures LegalRun(st, [op] + ops) && Ran(st, [op] + ops) == Ran(After(st, op), ops)
  {
    assert ([op] + ops)[1..] == ops;
  }
}
