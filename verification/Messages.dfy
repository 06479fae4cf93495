/** Messages, and how they are written into a buffer and read back. */
module Messages {
  import opened Words

  // Sizes and offsets of the C structures, with 8-byte pointers.
  const INTARRAY_HEADER := 88
  const TOPOLOGY_HEADER := 104
  const TOPOLOGY_TID := 4
  const INTARRAY_TID := 5

  const TAG := 0
  const TID := 4
  const SIZE := 8
  const COUNT := 48
  const ROOT_ID := 52
  const SAMPLE_SIZE := 56
  const DATA_SIZE := 60

  /** A message object.  Its msgSize is a field of its own, which a TopologyMsg changes whenever it is
      written. */
  datatype Message =
    | IntArrayMsg(tag: int32, msgSize: nat, values: seq<int32>)
    | TopologyMsg(tag: int32, msgSize: nat, rootId: int32, sampleSize: int32, dataSize: int32, ids: seq<uint32>)

  function Tid(m: Message): uint32 {
    if m.TopologyMsg? then TOPOLOGY_TID else INTARRAY_TID
  }

  function Header(m: Message): nat {
    if m.TopologyMsg? then TOPOLOGY_HEADER else INTARRAY_HEADER
  }

  /** The payload, as stored. */
  function Payload(m: Message): (p: seq<uint32>) {
    match m
    case IntArrayMsg(_, _, values) => seq(|values|, i requires 0 <= i < |values| => Unsigned(values[i]))
    case TopologyMsg(_, _, _, _, _, ids) => ids
  }

  /** A message object whose msgSize leaves room for its payload, as the creating functions set it. */
  predicate Sound(m: Message) {
    Header(m) + 4 * |Payload(m)| <= m.msgSize < 0x8000_0000
  }

  /** setValues and setBucketIds give a message exactly the size of its contents. */
  function NewIntArray(tag: int32, values: seq<int32>): (m: Message)
    requires INTARRAY_HEADER + 4 * |values| < 0x8000_0000
    ensures Sound(m) && m.msgSize == 88 + 4 * |Payload(m)|
  {
    IntArrayMsg(tag, INTARRAY_HEADER + 4 * |values|, values)
  }

  function NewTopology(tag: int32, rootId: int32, sampleSize: int32, dataSize: int32, ids: seq<uint32>): (m: Message)
    requires TOPOLOGY_HEADER + 4 * |ids| < 0x8000_0000
    ensures Sound(m) && m.msgSize == 104 + 4 * |Payload(m)|
  {
    TopologyMsg(tag, TOPOLOGY_HEADER + 4 * |ids|, rootId, sampleSize, dataSize, ids)
  }

  /** The sender's object after it has been written: a TopologyMsg grows by its payload each time. */
  function AfterWrite(m: Message): Message {
    if m.TopologyMsg? then m.(msgSize := m.msgSize + 4 * |m.ids|) else m
  }

  /** The payload words of a record, n of them from offset p on. */
  function PayloadAt(rec: bytes, p: nat, n: nat): (w: seq<uint32>)
    requires p + 4 * n <= |rec|
    ensures |w| == n
  {
    seq(n, i requires 0 <= i < n => Load(rec, p + 4 * i))
  }

  /** A record in a buffer holds m: its header fields and its payload are where a reader looks. */
  ghost predicate Holds(rec: bytes, m: Message) {
    && Sound(m) && |rec| == m.msgSize
    && Load(rec, TAG) == Unsigned(m.tag) && Load(rec, TID) == Tid(m) && Load(rec, SIZE) == m.msgSize
    && Load(rec, COUNT) == |Payload(m)|
    && PayloadAt(rec, Header(m), |Payload(m)|) == Payload(m)
    && (m.TopologyMsg? ==>
          && Load(rec, ROOT_ID) == Unsigned(m.rootId)
          && Load(rec, SAMPLE_SIZE) == Unsigned(m.sampleSize)
          && Load(rec, DATA_SIZE) == Unsigned(m.dataSize))
  }

  datatype Option<T> = None | Some(value: T)

  /** Rebinding a record by its tid and cloning it.  A record of another kind, or with a payload that
      would not fit, gives nothing. */
  function Clone(rec: bytes): Option<Message> {
    if |rec| < INTARRAY_HEADER then None
    else
      var n := Load(rec, COUNT);
      if Load(rec, TID) == INTARRAY_TID && INTARRAY_HEADER + 4 * n <= |rec| then
        Some(IntArrayMsg(Signed(Load(rec, TAG)), Load(rec, SIZE),
                         seq(n, i requires 0 <= i < n => Signed(PayloadAt(rec, INTARRAY_HEADER, n)[i]))))
      else if Load(rec, TID) == TOPOLOGY_TID && TOPOLOGY_HEADER + 4 * n <= |rec| then
        Some(TopologyMsg(Signed(Load(rec, TAG)), Load(rec, SIZE), Signed(Load(rec, ROOT_ID)),
                         Signed(Load(rec, SAMPLE_SIZE)), Signed(Load(rec, DATA_SIZE)),
                         PayloadAt(rec, TOPOLOGY_HEADER, n)))
      else None
  }

  /** What is read back is what was written: tag, kind, size and payload. */
  lemma {:induction false} CloneHolds(rec: bytes, m: Message)
    requires Holds(rec, m)
    ensures Clone(rec) == Some(m)
  {
    SignedRoundTrip(m.tag);
    match m
    case IntArrayMsg(_, _, values) =>
      var n, w := |values|, PayloadAt(rec, INTARRAY_HEADER, |values|);
      forall i | 0 <= i < n ensures Signed(w[i]) == values[i] {
        assert w[i] == Payload(m)[i];
        SignedRoundTrip(values[i]);
      }
      assert seq(n, i requires 0 <= i < n => Signed(w[i])) == values;
    case TopologyMsg(_, _, rootId, sampleSize, dataSize, _) =>
      SignedRoundTrip(rootId);
      SignedRoundTrip(sampleSize);
      SignedRoundTrip(dataSize);
  }

  /** The sender's object after it has been written k times. */
  function Written(m: Message, k: nat): Message {
    if k == 0 then m else AfterWrite(Written(m, k - 1))
  }

  /** However often an object has been sent before, what is read back is the message it started as; only
      the stored size has grown, and the record still has room for the payload. */
  lemma {:induction false} ResentTheSame(m: Message, k: nat, rec: bytes)
    requires Sound(m) && Holds(rec, Written(m, k))
    ensures Clone(rec) == Some(m.(msgSize := |rec|))
    ensures |rec| == m.msgSize + if m.TopologyMsg? then 4 * |m.ids| * k else 0
  {
    WrittenIs(m, k);
    CloneHolds(rec, Written(m, k));
  }

  lemma {:induction false} WrittenIs(m: Message, k: nat)
    ensures Written(m, k) == m.(msgSize := m.msgSize + if m.TopologyMsg? then 4 * |m.ids| * k else 0)
  {
    if k > 0 {
      WrittenIs(m, k - 1);
      if m.TopologyMsg? { assert 4 * |m.ids| * k == 4 * |m.ids| * (k - 1) + 4 * |m.ids|; }
    }
  }

  /** Writes the payload words of a message at offset p. */
  method WritePayload(mem: array<byte>, p: nat, words: seq<uint32>)
    requires p + 4 * |words| <= mem.Length
    modifies mem
    ensures forall i :: 0 <= i < |words| ==> Stored(mem, p + 4 * i, words[i])
    ensures forall i :: 0 <= i < mem.Length && !(p <= i < p + 4 * |words|) ==> mem[i] == old(mem[i])
  {
    for j := 0 to |words|
      invariant forall i :: 0 <= i < j ==> Stored(mem, p + 4 * i, words[i])
      invariant forall i :: 0 <= i < mem.Length && !(p <= i < p + 4 * j) ==> mem[i] == old(mem[i])
    {
      Store(mem, p + 4 * j, words[j]);
    }
  }

  /** Writes the header fields common to all messages, and the number of payload words. */
  method WriteHeader(mem: array<byte>, p: nat, m: Message)
    requires p + INTARRAY_HEADER <= mem.Length && Sound(m)
    modifies mem
    ensures Stored(mem, p + TAG, Unsigned(m.tag)) && Stored(mem, p + TID, Tid(m)) && Stored(mem, p + SIZE, m.msgSize)
    ensures Stored(mem, p + COUNT, |Payload(m)|)
    ensures forall i :: 0 <= i < mem.Length && !(p <= i < p + COUNT + 4) ==> mem[i] == old(mem[i])
  {
    Store(mem, p + TAG, Unsigned(m.tag));
    Store(mem, p + TID, Tid(m));
    Store(mem, p + SIZE, m.msgSize);
    Store(mem, p + COUNT, |Payload(m)|);
  }

  /** Writes a message at offset p: nothing outside the msgSize bytes from there on changes, and those
      hold the message. */
  method WriteAt(m: Message, mem: array<byte>, p: nat) returns (after: Message)
    requires Sound(m) && p + m.msgSize <= mem.Length
    modifies mem
    ensures Holds(mem[p..p + m.msgSize], m) && after == AfterWrite(m)
    ensures forall i :: 0 <= i < mem.Length && !(p <= i < p + m.msgSize) ==> mem[i] == old(mem[i])
  {
    WriteHeader(mem, p, m);
    if m.TopologyMsg? {
      Store(mem, p + ROOT_ID, Unsigned(m.rootId));
      Store(mem, p + SAMPLE_SIZE, Unsigned(m.sampleSize));
      Store(mem, p + DATA_SIZE, Unsigned(m.dataSize));
    }
    WritePayload(mem, p + Header(m), Payload(m));
    after := AfterWrite(m);
    WrittenHolds(mem, p, m);
  }

  lemma WrittenHolds(mem: array<byte>, p: nat, m: Message)
    requires Sound(m) && p + m.msgSize <= mem.Length
    requires Stored(mem, p + TAG, Unsigned(m.tag)) && Stored(mem, p + TID, Tid(m)) && Stored(mem, p + SIZE, m.msgSize)
    requires Stored(mem, p + COUNT, |Payload(m)|)
    requires m.TopologyMsg? ==>
               && Stored(mem, p + ROOT_ID, Unsigned(m.rootId))
               && Stored(mem, p + SAMPLE_SIZE, Unsigned(m.sampleSize))
               && Stored(mem, p + DATA_SIZE, Unsigned(m.dataSize))
    requires forall i :: 0 <= i < |Payload(m)| ==> Stored(mem, p + Header(m) + 4 * i, Payload(m)[i])
    ensures Holds(mem[p..p + m.msgSize], m)
  {
    hide Load, Stored, Payload, Tid, Unsigned;
    var rec := mem[p..p + m.msgSize];
    StoredLoads(mem, p, rec, TAG, Unsigned(m.tag));
    StoredLoads(mem, p, rec, TID, Tid(m));
    StoredLoads(mem, p, rec, SIZE, m.msgSize);
    StoredLoads(mem, p, rec, COUNT, |Payload(m)|);
    if m.TopologyMsg? {
      StoredLoads(mem, p, rec, ROOT_ID, Unsigned(m.rootId));
      StoredLoads(mem, p, rec, SAMPLE_SIZE, Unsigned(m.sampleSize));
      StoredLoads(mem, p, rec, DATA_SIZE, Unsigned(m.dataSize));
    }
    forall i | 0 <= i < |Payload(m)| ensures PayloadAt(rec, Header(m), |Payload(m)|)[i] == Payload(m)[i] {
      StoredLoads(mem, p, rec, Header(m) + 4 * i, Payload(m)[i]);
    }
  }
}
