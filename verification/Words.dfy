/** Bytes, and 32-bit numbers as the machine stores them, least significant byte first. */
module Words {
  type byte = x: int | 0 <= x < 256
  type bytes = seq<byte>

  const WORD32 := 0x1_0000_0000
  const WORD64 := 0x1_0000_0000_0000_0000

  type int32 = x: int | -0x8000_0000 <= x < 0x8000_0000
  type uint32 = x: int | 0 <= x < WORD32

  /** The four bytes of a number. */
  function Bytes32(u: uint32): (b: bytes)
    ensures |b| == 4
  {
    [u % 256, u / 0x100 % 256, u / 0x1_0000 % 256, u / 0x100_0000]
  }

  function Word32(b: bytes): (u: uint32)
    requires |b| == 4
  {
    var b0: int, b1: int, b2: int, b3: int := b[0], b[1], b[2], b[3];
    b0 + 0x100 * b1 + 0x1_0000 * b2 + 0x100_0000 * b3
  }

  /** A signed number is stored as its two's complement. */
  function Unsigned(v: int32): uint32 {
    if v < 0 then v + WORD32 else v
  }

  function Signed(u: uint32): int32 {
    if u >= 0x8000_0000 then u - WORD32 else u
  }

  lemma Word32RoundTrip(u: uint32)
    ensures Word32(Bytes32(u)) == u
  {
  }

  lemma SignedRoundTrip(v: int32)
    ensures Signed(Unsigned(v)) == v
  {
  }

  /** The number at offset p of a record. */
  function Load(rec: bytes, p: nat): uint32
    requires p + 4 <= |rec|
  {
    Word32(rec[p..p + 4])
  }

  /** The bytes of u stand at offset p of a buffer. */
  ghost predicate Stored(mem: array<byte>, p: nat, u: uint32)
    reads mem
  {
    p + 4 <= mem.Length &&
    var b := Bytes32(u);
    mem[p] == b[0] && mem[p + 1] == b[1] && mem[p + 2] == b[2] && mem[p + 3] == b[3]
  }

  /** Stores a number at offset p of a buffer. */
  method Store(mem: array<byte>, p: nat, u: uint32)
    requires p + 4 <= mem.Length
    modifies mem
    ensures Stored(mem, p, u)
    ensures forall i :: 0 <= i < mem.Length && !(p <= i < p + 4) ==> mem[i] == old(mem[i])
  {
    var b := Bytes32(u);
    mem[p], mem[p + 1], mem[p + 2], mem[p + 3] := b[0], b[1], b[2], b[3];
  }

  /** A number stored in a record of a buffer is what a reader of the record finds. */
  lemma StoredLoads(mem: array<byte>, base: nat, rec: bytes, q: nat, u: uint32)
    requires base + |rec| <= mem.Length && rec == mem[base..base + |rec|] && q + 4 <= |rec|
    requires Stored(mem, base + q, u)
    ensures Load(rec, q) == u
  {
    assert rec[q..q + 4] == Bytes32(u);
    Word32RoundTrip(u);
  }
}
