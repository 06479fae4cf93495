/** Numbers on the wire: 16, 32 and 64 bits, most significant byte first. */
module Wire {
  import opened Words

  const WORD16 := 0x1_0000

  type uint16 = x: int | 0 <= x < WORD16
  type uint64 = x: int | 0 <= x < WORD64

  /** The bytes of a number, shifted and masked out. */
  function Bytes16(v: uint16): (b: bytes)
    ensures |b| == 2
  {
    [v / 0x100 % 256, v % 256]
  }

  function BigBytes32(v: uint32): (b: bytes)
    ensures |b| == 4
  {
    [v / 0x100_0000 % 256, v / 0x1_0000 % 256, v / 0x100 % 256, v % 256]
  }

  function Bytes64(v: uint64): (b: bytes)
    ensures |b| == 8
  {
    BigBytes32(v / WORD32) + BigBytes32(v % WORD32)
  }

  function Gets(b: bytes): (v: uint16)
    requires |b| == 2
  {
    var b0: int, b1: int := b[0], b[1];
    b0 * 0x100 + b1
  }

  function Getl(b: bytes): (v: uint32)
    requires |b| == 4
  {
    var b0: int, b1: int, b2: int, b3: int := b[0], b[1], b[2], b[3];
    b0 * 0x100_0000 + b1 * 0x1_0000 + b2 * 0x100 + b3
  }

  function Getll(b: bytes): (v: uint64)
    requires |b| == 8
  {
    var hi: int, lo: int := Getl(b[..4]), Getl(b[4..]);
    hi * WORD32 + lo
  }

  lemma RoundTrip16(v: uint16, b: bytes)
    requires |b| == 2
    ensures Gets(Bytes16(v)) == v
    ensures Bytes16(Gets(b)) == b
  {
    var b0: int, b1: int := b[0], b[1];
    assert (b0 * 0x100 + b1) / 0x100 == b0 && (b0 * 0x100 + b1) % 0x100 == b1;
  }

  lemma RoundTrip32(v: uint32)
    ensures Getl(BigBytes32(v)) == v
  {
    Word32RoundTrip(v);
    assert v / 0x100_0000 < 256;
  }

  lemma RoundTrip64(v: uint64)
    ensures Getll(Bytes64(v)) == v
  {
    RoundTrip32(v / WORD32);
    RoundTrip32(v % WORD32);
    assert Bytes64(v)[..4] == BigBytes32(v / WORD32) && Bytes64(v)[4..] == BigBytes32(v % WORD32);
  }

  /** The most significant byte comes first. */
  lemma NetworkOrder()
    ensures Bytes16(0x0102) == [1, 2] && BigBytes32(0x0102_0304) == [1, 2, 3, 4]
    ensures Bytes64(0x0102_0304_0506_0708) == [1, 2, 3, 4, 5, 6, 7, 8]
    ensures Gets([1, 2]) == 0x0102 && Getl([1, 2, 3, 4]) == 0x0102_0304
    ensures Getll([1, 2, 3, 4, 5, 6, 7, 8]) == 0x0102_0304_0506_0708
  {
    assert [1, 2, 3, 4, 5, 6, 7, 8][..4] == [1, 2, 3, 4];
    assert [1, 2, 3, 4, 5, 6, 7, 8][4..] == [5, 6, 7, 8];
  }

  /** The number read back from a buffer at offset p. */
  function GetAt(mem: bytes, p: nat): uint32
    requires p + 4 <= |mem|
  {
    Getl(mem[p..p + 4])
  }

  /** A buffer after the number v has been written at offset p. */
  function PutAt(mem: bytes, p: nat, v: uint32): (m: bytes)
    requires p + 4 <= |mem|
    ensures |m| == |mem|
  {
    mem[..p] + BigBytes32(v) + mem[p + 4..]
  }

  lemma PutThenGet(mem: bytes, p: nat, v: uint32)
    requires p + 4 <= |mem|
    ensures GetAt(PutAt(mem, p, v), p) == v
  {
    assert PutAt(mem, p, v)[p..p + 4] == BigBytes32(v);
    RoundTrip32(v);
  }

  lemma PutElsewhere(mem: bytes, p: nat, v: uint32, i: nat, j: nat)
    requires p + 4 <= |mem| && i <= j <= |mem| && (j <= p || p + 4 <= i)
    ensures PutAt(mem, p, v)[i..j] == mem[i..j]
  {
    hide BigBytes32;
    forall k | i <= k < j ensures PutAt(mem, p, v)[k] == mem[k] {
    }
  }

  lemma GetElsewhere(mem: bytes, p: nat, v: uint32, i: nat)
    requires p + 4 <= |mem| && i + 4 <= |mem| && (i + 4 <= p || p + 4 <= i)
    ensures GetAt(PutAt(mem, p, v), i) == GetAt(mem, i)
  {
    PutElsewhere(mem, p, v, i, i + 4);
  }

  /** Writes a 32-bit number at offset p. */
  method Putl(mem: array<byte>, p: nat, v: uint32)
    requires p + 4 <= mem.Length
    modifies mem
    ensures mem[..] == PutAt(old(mem[..]), p, v)
  {
    var b := BigBytes32(v);
    mem[p], mem[p + 1], mem[p + 2], mem[p + 3] := b[0], b[1], b[2], b[3];
  }
}
