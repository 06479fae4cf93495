/** The message queue: one buffer of bytes with variable-length records, read at the head, written at
    the tail, and at times rolled over from the end of the buffer to its beginning. */
module RingQueue {
  import opened Words
  import opened Messages

  const Q_SIZE := 1000000
  const QUEUE_HEADER := 56

  function Flatten(records: seq<bytes>): bytes {
    if records == [] then [] else records[0] + Flatten(records[1..])
  }

  lemma {:induction false} FlattenConcat(a: seq<bytes>, b: seq<bytes>)
    ensures Flatten(a + b) == Flatten(a) + Flatten(b)
    decreases |a|
  {
    if a == [] {
      assert a + b == b;
    } else {
      FlattenConcat(a[1..], b);
      assert (a + b)[1..] == a[1..] + b;
    }
  }

  lemma FlattenOne(r: bytes)
    ensures Flatten([r]) == r
  {
    assert Flatten([r]) == r + Flatten([]) == r;
  }

  lemma FlattenAppend(a: seq<bytes>, r: bytes)
    ensures Flatten(a + [r]) == Flatten(a) + r
  {
    FlattenConcat(a, [r]);
    FlattenOne(r);
  }

  /** The first of the records that tile a stretch of the buffer, and the others. */
  lemma FirstTile(mem: bytes, a: nat, b: nat, records: seq<bytes>)
    requires a <= b <= |mem| && mem[a..b] == Flatten(records) && records != []
    ensures var n := a + |records[0]|;
            n <= b && mem[a..n] == records[0] && mem[n..b] == Flatten(records[1..])
  {
    var n, r := a + |records[0]|, Flatten(records);
    assert r == records[0] + Flatten(records[1..]);
    assert mem[a..n] == r[..|records[0]|] && mem[n..b] == r[|records[0]|..];
  }

  class Queue {
    const mem: array<byte>     // the shared segment; the fields below live in its first bytes
    var head: nat
    var tail: nat
    var size: nat
    var rollover: int          // where the tail went back to the start, or -1
    ghost var upper: seq<bytes>  // the live records from head to the tail, or to the rollover mark
    ghost var lower: seq<bytes>  // after a rollover, those from the start of the buffer to the tail
    ghost var fifo: seq<Message> // the messages they hold, oldest first

    /** The live records tile the space between head and tail, or between head and the rollover mark
        and from the start to the tail; the fields agree with them. */
    ghost predicate Tiled(buf: bytes)
      requires |buf| == Q_SIZE
      reads this
    {
      && QUEUE_HEADER <= head <= Q_SIZE && QUEUE_HEADER <= tail <= Q_SIZE
      && size == |fifo| == |upper + lower|
      && (forall i :: 0 <= i < |fifo| ==> Holds((upper + lower)[i], fifo[i]))
      && if rollover == -1 then
           head <= tail && lower == [] && buf[head..tail] == Flatten(upper)
         else
           && tail <= head <= rollover <= Q_SIZE && lower != []
           && buf[head..rollover] == Flatten(upper) && buf[QUEUE_HEADER..tail] == Flatten(lower)
    }

    ghost predicate Valid()
      reads this, mem
    {
      mem.Length == Q_SIZE && Tiled(mem[..])
    }

    /** A write into free room leaves the live records alone. */
    lemma TiledKept(before: bytes, after: bytes, at: nat, n: nat)
      requires |before| == |after| == Q_SIZE && Tiled(before)
      requires at == Room(head, tail, rollover, n) && at != 0
      requires forall i :: 0 <= i < Q_SIZE && !(at <= i < at + n) ==> after[i] == before[i]
      ensures Tiled(after)
    {
      hide Holds;
      hide Flatten;
      if rollover == -1 {
        assert after[head..tail] == before[head..tail];
      } else {
        assert after[head..rollover] == before[head..rollover];
        assert after[QUEUE_HEADER..tail] == before[QUEUE_HEADER..tail];
      }
    }

    constructor ()
      ensures Valid() && fresh(mem) && fifo == []
      ensures head == tail == QUEUE_HEADER && rollover == -1
    {
      mem := new byte[Q_SIZE](_ => 0);
      head, tail, size, rollover := QUEUE_HEADER, QUEUE_HEADER, 0, -1;
      upper, lower, fifo := [], [], [];
    }

    /** Where the next record is read. */
    function ReadPosition(): nat
      reads this
    {
      if head == rollover then QUEUE_HEADER else head
    }

    /** The rollover mark is reached exactly when the upper records are used up, and the oldest record
        is read from the right place. */
    lemma FirstRecord()
      requires Valid() && size > 0
      ensures head == rollover <==> upper == []
      ensures var r := (upper + lower)[0];
              && ReadPosition() + |r| <= Q_SIZE
              && mem[ReadPosition()..ReadPosition() + |r|] == r
              && Holds(r, fifo[0])
    {
      hide Holds;
      if upper == [] {
        FirstTile(mem[..], QUEUE_HEADER, tail, lower);
      } else {
        assert mem[..][head..if rollover == -1 then tail else rollover] == Flatten(upper);
        FirstTile(mem[..], head, if rollover == -1 then tail else rollover, upper);
        HoldsSome((upper + lower)[0], fifo[0]);
      }
    }

    /** Is the queue empty? */
    method IsEmpty() returns (empty: bool)
      requires Valid()
      ensures empty == (fifo == [])
    {
      empty := size == 0;
    }

    /** Finds the oldest record and reads the message it holds. */
    method ReadFirst() returns (position: nat, n: nat, r: Option<Message>)
      requires Valid() && size > 0
      ensures position == ReadPosition() && n == |(upper + lower)[0]| == fifo[0].msgSize && r == Some(fifo[0])
    {
      FirstRecord();
      position := ReadPosition();
      ghost var rec := (upper + lower)[0];
      SizeField(mem, position, rec, fifo[0]);
      n := Load(mem[..], position + SIZE);
      CloneHolds(rec, fifo[0]);
      r := Clone(mem[position..position + n]);
    }

    /** The oldest message, left in the queue. */
    method Peek() returns (r: Option<Message>)
      requires Valid()
      ensures r == if fifo == [] then None else Some(fifo[0])
    {
      if size == 0 {
        return None;
      }
      var position, n;
      position, n, r := ReadFirst();
    }

    /** Takes the oldest message out of the queue and clones it. */
    method Dequeue() returns (r: Option<Message>)
      requires Valid()
      modifies this
      ensures Valid()
      ensures if old(fifo) == [] then r == None && unchanged(this)
              else r == Some(old(fifo)[0]) && fifo == old(fifo)[1..]
      ensures r.Some? ==>
                && head == (if old(head) == old(rollover) then 56 else old(head)) + r.value.msgSize
                && rollover == (if old(head) == old(rollover) then -1 else old(rollover)) && tail == old(tail)
    {
      if size == 0 {
        return None;
      }
      var position, n;
      position, n, r := ReadFirst();
      DropFirst(position, n);
    }

    /** Writes a message behind the others, if there is room for it: behind the tail, or at the start of the buffer
        when the end is too near.  A refused message changes nothing at all; otherwise nothing but the stretch where
        the message now stands is touched. */
    method Enqueue(item: Message) returns (ok: bool, after: Message)
      requires Valid() && Sound(item) && AfterWrite(item).msgSize < 0x8000_0000
      requires tail + item.msgSize < 0x8000_0000   // the C int does not overflow
      modifies this, mem
      ensures Valid()
      ensures ok == if old(rollover) != -1 then old(tail) + item.msgSize <= old(head)
                    else old(tail) + item.msgSize <= 1000000 || 56 + item.msgSize <= old(head)
      ensures old(fifo) == [] && 2 * item.msgSize <= 1000000 - 56 ==> ok
      ensures !ok ==> unchanged(this) && unchanged(mem) && after == item
      ensures ok ==> fifo == old(fifo) + [item] && after == AfterWrite(item) && head == old(head)
      ensures ok ==> if old(rollover) == -1 && old(tail) + item.msgSize > 1000000
                     then tail == 56 + item.msgSize && rollover == old(tail)
                     else tail == old(tail) + item.msgSize && rollover == old(rollover)
      ensures ok ==> item.msgSize <= tail <= Q_SIZE && Holds(mem[tail - item.msgSize..tail], item)
      ensures ok ==> forall i :: 0 <= i < Q_SIZE && !(tail - item.msgSize <= i < tail) ==> mem[i] == old(mem[i])
    {
      hide Holds, Flatten, Room, Sound;
      var futureTail, mark;
      ok, futureTail, mark := FindRoom(item.msgSize);
      if !ok {
        return false, item;
      }
      var at := futureTail - item.msgSize;
      ghost var before := mem[..];
      after := WriteAt(item, mem, at);
      TiledKept(before, mem[..], at, item.msgSize);
      Append(item, futureTail, mark, at);
    }

    /** Where a record of n bytes would end, and where the buffer would roll over, if it has room for the record. */
    method FindRoom(n: nat) returns (ok: bool, futureTail: nat, mark: int)
      requires Valid()
      requires tail + n < 0x8000_0000
      ensures ok == if rollover != -1 then tail + n <= head else tail + n <= 1000000 || 56 + n <= head
      ensures fifo == [] && 2 * n <= 1000000 - 56 ==> ok
      ensures ok ==> mark == if rollover == -1 && tail + n > 1000000 then tail else -1
      ensures ok ==> futureTail == (if mark == -1 then tail else 56) + n <= Q_SIZE
      ensures ok ==> futureTail - n == Room(head, tail, rollover, n) != 0
    {
      hide Holds, Flatten;
      ok, futureTail, mark := true, tail + n, -1;
      if rollover == -1 {
        if futureTail > Q_SIZE {
          futureTail, mark := QUEUE_HEADER + n, tail;
        }
        if mark != -1 && futureTail > head {
          ok := false;
        }
      } else if futureTail > head {
        ok := false;
      }
      if fifo == [] && 2 * n <= Q_SIZE - QUEUE_HEADER {
        EmptyTakes(n);
      }
    }

    /** A record of at most half the buffer always finds room in an empty queue, wherever the head is. */
    lemma EmptyTakes(n: nat)
      requires Valid() && fifo == [] && 2 * n <= Q_SIZE - QUEUE_HEADER
      ensures rollover == -1 && head == tail && (tail + n <= Q_SIZE || QUEUE_HEADER + n <= head)
    {
      assert upper == [] && lower == [];
    }

    /** Accounts for the record just written at position at, past the old tail or at the start. */
    method Append(item: Message, futureTail: nat, mark: int, ghost at: nat)
      requires mem.Length == Q_SIZE && Tiled(mem[..])
      requires at == Room(head, tail, rollover, item.msgSize) && at != 0
      requires futureTail == at + item.msgSize <= Q_SIZE && Sound(item) && Holds(mem[at..futureTail], item)
      requires mark == if rollover == -1 && tail + item.msgSize > Q_SIZE then tail else -1
      modifies this
      ensures Valid() && fifo == old(fifo) + [item]
      ensures head == old(head) && tail == futureTail && rollover == if mark == -1 then old(rollover) else mark
    {
      hide Holds, Flatten, Sound;
      ghost var rec := mem[at..futureTail];
      if mark > 0 {
        rollover := mark;
        lower := [rec];
        FlattenOne(rec);
      } else if rollover == -1 {
        FlattenAppend(upper, rec);
        assert mem[head..futureTail] == mem[head..tail] + rec;
        upper := upper + [rec];
      } else {
        FlattenAppend(lower, rec);
        assert mem[QUEUE_HEADER..futureTail] == mem[QUEUE_HEADER..tail] + rec;
        lower := lower + [rec];
      }
      tail := futureTail;
      size := size + 1;
      fifo := fifo + [item];
      assert upper + lower == old(upper + lower) + [rec];
    }

    /** Moves the head past the record of n bytes at position, and forgets a rollover mark the head has
        reached. */
    method DropFirst(position: nat, n: nat)
      requires Valid() && size > 0 && position == ReadPosition() && n == |(upper + lower)[0]|
      modifies this
      ensures Valid() && fifo == old(fifo)[1..]
      ensures head == position + n && tail == old(tail)
      ensures rollover == if old(head) == old(rollover) then -1 else old(rollover)
    {
      hide Holds;
      FirstRecord();
      if head == rollover {
        FirstTile(mem[..], QUEUE_HEADER, tail, lower);
        rollover := -1;
        upper, lower := lower[1..], [];
      } else {
        assert mem[..][head..if rollover == -1 then tail else rollover] == Flatten(upper);
        FirstTile(mem[..], head, if rollover == -1 then tail else rollover, upper);
        upper := upper[1..];
      }
      head := position + n;
      size := size - 1;
      fifo := fifo[1..];
      assert upper + lower == old(upper + lower)[1..];
    }
  }

  /** Where the buffer has room for a record of n bytes: at the tail, or at the start of the buffer when
      the end is too near, and never beyond the head once rolled over.  Zero is nowhere. */
  function Room(head: nat, tail: nat, rollover: int, n: nat): nat {
    if rollover != -1 then (if tail + n <= head then tail else 0)
    else if tail + n <= Q_SIZE then tail
    else if QUEUE_HEADER + n <= head then QUEUE_HEADER
    else 0
  }

  lemma HoldsSome(rec: bytes, m: Message)
    requires Holds(rec, m)
    ensures |rec| > 0
  {
  }

  /** The size of a record stands at a fixed offset in it. */
  lemma SizeField(mem: array<byte>, p: nat, rec: bytes, m: Message)
    requires p + |rec| <= mem.Length && mem[p..p + |rec|] == rec && Holds(rec, m)
    ensures p + SIZE + 4 <= mem.Length && Load(mem[..], p + SIZE) == |rec|
  {
    hide Word32, PayloadAt, Payload;
    var buf := mem[..];
    assert buf[p..p + |rec|] == rec && SIZE + 4 <= |rec|;
    forall i | 0 <= i < |rec| ensures buf[p + i] == rec[i] {
      assert buf[p..p + |rec|][i] == rec[i];
    }
    assert buf[p + SIZE..p + SIZE + 4] == rec[SIZE..SIZE + 4];
  }
}
