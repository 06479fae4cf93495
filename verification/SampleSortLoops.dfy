/** The loops of the root task and of the bucket tasks, against what module SampleSort says they
    compute. */
module SampleSortLoops {
  import opened SampleSort
  import opened Words

  // ---------------------------------------------------------------------------------------
  // The comparison that the sorts are given

  /** A difference, cut to 32 bits. */
  function Compare(a: int32, b: int32): int32 {
    var d: int := a - b;
    if d < -0x8000_0000 then d + WORD32 else if d >= 0x8000_0000 then d - WORD32 else d
  }

  /** The comparison tells how all the values of an array are ordered exactly when no two of them are 2^31 or
      more apart. */
  lemma CompareOrders(s: seq<int32>)
    ensures (forall i, j | 0 <= i < |s| && 0 <= j < |s| ::
               (Compare(s[i], s[j]) < 0 <==> s[i] < s[j]) && (Compare(s[i], s[j]) == 0 <==> s[i] == s[j]))
       <==> (forall i, j | 0 <= i < |s| && 0 <= j < |s| :: s[i] as int - s[j] as int < 0x8000_0000)
  {
    if i, j :| 0 <= i < |s| && 0 <= j < |s| && s[i] as int - s[j] as int >= 0x8000_0000 {
      assert Compare(s[i], s[j]) < 0;
    }
  }

  /** The largest value is taken to be smaller than -1. */
  lemma CompareFlips()
    ensures Compare(0x7fff_ffff, -1) < 0 && Compare(0x7fff_ffff, -1) == -0x8000_0000
  {
  }

  // ---------------------------------------------------------------------------------------
  // Sampling

  const RAND_RANGE := 0x8000_0000

  /** A draw is rejected when it falls into the incomplete last bin. */
  predicate Accepted(x: nat, max: nat) {
    x < RAND_RANGE - RAND_RANGE % (max + 1)
  }

  function BinSize(max: nat): nat {
    RAND_RANGE / (max + 1)
  }

  /** The accepted draws that yield r are a range of exactly one bin's size, for every r from 0 to max
      and for no other.  Of the 2^31 draws no more than max are rejected, the highest ones. */
  lemma RandomAtMost(x: nat, max: nat, r: nat)
    requires max < RAND_RANGE
    ensures BinSize(max) > 0
    ensures Accepted(x, max) && x / BinSize(max) == r
            <==> r <= max && r * BinSize(max) <= x < (r + 1) * BinSize(max)
    ensures x < 0x8000_0000 && !Accepted(x, max) ==> 0x8000_0000 - x <= max
  {
    var bins, size := max + 1, BinSize(max);
    DivMod(RAND_RANGE, bins);
    assert RAND_RANGE - RAND_RANGE % bins == bins * size;
    if r <= max {
      MulOrder(r + 1, bins, size);
    } else {
      MulOrder(bins, r, size);
    }
    DivRange(x, size, r);
  }

  lemma MulOrder(a: nat, b: nat, q: nat)
    requires a <= b
    ensures 0 <= a * q <= b * q && (a + 1) * q == a * q + q
  {
    assert (b - a) * q >= 0;
    assert b * q == a * q + (b - a) * q;
  }

  lemma DivMod(n: nat, d: nat)
    requires 0 < d
    ensures n == d * (n / d) + n % d && (d <= n ==> n / d > 0)
  {
    assert n / d == 0 ==> d * (n / d) == 0;
  }

  lemma DivRange(x: nat, size: nat, r: nat)
    requires 0 < size
    ensures x / size == r <==> r * size <= x < (r + 1) * size
  {
    DivMod(x, size);
    var q := x / size;
    if q < r { MulOrder(q + 1, r, size); } else if r < q { MulOrder(r + 1, q, size); }
    assert q * size == size * q;
    MulOrder(q, q + 1, size);
  }

  /** The sampling loop: the values at the chosen indices. */
  method TakeSamples(data: array<int>, choice: seq<nat>) returns (samples: array<int>)
    requires forall j :: 0 <= j < |choice| ==> choice[j] < data.Length
    ensures fresh(samples) && samples.Length == |choice|
    ensures forall j :: 0 <= j < |choice| ==> samples[j] == data[choice[j]]
  {
    samples := new int[|choice|];
    for i := 0 to |choice|
      invariant forall j :: 0 <= j < i ==> samples[j] == data[choice[j]]
    {
      samples[i] := data[choice[i]];
    }
  }

  /** The splitter loop, on the sorted samples. */
  method PickSplitters(samples: array<int>, k: nat) returns (splitters: array<int>)
    requires samples.Length == SAMPLE_SIZE && k > 0
    ensures fresh(splitters) && splitters[..] == Splitters(samples[..], k)
  {
    splitters := new int[k];
    var step := SAMPLE_SIZE / k;
    for i := 0 to k - 1
      invariant forall j :: 0 <= j < i ==> splitters[j] == Splitters(samples[..], k)[j]
    {
      SplitterIndex(k, i);
      splitters[i] := samples[(i + 1) * step];
    }
    splitters[k - 1] := LAST_SPLITTER;
  }

  /** The partition loop: the start and the size of each bucket's share. */
  method ShareOut(n: nat, k: nat) returns (starts: array<int>, sizes: array<int>)
    requires k > 0
    ensures fresh(starts) && fresh(sizes) && starts.Length == sizes.Length == k
    ensures forall i :: 0 <= i < k ==>
              starts[i] == SliceStart(n, k, i) && starts[i] + sizes[i] == SliceStart(n, k, i + 1)
    ensures forall i :: 0 <= i < k ==>
              starts[i] == i * (n / k) && sizes[i] == if i + 1 < k then n / k else n - (k - 1) * (n / k)
  {
    starts, sizes := new int[k], new int[k];
    var share, current := n / k, 0;
    for i := 0 to k
      invariant current == Offset(share, i)
      invariant forall j :: 0 <= j < i ==>
                  starts[j] == SliceStart(n, k, j) && starts[j] + sizes[j] == SliceStart(n, k, j + 1)
      invariant forall j :: 0 <= j < i ==>
                  starts[j] == j * share && sizes[j] == if j + 1 < k then share else n - (k - 1) * share
    {
      OffsetIs(share, i);
      starts[i], sizes[i] := current, if i < k - 1 then share else n - current;
      current := current + share;
    }
  }

  // ---------------------------------------------------------------------------------------
  // The two passes of a bucket

  /** The search for the bucket of a value. */
  method FindBucket(v: int, splitters: array<int>) returns (b: nat)
    requires splitters.Length > 0
    ensures b == BucketOf(v, splitters[..])
  {
    b := 0;
    while b < splitters.Length
      invariant b < splitters.Length
      invariant BucketOf(v, splitters[..]) == b + BucketOf(v, splitters[..][b..])
      decreases splitters.Length - b
    {
      if v <= splitters[b] || b == splitters.Length - 1 {
        return;
      }
      assert splitters[..][b..][1..] == splitters[..][b + 1..];
      b := b + 1;
    }
  }

  /** The count pass: how many values belong to each bucket. */
  method CountPass(data: array<int>, splitters: array<int>) returns (counts: array<int>)
    requires splitters.Length > 0
    ensures fresh(counts) && counts.Length == splitters.Length
    ensures forall b :: 0 <= b < counts.Length ==> counts[b] == |Part(data[..], splitters[..], b)|
  {
    counts := new int[splitters.Length](_ => 0);
    for i := 0 to data.Length
      invariant forall b :: 0 <= b < counts.Length ==> counts[b] == |Part(data[..i], splitters[..], b)|
    {
      var b := FindBucket(data[i], splitters);
      counts[b] := counts[b] + 1;
      assert data[..i + 1][..i] == data[..i];
    }
    assert data[..data.Length] == data[..];
  }

  lemma {:induction false} PartGrows(data: seq<int>, splitters: seq<int>, b: nat, i: nat)
    requires splitters != [] && i <= |data|
    ensures |Part(data[..i], splitters, b)| <= |Part(data, splitters, b)|
    decreases |data|
  {
    var n := |data| - 1;
    if i <= n {
      PartGrows(data[..n], splitters, b, i);
      assert data[..n][..i] == data[..i];
    } else {
      assert data[..i] == data;
    }
  }

  /** One array of the counted size for each bucket, no two of them the same, and in current how much
      of each is filled. */
  ghost predicate Layout(values: array<array<int>>, current: array<int>, counts: array<int>)
    reads values, current, counts
  {
    && values.Length == current.Length == counts.Length
    && (forall b :: 0 <= b < values.Length ==> values[b].Length == counts[b] && 0 <= current[b] <= counts[b])
    && (forall b :: 0 <= b < values.Length ==> values[b] != current && values[b] != counts)
    && forall c, d :: 0 <= c < d < values.Length ==> values[c] != values[d]
  }

  /** What has been filled of each array. */
  ghost function Filled(values: array<array<int>>, current: array<int>, counts: array<int>): (f: seq<seq<int>>)
    requires Layout(values, current, counts)
    reads values, current, counts, set b | 0 <= b < values.Length :: values[b]
    ensures |f| == counts.Length
  {
    seq(values.Length, b requires 0 <= b < values.Length && Layout(values, current, counts)
      reads values, current, counts, set c | 0 <= c < values.Length :: values[c] => values[b][..current[b]])
  }

  method Allocate(counts: array<int>) returns (values: array<array<int>>, current: array<int>)
    requires forall b :: 0 <= b < counts.Length ==> counts[b] >= 0
    ensures fresh(values) && fresh(current) && current != counts && Layout(values, current, counts)
    ensures forall b :: 0 <= b < values.Length ==> fresh(values[b])
    ensures forall b :: 0 <= b < values.Length ==> Filled(values, current, counts)[b] == []
  {
    var k := counts.Length;
    values := new array<int>[k](_ => counts);
    current := new int[k](_ => 0);
    for b := 0 to k
      invariant forall c :: 0 <= c < b ==>
                  fresh(values[c]) && values[c].Length == counts[c] && values[c] != current && values[c] != counts
      invariant forall c :: 0 <= c < k ==> current[c] == 0
      invariant forall c, d :: 0 <= c < d < b ==> values[c] != values[d]
    {
      values[b] := new int[counts[b]];
    }
    assert Layout(values, current, counts);
    forall b | 0 <= b < values.Length ensures Filled(values, current, counts)[b] == [] {
      assert current[b] == 0;
    }
  }

  /** Puts v at the end of what is filled of the array of bucket b. */
  method Put(values: array<array<int>>, current: array<int>, counts: array<int>, b: nat, v: int)
    requires current != counts && Layout(values, current, counts) && b < counts.Length && current[b] < counts[b]
    modifies values[b], current
    ensures Layout(values, current, counts)
    ensures var was := old(Filled(values, current, counts));
            Filled(values, current, counts) == was[b := was[b] + [v]]
  {
    ghost var was := Filled(values, current, counts);
    values[b][current[b]] := v;
    current[b] := current[b] + 1;
    forall c | 0 <= c < counts.Length && c != b ensures Filled(values, current, counts)[c] == was[c] {
      assert values[c] != values[b];
    }
    assert values[b][..current[b]] == was[b] + [v];
  }

  lemma PartStep(all: seq<int>, splitters: seq<int>, i: nat, c: nat)
    requires splitters != [] && i < |all|
    ensures Part(all[..i + 1], splitters, c) ==
            Part(all[..i], splitters, c) + if c == BucketOf(all[i], splitters) then [all[i]] else []
  {
    hide BucketOf;
    assert all[..i + 1][..i] == all[..i] && all[..i + 1][i] == all[i];
  }

  lemma PartsGrow(all: seq<int>, splitters: seq<int>, i: nat)
    requires splitters != [] && i < |all|
    ensures var k, b := |splitters|, BucketOf(all[i], splitters);
            var ps := Parts(all[..i], splitters, k);
            && Parts(all[..i + 1], splitters, k) == ps[b := ps[b] + [all[i]]]
            && |ps[b]| < |Part(all, splitters, b)|
  {
    hide Part;
    hide BucketOf;
    var k, b := |splitters|, BucketOf(all[i], splitters);
    PartGrows(all, splitters, b, i + 1);
    PartStep(all, splitters, i, b);
    forall c | 0 <= c < k && c != b
      ensures Part(all[..i + 1], splitters, c) == Part(all[..i], splitters, c)
    {
      PartStep(all, splitters, i, c);
    }
  }

  /** The fill pass: every write lands inside the array of its bucket, and in the end each array is
      exactly full. */
  method FillPass(data: array<int>, splitters: array<int>, counts: array<int>) returns (values: array<array<int>>)
    requires splitters.Length > 0 && counts.Length == splitters.Length
    requires forall b :: 0 <= b < counts.Length ==> counts[b] == |Part(data[..], splitters[..], b)|
    ensures fresh(values) && values.Length == splitters.Length
    ensures forall b :: 0 <= b < values.Length ==> values[b][..] == Part(data[..], splitters[..], b)
  {
    var current;
    values, current := Allocate(counts);
    ghost var all, splits := data[..], splitters[..];
    assert Filled(values, current, counts) == Parts(all[..0], splits, |splits|);
    hide Part, Parts, BucketOf;
    for i := 0 to data.Length
      invariant data[..] == all && splitters[..] == splits && counts[..] == old(counts[..])
      invariant Layout(values, current, counts) && forall b :: 0 <= b < values.Length ==> fresh(values[b])
      invariant Filled(values, current, counts) == Parts(all[..i], splits, |splits|)
    {
      var b := FindBucket(data[i], splitters);
      PartsGrow(all, splits, i);
      assert |Filled(values, current, counts)[b]| == current[b];
      Put(values, current, counts, b, data[i]);
    }
    assert all[..data.Length] == all;
    AllFilled(values, current, counts, all, splits);
  }

  /** Arrays that hold all the values of their buckets are full. */
  lemma AllFilled(values: array<array<int>>, current: array<int>, counts: array<int>, all: seq<int>, splits: seq<int>)
    requires splits != [] && Layout(values, current, counts)
    requires Filled(values, current, counts) == Parts(all, splits, |splits|)
    requires forall b :: 0 <= b < counts.Length ==> counts[b] == |Part(all, splits, b)|
    ensures forall b :: 0 <= b < values.Length ==> values[b][..] == Part(all, splits, b)
  {
    hide Part;
    forall b | 0 <= b < values.Length ensures values[b][..] == Part(all, splits, b) {
      assert Filled(values, current, counts)[b] == values[b][..current[b]] == Parts(all, splits, |splits|)[b];
    }
  }

  /** The rebuilding loops: all given arrays, one after the other. */
  method Rebuild(values: seq<seq<int>>) returns (result: array<int>)
    ensures fresh(result) && result[..] == Flatten(values)
  {
    var size := 0;
    for i := 0 to |values|
      invariant size + |Flatten(values[i..])| == |Flatten(values)|
    {
      assert values[i..][1..] == values[i + 1..];
      size := size + |values[i]|;
    }
    result := new int[size];
    var index := 0;
    for i := 0 to |values|
      invariant index + |Flatten(values[i..])| == size == result.Length
      invariant result[..index] + Flatten(values[i..]) == Flatten(values)
    {
      assert values[i..][1..] == values[i + 1..];
      ghost var done := result[..index];
      for j := 0 to |values[i]|
        invariant index == |done| + j <= result.Length
        invariant |done| + |values[i]| <= result.Length
        invariant result[..index] == done + values[i][..j]
      {
        result[index] := values[i][j];
        index := index + 1;
      }
      assert values[i][..|values[i]|] == values[i];
    }
  }
}
