/** What the distributed sample sort computes: slices, splitters, parts and the final arrays. */
module SampleSort {

  // ---------------------------------------------------------------------------------------
  // Sequences of sequences, sorting

  function Flatten(ss: seq<seq<int>>): seq<int> {
    if ss == [] then [] else ss[0] + Flatten(ss[1..])
  }

  ghost predicate Sorted(s: seq<int>) {
    forall i, j :: 0 <= i < j < |s| ==> s[i] <= s[j]
  }

  function Insert(x: int, s: seq<int>): (r: seq<int>)
    ensures multiset(r) == multiset(s) + multiset{x}
  {
    if s == [] then [x]
    else if x <= s[0] then [x] + s
    else
      assert s == [s[0]] + s[1..];
      [s[0]] + Insert(x, s[1..])
  }

  lemma {:induction false} InsertSorted(x: int, s: seq<int>)
    requires Sorted(s)
    ensures Sorted(Insert(x, s))
    decreases |s|
  {
    if s == [] || x <= s[0] {
      return;
    }
    var r := Insert(x, s[1..]);
    InsertSorted(x, s[1..]);
    assert Insert(x, s) == [s[0]] + r;
    hide Insert;
    forall v | v in r ensures s[0] <= v {
      assert v in multiset(r);
      assert v == x || v in s[1..];
    }
    ConsSorted(s[0], r);
  }

  lemma ConsSorted(a: int, r: seq<int>)
    requires Sorted(r) && forall v :: v in r ==> a <= v
    ensures Sorted([a] + r)
  {
    forall i | 0 <= i < |r| ensures a <= r[i] {
      assert r[i] in r;
    }
  }

  /** The library sort: some sorted permutation of its argument; there is only one. */
  function Sort(s: seq<int>): (r: seq<int>)
    ensures Sorted(r) && multiset(r) == multiset(s)
  {
    if s == [] then [] else
      assert s == [s[0]] + s[1..];
      InsertSorted(s[0], Sort(s[1..]));
      Insert(s[0], Sort(s[1..]))
  }

  // ---------------------------------------------------------------------------------------
  // Slices of the data, one for each bucket task

  /** The sum of i shares of q values. */
  function Offset(q: nat, i: nat): nat {
    if i == 0 then 0 else Offset(q, i - 1) + q
  }

  lemma {:induction false} OffsetIs(q: nat, i: nat)
    ensures Offset(q, i) == i * q
  {
    if i > 0 { OffsetIs(q, i - 1); }
  }

  lemma {:induction false} OffsetOrder(q: nat, i: nat, k: nat)
    requires i <= k
    ensures Offset(q, i) <= Offset(q, k)
    decreases k
  {
    if i < k { OffsetOrder(q, i, k - 1); }
  }

  lemma ShareBound(n: nat, k: nat, i: nat)
    requires 0 < k && i <= k
    ensures Offset(n / k, i) <= n
  {
    OffsetOrder(n / k, i, k);
    OffsetIs(n / k, k);
  }

  /** Where slice i begins when n values are shared among k tasks; the last slice ends with them. */
  function SliceStart(n: nat, k: nat, i: nat): (p: nat)
    requires 0 < k && i <= k
    ensures p <= n
  {
    if i == k then n else (ShareBound(n, k, i); Offset(n / k, i))
  }

  /** The slice of bucket i: n / k values each, and the rest for the last one. */
  function Slice(data: seq<int>, k: nat, i: nat): seq<int>
    requires i < k
  {
    SliceOrder(|data|, k, i);
    data[SliceStart(|data|, k, i)..SliceStart(|data|, k, i + 1)]
  }

  /** Every slice but the last has the same size, and they follow each other without gaps. */
  lemma SliceSize(data: seq<int>, k: nat, i: nat)
    requires i < k
    ensures var share := |data| / k;
      if i + 1 < k
      then && (i + 1) * share <= |data| && |Slice(data, k, i)| == share
           && Slice(data, k, i) == data[i * share..(i + 1) * share]
      else (k - 1) * share <= |data| && Slice(data, k, i) == data[(k - 1) * share..]
  {
    SliceOrder(|data|, k, i);
    OffsetIs(|data| / k, i);
    OffsetIs(|data| / k, i + 1);
  }

  lemma SliceOrder(n: nat, k: nat, i: nat)
    requires i < k
    ensures SliceStart(n, k, i) <= SliceStart(n, k, i + 1)
  {
    ShareBound(n, k, i);
  }

  /** The slices of buckets i and up. */
  function Slices(data: seq<int>, k: nat, i: nat): (ss: seq<seq<int>>)
    requires i <= k
    ensures |ss| == k - i
    decreases k - i
  {
    if i == k then [] else [Slice(data, k, i)] + Slices(data, k, i + 1)
  }

  /** The slices are the data, cut into pieces and nothing else. */
  lemma {:induction false} SlicesPartition(data: seq<int>, k: nat, i: nat)
    requires 0 < k && i <= k
    ensures Flatten(Slices(data, k, i)) == data[SliceStart(|data|, k, i)..]
    decreases k - i
  {
    if i < k {
      SlicesPartition(data, k, i + 1);
      SliceOrder(|data|, k, i);
    }
  }

  // ---------------------------------------------------------------------------------------
  // Splitters

  const SAMPLE_SIZE := 1500
  const LAST_SPLITTER := 1000000

  lemma SplitterIndex(k: nat, i: nat)
    requires 0 < k && i + 1 < k
    ensures 0 <= (i + 1) * (SAMPLE_SIZE / k) < SAMPLE_SIZE
  {
    var q := SAMPLE_SIZE / k;
    ShareBound(SAMPLE_SIZE, k, i + 2);
    OffsetIs(q, i + 1);
    if q == 0 { assert (i + 1) * q == 0; }
  }

  /** The splitters picked from the sorted samples; the last one is a constant. */
  function Splitters(sorted: seq<int>, k: nat): (s: seq<int>)
    requires 0 < k && |sorted| == SAMPLE_SIZE
    ensures |s| == k
  {
    seq(k, i requires 0 <= i < k =>
      if i < k - 1 then (SplitterIndex(k, i); sorted[(i + 1) * (SAMPLE_SIZE / k)]) else LAST_SPLITTER)
  }

  /** How many values of s are smaller than v. */
  function Smaller(s: seq<int>, v: int): (n: nat)
    ensures n <= |s|
  {
    if s == [] then 0 else (if s[0] < v then 1 else 0) + Smaller(s[1..], v)
  }

  lemma {:induction false} SmallerInsert(x: int, s: seq<int>, v: int)
    ensures Smaller(Insert(x, s), v) == Smaller(s, v) + if x < v then 1 else 0
    decreases |s|
  {
    if s != [] && x > s[0] {
      SmallerInsert(x, s[1..], v);
    }
  }

  lemma {:induction false} SmallerSort(s: seq<int>, v: int)
    ensures Smaller(Sort(s), v) == Smaller(s, v)
    decreases |s|
  {
    if s != [] {
      SmallerSort(s[1..], v);
      SmallerInsert(s[0], Sort(s[1..]), v);
    }
  }

  /** The value at place r of a sorted sequence: at most r values are smaller, and more than r are not larger. */
  lemma {:induction false} Rank(s: seq<int>, r: nat)
    requires Sorted(s) && r < |s|
    ensures Smaller(s, s[r]) <= r < Smaller(s, s[r] + 1)
    decreases r
  {
    if r > 0 {
      Rank(s[1..], r - 1);
    } else {
      NoneSmaller(s, s[0]);
    }
  }

  lemma {:induction false} NoneSmaller(s: seq<int>, v: int)
    requires forall i | 0 <= i < |s| :: v <= s[i]
    ensures Smaller(s, v) == 0
    decreases |s|
  {
    if s != [] {
      NoneSmaller(s[1..], v);
    }
  }

  /** The splitters are evenly spaced among the 1500 sorted samples: in front of splitter i there are as many
      samples as i + 1 shares hold, none of them larger, and none of those behind it is smaller. */
  lemma SplitterRank(sorted: seq<int>, k: nat, i: nat)
    requires 0 < k && |sorted| == 1500 && Sorted(sorted) && i < k
    ensures var r, splitter := (i + 1) * (1500 / k), Splitters(sorted, k)[i];
      if i + 1 < k
      then && 0 <= r < 1500 && splitter == sorted[r]
           && (forall j | 0 <= j < r :: sorted[j] <= splitter) && (forall j | r <= j < 1500 :: splitter <= sorted[j])
      else splitter == 1000000
  {
    if i + 1 < k {
      SplitterAt(sorted, k, i);
    }
  }

  lemma SplitterAt(sorted: seq<int>, k: nat, i: nat)
    requires 0 < k && |sorted| == 1500 && i + 1 < k
    ensures 0 <= (i + 1) * (1500 / k) < 1500 && Splitters(sorted, k)[i] == sorted[(i + 1) * (1500 / k)]
  {
    SplitterIndex(k, i);
  }

  /** Two buckets share the samples at their median. */
  lemma MedianSplits(sorted: seq<int>)
    requires |sorted| == 1500
    ensures Splitters(sorted, 2) == [sorted[750], 1000000]
  {
    assert SAMPLE_SIZE / 2 == 750;
  }

  // ---------------------------------------------------------------------------------------
  // Parts of a slice

  /** The bucket for a value: the first whose splitter is not below it, or the last of all. */
  function BucketOf(v: int, splitters: seq<int>): (b: nat)
    requires splitters != []
    ensures b < |splitters|
    ensures forall j :: 0 <= j < b ==> splitters[j] < v
    ensures b < |splitters| - 1 ==> v <= splitters[b]
  {
    if v <= splitters[0] || |splitters| == 1 then 0 else BucketOf(v, splitters[1..]) + 1
  }

  /** The values of a slice that belong to bucket b, in order. */
  function Part(data: seq<int>, splitters: seq<int>, b: nat): (p: seq<int>)
    requires splitters != []
    ensures |p| <= |data|
  {
    if data == [] then []
    else
      var n := |data| - 1;
      Part(data[..n], splitters, b) + if BucketOf(data[n], splitters) == b then [data[n]] else []
  }

  lemma {:induction false} PartMembers(data: seq<int>, splitters: seq<int>, b: nat)
    requires splitters != []
    ensures forall v :: v in Part(data, splitters, b) ==> BucketOf(v, splitters) == b
    decreases |data|
  {
    if data != [] { PartMembers(data[..|data| - 1], splitters, b); }
  }

  function Parts(data: seq<int>, splitters: seq<int>, k: nat): (ps: seq<seq<int>>)
    requires splitters != []
    ensures |ps| == k
  {
    seq(k, b requires 0 <= b < k => Part(data, splitters, b))
  }

  // ---------------------------------------------------------------------------------------
  // Columns: what bucket b is given of every slice

  /** The b-th part of each sub-array, in the order in which those arrived. */
  function Column(subs: seq<seq<seq<int>>>, b: nat): (c: seq<seq<int>>)
    requires forall s :: s in subs ==> b < |s|
    ensures |c| == |subs|
  {
    seq(|subs|, j requires 0 <= j < |subs| => (assert subs[j] in subs; subs[j][b]))
  }

  /** What bucket b ends up with: its column, put together and sorted. */
  function Final(subs: seq<seq<seq<int>>>, b: nat): (f: seq<int>)
    requires forall s :: s in subs ==> b < |s|
    ensures Sorted(f) && multiset(f) == multiset(Flatten(Column(subs, b)))
  {
    Sort(Flatten(Column(subs, b)))
  }

  // ---------------------------------------------------------------------------------------
  // How often a value occurs

  /** How often v occurs in all the sequences together. */
  ghost function CountIn(ss: seq<seq<int>>, v: int): nat {
    if ss == [] then 0 else multiset(ss[0])[v] + CountIn(ss[1..], v)
  }

  lemma {:induction false} FlattenCount(ss: seq<seq<int>>, v: int)
    ensures multiset(Flatten(ss))[v] == CountIn(ss, v)
    decreases |ss|
  {
    if ss != [] { FlattenCount(ss[1..], v); }
  }

  lemma {:induction false} PartCount(data: seq<int>, splitters: seq<int>, b: nat, v: int)
    requires splitters != []
    ensures multiset(Part(data, splitters, b))[v] ==
            if BucketOf(v, splitters) == b then multiset(data)[v] else 0
    decreases |data|
  {
    if data != [] {
      var n := |data| - 1;
      PartCount(data[..n], splitters, b, v);
      assert data == data[..n] + [data[n]];
    }
  }

  /** How often v occurs in the b-th parts. */
  ghost function Mass(subs: seq<seq<seq<int>>>, b: nat, v: int): nat
    requires forall s :: s in subs ==> b < |s|
  {
    if subs == [] then 0 else multiset(subs[0][b])[v] + Mass(subs[1..], b, v)
  }

  lemma {:induction false} ColumnMass(subs: seq<seq<seq<int>>>, b: nat, v: int)
    requires forall s :: s in subs ==> b < |s|
    ensures CountIn(Column(subs, b), v) == Mass(subs, b, v)
    decreases |subs|
  {
    if subs != [] {
      ColumnMass(subs[1..], b, v);
      assert Column(subs, b)[1..] == Column(subs[1..], b);
    }
  }

  lemma {:induction false} MassRemove(subs: seq<seq<seq<int>>>, i: nat, b: nat, v: int)
    requires i < |subs| && forall s :: s in subs ==> b < |s|
    ensures forall s :: s in subs[..i] + subs[i + 1..] ==> s in subs
    ensures Mass(subs, b, v) == multiset(subs[i][b])[v] + Mass(subs[..i] + subs[i + 1..], b, v)
    decreases i
  {
    var r := subs[..i] + subs[i + 1..];
    if i == 0 {
      assert r == subs[1..];
    } else {
      MassRemove(subs[1..], i - 1, b, v);
      assert r[1..] == subs[1..][..i - 1] + subs[1..][i..];
    }
  }

  lemma RemoveOne<T>(s: seq<T>, i: nat)
    requires i < |s|
    ensures multiset(s[..i] + s[i + 1..]) == multiset(s) - multiset{s[i]}
  {
    assert s == s[..i] + [s[i]] + s[i + 1..];
  }

  /** The order in which the sub-arrays arrive does not matter. */
  lemma {:induction false} MassOrder(x: seq<seq<seq<int>>>, y: seq<seq<seq<int>>>, b: nat, v: int)
    requires multiset(x) == multiset(y)
    requires forall s :: s in x ==> b < |s|
    ensures forall s :: s in y ==> b < |s|
    ensures Mass(x, b, v) == Mass(y, b, v)
    decreases |x|
  {
    forall s | s in y ensures b < |s| { assert s in multiset(y); }
    if x == [] {
      assert |multiset(y)| == 0;
    } else {
      assert x[0] in multiset(y);
      var i :| 0 <= i < |y| && y[i] == x[0];
      var z := y[..i] + y[i + 1..];
      MassRemove(y, i, b, v);
      RemoveOne(x, 0);
      RemoveOne(y, i);
      assert x[..0] + x[1..] == x[1..];
      MassOrder(x[1..], z, b, v);
    }
  }

  /** The sub-arrays of the slices, in bucket order. */
  function SubArrays(slices: seq<seq<int>>, splitters: seq<int>, k: nat): (ss: seq<seq<seq<int>>>)
    requires splitters != []
    ensures |ss| == |slices| && forall s :: s in ss ==> |s| == k
  {
    if slices == [] then [] else [Parts(slices[0], splitters, k)] + SubArrays(slices[1..], splitters, k)
  }

  lemma {:induction false} SubArraysMass(slices: seq<seq<int>>, splitters: seq<int>, k: nat, b: nat, v: int)
    requires splitters != [] && b < k
    ensures Mass(SubArrays(slices, splitters, k), b, v) ==
            if BucketOf(v, splitters) == b then CountIn(slices, v) else 0
    decreases |slices|
  {
    if slices != [] {
      PartCount(slices[0], splitters, b, v);
      SubArraysMass(slices[1..], splitters, k, b, v);
    }
  }

  // ---------------------------------------------------------------------------------------
  // The result

  /** The final arrays of buckets b and up. */
  function Finals(subs: seq<seq<seq<int>>>, k: nat, b: nat): (fs: seq<seq<int>>)
    requires b <= k && forall s :: s in subs ==> |s| == k
    ensures |fs| == k - b
    decreases k - b
  {
    if b == k then [] else [Final(subs, b)] + Finals(subs, k, b + 1)
  }

  ghost predicate AnyOrder(subs: seq<seq<seq<int>>>, slices: seq<seq<int>>, splitters: seq<int>, k: nat)
    requires splitters != []
  {
    multiset(subs) == multiset(SubArrays(slices, splitters, k))
  }

  lemma AnyOrderShape(subs: seq<seq<seq<int>>>, slices: seq<seq<int>>, splitters: seq<int>, k: nat)
    requires splitters != [] && AnyOrder(subs, slices, splitters, k)
    ensures forall s :: s in subs ==> |s| == k
  {
    forall s | s in subs ensures |s| == k {
      assert s in multiset(subs);
    }
  }

  /** Bucket b ends up with every value that belongs to it, as often as it occurs in the slices. */
  lemma {:induction false} FinalCount(subs: seq<seq<seq<int>>>, slices: seq<seq<int>>, splitters: seq<int>, k: nat,
                                      b: nat, v: int)
    requires splitters != [] && b < k && AnyOrder(subs, slices, splitters, k)
    requires forall s :: s in subs ==> |s| == k
    ensures multiset(Final(subs, b))[v] == if BucketOf(v, splitters) == b then CountIn(slices, v) else 0
  {
    FlattenCount(Column(subs, b), v);
    ColumnMass(subs, b, v);
    MassOrder(subs, SubArrays(slices, splitters, k), b, v);
    SubArraysMass(slices, splitters, k, b, v);
  }

  lemma {:induction false} FinalsCount(subs: seq<seq<seq<int>>>, slices: seq<seq<int>>, splitters: seq<int>, k: nat,
                                       b: nat, v: int)
    requires |splitters| == k > 0 && b <= k && AnyOrder(subs, slices, splitters, k)
    requires forall s :: s in subs ==> |s| == k
    ensures CountIn(Finals(subs, k, b), v) == if BucketOf(v, splitters) >= b then CountIn(slices, v) else 0
    decreases k - b
  {
    if b < k {
      FinalCount(subs, slices, splitters, k, b, v);
      FinalsCount(subs, slices, splitters, k, b + 1, v);
    }
  }

  lemma {:induction false} BucketOrder(v: int, w: int, splitters: seq<int>)
    requires splitters != [] && BucketOf(v, splitters) < BucketOf(w, splitters)
    ensures v < w
  {
    assert splitters[BucketOf(v, splitters)] < w;
  }

  ghost predicate Below(a: seq<int>, b: seq<int>) {
    forall v, w :: v in a && w in b ==> v <= w
  }

  lemma SortedConcat(a: seq<int>, b: seq<int>)
    requires Sorted(a) && Sorted(b) && Below(a, b)
    ensures Sorted(a + b)
  {
    forall i, j | 0 <= i < j < |a + b| ensures (a + b)[i] <= (a + b)[j] {
      if i < |a| <= j { assert a[i] in a && b[j - |a|] in b; }
    }
  }

  lemma {:induction false} FinalMembers(subs: seq<seq<seq<int>>>, slices: seq<seq<int>>, splitters: seq<int>, k: nat,
                                        b: nat)
    requires splitters != [] && b < k && AnyOrder(subs, slices, splitters, k)
    requires forall s :: s in subs ==> |s| == k
    ensures forall v :: v in Final(subs, b) ==> BucketOf(v, splitters) == b
  {
    var f := Final(subs, b);
    forall v | v in f ensures BucketOf(v, splitters) == b {
      FinalCount(subs, slices, splitters, k, b, v);
      assert v in multiset(f);
    }
  }

  lemma {:induction false} FinalsMembers(subs: seq<seq<seq<int>>>, slices: seq<seq<int>>, splitters: seq<int>,
                                         k: nat, b: nat)
    requires |splitters| == k > 0 && b <= k && AnyOrder(subs, slices, splitters, k)
    requires forall s :: s in subs ==> |s| == k
    ensures forall v :: v in Flatten(Finals(subs, k, b)) ==> BucketOf(v, splitters) >= b
  {
    var rest := Flatten(Finals(subs, k, b));
    forall v | v in rest ensures BucketOf(v, splitters) >= b {
      assert v in multiset(rest);
      FlattenCount(Finals(subs, k, b), v);
      FinalsCount(subs, slices, splitters, k, b, v);
    }
  }

  lemma {:induction false} FinalsOrder(subs: seq<seq<seq<int>>>, slices: seq<seq<int>>, splitters: seq<int>,
                                       k: nat, b: nat)
    requires |splitters| == k > 0 && b < k && AnyOrder(subs, slices, splitters, k)
    requires forall s :: s in subs ==> |s| == k
    ensures Below(Final(subs, b), Flatten(Finals(subs, k, b + 1)))
  {
    hide Final, Finals, Flatten, BucketOf, AnyOrder;
    var f, rest := Final(subs, b), Flatten(Finals(subs, k, b + 1));
    FinalMembers(subs, slices, splitters, k, b);
    FinalsMembers(subs, slices, splitters, k, b + 1);
    forall v, w | v in f && w in rest ensures v <= w {
      BucketOrder(v, w, splitters);
    }
  }

  lemma {:induction false} FinalsSorted(subs: seq<seq<seq<int>>>, slices: seq<seq<int>>, splitters: seq<int>,
                                        k: nat, b: nat)
    requires |splitters| == k > 0 && b <= k && AnyOrder(subs, slices, splitters, k)
    requires forall s :: s in subs ==> |s| == k
    ensures Sorted(Flatten(Finals(subs, k, b)))
    decreases k - b
  {
    if b < k {
      var f, rest := Final(subs, b), Flatten(Finals(subs, k, b + 1));
      FinalsCons(subs, k, b);
      FinalsSorted(subs, slices, splitters, k, b + 1);
      FinalsOrder(subs, slices, splitters, k, b);
      hide *;
      SortedConcat(f, rest);
    }
  }

  lemma FinalsCons(subs: seq<seq<seq<int>>>, k: nat, b: nat)
    requires b < k && forall s :: s in subs ==> |s| == k
    ensures Flatten(Finals(subs, k, b)) == Final(subs, b) + Flatten(Finals(subs, k, b + 1))
  {
    hide Final;
    assert Finals(subs, k, b)[1..] == Finals(subs, k, b + 1);
  }

  /** The buckets' final arrays, one after the other, are the sorted data, whatever the splitters are
      and in whatever order the sub-arrays arrived. */
  lemma {:induction false} SampleSortSorts(subs: seq<seq<seq<int>>>, data: seq<int>, splitters: seq<int>, k: nat)
    requires |splitters| == k > 0 && AnyOrder(subs, Slices(data, k, 0), splitters, k)
    ensures forall s :: s in subs ==> |s| == k
    ensures var result := Flatten(Finals(subs, k, 0));
            Sorted(result) && multiset(result) == multiset(data)
  {
    var slices := Slices(data, k, 0);
    AnyOrderShape(subs, slices, splitters, k);
    FinalsSorted(subs, slices, splitters, k, 0);
    var result := Flatten(Finals(subs, k, 0));
    SlicesPartition(data, k, 0);
    assert data[SliceStart(|data|, k, 0)..] == data;
    forall v ensures multiset(result)[v] == multiset(data)[v] {
      FlattenCount(Finals(subs, k, 0), v);
      FinalsCount(subs, slices, splitters, k, 0, v);
      FlattenCount(slices, v);
    }
  }
}
