/** Every run of the sample sort finishes, and what it has computed then. */
module SampleSortRuns {
  import opened SampleSort
  import opened SampleSortProtocol
  import opened SampleSortSafety

  // ---------------------------------------------------------------------------------------
  // No deadlock, and termination

  ghost predicate Final(s: System) {
    s.root.pc.RootDone? && forall i :: 0 <= i < |s.buckets| ==> s.buckets[i].pc.BucketDone?
  }

  ghost predicate CanMove(s: System) {
    exists step :: Enabled(s, step)
  }

  /** A bucket that has not gone as far as the root's messages allow can move. */
  lemma BucketCanMove(s: System, data: seq<int>, k: nat, i: nat)
    requires Inv(s, data, k) && i < |s.buckets| && !s.buckets[i].pc.BucketDone?
    requires Received(s.buckets[i].pc) < SentTo(s.root.pc, i) || !BucketReceives(s.buckets[i].pc)
    ensures Enabled(s, BucketStep(i))
  {
    hide RepliesOk;
    hide AllSubs;
    assert BucketInv(Scripts(s.root)[i], SentTo(s.root.pc, i), s.buckets[i], s.bucketQs[i]);
  }

  lemma {:induction false} SomeUnsent(buckets: seq<Bucket>, all: seq<seq<seq<int>>>) returns (i: nat)
    requires |buckets| == |all| && |SentParts(buckets, all)| < |all|
    ensures i < |buckets| && !HasSent(buckets[i])
    decreases |all|
  {
    if HasSent(buckets[0]) {
      var j := SomeUnsent(buckets[1..], all[1..]);
      i := j + 1;
    } else {
      i := 0;
    }
  }

  lemma {:induction false} SomeUndone(buckets: seq<Bucket>) returns (i: nat)
    requires DoneCount(buckets) < |buckets|
    ensures i < |buckets| && !buckets[i].pc.BucketDone?
    decreases |buckets|
  {
    if buckets[0].pc.BucketDone? {
      var j := SomeUndone(buckets[1..]);
      i := j + 1;
    } else {
      i := 0;
    }
  }

  lemma {:induction false} RepliesMissing(pc: RootPc, subs: seq<seq<seq<int>>>, all: seq<seq<seq<int>>>,
                                          buckets: seq<Bucket>)
    requires RepliesOk(pc, subs, all, buckets, []) && pc.Round? && pc.i < |all|
    ensures pc.r == SUB_ARRAYS ==> |SentParts(buckets, all)| < |all|
    ensures pc.r == DONES ==> DoneCount(buckets) < |buckets|
  {
    var got := subs + SubsIn([]);
    assert |multiset(SentParts(buckets, all))| == |SentParts(buckets, all)|;
    assert |multiset(got)| == |got|;
  }

  /** A root that waits for a reply has a bucket that can still send one. */
  lemma {:induction false} ReplyComes(s: System, data: seq<int>, k: nat) returns (i: nat)
    requires Inv(s, data, k) && k > 0 && s.root.pc.Round? && RootReceives(s.root.pc) && s.rootQ == []
    ensures Enabled(s, BucketStep(i))
  {
    hide RepliesOk;
    hide BucketInv;
    RepliesMissing(s.root.pc, s.root.subs, AllSubs(s.root), s.buckets);
    if s.root.pc.r == SUB_ARRAYS {
      i := SomeUnsent(s.buckets, AllSubs(s.root));
    } else {
      i := SomeUndone(s.buckets);
    }
    BucketCanMove(s, data, k, i);
  }

  /** In every state that is not final some task can move. */
  lemma {:induction false} NoDeadlock(s: System, data: seq<int>, k: nat)
    requires Inv(s, data, k) && k > 0 && data != [] && !Final(s)
    ensures CanMove(s)
  {
    hide RepliesOk;
    hide AllSubs;
    hide Scripts;
    if s.root.pc.RootDone? {
      var i :| 0 <= i < |s.buckets| && !s.buckets[i].pc.BucketDone?;
      BucketCanMove(s, data, k, i);
      assert Enabled(s, BucketStep(i));
    } else if s.root.pc.Round? && RootReceives(s.root.pc) && s.rootQ == [] {
      var i := ReplyComes(s, data, k);
      assert Enabled(s, BucketStep(i));
    } else {
      var choice: seq<nat> := seq(SAMPLE_SIZE, _ => 0);
      assert Enabled(s, RootStep(choice));
    }
  }

  function Times(n: nat, k: nat): nat {
    if n == 0 then 0 else k + Times(n - 1, k)
  }

  /** How many steps the root has to go. */
  function RootLeft(pc: RootPc, k: nat): int {
    match pc
    case AwaitK => 3 + Times(7, k)
    case AwaitData => 2 + Times(7, k)
    case Sampling => 1 + Times(7, k)
    case Round(r, i) => (if r <= DONES then Times(7 - r, k) else 0) - i
    case RootDone => 0
  }

  function BucketLeft(pc: BucketPc): nat {
    match pc
    case AwaitTopology => 7
    case AwaitSlice => 6
    case AwaitSplitters => 5
    case AwaitSignal => 4
    case SendParts => 3
    case AwaitColumn => 2
    case SortAndReport => 1
    case BucketDone => 0
  }

  function BucketsLeft(buckets: seq<Bucket>): nat {
    if buckets == [] then 0 else BucketLeft(buckets[0].pc) + BucketsLeft(buckets[1..])
  }

  /** How many steps the run has to go: whatever the interleaving, always the same number. */
  function StepsLeft(s: System, k: nat): int {
    match s.root.pc
    case Round(_, _) => RootLeft(s.root.pc, k) + BucketsLeft(s.buckets)
    case RootDone => RootLeft(s.root.pc, k) + BucketsLeft(s.buckets)
    case _ => RootLeft(s.root.pc, k) + Times(7, k)
  }

  lemma {:induction false} BucketsLeftSet(buckets: seq<Bucket>, i: nat, b: Bucket)
    requires i < |buckets|
    ensures BucketsLeft(buckets[i := b]) == BucketsLeft(buckets) - BucketLeft(buckets[i].pc) + BucketLeft(b.pc)
    decreases i
  {
    if i > 0 {
      BucketsLeftSet(buckets[1..], i - 1, b);
      assert buckets[i := b][1..] == buckets[1..][i - 1 := b];
    }
  }

  lemma {:induction false} FreshLeft(buckets: seq<Bucket>)
    requires forall i :: 0 <= i < |buckets| ==> buckets[i].pc.AwaitTopology?
    ensures BucketsLeft(buckets) == 7 * |buckets|
    decreases |buckets|
  {
    if buckets != [] { FreshLeft(buckets[1..]); }
  }

  lemma TimesIs(n: nat, k: nat)
    requires n <= 7
    ensures Times(n, k) == n * k
  {
    if n > 0 { TimesIs(n - 1, k); }
  }

  lemma RoundProgress(pc: RootPc, k: nat)
    requires pc.Round? && pc.r <= DONES && pc.i < k
    ensures RootLeft(NextRound(pc, k), k) == RootLeft(pc, k) - 1
  {
    assert Times(7 - pc.r, k) == k + Times(6 - pc.r, k);
  }

  lemma {:induction false} RootProgress(s: System, choice: seq<nat>, data: seq<int>, k: nat)
    requires Inv(s, data, k) && k > 0 && Enabled(s, RootStep(choice))
    ensures StepsLeft(RootNext(s, choice), k) == StepsLeft(s, k) - 1
  {
    hide RepliesOk;
    hide BucketsOk;
    hide AllSubs;
    hide Scripts;
    hide Outgoing;
    if s.root.pc.Sampling? {
      FreshLeft(RootNext(s, choice).buckets);
      TimesIs(7, k);
    } else if s.root.pc.Round? {
      RoundProgress(s.root.pc, k);
    }
  }

  lemma {:induction false} BucketProgress(s: System, i: nat, data: seq<int>, k: nat)
    requires Inv(s, data, k) && Enabled(s, BucketStep(i))
    ensures StepsLeft(BucketNext(s, i), k) == StepsLeft(s, k) - 1
  {
    hide RepliesOk;
    hide BucketsOk;
    hide AllSubs;
    hide Scripts;
    hide Sort;
    hide Parts;
    hide BucketReceive;
    var b := BucketNext(s, i).buckets[i];
    BucketsLeftSet(s.buckets, i, b);
    assert BucketNext(s, i).buckets == s.buckets[i := b];
  }

  /** Every step brings the end one step nearer. */
  lemma {:induction false} StepProgress(s: System, step: Step, data: seq<int>, k: nat)
    requires Inv(s, data, k) && k > 0 && Enabled(s, step)
    ensures StepsLeft(Next(s, step), k) == StepsLeft(s, k) - 1
  {
    match step
    case RootStep(choice) => RootProgress(s, choice, data, k);
    case BucketStep(i) => BucketProgress(s, i, data, k);
  }

  lemma {:induction false} StepsLeftBound(s: System, data: seq<int>, k: nat)
    requires Inv(s, data, k) && k > 0
    ensures 0 <= StepsLeft(s, k) <= 14 * k + 3
    ensures StepsLeft(s, k) == 0 ==> Final(s)
  {
    hide BucketInv;
    hide RepliesOk;
    hide AllSubs;
    hide Scripts;
    TimesIs(7, k);
    BucketsLeftBound(s.buckets);
    match s.root.pc
    case Round(r, _) => TimesIs(7 - r, k);
    case _ =>
  }

  lemma {:induction false} BucketsLeftBound(buckets: seq<Bucket>)
    ensures BucketsLeft(buckets) <= 7 * |buckets|
    ensures BucketsLeft(buckets) == 0 ==> forall i :: 0 <= i < |buckets| ==> buckets[i].pc.BucketDone?
    decreases |buckets|
  {
    if buckets != [] { BucketsLeftBound(buckets[1..]); }
  }

  // ---------------------------------------------------------------------------------------
  // Whole runs

  ghost predicate Run(states: seq<System>, steps: seq<Step>, data: seq<int>, k: nat) {
    && |states| == |steps| + 1 && states[0] == Init(data, k)
    && forall j :: 0 <= j < |steps| ==> Enabled(states[j], steps[j]) && states[j + 1] == Next(states[j], steps[j])
  }

  lemma {:induction false} RunInv(states: seq<System>, steps: seq<Step>, data: seq<int>, k: nat, j: nat)
    requires Run(states, steps, data, k) && k > 0 && j < |states|
    ensures Inv(states[j], data, k) && StepsLeft(states[j], k) == 14 * k + 3 - j
    decreases j
  {
    if j == 0 {
      TimesIs(7, k);
    } else {
      RunInv(states, steps, data, k, j - 1);
      StepKeeps(states[j - 1], steps[j - 1], data, k);
      StepProgress(states[j - 1], steps[j - 1], data, k);
    }
  }

  /** No run has more than 14 K + 3 steps; one that stops earlier can go on, and one of that length
      has reached the end. */
  lemma {:induction false} RunFinishes(states: seq<System>, steps: seq<Step>, data: seq<int>, k: nat)
    requires Run(states, steps, data, k) && k > 0 && data != []
    ensures |steps| <= 14 * k + 3
    ensures |steps| == 14 * k + 3 <==> Final(states[|steps|])
    ensures |steps| == 14 * k + 3 <==> !CanMove(states[|steps|])
  {
    var s := states[|steps|];
    RunInv(states, steps, data, k, |steps|);
    EndOfRun(s, data, k);
  }

  lemma {:induction false} EndOfRun(s: System, data: seq<int>, k: nat)
    requires Inv(s, data, k) && k > 0 && data != []
    ensures StepsLeft(s, k) >= 0
    ensures StepsLeft(s, k) == 0 <==> Final(s)
    ensures CanMove(s) <==> !Final(s)
  {
    hide Inv;
    hide StepsLeft;
    StepsLeftBound(s, data, k);
    if Final(s) {
      FinalLeft(s, k);
    } else {
      NoDeadlock(s, data, k);
    }
  }

  lemma {:induction false} FinalLeft(s: System, k: nat)
    requires Final(s)
    ensures StepsLeft(s, k) == 0
  {
    BucketsDoneLeft(s.buckets);
  }

  lemma {:induction false} BucketsDoneLeft(buckets: seq<Bucket>)
    requires forall i :: 0 <= i < |buckets| ==> buckets[i].pc.BucketDone?
    ensures BucketsLeft(buckets) == 0
    decreases |buckets|
  {
    if buckets != [] { BucketsDoneLeft(buckets[1..]); }
  }

  // ---------------------------------------------------------------------------------------
  // The splitters of a run

  /** The samples are the data at the 1500 chosen places. */
  ghost predicate ChosenFrom(samples: seq<int>, data: seq<int>, choice: seq<nat>) {
    |samples| == |choice| == 1500 && forall j | 0 <= j < 1500 :: choice[j] < |data| && samples[j] == data[choice[j]]
  }

  /** v is one of the samples and stands at place r when they are sorted: no more than r of them are smaller, and
      more than r are not larger. */
  ghost predicate RankIs(samples: seq<int>, v: int, r: int) {
    v in samples && Smaller(samples, v) <= r < Smaller(samples, v + 1)
  }

  /** The splitters stand at the ends of shares of 1500 / k samples, and the last is a constant. */
  ghost predicate Splits(splitters: seq<int>, samples: seq<int>, k: nat) {
    && 0 < k == |splitters| && splitters[k - 1] == 1000000
    && forall i | 0 <= i < k - 1 :: RankIs(samples, splitters[i], (i + 1) * (1500 / k))
  }

  lemma InSort(samples: seq<int>, r: nat)
    requires r < |Sort(samples)|
    ensures Sort(samples)[r] in samples
  {
    assert Sort(samples)[r] in multiset(Sort(samples));
    hide Sorted;
  }

  lemma RankInSort(samples: seq<int>, r: nat)
    requires r < |Sort(samples)|
    ensures RankIs(samples, Sort(samples)[r], r)
  {
    InSort(samples, r);
    hide Sort, Sorted, Smaller;
    var sorted := Sort(samples);
    Rank(sorted, r);
    SmallerSort(samples, sorted[r]);
    SmallerSort(samples, sorted[r] + 1);
  }

  lemma SortedRank(samples: seq<int>, k: nat, i: nat)
    requires 0 < k && i + 1 < k && |Sort(samples)| == |samples| == 1500
    ensures RankIs(samples, Splitters(Sort(samples), k)[i], (i + 1) * (1500 / k))
  {
    hide Splitters, Sort, RankIs;
    SplitterAt(Sort(samples), k, i);
    RankInSort(samples, (i + 1) * (1500 / k));
  }

  lemma SamplesChosen(data: seq<int>, choice: seq<nat>)
    requires |choice| == 1500 && forall j :: j in choice ==> j < |data|
    ensures ChosenFrom(Samples(data, choice), data, choice)
  {
    forall j | 0 <= j < 1500 ensures choice[j] < |data| {
      assert choice[j] in choice;
    }
  }

  /** The sampling step picks them from the samples that are drawn. */
  lemma SamplingPicks(s: System, choice: seq<nat>)
    requires s.root.pc.Sampling? && Enabled(s, RootStep(choice))
    ensures ChosenFrom(Samples(s.root.data, choice), s.root.data, choice)
    ensures Splits(RootNext(s, choice).root.splitters, Samples(s.root.data, choice), s.root.k)
  {
    SamplesChosen(s.root.data, choice);
    var samples, k := Samples(s.root.data, choice), s.root.k;
    var splitters := RootNext(s, choice).root.splitters;
    assert splitters == Splitters(SortedSamples(s.root.data, choice), k);
    assert |splitters| == k && splitters[k - 1] == 1000000;
    assert SortedSamples(s.root.data, choice) == Sort(samples);
    hide Splitters, Samples, SortedSamples, Sort, RankIs, Enabled, RootNext, ChosenFrom;
    forall i | 0 <= i < k - 1 ensures RankIs(samples, splitters[i], (i + 1) * (1500 / k)) {
      SortedRank(samples, k, i);
    }
  }

  function Results(buckets: seq<Bucket>): (rs: seq<seq<int>>)
    ensures |rs| == |buckets|
  {
    seq(|buckets|, i requires 0 <= i < |buckets| => buckets[i].result)
  }

  /** In every run, from the sampling step on, the splitters are those of some drawn samples. */
  lemma {:induction false} RunSplitters(states: seq<System>, steps: seq<Step>, data: seq<int>, k: nat, j: nat)
    requires Run(states, steps, data, k) && k > 0 && j < |states|
    requires states[j].root.pc.Round? || states[j].root.pc.RootDone?
    ensures exists samples, choice ::
              ChosenFrom(samples, data, choice) && Splits(states[j].root.splitters, samples, k)
    decreases j
  {
    hide ChosenFrom, Splits, BucketsOk, RepliesOk, AllSubs, Scripts, Next, Enabled;
    RunInv(states, steps, data, k, j);
    if j > 0 {
      var s, step := states[j - 1], steps[j - 1];
      RunInv(states, steps, data, k, j - 1);
      if s.root.pc.Sampling? && step.RootStep? {
        SamplingPicks(s, step.choice);
        assert Next(s, step) == RootNext(s, step.choice) by {
          NextOfRoot(s, step.choice);
        }
      } else {
        SplittersStay(s, step);
        RunSplitters(states, steps, data, k, j - 1);
      }
    }
  }

  lemma NextOfRoot(s: System, choice: seq<nat>)
    requires Enabled(s, RootStep(choice))
    ensures Next(s, RootStep(choice)) == RootNext(s, choice)
  {
  }

  lemma SplittersStay(s: System, step: Step)
    requires Enabled(s, step) && !(s.root.pc.Sampling? && step.RootStep?)
    ensures var t := Next(s, step);
      && t.root.splitters == s.root.splitters
      && (t.root.pc.Round? || t.root.pc.RootDone? ==> s.root.pc.Round? || s.root.pc.RootDone?)
  {
    hide Parts, Sort, Flatten, Outgoing;
  }

  /** When the root has received its last report, each bucket has exactly the values of the data that the splitters
      assign to it. */
  lemma RunShares(states: seq<System>, steps: seq<Step>, data: seq<int>, k: nat, i: nat, v: int)
    requires Run(states, steps, data, k) && k > 0 && states[|steps|].root.pc.RootDone? && i < k
    ensures var s := states[|steps|];
      && |s.buckets| == |s.root.splitters| == k
      && multiset(s.buckets[i].result)[v] == if BucketOf(v, s.root.splitters) == i then multiset(data)[v] else 0
  {
    var s := states[|steps|];
    RunInv(states, steps, data, k, |steps|);
    hide Run;
    DoneShares(s, data, k, i, v);
  }

  lemma DoneShares(s: System, data: seq<int>, k: nat, i: nat, v: int)
    requires Inv(s, data, k) && s.root.pc.RootDone? && i < k
    ensures |s.buckets| == |s.root.splitters| == k > 0
    ensures multiset(s.buckets[i].result)[v] == if BucketOf(v, s.root.splitters) == i then multiset(data)[v] else 0
  {
    AllIn(s, data, k);
    hide Inv;
    var slices := Slices(data, k, 0);
    AnyOrderShape(s.root.subs, slices, s.root.splitters, k);
    BucketResult(s, data, k, i);
    FinalCount(s.root.subs, slices, s.root.splitters, k, i, v);
    FlattenCount(slices, v);
    SlicesPartition(data, k, 0);
    assert data[SliceStart(|data|, k, 0)..] == data;
  }

  /** When the root has received its last report, the arrays of the buckets, one after the other, are
      the sorted data: for every input, every K, every choice of samples and every interleaving. */
  lemma {:induction false} RunSorts(states: seq<System>, steps: seq<Step>, data: seq<int>, k: nat)
    requires Run(states, steps, data, k) && k > 0
    ensures var s := states[|steps|];
            s.root.pc.RootDone? ==>
              var result := Flatten(Results(s.buckets));
              Sorted(result) && multiset(result) == multiset(data)
  {
    var s := states[|steps|];
    RunInv(states, steps, data, k, |steps|);
    if s.root.pc.RootDone? {
      DoneSorts(s, data, k);
    }
  }

  lemma {:induction false} BucketResult(s: System, data: seq<int>, k: nat, i: nat)
    requires Inv(s, data, k) && s.root.pc.RootDone? && i < |s.buckets| == k && s.buckets[i].pc.BucketDone?
    requires |s.root.subs| == k && forall p :: p in s.root.subs ==> |p| == k
    ensures s.buckets[i].result == SampleSort.Final(s.root.subs, i)
  {
    hide RepliesOk;
    hide AllSubs;
    hide Sort;
    hide Flatten;
    assert BucketInv(Scripts(s.root)[i], SentTo(s.root.pc, i), s.buckets[i], s.bucketQs[i]);
    assert Scripts(s.root)[i][4] == Outgoing(s.root, COLUMNS, i);
    assert ColumnOf(s.root.subs, k, i) == Column(s.root.subs, i);
  }

  lemma {:induction false} DoneSorts(s: System, data: seq<int>, k: nat)
    requires Inv(s, data, k) && s.root.pc.RootDone?
    ensures var result := Flatten(Results(s.buckets));
            Sorted(result) && multiset(result) == multiset(data)
  {
    AllIn(s, data, k);
    SampleSortSorts(s.root.subs, data, s.root.splitters, k);
    AllResults(s, data, k);
  }

  lemma {:induction false} AllIn(s: System, data: seq<int>, k: nat)
    requires Inv(s, data, k) && s.root.pc.RootDone?
    ensures |s.root.splitters| == k > 0 && |s.root.subs| == k == |s.buckets|
    ensures AnyOrder(s.root.subs, Slices(data, k, 0), s.root.splitters, k)
    ensures forall i :: 0 <= i < k ==> s.buckets[i].pc.BucketDone?
  {
    hide BucketInv;
    AllSubsIn(s.root.pc, s.root.subs, AllSubs(s.root), s.buckets, s.rootQ);
    DoneCountAll(s.buckets);
  }

  lemma {:induction false} AllResults(s: System, data: seq<int>, k: nat)
    requires Inv(s, data, k) && s.root.pc.RootDone?
    requires |s.root.subs| == k == |s.buckets| && forall p :: p in s.root.subs ==> |p| == k
    requires forall i :: 0 <= i < k ==> s.buckets[i].pc.BucketDone?
    ensures Results(s.buckets) == Finals(s.root.subs, k, 0)
  {
    hide Inv;
    forall i | 0 <= i < k ensures s.buckets[i].result == SampleSort.Final(s.root.subs, i) {
      BucketResult(s, data, k, i);
    }
    FinalsAre(s.root.subs, k, 0, Results(s.buckets));
  }

  lemma {:induction false} FinalsAre(subs: seq<seq<seq<int>>>, k: nat, b: nat, rs: seq<seq<int>>)
    requires b <= k && forall s :: s in subs ==> |s| == k
    requires |rs| == k - b && forall i :: 0 <= i < |rs| ==> rs[i] == SampleSort.Final(subs, b + i)
    ensures rs == Finals(subs, k, b)
    decreases k - b
  {
    hide SampleSort.Final;
    if b < k {
      FinalsTail(subs, k, b, rs);
      FinalsAre(subs, k, b + 1, rs[1..]);
      assert rs == [rs[0]] + rs[1..];
    }
  }

  lemma FinalsTail(subs: seq<seq<seq<int>>>, k: nat, b: nat, rs: seq<seq<int>>)
    requires b < k && forall s :: s in subs ==> |s| == k
    requires |rs| == k - b && forall i :: 0 <= i < |rs| ==> rs[i] == SampleSort.Final(subs, b + i)
    ensures forall i :: 0 <= i < |rs| - 1 ==> rs[1..][i] == SampleSort.Final(subs, b + 1 + i)
  {
    hide SampleSort.Final;
    forall i | 0 <= i < |rs| - 1 ensures rs[1..][i] == SampleSort.Final(subs, b + 1 + i) {
      assert rs[1..][i] == rs[i + 1] && b + (i + 1) == b + 1 + i;
    }
  }
}
