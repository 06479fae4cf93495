/** What every reachable state of the sample sort satisfies, and what every finished run has computed. */
module SampleSortSafety {
  import opened SampleSort
  import opened SampleSortProtocol

  // ---------------------------------------------------------------------------------------
  // Queues and counters

  lemma {:induction false} SubsConcat(p: seq<Msg>, q: seq<Msg>)
    ensures SubsIn(p + q) == SubsIn(p) + SubsIn(q) && DonesIn(p + q) == DonesIn(p) + DonesIn(q)
    decreases |p|
  {
    if p == [] {
      assert p + q == q;
    } else {
      SubsConcat(p[1..], q);
      assert (p + q)[1..] == p[1..] + q;
    }
  }

  /** Bucket i sends its sub-array. */
  lemma {:induction false} SentPartsAdd(buckets: seq<Bucket>, all: seq<seq<seq<int>>>, i: nat, b: Bucket)
    requires |buckets| == |all| && i < |all| && !HasSent(buckets[i]) && HasSent(b)
    ensures multiset(SentParts(buckets[i := b], all)) == multiset(SentParts(buckets, all)) + multiset{all[i]}
    decreases i
  {
    if i > 0 {
      SentPartsAdd(buckets[1..], all[1..], i - 1, b);
      assert buckets[i := b][1..] == buckets[1..][i - 1 := b];
    }
  }

  lemma {:induction false} SentPartsSame(buckets: seq<Bucket>, all: seq<seq<seq<int>>>, i: nat, b: Bucket)
    requires |buckets| == |all| && i < |all| && HasSent(buckets[i]) == HasSent(b)
    ensures SentParts(buckets[i := b], all) == SentParts(buckets, all)
    decreases i
  {
    if i > 0 {
      SentPartsSame(buckets[1..], all[1..], i - 1, b);
      assert buckets[i := b][1..] == buckets[1..][i - 1 := b];
    }
  }

  lemma {:induction false} SentPartsAll(buckets: seq<Bucket>, all: seq<seq<seq<int>>>)
    requires |buckets| == |all| && |SentParts(buckets, all)| == |all|
    ensures SentParts(buckets, all) == all && forall i :: 0 <= i < |buckets| ==> HasSent(buckets[i])
    decreases |all|
  {
    if all != [] { SentPartsAll(buckets[1..], all[1..]); }
  }

  lemma {:induction false} SentPartsNone(buckets: seq<Bucket>, all: seq<seq<seq<int>>>)
    requires |buckets| == |all| && forall i :: 0 <= i < |buckets| ==> !HasSent(buckets[i])
    ensures SentParts(buckets, all) == []
    decreases |all|
  {
    if all != [] { SentPartsNone(buckets[1..], all[1..]); }
  }

  lemma {:induction false} DoneCountSet(buckets: seq<Bucket>, i: nat, b: Bucket)
    requires i < |buckets|
    ensures DoneCount(buckets[i := b]) == DoneCount(buckets)
            - (if buckets[i].pc.BucketDone? then 1 else 0) + (if b.pc.BucketDone? then 1 else 0)
    decreases i
  {
    if i > 0 {
      DoneCountSet(buckets[1..], i - 1, b);
      assert buckets[i := b][1..] == buckets[1..][i - 1 := b];
    }
  }

  lemma {:induction false} DoneCountNone(buckets: seq<Bucket>)
    requires forall i :: 0 <= i < |buckets| ==> !buckets[i].pc.BucketDone?
    ensures DoneCount(buckets) == 0
    decreases |buckets|
  {
    if buckets != [] { DoneCountNone(buckets[1..]); }
  }

  lemma {:induction false} DoneCountAll(buckets: seq<Bucket>)
    requires DoneCount(buckets) == |buckets|
    ensures forall i :: 0 <= i < |buckets| ==> buckets[i].pc.BucketDone?
    decreases |buckets|
  {
    if buckets != [] { DoneCountAll(buckets[1..]); }
  }

  // ---------------------------------------------------------------------------------------
  // What the root finds in its queue

  /** Until all sub-arrays are in, no bucket has reported, and the root can only find sub-arrays. */
  lemma {:induction false} NoneDone(scripts: seq<seq<Msg>>, pc: RootPc, buckets: seq<Bucket>, queues: seq<seq<Msg>>)
    requires BucketsOk(scripts, pc, buckets, queues) && pc.Round? && pc.r <= SUB_ARRAYS
    ensures DoneCount(buckets) == 0
  {
    forall i | 0 <= i < |buckets| ensures !buckets[i].pc.BucketDone? {
      assert BucketInv(scripts[i], SentTo(pc, i), buckets[i], queues[i]);
    }
    hide BucketsOk, BucketInv, SentTo;
    DoneCountNone(buckets);
  }

  /** Once it has received K sub-arrays it can only find reports. */
  lemma {:induction false} AllSubsIn(pc: RootPc, subs: seq<seq<seq<int>>>, all: seq<seq<seq<int>>>,
                                     buckets: seq<Bucket>, q: seq<Msg>)
    requires RepliesOk(pc, subs, all, buckets, q) && SubsReceived(pc, |all|) == |all|
    ensures SubsIn(q) == [] && SentParts(buckets, all) == all && multiset(subs) == multiset(all)
  {
    var got := subs + SubsIn(q);
    assert |multiset(got)| == |got|;
    assert |multiset(SentParts(buckets, all))| == |SentParts(buckets, all)|;
    SentPartsAll(buckets, all);
    assert got == subs;
  }

  lemma {:induction false} TakeSub(pc: RootPc, subs: seq<seq<seq<int>>>, all: seq<seq<seq<int>>>,
                                   buckets: seq<Bucket>, q: seq<Msg>)
    requires RepliesOk(pc, subs, all, buckets, q) && pc.Round? && pc.r == SUB_ARRAYS && pc.i < |all|
    requires q != [] && DoneCount(buckets) == 0
    ensures q[0].SubArray?
    ensures RepliesOk(NextRound(pc, |all|), subs + [q[0].parts], all, buckets, q[1..])
  {
    assert subs + [q[0].parts] + SubsIn(q[1..]) == subs + SubsIn(q);
  }

  lemma {:induction false} TakeDone(pc: RootPc, subs: seq<seq<seq<int>>>, all: seq<seq<seq<int>>>,
                                    buckets: seq<Bucket>, q: seq<Msg>)
    requires RepliesOk(pc, subs, all, buckets, q) && pc.Round? && pc.r == DONES && pc.i < |all| && q != []
    ensures q[0].Finished?
    ensures RepliesOk(NextRound(pc, |all|), subs, all, buckets, q[1..])
  {
    AllSubsIn(pc, subs, all, buckets, q);
  }

  // ---------------------------------------------------------------------------------------
  // Root steps

  /** The script of a bucket is fixed once the root has all sub-arrays; its first four messages are
      fixed from the beginning. */
  lemma {:induction false} ScriptsKept(root: Root, root': Root)
    requires root'.k == root.k && root'.data == root.data && root'.splitters == root.splitters
    ensures forall i :: 0 <= i < root.k ==> Scripts(root')[i][..4] == Scripts(root)[i][..4]
    ensures root'.subs == root.subs ==> Scripts(root') == Scripts(root)
  {
    if root'.subs == root.subs {
      forall i | 0 <= i < root.k ensures Script(root', i) == Script(root, i) {}
    }
  }

  lemma {:induction false} EarlyScript(script: seq<Msg>, script': seq<Msg>, n: nat, b: Bucket, q: seq<Msg>)
    requires ScriptOk(script) && ScriptOk(script') && n <= 4 && BucketInv(script, n, b, q)
    requires script'[..4] == script[..4]
    ensures BucketInv(script', n, b, q)
  {
    assert forall j :: 0 <= j < 4 ==> script'[j] == script'[..4][j] && script[j] == script[..4][j];
  }

  ghost predicate Sends(pc: RootPc) {
    pc.Round? && (pc.r < SUB_ARRAYS || pc.r == COLUMNS)
  }

  lemma SentToNext(pc: RootPc, k: nat, j: nat)
    requires pc.Round? && pc.r <= DONES && pc.i < k && j < k
    ensures SentTo(NextRound(pc, k), j) == SentTo(pc, j) + if Sends(pc) && j == pc.i then 1 else 0
  {
  }

  lemma OneMoreSent(script: seq<Msg>, n: nat, b: Bucket, q: seq<Msg>)
    requires ScriptOk(script) && n < 5 && BucketInv(script, n, b, q)
    ensures BucketInv(script, n + 1, b, q + [script[n]])
  {
    var m := Received(b.pc);
    assert script[m..n + 1] == script[m..n] + [script[n]];
  }

  /** A round of sends: bucket i gets the next message of its script. */
  lemma {:induction false} SendNext(scripts: seq<seq<Msg>>, pc: RootPc, buckets: seq<Bucket>, queues: seq<seq<Msg>>)
    requires BucketsOk(scripts, pc, buckets, queues) && Sends(pc) && pc.i < |scripts|
    ensures var i := pc.i;
            && SentTo(pc, i) < 5
            && BucketsOk(scripts, NextRound(pc, |scripts|), buckets,
                         queues[i := queues[i] + [scripts[i][SentTo(pc, i)]]])
  {
    var i, next := pc.i, NextRound(pc, |scripts|);
    SentToNext(pc, |scripts|, i);
    var queues' := queues[i := queues[i] + [scripts[i][SentTo(pc, i)]]];
    hide BucketInv, SentTo, NextRound;
    forall j | 0 <= j < |scripts| ensures BucketInv(scripts[j], SentTo(next, j), buckets[j], queues'[j]) {
      assert BucketInv(scripts[j], SentTo(pc, j), buckets[j], queues[j]);
      SentToNext(pc, |scripts|, j);
      if j == i {
        OneMoreSent(scripts[j], SentTo(pc, j), buckets[j], queues[j]);
      }
    }
  }

  /** A receive changes nothing for the buckets. */
  lemma {:induction false} ReceiveNext(scripts: seq<seq<Msg>>, pc: RootPc, buckets: seq<Bucket>, queues: seq<seq<Msg>>)
    requires BucketsOk(scripts, pc, buckets, queues) && pc.Round? && pc.i < |scripts|
    requires pc.r == SUB_ARRAYS || pc.r == DONES
    ensures BucketsOk(scripts, NextRound(pc, |scripts|), buckets, queues)
  {
    var next := NextRound(pc, |scripts|);
    forall j | 0 <= j < |scripts| ensures BucketInv(scripts[j], SentTo(next, j), buckets[j], queues[j]) {
      assert BucketInv(scripts[j], SentTo(pc, j), buckets[j], queues[j]);
      SentToNext(pc, |scripts|, j);
    }
  }

  lemma {:induction false} EarlyScripts(scripts: seq<seq<Msg>>, scripts': seq<seq<Msg>>, pc: RootPc,
                                        buckets: seq<Bucket>, queues: seq<seq<Msg>>)
    requires BucketsOk(scripts, pc, buckets, queues) && pc.Round? && pc.r <= SUB_ARRAYS
    requires |scripts'| == |scripts| && forall i :: 0 <= i < |scripts| ==>
               ScriptOk(scripts'[i]) && scripts'[i][..4] == scripts[i][..4]
    ensures BucketsOk(scripts', pc, buckets, queues)
  {
    forall j | 0 <= j < |scripts| ensures BucketInv(scripts'[j], SentTo(pc, j), buckets[j], queues[j]) {
      EarlyScript(scripts[j], scripts'[j], SentTo(pc, j), buckets[j], queues[j]);
    }
  }

  lemma {:induction false} SamplingKeeps(s: System, choice: seq<nat>, data: seq<int>, k: nat)
    requires Inv(s, data, k) && s.root.pc.Sampling? && Enabled(s, RootStep(choice))
    ensures Inv(RootNext(s, choice), data, k)
  {
    var t := RootNext(s, choice);
    SentPartsNone(t.buckets, AllSubs(t.root));
    DoneCountNone(t.buckets);
  }

  ghost predicate Core(root: Root, buckets: seq<Bucket>, rootQ: seq<Msg>, queues: seq<seq<Msg>>,
                       data: seq<int>, k: nat)
  {
    && RootOk(root, data, k)
    && BucketsOk(Scripts(root), root.pc, buckets, queues)
    && RepliesOk(root.pc, root.subs, AllSubs(root), buckets, rootQ)
  }

  lemma NextRoundOk(root: Root, data: seq<int>, k: nat)
    requires RootOk(root, data, k) && root.pc.Round?
    ensures RootOk(root.(pc := NextRound(root.pc, k)), data, k)
  {
  }

  lemma RepliesUnsent(pc: RootPc, subs: seq<seq<seq<int>>>, all: seq<seq<seq<int>>>, buckets: seq<Bucket>,
                      q: seq<Msg>)
    requires RepliesOk(pc, subs, all, buckets, q) && Sends(pc) && pc.i < |all|
    ensures RepliesOk(NextRound(pc, |all|), subs, all, buckets, q)
  {
  }

  lemma AllSubsKept(root: Root, root': Root)
    requires root.splitters != [] && root'.k == root.k && root'.data == root.data && root'.splitters == root.splitters
    ensures AllSubs(root') == AllSubs(root)
  {
  }

  lemma {:induction false} RootSendKeeps(root: Root, buckets: seq<Bucket>, rootQ: seq<Msg>, queues: seq<seq<Msg>>,
                                         data: seq<int>, k: nat)
    requires Core(root, buckets, rootQ, queues, data, k) && Sends(root.pc)
    ensures var i := root.pc.i;
            i < |queues| && Core(root.(pc := NextRound(root.pc, k)), buckets, rootQ,
                                 queues[i := queues[i] + [Outgoing(root, root.pc.r, i)]], data, k)
  {
    hide RepliesOk;
    hide AllSubs;
    var i, root' := root.pc.i, root.(pc := NextRound(root.pc, k));
    NextRoundOk(root, data, k);
    ScriptsKept(root, root');
    SendNext(Scripts(root), root.pc, buckets, queues);
    AllSubsKept(root, root');
    RepliesUnsent(root.pc, root.subs, AllSubs(root), buckets, rootQ);
    assert Script(root, i)[SentTo(root.pc, i)] == Outgoing(root, root.pc.r, i);
  }

  lemma {:induction false} RootGetsSub(root: Root, buckets: seq<Bucket>, rootQ: seq<Msg>, queues: seq<seq<Msg>>,
                                       data: seq<int>, k: nat)
    requires Core(root, buckets, rootQ, queues, data, k) && rootQ != []
    requires root.pc.Round? && root.pc.r == SUB_ARRAYS
    ensures rootQ[0].SubArray?
    ensures Core(root.(pc := NextRound(root.pc, k), subs := root.subs + [rootQ[0].parts]), buckets, rootQ[1..],
                 queues, data, k)
  {
    var pc, scripts := root.pc, Scripts(root);
    NoneDone(scripts, pc, buckets, queues);
    TakeSub(pc, root.subs, AllSubs(root), buckets, rootQ);
    NextRoundOk(root, data, k);
    var root' := root.(pc := NextRound(root.pc, k), subs := root.subs + [rootQ[0].parts]);
    ScriptsKept(root, root');
    EarlyScripts(scripts, Scripts(root'), pc, buckets, queues);
    ReceiveNext(Scripts(root'), pc, buckets, queues);
  }

  lemma {:induction false} RootGetsDone(root: Root, buckets: seq<Bucket>, rootQ: seq<Msg>, queues: seq<seq<Msg>>,
                                        data: seq<int>, k: nat)
    requires Core(root, buckets, rootQ, queues, data, k) && rootQ != []
    requires root.pc.Round? && root.pc.r == DONES
    ensures rootQ[0].Finished?
    ensures Core(root.(pc := NextRound(root.pc, k)), buckets, rootQ[1..], queues, data, k)
  {
    TakeDone(root.pc, root.subs, AllSubs(root), buckets, rootQ);
    NextRoundOk(root, data, k);
    ScriptsKept(root, root.(pc := NextRound(root.pc, k)));
    ReceiveNext(Scripts(root), root.pc, buckets, queues);
  }

  // ---------------------------------------------------------------------------------------
  // Bucket steps

  lemma {:induction false} BucketMoves(scripts: seq<seq<Msg>>, pc: RootPc, buckets: seq<Bucket>,
                                       queues: seq<seq<Msg>>, i: nat, b: Bucket, q: seq<Msg>)
    requires BucketsOk(scripts, pc, buckets, queues) && i < |scripts|
    requires BucketInv(scripts[i], SentTo(pc, i), b, q)
    ensures BucketsOk(scripts, pc, buckets[i := b], queues[i := q])
  {
  }

  /** What a bucket receives is the next message of its script. */
  lemma {:induction false} BucketReceivesNext(script: seq<Msg>, n: nat, b: Bucket, q: seq<Msg>)
    requires ScriptOk(script) && n <= 5 && BucketInv(script, n, b, q) && BucketReceives(b.pc) && q != []
    ensures Received(b.pc) < 5 && q[0] == script[Received(b.pc)]
    ensures var (b', q') := BucketReceive(b, q); BucketInv(script, n, b'.(pc := NextPc(b.pc)), q')
  {
    var m := Received(b.pc);
    assert script[m..n][1..] == script[m + 1..n];
  }

  lemma {:induction false} BucketReceiveKeeps(root: Root, buckets: seq<Bucket>, rootQ: seq<Msg>,
                                              queues: seq<seq<Msg>>, i: nat, data: seq<int>, k: nat)
    requires Core(root, buckets, rootQ, queues, data, k) && i < |buckets|
    requires BucketReceives(buckets[i].pc) && queues[i] != []
    ensures var (b, q) := BucketReceive(buckets[i], queues[i]);
            Core(root, buckets[i := b.(pc := NextPc(buckets[i].pc))], rootQ, queues[i := q], data, k)
  {
    hide AllSubs, BucketReceive, BucketInv, SentParts, DoneCount, SentTo, Scripts;
    var scripts, n := Scripts(root), SentTo(root.pc, i);
    var (b', q) := BucketReceive(buckets[i], queues[i]);
    var b := b'.(pc := NextPc(buckets[i].pc));
    assert BucketInv(scripts[i], n, buckets[i], queues[i]);
    BucketReceivesNext(scripts[i], n, buckets[i], queues[i]);
    BucketMoves(scripts, root.pc, buckets, queues, i, b, q);
    SentPartsSame(buckets, AllSubs(root), i, b);
    DoneCountSet(buckets, i, b);
  }

  lemma {:induction false} SubArraysAt(slices: seq<seq<int>>, splitters: seq<int>, k: nat, i: nat)
    requires splitters != [] && i < |slices|
    ensures SubArrays(slices, splitters, k)[i] == Parts(slices[i], splitters, k)
    decreases i
  {
    if i > 0 { SubArraysAt(slices[1..], splitters, k, i - 1); }
  }

  lemma {:induction false} SlicesAt(data: seq<int>, k: nat, j: nat, i: nat)
    requires j + i < k
    ensures Slices(data, k, j)[i] == Slice(data, k, j + i)
    decreases i
  {
    if i > 0 { SlicesAt(data, k, j + 1, i - 1); }
  }

  /** A bucket that has its first four messages splits the slice and for the splitters it should. */
  lemma {:induction false} BucketKnows(root: Root, data: seq<int>, k: nat, i: nat, b: Bucket, q: seq<Msg>)
    requires RootOk(root, data, k) && i < k && BucketInv(Scripts(root)[i], SentTo(root.pc, i), b, q)
    requires Received(b.pc) >= 4
    ensures b.splitters != [] && Parts(b.data, b.splitters, b.count) == AllSubs(root)[i]
  {
    assert Scripts(root)[i] == Script(root, i);
    SlicesAt(data, k, 0, i);
    SubArraysAt(Slices(data, k, 0), b.splitters, k, i);
  }

  lemma {:induction false} SendSub(pc: RootPc, subs: seq<seq<seq<int>>>, all: seq<seq<seq<int>>>,
                                   buckets: seq<Bucket>, q: seq<Msg>, i: nat, b: Bucket)
    requires RepliesOk(pc, subs, all, buckets, q) && i < |all|
    requires !HasSent(buckets[i]) && HasSent(b) && !b.pc.BucketDone?
    ensures RepliesOk(pc, subs, all, buckets[i := b], q + [SubArray(all[i])])
  {
    var msg := [SubArray(all[i])];
    SubsConcat(q, msg);
    SentPartsAdd(buckets, all, i, b);
    DoneCountSet(buckets, i, b);
    assert SubsIn(msg) == [all[i]];
    assert subs + SubsIn(q + msg) == (subs + SubsIn(q)) + [all[i]];
  }

  lemma {:induction false} SendDone(pc: RootPc, subs: seq<seq<seq<int>>>, all: seq<seq<seq<int>>>,
                                    buckets: seq<Bucket>, q: seq<Msg>, i: nat, b: Bucket)
    requires RepliesOk(pc, subs, all, buckets, q) && i < |all|
    requires buckets[i].pc.SortAndReport? && b.pc.BucketDone?
    ensures RepliesOk(pc, subs, all, buckets[i := b], q + [Finished])
  {
    var msg := [Finished];
    SubsConcat(q, msg);
    SentPartsSame(buckets, all, i, b);
    DoneCountSet(buckets, i, b);
    assert SubsIn(msg) == [] && DonesIn(msg) == 1;
    assert SubsIn(q + msg) == SubsIn(q);
  }

  lemma {:induction false} BucketSendKeeps(root: Root, buckets: seq<Bucket>, rootQ: seq<Msg>,
                                           queues: seq<seq<Msg>>, i: nat, data: seq<int>, k: nat)
    requires Core(root, buckets, rootQ, queues, data, k) && i < |buckets| && buckets[i].pc.SendParts?
    ensures var b := buckets[i];
            && b.splitters != []
            && Core(root, buckets[i := b.(pc := AwaitColumn)],
                    rootQ + [SubArray(Parts(b.data, b.splitters, b.count))], queues, data, k)
  {
    hide Scripts;
    hide Parts;
    hide RepliesOk;
    hide AllSubs;
    var b, q := buckets[i], queues[i];
    assert BucketInv(Scripts(root)[i], SentTo(root.pc, i), b, q);
    BucketKnows(root, data, k, i, b, q);
    var b' := b.(pc := AwaitColumn);
    BucketMoves(Scripts(root), root.pc, buckets, queues, i, b', q);
    SendSub(root.pc, root.subs, AllSubs(root), buckets, rootQ, i, b');
    assert queues[i := q] == queues;
  }

  lemma {:induction false} BucketReportKeeps(root: Root, buckets: seq<Bucket>, rootQ: seq<Msg>,
                                             queues: seq<seq<Msg>>, i: nat, data: seq<int>, k: nat)
    requires Core(root, buckets, rootQ, queues, data, k) && i < |buckets| && buckets[i].pc.SortAndReport?
    ensures var b := buckets[i];
            Core(root, buckets[i := b.(pc := BucketDone, result := Sort(b.result))], rootQ + [Finished], queues,
                 data, k)
  {
    hide Scripts;
    hide Flatten;
    hide Sorted;
    hide RepliesOk;
    hide AllSubs;
    var b, q := buckets[i], queues[i];
    assert BucketInv(Scripts(root)[i], SentTo(root.pc, i), b, q);
    var b' := b.(pc := BucketDone, result := Sort(b.result));
    BucketMoves(Scripts(root), root.pc, buckets, queues, i, b', q);
    SendDone(root.pc, root.subs, AllSubs(root), buckets, rootQ, i, b');
    assert queues[i := q] == queues;
  }

  // ---------------------------------------------------------------------------------------
  // Every step

  lemma {:induction false} RootStepKeeps(s: System, choice: seq<nat>, data: seq<int>, k: nat)
    requires Inv(s, data, k) && k > 0 && Enabled(s, RootStep(choice))
    ensures Inv(RootNext(s, choice), data, k)
  {
    hide BucketsOk;
    hide RepliesOk;
    hide Scripts;
    hide AllSubs;
    var pc := s.root.pc;
    if pc.Sampling? {
      SamplingKeeps(s, choice, data, k);
    } else if pc.Round? {
      if Sends(pc) {
        RootSendKeeps(s.root, s.buckets, s.rootQ, s.bucketQs, data, k);
      } else if pc.r == SUB_ARRAYS {
        RootGetsSub(s.root, s.buckets, s.rootQ, s.bucketQs, data, k);
      } else {
        RootGetsDone(s.root, s.buckets, s.rootQ, s.bucketQs, data, k);
      }
    }
  }

  lemma {:induction false} BucketStepKeeps(s: System, i: nat, data: seq<int>, k: nat)
    requires Inv(s, data, k) && Enabled(s, BucketStep(i))
    ensures Inv(BucketNext(s, i), data, k)
  {
    hide Sort;
    hide Parts;
    hide Flatten;
    hide Sorted;
    hide BucketsOk;
    hide RepliesOk;
    hide Scripts;
    hide AllSubs;
    if BucketReceives(s.buckets[i].pc) {
      BucketReceiveKeeps(s.root, s.buckets, s.rootQ, s.bucketQs, i, data, k);
    } else if s.buckets[i].pc.SendParts? {
      BucketSendKeeps(s.root, s.buckets, s.rootQ, s.bucketQs, i, data, k);
    } else {
      BucketReportKeeps(s.root, s.buckets, s.rootQ, s.bucketQs, i, data, k);
    }
  }

  /** Every step of every interleaving keeps the invariant. */
  lemma {:induction false} StepKeeps(s: System, step: Step, data: seq<int>, k: nat)
    requires Inv(s, data, k) && k > 0 && Enabled(s, step)
    ensures Inv(Next(s, step), data, k)
  {
    match step
    case RootStep(choice) => RootStepKeeps(s, choice, data, k);
    case BucketStep(i) => BucketStepKeeps(s, i, data, k);
  }

  // ---------------------------------------------------------------------------------------
  // Messages arrive as expected

  /** The message each task finds is the one its program waits for: a bucket's n-th message is the
      n-th of its script, and the root gets no report before the last sub-array. */
  ghost predicate Expected(s: System, step: Step)
    requires Enabled(s, step)
  {
    match step
    case BucketStep(i) =>
      var pc := s.buckets[i].pc;
      && (pc.AwaitTopology? ==> s.bucketQs[i][0].Topology?)
      && (pc.AwaitSlice? ==> s.bucketQs[i][0].DataRef?)
      && (pc.AwaitSplitters? ==> s.bucketQs[i][0].SplitterList?)
      && (pc.AwaitSignal? ==> s.bucketQs[i][0].GetSubArray?)
      && (pc.AwaitColumn? ==> s.bucketQs[i][0].SetSubArray?)
    case RootStep(_) =>
      var pc := s.root.pc;
      && (pc.AwaitK? ==> s.rootQ[0].Bar?)
      && (pc.AwaitData? ==> s.rootQ[0].RefIntArray?)
      && (pc.Round? && pc.r == SUB_ARRAYS ==> s.rootQ[0].SubArray?)
      && (pc.Round? && pc.r == DONES ==> s.rootQ[0].Finished?)
  }

  lemma {:induction false} StepExpected(s: System, step: Step, data: seq<int>, k: nat)
    requires Inv(s, data, k) && k > 0 && Enabled(s, step)
    ensures Expected(s, step)
  {
    hide RepliesOk;
    hide AllSubs;
    match step
    case BucketStep(i) =>
      if BucketReceives(s.buckets[i].pc) {
        assert BucketInv(Scripts(s.root)[i], SentTo(s.root.pc, i), s.buckets[i], s.bucketQs[i]);
        BucketReceivesNext(Scripts(s.root)[i], SentTo(s.root.pc, i), s.buckets[i], s.bucketQs[i]);
      }
    case RootStep(_) =>
      if s.root.pc.Round? && s.root.pc.r == SUB_ARRAYS {
        RootGetsSub(s.root, s.buckets, s.rootQ, s.bucketQs, data, k);
      } else if s.root.pc.Round? && s.root.pc.r == DONES {
        RootGetsDone(s.root, s.buckets, s.rootQ, s.bucketQs, data, k);
      }
  }
}
