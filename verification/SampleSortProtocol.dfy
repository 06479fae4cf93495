/** The sample sort as a protocol: one root task and K bucket tasks that exchange messages over
    first-in first-out queues, in any interleaving. */
module SampleSortProtocol {
  import opened SampleSort

  /** Messages, by tag.  Arrays sent by reference are values here. */
  datatype Msg =
    | Bar(k: nat)
    | RefIntArray(values: seq<int>)
    | Topology(count: nat)
    | DataRef(slice: seq<int>)
    | SplitterList(splitters: seq<int>)
    | GetSubArray
    | SubArray(parts: seq<seq<int>>)
    | SetSubArray(column: seq<seq<int>>)
    | Finished

  /** The root waits for K and for the data, samples and creates the buckets, and then goes through
      seven rounds of K sends or K receives. */
  datatype RootPc = AwaitK | AwaitData | Sampling | Round(r: nat, i: nat) | RootDone

  const TOPOLOGIES: nat := 0
  const SLICES: nat := 1
  const SPLITTERS: nat := 2
  const SIGNALS: nat := 3
  const SUB_ARRAYS: nat := 4
  const COLUMNS: nat := 5
  const DONES: nat := 6

  datatype Root = Root(pc: RootPc, k: nat, data: seq<int>, splitters: seq<int>, subs: seq<seq<seq<int>>>)

  datatype BucketPc =
    | AwaitTopology | AwaitSlice | AwaitSplitters | AwaitSignal | SendParts | AwaitColumn | SortAndReport
    | BucketDone

  datatype Bucket = Bucket(pc: BucketPc, count: nat, data: seq<int>, splitters: seq<int>, result: seq<int>)

  datatype System = System(root: Root, buckets: seq<Bucket>, rootQ: seq<Msg>, bucketQs: seq<seq<Msg>>)

  // ---------------------------------------------------------------------------------------
  // Handlers.  A message with a tag that its receiver never expects stays in the queue.

  function RootReceive(root: Root, q: seq<Msg>): (Root, seq<Msg>)
    requires q != []
  {
    match q[0]
    case Bar(k) => (root.(k := k), q[1..])
    case RefIntArray(values) => (root.(data := values), q[1..])
    case SubArray(parts) => (root.(subs := root.subs + [parts]), q[1..])
    case Finished => (root, q[1..])
    case _ => (root, q)
  }

  function BucketReceive(b: Bucket, q: seq<Msg>): (Bucket, seq<Msg>)
    requires q != []
  {
    match q[0]
    case Topology(count) => (b.(count := count), q[1..])
    case DataRef(slice) => (b.(data := slice), q[1..])
    case SplitterList(splitters) => (b.(splitters := splitters), q[1..])
    case GetSubArray => (b, q[1..])
    case SetSubArray(column) => (b.(result := Flatten(column)), q[1..])
    case _ => (b, q)
  }

  // ---------------------------------------------------------------------------------------
  // Steps

  /** A root step, with the indices that are sampled should it be the sampling step, or a step of
      bucket i. */
  datatype Step = RootStep(choice: seq<nat>) | BucketStep(i: nat)

  predicate RootReceives(pc: RootPc) {
    pc.AwaitK? || pc.AwaitData? || (pc.Round? && (pc.r == SUB_ARRAYS || pc.r == DONES))
  }

  predicate BucketReceives(pc: BucketPc) {
    !pc.SendParts? && !pc.SortAndReport? && !pc.BucketDone?
  }

  ghost predicate Enabled(s: System, step: Step) {
    match step
    case RootStep(choice) =>
      && !s.root.pc.RootDone?
      && (RootReceives(s.root.pc) ==> s.rootQ != [])
      && (s.root.pc.Sampling? ==>
            s.root.k > 0 && |choice| == SAMPLE_SIZE && forall j :: j in choice ==> j < |s.root.data|)
      && (s.root.pc.Round? ==> s.root.pc.i < s.root.k && s.root.pc.i < |s.bucketQs|)
    case BucketStep(i) =>
      && i < |s.buckets| && i < |s.bucketQs|
      && !s.buckets[i].pc.BucketDone?
      && (BucketReceives(s.buckets[i].pc) ==> s.bucketQs[i] != [])
  }

  function NextRound(pc: RootPc, k: nat): RootPc
    requires pc.Round?
  {
    if pc.i + 1 < k then Round(pc.r, pc.i + 1)
    else if pc.r < DONES then Round(pc.r + 1, 0)
    else RootDone
  }

  function NextPc(pc: BucketPc): BucketPc {
    match pc
    case AwaitTopology => AwaitSlice
    case AwaitSlice => AwaitSplitters
    case AwaitSplitters => AwaitSignal
    case AwaitSignal => SendParts
    case SendParts => AwaitColumn
    case AwaitColumn => SortAndReport
    case SortAndReport => BucketDone
    case BucketDone => BucketDone
  }

  /** The b-th parts of the first k sub-arrays; a missing one would be read outside its array. */
  function ColumnOf(subs: seq<seq<seq<int>>>, k: nat, b: nat): seq<seq<int>> {
    seq(k, j => if 0 <= j < |subs| && b < |subs[j]| then subs[j][b] else [])
  }

  /** What the root sends to bucket i in round r. */
  function Outgoing(root: Root, r: nat, i: nat): Msg
    requires i < root.k
  {
    if r == TOPOLOGIES then Topology(root.k)
    else if r == SLICES then DataRef(Slice(root.data, root.k, i))
    else if r == SPLITTERS then SplitterList(root.splitters)
    else if r == SIGNALS then GetSubArray
    else SetSubArray(ColumnOf(root.subs, root.k, i))
  }

  const FRESH_BUCKET := Bucket(AwaitTopology, 0, [], [], [])

  function Samples(data: seq<int>, choice: seq<nat>): (s: seq<int>)
    requires forall j :: j in choice ==> j < |data|
    ensures |s| == |choice|
  {
    seq(|choice|, j requires 0 <= j < |choice| => (assert choice[j] in choice; data[choice[j]]))
  }

  function SortedSamples(data: seq<int>, choice: seq<nat>): (s: seq<int>)
    requires forall j :: j in choice ==> j < |data|
    ensures |s| == |choice|
  {
    var s := Samples(data, choice);
    assert |multiset(Sort(s))| == |multiset(s)|;
    Sort(s)
  }

  ghost function RootNext(s: System, choice: seq<nat>): System
    requires Enabled(s, RootStep(choice))
  {
    var root := s.root;
    if RootReceives(root.pc) then
      var (root', q) := RootReceive(root, s.rootQ);
      var pc := if root.pc.AwaitK? then AwaitData else if root.pc.AwaitData? then Sampling
                else NextRound(root.pc, root.k);
      s.(root := root'.(pc := pc), rootQ := q)
    else if root.pc.Sampling? then
      s.(root := root.(pc := Round(TOPOLOGIES, 0), splitters := Splitters(SortedSamples(root.data, choice), root.k)),
         buckets := seq(root.k, _ => FRESH_BUCKET),
         bucketQs := seq(root.k, _ => []))
    else
      var i := root.pc.i;
      s.(root := root.(pc := NextRound(root.pc, root.k)),
         bucketQs := s.bucketQs[i := s.bucketQs[i] + [Outgoing(root, root.pc.r, i)]])
  }

  ghost function BucketNext(s: System, i: nat): System
    requires Enabled(s, BucketStep(i))
  {
    var b, q := s.buckets[i], s.bucketQs[i];
    if BucketReceives(b.pc) then
      var (b', q') := BucketReceive(b, q);
      s.(buckets := s.buckets[i := b'.(pc := NextPc(b.pc))], bucketQs := s.bucketQs[i := q'])
    else if b.pc.SendParts? then
      var parts := if b.splitters == [] then seq(b.count, _ => []) else Parts(b.data, b.splitters, b.count);
      s.(buckets := s.buckets[i := b.(pc := NextPc(b.pc))], rootQ := s.rootQ + [SubArray(parts)])
    else
      s.(buckets := s.buckets[i := b.(pc := NextPc(b.pc), result := Sort(b.result))],
         rootQ := s.rootQ + [Finished])
  }

  ghost function Next(s: System, step: Step): System
    requires Enabled(s, step)
  {
    match step
    case RootStep(choice) => RootNext(s, choice)
    case BucketStep(i) => BucketNext(s, i)
  }

  function Init(data: seq<int>, k: nat): System {
    System(Root(AwaitK, 0, [], [], []), [], [Bar(k), RefIntArray(data)], [])
  }

  // ---------------------------------------------------------------------------------------
  // The invariant

  /** The messages bucket i is sent over the whole run. */
  function Script(root: Root, i: nat): (m: seq<Msg>)
    requires i < root.k
    ensures ScriptOk(m)
  {
    [Outgoing(root, TOPOLOGIES, i), Outgoing(root, SLICES, i), Outgoing(root, SPLITTERS, i),
     Outgoing(root, SIGNALS, i), Outgoing(root, COLUMNS, i)]
  }

  /** How many of them have been sent. */
  function SentTo(pc: RootPc, i: nat): (n: nat)
    ensures n <= 5
  {
    match pc
    case Round(r, j) =>
      if r < SUB_ARRAYS then (if i < j then r + 1 else r)
      else if r == SUB_ARRAYS then 4
      else if r == COLUMNS && i >= j then 4
      else 5
    case RootDone => 5
    case _ => 0
  }

  /** How many of them a bucket has received. */
  function Received(pc: BucketPc): (n: nat)
    ensures n <= 5
  {
    match pc
    case AwaitTopology => 0
    case AwaitSlice => 1
    case AwaitSplitters => 2
    case AwaitSignal => 3
    case SendParts => 4
    case AwaitColumn => 4
    case SortAndReport => 5
    case BucketDone => 5
  }

  predicate HasSent(b: Bucket) {
    b.pc.AwaitColumn? || b.pc.SortAndReport? || b.pc.BucketDone?
  }

  ghost predicate ScriptOk(script: seq<Msg>) {
    && |script| == 5 && script[0].Topology? && script[1].DataRef? && script[2].SplitterList?
    && script[3].GetSubArray? && script[4].SetSubArray?
  }

  /** Bucket b has gone through the beginning of its script of which n messages have been sent; the
      rest of those is in its queue. */
  ghost predicate BucketInv(script: seq<Msg>, n: nat, b: Bucket, q: seq<Msg>)
    requires ScriptOk(script) && n <= 5
  {
    var m := Received(b.pc);
    && m <= n && q == script[m..n]
    && (m >= 1 ==> script[0].count == b.count)
    && (m >= 2 ==> script[1].slice == b.data)
    && (m >= 3 ==> script[2].splitters == b.splitters)
    && (b.pc.SortAndReport? ==> b.result == Flatten(script[4].column))
    && (b.pc.BucketDone? ==> b.result == Sort(Flatten(script[4].column)))
  }

  function Scripts(root: Root): (ss: seq<seq<Msg>>)
    ensures |ss| == root.k && forall i :: 0 <= i < |ss| ==> ScriptOk(ss[i])
  {
    seq(root.k, i requires 0 <= i < root.k => Script(root, i))
  }

  ghost predicate BucketsOk(scripts: seq<seq<Msg>>, pc: RootPc, buckets: seq<Bucket>, queues: seq<seq<Msg>>) {
    && |buckets| == |queues| == |scripts|
    && forall i :: 0 <= i < |scripts| ==>
         ScriptOk(scripts[i]) && BucketInv(scripts[i], SentTo(pc, i), buckets[i], queues[i])
  }

  /** The sub-arrays in a queue. */
  function SubsIn(q: seq<Msg>): seq<seq<seq<int>>> {
    if q == [] then []
    else if q[0].SubArray? then [q[0].parts] + SubsIn(q[1..])
    else SubsIn(q[1..])
  }

  /** The reports in a queue. */
  function DonesIn(q: seq<Msg>): nat {
    if q == [] then 0 else (if q[0].Finished? then 1 else 0) + DonesIn(q[1..])
  }

  ghost predicate Replies(q: seq<Msg>) {
    forall j :: 0 <= j < |q| ==> q[j].SubArray? || q[j].Finished?
  }

  /** The sub-arrays sent so far, in bucket order. */
  function SentParts(buckets: seq<Bucket>, all: seq<seq<seq<int>>>): (ss: seq<seq<seq<int>>>)
    requires |buckets| == |all|
    ensures |ss| <= |all|
  {
    if buckets == [] then []
    else (if HasSent(buckets[0]) then [all[0]] else []) + SentParts(buckets[1..], all[1..])
  }

  function DoneCount(buckets: seq<Bucket>): (n: nat)
    ensures n <= |buckets|
  {
    if buckets == [] then 0 else (if buckets[0].pc.BucketDone? then 1 else 0) + DoneCount(buckets[1..])
  }

  /** How many reports the root has received, and how many sub-arrays. */
  function DonesReceived(pc: RootPc, k: nat): nat {
    match pc
    case Round(r, i) => if r == DONES then i else 0
    case RootDone => k
    case _ => 0
  }

  function SubsReceived(pc: RootPc, k: nat): nat {
    match pc
    case Round(r, i) => if r < SUB_ARRAYS then 0 else if r == SUB_ARRAYS then i else k
    case RootDone => k
    case _ => 0
  }

  /** Every sub-array and every report that a bucket has sent has been received or is in the queue. */
  ghost predicate RepliesOk(pc: RootPc, subs: seq<seq<seq<int>>>, all: seq<seq<seq<int>>>,
                            buckets: seq<Bucket>, q: seq<Msg>)
  {
    && |all| == |buckets| && Replies(q)
    && |subs| == SubsReceived(pc, |all|)
    && multiset(subs + SubsIn(q)) == multiset(SentParts(buckets, all))
    && DonesReceived(pc, |all|) + DonesIn(q) == DoneCount(buckets)
  }

  function AllSubs(root: Root): (ss: seq<seq<seq<int>>>)
    requires root.splitters != []
    ensures |ss| == root.k && forall s :: s in ss ==> |s| == root.k
  {
    SubArrays(Slices(root.data, root.k, 0), root.splitters, root.k)
  }

  ghost predicate RootOk(root: Root, data: seq<int>, k: nat) {
    && (root.pc.RootDone? || (root.pc.Round? && root.pc.r <= DONES && root.pc.i < k))
    && root.k == k == |root.splitters| > 0 && root.data == data
  }

  ghost predicate Inv(s: System, data: seq<int>, k: nat) {
    match s.root.pc
    case AwaitK => s == Init(data, k)
    case AwaitData => s == System(Root(AwaitData, k, [], [], []), [], [RefIntArray(data)], [])
    case Sampling => s == System(Root(Sampling, k, data, [], []), [], [], [])
    case _ =>
      && RootOk(s.root, data, k)
      && BucketsOk(Scripts(s.root), s.root.pc, s.buckets, s.bucketQs)
      && RepliesOk(s.root.pc, s.root.subs, AllSubs(s.root), s.buckets, s.rootQ)
  }
}
