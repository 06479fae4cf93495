# Models of TaskSystem, nanomsg and the shared buffer

This project models, in Dafny, the parts of the repository in which most can go wrong: the data structures and
protocols of the vendored nanomsg library, the distributed sample sort with its message queue, and the semaphore
buffer of the benchmarks. `dafny verify dfyconfig.toml` checks all of it.

Where the source changes objects in place, the model does too: classes with the fields of the C structures, byte
arrays for the buffers, loops with invariants. Each such method is proved against a function or a state machine, and
what the source promises is proved of that. Where the source is a set of tasks, threads or events, the model is a
state machine, one atomic step for each queue, semaphore, lock or context operation, and the theorems speak of every
interleaving.

| modules | what they model |
|---|---|
| `Words`, `Wire` | 32-bit numbers as stored by the machine, and numbers in network order |
| `Trie`, `TrieChains`, `TrieCounts`, `TrieRemoval`, `TrieShape`, `TrieMisses`, `TrieMatch`, `TrieRuns`, `TrieWitnesses` | the subscription trie: its calls as functions on trees, how a subscription is cut into nodes, what they do to the map from strings to subscription counts, the shape they keep, calls for strings that are not subscribed, matching, whole runs, and runs that end where the trie departs from its interface |
| `TrieNodes` | the same calls in place, on heap nodes |
| `SampleSort`, `SampleSortLoops` | why the sample sort sorts, and the loops of both tasks over arrays |
| `SampleSortProtocol`, `SampleSortSafety`, `SampleSortRuns` | root and buckets as a protocol over queues: its invariant, deadlock freedom, termination, result |
| `Messages`, `RingQueue` | serialised messages, and the byte ring that refines a queue of messages |
| `Chunks`, `ChunkRefs`, `References`, `ReferenceObject`, `MessageRuns` | message chunks in memory, references that are inline or on the heap, runs of operations on shared chunks, how the two agree, and messages of three references |
| `Ancillary`, `ControlSearch` | control buffers of ancillary properties, and when the search in them is safe |
| `Lists`, `Timers`, `TimerRuns`, `TimerObject`, `Hashes` | intrusive lists, the ordered timer set, its runs and how the two agree, the chained hash table |
| `Sockets`, `SocketObject`, `Descriptors` | the life of a socket as a state machine and as an object, and the stack of free descriptors |
| `BoundedBuffer` | producers and one consumer around a ring in shared memory |

## Where the code departs from its intent

The model does what the code does; these are proved as they are, with the exact condition under which the code meets
its intent and, where there is a counterexample, a lemma that gives one.

- Both conversions of a trie node's child array set the subscription count of the node to zero
  (`TrieRuns.CallKeepsPromise`, `TrieWitnesses.LossReached`, `TrieWitnesses.SecondLossReached`).
- Subscribing can leave a node that compaction would merge with its child, because a split is followed by a
  compaction of the lower node only (`TrieShape.SubscribeTight`, `TrieWitnesses.SplitReached`).
- Matching reads past the end of a message that ends at a node without subscribers (`TrieMatch.MatchCorrect`,
  `TrieMatch.MatchFalsely`, `TrieMatch.OverrunExtends`).
- Unsubscribing a string that ends on entry to a node hits that node's subscription without comparing its prefix
  (`TrieRemoval.UnsubscribeTarget`, `TrieWitnesses.WrongTarget`).
- Unsubscribing a string whose walk comes to an empty slot of a dense array faults, or lowers the number of children
  although none was removed (`TrieMisses.MissIsHarmless`, `TrieMisses.CallSettles`, `TrieWitnesses.FaultReached`,
  `TrieWitnesses.DamageReached`); one whose walk ends at a node without subscribers below the root is answered as if
  something had been removed (`TrieMisses.HarmlessKeeps`).
- A trim of a shared chunk takes bytes from the other holders (`References.TrimIsSafeAlone`, `References.SharedTrim`).
- An endpoint added by a call that is in progress when the socket is stopped is still listed when the socket ends
  (`Sockets.LateEndpoint`, `Sockets.LateEndpointRun`).
- The comparison by subtraction orders values only while they are less than 2^31 apart
  (`SampleSortLoops.CompareOrders`, `SampleSortLoops.CompareFlips`).
- nn_recvmsg does not report how much of the control buffer it has filled, so bytes left in a buffer that is larger
  than needed can be read as properties by the next send (`Ancillary.PropertiesExact`, `Ancillary.LeftOver`,
  `Ancillary.ReusedBuffer`).
- The search of nn_sendmsg for the protocol header trusts the lengths in the control buffer: it may never end, or read
  outside of the buffer (`ControlSearch.SearchIsSafe`, `ControlSearch.ZerosNeverEnd`,
  `ControlSearch.TooShortLeadsOutside`).
- nn_timerset_add, taken alone, accepts a negative timeout, and such a timer can be due before one that was reported
  already (`TimerRuns.StepInOrder`, `TimerRuns.OutOfOrder`); nn_timer_start asserts that timeouts are not negative, and
  with those this cannot happen (`TimerRuns.RunOrdered`).

## Model

| member | source | states |
|---|---|---|
| `Trie.CheckPrefix` | exploration/nanomsg_exploration/nanomsg-1.0.0/src/protocols/pubsub/trie.c:156-170 | the result is how far prefix and data agree: all characters before it are equal, the next differs or one of the two has ended, and it is the whole prefix exactly when the data begin with the prefix |
| `TrieCounts.CompactCount` | exploration/nanomsg_exploration/nanomsg-1.0.0/src/protocols/pubsub/trie.c:203-234 | merging a node without subscribers into its only child changes the number of subscriptions of no string |
| `TrieCounts.NewChainCount` | exploration/nanomsg_exploration/nanomsg-1.0.0/src/protocols/pubsub/trie.c:402-436 | the chain of nodes made for the rest of a subscription holds one subscription to that rest and none to any other string |
| `TrieChains.ChainOverruns` | exploration/nanomsg_exploration/nanomsg-1.0.0/src/protocols/pubsub/trie.c:402-436 | a new subscription is cut into nodes of ten bytes with one byte between two of them: a match uses up its message at a node without subscribers exactly when the message is a proper beginning of the string and its length is 10 more than a multiple of 11 |
| `TrieChains.ChainTarget` | exploration/nanomsg_exploration/nanomsg-1.0.0/src/protocols/pubsub/trie.c:402-436 | a chain can be hit by the unsubscribe calls for two strings only: the one subscribed, and the one that ends where the last node begins, whose prefix is not compared |
| `TrieChains.FirstSubscriptionTarget` | exploration/nanomsg_exploration/nanomsg-1.0.0/src/protocols/pubsub/trie.c:236-437 | the same of the first subscription made to an empty trie |
| `TrieCounts.SplitCount` | exploration/nanomsg_exploration/nanomsg-1.0.0/src/protocols/pubsub/trie.c:285-300 | splitting a node at any place inside its prefix changes the count of no string |
| `TrieCounts.ConvertBranch` | exploration/nanomsg_exploration/nanomsg-1.0.0/src/protocols/pubsub/trie.c:360-400 | turning a full sparse child array into a dense one keeps the child of every character, and puts the new one at its own |
| `TrieCounts.AddKidBranch` | exploration/nanomsg_exploration/nanomsg-1.0.0/src/protocols/pubsub/trie.c:302-400 | whichever layout the array has or gets, adding a branch for a new character changes that branch and no other |
| `TrieCounts.AddBranchCount` | exploration/nanomsg_exploration/nanomsg-1.0.0/src/protocols/pubsub/trie.c:302-428 | a new branch at a node adds one subscription to the string it spells; the node's own count survives unless its array is converted (line 382), and no other count changes |
| `TrieCounts.SubscribeCounts` | exploration/nanomsg_exploration/nanomsg-1.0.0/src/protocols/pubsub/trie.c:236-437 | a subscribe call for s raises the count of s by one (modulo the 32-bit counter), returns 1 exactly when it was zero, and changes no other count, except that a node whose array it converts loses its own |
| `TrieCounts.ConvertedAbove` | exploration/nanomsg_exploration/nanomsg-1.0.0/src/protocols/pubsub/trie.c:360-400 | the node whose count a subscribe call may lose spells a proper beginning of the subscribed string |
| `TrieShape.SubscribeOk` | exploration/nanomsg_exploration/nanomsg-1.0.0/src/protocols/pubsub/trie.c:236-437 | subscribing keeps the shape: prefixes of at most 10 bytes, distinct non-null sparse children, a dense array with more than 8 used slots counted in nbr and both end slots used, and no leaf without subscribers |
| `TrieShape.SubscribeTight` | exploration/nanomsg_exploration/nanomsg-1.0.0/src/protocols/pubsub/trie.c:285-300 | in a trie without a node that could be merged into its only child, a subscribe call leaves none if and only if it does not split an only child so near its front that the merger would fit |
| `TrieCounts.UnlinkBranch` | exploration/nanomsg_exploration/nanomsg-1.0.0/src/protocols/pubsub/trie.c:519-539 | removing one entry of a sparse array removes the branch of its character and keeps every other |
| `TrieCounts.GatherAt` | exploration/nanomsg_exploration/nanomsg-1.0.0/src/protocols/pubsub/trie.c:602-625 | collecting the used slots of a dense array into a sparse one keeps the child of every character |
| `TrieRemoval.PrunedCounts` | exploration/nanomsg_exploration/nanomsg-1.0.0/src/protocols/pubsub/trie.c:513-625 | taking a vanished child out of its parent, in each of the layouts, keeps all counts, except the parent's own when its array turns sparse (line 607) |
| `TrieRemoval.SubscribedTarget` | exploration/nanomsg_exploration/nanomsg-1.0.0/src/protocols/pubsub/trie.c:477-511 | for a subscribed string the call reaches the node of that string |
| `TrieRemoval.UnsubscribeTarget` | exploration/nanomsg_exploration/nanomsg-1.0.0/src/protocols/pubsub/trie.c:488-500 | for any string at all: when the call lowers a count, it does exactly what a call for the string it hits would have done; that string is subscribed and begins with the string asked for |
| `TrieRemoval.UntargetedCounts` | exploration/nanomsg_exploration/nanomsg-1.0.0/src/protocols/pubsub/trie.c:477-655 | a call that hits no subscription and returns changes no count; when such a call faults or damages the trie is stated by the rows of TrieMisses |
| `TrieRemoval.VanishesExactly` | exploration/nanomsg_exploration/nanomsg-1.0.0/src/protocols/pubsub/trie.c:477-554 | a call for a subscribed string removes the whole trie below a node exactly when that is a single chain of sparse nodes whose one subscription is to the string, which can be told before the call |
| `TrieMisses.MissIsHarmless` | exploration/nanomsg_exploration/nanomsg-1.0.0/src/protocols/pubsub/trie.c:477-511 | for any string and any well-shaped trie: the call returns and leaves the trie as it was if and only if its walk ends at a node without subscribers, a missing branch or a different prefix, and not at an empty slot of a dense array |
| `TrieMisses.CallSettles` | exploration/nanomsg_exploration/nanomsg-1.0.0/src/protocols/pubsub/trie.c:477-655 | for any string: the call returns and leaves a well-shaped trie if and only if it hits a subscription or is harmless in that sense |
| `TrieMisses.HarmlessKeeps` | exploration/nanomsg_exploration/nanomsg-1.0.0/src/protocols/pubsub/trie.c:507-517 | what a harmless call answers: the error only when the walk ends at the root, 0 when it falls off the trie, and 1, as if something had been removed, when it ends at a node below the root |
| `TrieMisses.MissDamages` | exploration/nanomsg_exploration/nanomsg-1.0.0/src/protocols/pubsub/trie.c:510-621 | every other call that hits no subscription follows a null pointer, fails an assertion or leaves a malformed trie |
| `TrieMisses.EmptySlotCall` | exploration/nanomsg_exploration/nanomsg-1.0.0/src/protocols/pubsub/trie.c:556-621 | a call whose last character is that of an empty slot: with nine children the assertion of line 621 fails, with more the number of children becomes wrong and 1 is returned |
| `TrieRemoval.UnsubscribeCounts` | exploration/nanomsg_exploration/nanomsg-1.0.0/src/protocols/pubsub/trie.c:477-655 | unsubscribing a subscribed string never faults, lowers its count by one, returns 1 exactly when it reaches zero, and changes no other count, except that of a node turned from dense to sparse |
| `TrieShape.UnsubscribeOk` | exploration/nanomsg_exploration/nanomsg-1.0.0/src/protocols/pubsub/trie.c:477-655 | unsubscribing a subscribed string keeps the shape, and keeps it free of nodes that could be merged |
| `TrieMatch.MatchComplete` | exploration/nanomsg_exploration/nanomsg-1.0.0/src/protocols/pubsub/trie.c:439-470 | a message with a subscribed prefix is matched, whatever stands in memory behind it |
| `TrieMatch.MatchCorrect` | exploration/nanomsg_exploration/nanomsg-1.0.0/src/protocols/pubsub/trie.c:439-470 | the answer is that of testing every prefix against the subscriptions, for all memory behind the message, if and only if the walk does not use up the message at a node without subscribers (lines 464-468) |
| `TrieMatch.MatchFalsely` | exploration/nanomsg_exploration/nanomsg-1.0.0/src/protocols/pubsub/trie.c:464-468 | when it does, memory can continue so that a message none of whose prefixes is subscribed is matched |
| `TrieMatch.OverrunExtends` | exploration/nanomsg_exploration/nanomsg-1.0.0/src/protocols/pubsub/trie.c:464-468 | and in a well-shaped trie such a continuation always exists |
| `TrieRuns.RunCounts` | exploration/nanomsg_exploration/nanomsg-1.0.0/src/protocols/pubsub/trie.c:236-655 | after every run of subscribes and of unsubscribes that hit a subscription or are harmless, the trie is well-shaped and holds for every string exactly the subscriptions made, less those that were hit and those lost to a conversion |
| `TrieRuns.RunGoesOn` | exploration/nanomsg_exploration/nanomsg-1.0.0/src/protocols/pubsub/trie.c:236-655 | a run can be continued with exactly these calls, as long as no counter wraps; none of them faults |
| `TrieRuns.LosslessRun` | exploration/nanomsg_exploration/nanomsg-1.0.0/src/protocols/pubsub/trie.c:236-655 | a run in which no converted node is subscribed and no unsubscribe call hits another string than its own leaves what a map from strings to counts would hold |
| `TrieRuns.CallKeepsPromise` | exploration/nanomsg_exploration/nanomsg-1.0.0/src/protocols/pubsub/trie.c:382 | a call leaves all counts but that of its own string alone if and only if it converts no node that is itself subscribed and hits no other string; both are told from the trie, before the call |
| `TrieRuns.RunTight` | exploration/nanomsg_exploration/nanomsg-1.0.0/src/protocols/pubsub/trie.c:236-655 | such a run, when none of its subscribe calls splits too near, leaves no node that could be merged into its only child |
| `TrieWitnesses.ConversionLoses` | exploration/nanomsg_exploration/nanomsg-1.0.0/src/protocols/pubsub/trie.c:382 | a ninth child makes the subscriptions to the node's own string disappear, of which there was at least one |
| `TrieWitnesses.LossReached` | exploration/nanomsg_exploration/nanomsg-1.0.0/src/protocols/pubsub/trie.c:382 | concretely: a run of ten subscriptions, none taken back, after which the first is not held |
| `TrieWitnesses.SecondLossReached` | exploration/nanomsg_exploration/nanomsg-1.0.0/src/protocols/pubsub/trie.c:607 | concretely: the string is subscribed again, and lost again when the ninth child goes and the array turns sparse |
| `TrieWitnesses.WrongTarget` | exploration/nanomsg_exploration/nanomsg-1.0.0/src/protocols/pubsub/trie.c:488-489 | concretely: after one subscription, unsubscribing the empty string removes it and reports success |
| `TrieWitnesses.FaultReached` | exploration/nanomsg_exploration/nanomsg-1.0.0/src/protocols/pubsub/trie.c:621 | concretely: after ten subscriptions, unsubscribing a string that was never subscribed fails the assertion |
| `TrieWitnesses.DamageReached` | exploration/nanomsg_exploration/nanomsg-1.0.0/src/protocols/pubsub/trie.c:597-599 | concretely: after eleven, it reports a removal and leaves a malformed trie |
| `TrieWitnesses.SplitReached` | exploration/nanomsg_exploration/nanomsg-1.0.0/src/protocols/pubsub/trie.c:285-300 | concretely: a run of four legal calls whose last leaves a node that could be merged, where there was none |
| `TrieNodes.ScanPrefix` | exploration/nanomsg_exploration/nanomsg-1.0.0/src/protocols/pubsub/trie.c:156-170 | the loop computes the length of agreement |
| `TrieNodes.ScanMemory` | exploration/nanomsg_exploration/nanomsg-1.0.0/src/protocols/pubsub/trie.c:156-170 | the same loop over raw memory, which may end before the given size |
| `TrieNodes.NextSlot` | exploration/nanomsg_exploration/nanomsg-1.0.0/src/protocols/pubsub/trie.c:179-201 | finds the slot that reading the branch of a character means, in both layouts |
| `TrieNodes.CompactNode` | exploration/nanomsg_exploration/nanomsg-1.0.0/src/protocols/pubsub/trie.c:203-234 | in place: the child takes over the joined prefix and the parent is dropped; the tree shown is the merged one |
| `TrieNodes.MakeChain` | exploration/nanomsg_exploration/nanomsg-1.0.0/src/protocols/pubsub/trie.c:402-436 | builds the chain of fresh nodes that TrieChains and TrieCounts.NewChainCount describe |
| `TrieNodes.SplitNode` | exploration/nanomsg_exploration/nanomsg-1.0.0/src/protocols/pubsub/trie.c:285-300 | in place: a fresh node above, the old one below with the rest of its prefix |
| `TrieNodes.Stretch` | exploration/nanomsg_exploration/nanomsg-1.0.0/src/protocols/pubsub/trie.c:326-351 | in place: the dense range grows to include the character, on either side, and old children keep their characters |
| `TrieNodes.Densify` | exploration/nanomsg_exploration/nanomsg-1.0.0/src/protocols/pubsub/trie.c:360-400 | in place: sparse to dense, with the count set to zero |
| `TrieNodes.MakeSlot` | exploration/nanomsg_exploration/nanomsg-1.0.0/src/protocols/pubsub/trie.c:302-400 | in place: in each of the three cases the slot for the new character, such that filling it adds the branch |
| `TrieNodes.SubscribeNode` | exploration/nanomsg_exploration/nanomsg-1.0.0/src/protocols/pubsub/trie.c:253-436 | the whole call below a node does what the functional description says, on heap nodes that stay disjoint |
| `TrieNodes.SubscriptionTrie.SubscribeTo` | exploration/nanomsg_exploration/nanomsg-1.0.0/src/protocols/pubsub/trie.c:236-437 | on the object: the count of the string is one more, the answer is 1 exactly when it was zero, and the invariant of the trie is kept |
| `TrieNodes.TrimNode` | exploration/nanomsg_exploration/nanomsg-1.0.0/src/protocols/pubsub/trie.c:556-600 | in place: the dense range shrinks to the first or the last used slot when an end slot has gone |
| `TrieNodes.GatherKids` | exploration/nanomsg_exploration/nanomsg-1.0.0/src/protocols/pubsub/trie.c:611-620 | the loop collects the used slots with their characters |
| `TrieNodes.Sparsify` | exploration/nanomsg_exploration/nanomsg-1.0.0/src/protocols/pubsub/trie.c:602-625 | in place: dense to sparse, with the count set to zero |
| `TrieNodes.PruneNode` | exploration/nanomsg_exploration/nanomsg-1.0.0/src/protocols/pubsub/trie.c:513-625 | in place: the parent of a vanished child, in every branch of the code |
| `TrieNodes.FoundNode` | exploration/nanomsg_exploration/nanomsg-1.0.0/src/protocols/pubsub/trie.c:627-654 | in place: the end of an unsubscribe call: the error, the lowered count, the removed leaf, the merger |
| `TrieNodes.UnsubscribeNode` | exploration/nanomsg_exploration/nanomsg-1.0.0/src/protocols/pubsub/trie.c:477-655 | the recursive call does what the functional description says, as long as that does not fault |
| `TrieNodes.SubscriptionTrie.UnsubscribeFrom` | exploration/nanomsg_exploration/nanomsg-1.0.0/src/protocols/pubsub/trie.c:472-475 | on the object, for every string but those whose call faults or damages the trie: the string that is hit, which is the given one if it is subscribed, loses one subscription and the answer is 1 exactly when it was the last; without one nothing changes; and the invariant is kept |
| `TrieNodes.SubscriptionTrie.Matches` | exploration/nanomsg_exploration/nanomsg-1.0.0/src/protocols/pubsub/trie.c:439-470 | the walk over the heap nodes gives the answer of the walk described in TrieMatch |
| `SampleSortLoops.CompareOrders` | TaskSystem/src/Tasks/SampleSortTask/SampleSortTask.c:46-49 | the 32-bit difference orders all pairs of an array correctly if and only if no two values are 2^31 or more apart |
| `SampleSortLoops.CompareFlips` | TaskSystem/src/Tasks/SampleSortTask/SampleSortTask.c:46-49 | concretely: the largest number is taken to be smaller than -1 |
| `SampleSortLoops.RandomAtMost` | TaskSystem/src/Tasks/SampleSortTask/SampleSortTask.c:54-71 | accepted draws are mapped evenly: a result r comes from exactly one bin's worth of draws for every r from 0 to max, and never lies outside; no more than max of the 2^31 draws are rejected, the highest ones |
| `SampleSortLoops.TakeSamples` | TaskSystem/src/Tasks/SampleSortTask/SampleSortTask.c:98-102 | the samples are the values at the drawn indices |
| `SampleSort.SplitterIndex` | TaskSystem/src/Tasks/SampleSortTask/SampleSortTask.c:107-114 | every splitter but the last is read inside the 1500 samples, for any number of buckets |
| `SampleSort.SplitterAt` | TaskSystem/src/Tasks/SampleSortTask/SampleSortTask.c:107-114 | splitter i is the sorted sample number (i+1)*(1500/K), for every K and every i but the last |
| `SampleSort.SplitterRank` | TaskSystem/src/Tasks/SampleSortTask/SampleSortTask.c:107-115 | in front of splitter i there are (i+1)*(1500/K) of the sorted samples, none of them larger, and none behind it is smaller; the last splitter is 1000000 |
| `SampleSort.MedianSplits` | TaskSystem/src/Tasks/SampleSortTask/SampleSortTask.c:107-115 | for two buckets the splitter is sample 750 of 1500 |
| `SampleSortLoops.PickSplitters` | TaskSystem/src/Tasks/SampleSortTask/SampleSortTask.c:107-115 | the loop picks the splitters whose ranks SplitterRank gives |
| `SampleSortLoops.ShareOut` | TaskSystem/src/Tasks/SampleSortTask/SampleSortTask.c:144-156 | the loop gives bucket i N/K values from i*(N/K) on, and the last one all that is left |
| `SampleSort.SliceSize` | TaskSystem/src/Tasks/SampleSortTask/SampleSortTask.c:144-156 | slice i is the stretch of N/K values from i*(N/K) on, and the last one all from (K-1)*(N/K) on |
| `SampleSort.SlicesPartition` | TaskSystem/src/Tasks/SampleSortTask/SampleSortTask.c:144-156 | the slices, one after the other, are the data: for every N and K nothing is lost or doubled |
| `SampleSortLoops.FindBucket` | TaskSystem/src/Tasks/BucketTask/BucketTask.c:118-126 | the search stops at the first splitter that is not smaller, or at the last |
| `SampleSort.BucketOrder` | TaskSystem/src/Tasks/BucketTask/BucketTask.c:118-126 | a value that goes to an earlier bucket than another is smaller, whatever the splitters are |
| `SampleSortLoops.CountPass` | TaskSystem/src/Tasks/BucketTask/BucketTask.c:111-127 | the counts are the numbers of values of each bucket |
| `SampleSortLoops.FillPass` | TaskSystem/src/Tasks/BucketTask/BucketTask.c:136-156 | every write of the fill pass lands inside an array of the counted size, and in the end each array is exactly full with the values of its bucket in their order |
| `SampleSortLoops.Put` | TaskSystem/src/Tasks/BucketTask/BucketTask.c:144-156 | one write: behind what is filled of that array, and no other array changes |
| `SampleSortLoops.Rebuild` | TaskSystem/src/Tasks/BucketTask/BucketTask.c:331-349 | the loops concatenate the received arrays |
| `SampleSort.MassOrder` | TaskSystem/src/Tasks/SampleSortTask/SampleSortTask.c:308-313 | the order in which the sub-arrays arrive does not change how often a value reaches a bucket |
| `SampleSort.FinalCount` | TaskSystem/src/Tasks/BucketTask/BucketTask.c:331-349 | a bucket ends up with exactly the values of the input that belong to it, each as often as it occurs |
| `SampleSort.SampleSortSorts` | TaskSystem/src/Tasks/BucketTask/BucketTask.c:187-190 | for every data, splitters and arrival order, the final arrays in bucket order are a sorted permutation of the data |
| `SampleSortSafety.StepKeeps` | TaskSystem/src/Tasks/SampleSortTask/SampleSortTask.c:73-219 | every step of root or bucket, in any interleaving, keeps the protocol invariant: what each task has received and what is in its queue are together the messages meant for it, in order |
| `SampleSortSafety.StepExpected` | TaskSystem/src/Tasks/BucketTask/BucketTask.c:56-106 | each receive finds the message its program waits for: a bucket's n-th message has the n-th expected tag, and the root gets no report before the last sub-array |
| `SampleSortRuns.NoDeadlock` | TaskSystem/src/Tasks/SampleSortTask/SampleSortTask.c:73-219 | as long as some task is not at its end, some task can move |
| `SampleSortRuns.StepProgress` | TaskSystem/src/Tasks/SampleSortTask/SampleSortTask.c:132-219 | every step brings the end one step nearer |
| `SampleSortRuns.RunInv` | TaskSystem/src/Tasks/SampleSortTask/SampleSortTask.c:73-219 | in the j-th state of a run the invariant holds and exactly 14K+3-j steps are left |
| `SampleSortRuns.SamplingPicks` | TaskSystem/src/Tasks/SampleSortTask/SampleSortTask.c:96-115 | the sampling step: the samples are the data at the drawn places, and splitter i is a sample such that at most (i+1)*(1500/K) of the samples, in whatever order, are smaller and more than that are not larger |
| `SampleSortRuns.RunSplitters` | TaskSystem/src/Tasks/SampleSortTask/SampleSortTask.c:96-115 | in every run, from then on, the splitters are such ones |
| `SampleSortRuns.RunShares` | TaskSystem/src/Tasks/BucketTask/BucketTask.c:111-190 | in every run that comes to the end, bucket i holds exactly the values of the input that the splitters assign to it, each as often as in the input |
| `SampleSortRuns.RunFinishes` | TaskSystem/src/Tasks/SampleSortTask/SampleSortTask.c:73-219 | every run ends, after exactly 14K+3 steps, with all tasks at their end; one that is shorter can go on |
| `SampleSortRuns.RunSorts` | TaskSystem/src/Tasks/BucketTask/BucketTask.c:187-234 | when the root has its last report, the arrays of the buckets in order are a sorted permutation of the input, for every input, every K > 0, every choice of samples and every interleaving |
| `Messages.NewTopology` | TaskSystem/src/Messages/TopologyMsg/TopologyMsg.c:62-70 | the stored size of a new message is that of its header and its ids |
| `Messages.NewIntArray` | TaskSystem/src/Messages/IntArrayMsg/IntArrayMsg.c:53-60 | the same for an integer array |
| `Messages.WriteHeader` | TaskSystem/src/Messages/IntArrayMsg/IntArrayMsg.c:40-47 | tag, kind, size and count stand at their offsets, and nothing else is touched |
| `Messages.WritePayload` | TaskSystem/src/Messages/IntArrayMsg/IntArrayMsg.c:48 | the words stand behind the header, and nothing else is touched |
| `Messages.WriteAt` | TaskSystem/src/Messages/TopologyMsg/TopologyMsg.c:42-60 | after a write the reserved bytes hold the message, no byte outside them has changed, and a TopologyMsg object has grown by its ids |
| `Messages.WrittenHolds` | TaskSystem/include/TaskSystem/Messages/IntArrayMsg/generated.h:46-63 | a record whose fields were stored is one that a reader who looks for the payload behind the header finds complete |
| `Messages.CloneHolds` | TaskSystem/src/Messages/TopologyMsg/TopologyMsg.c:18-35 | cloning a record that holds a message gives that message: tag, kind, size, fields and payload |
| `Messages.ResentTheSame` | TaskSystem/src/Messages/TopologyMsg/TopologyMsg.c:42-60 | however often the same TopologyMsg has been sent before, the receiver gets the same tag, kind and payload; only the stored size has grown, by four bytes per id and send, and always equals the space reserved |
| `RingQueue.Queue.constructor` | TaskSystem/src/MsgQueue/CircularMsgQ.c:55-58 | the new queue is empty |
| `RingQueue.Queue.IsEmpty` | TaskSystem/src/MsgQueue/CircularMsgQ.c:105-113 | the answer is whether no message is held |
| `RingQueue.Queue.FirstRecord` | TaskSystem/src/MsgQueue/CircularMsgQ.c:182-192 | the rollover mark is reached exactly when no record is left in front of it, and the oldest record is then at the start of the buffer, and otherwise at the head |
| `RingQueue.Queue.Peek` | TaskSystem/src/MsgQueue/CircularMsgQ.c:91-103 | reads the oldest message and changes nothing |
| `RingQueue.Queue.Dequeue` | TaskSystem/src/MsgQueue/CircularMsgQ.c:178-211 | takes exactly the oldest message out, as it was put in, and moves the head past it, from the start of the buffer when the mark has been reached; on an empty queue changes nothing |
| `RingQueue.Queue.DropFirst` | TaskSystem/src/MsgQueue/CircularMsgQ.c:184-193 | moving the head past the oldest record keeps the tiling and clears the rollover mark at the right moment |
| `RingQueue.Queue.TiledKept` | TaskSystem/src/MsgQueue/CircularMsgQ.c:128-158 | a write into the free room touches no live record |
| `RingQueue.Queue.Append` | TaskSystem/src/MsgQueue/CircularMsgQ.c:159-163 | after the write the live records tile [head, tail), or [head, rollover) followed by [start, tail) with tail at most head, and the mark is set only while the queue is not empty |
| `RingQueue.Queue.Enqueue` | TaskSystem/src/MsgQueue/CircularMsgQ.c:124-176 | a message is refused exactly when the stretch behind the tail leaves the buffer or, once rolled over, passes the head, and the stretch at the start of the buffer, if it may be used, passes the head; then nothing changes. Otherwise it is the newest, stands in that stretch, which ends at the new tail, and no other byte changes. An empty queue takes every message of at most half the buffer |
| `RingQueue.Queue.EmptyTakes` | TaskSystem/src/MsgQueue/CircularMsgQ.c:129-148 | in an empty queue, wherever its head has come to, there is room for a message of at most half the buffer at the tail or at the start |
| `RingQueue.Queue.FindRoom` | TaskSystem/src/MsgQueue/CircularMsgQ.c:129-154 | the search for room, against the positions of head, tail and mark |
| `Wire.RoundTrip16` | exploration/nanomsg_exploration/nanomsg-1.0.0/src/utils/wire.c:31-41 | 16-bit numbers: reading back what was written gives the number, and writing what was read gives the bytes |
| `Wire.RoundTrip32` | exploration/nanomsg_exploration/nanomsg-1.0.0/src/utils/wire.c:43-57 | 32-bit numbers come back as written |
| `Wire.RoundTrip64` | exploration/nanomsg_exploration/nanomsg-1.0.0/src/utils/wire.c:59-81 | 64-bit numbers come back as written |
| `Wire.NetworkOrder` | exploration/nanomsg_exploration/nanomsg-1.0.0/src/utils/wire.c:31-81 | the most significant byte comes first, in writing and in reading |
| `Wire.Putl` | exploration/nanomsg_exploration/nanomsg-1.0.0/src/utils/wire.c:51-57 | writes those four bytes and no others |
| `Chunks.Alloc` | exploration/nanomsg_exploration/nanomsg-1.0.0/src/utils/chunk.c:60-96 | sizes for which the sum overflows are refused, then unknown kinds; otherwise a chunk with one reference and the given size |
| `Chunks.Chunk.constructor` | exploration/nanomsg_exploration/nanomsg-1.0.0/src/utils/chunk.c:82-95 | a new chunk's data pointer is behind structure, empty space of size 0, and tag |
| `Chunks.Chunk.GetPtr` | exploration/nanomsg_exploration/nanomsg-1.0.0/src/utils/chunk.c:207-216 | from any valid data pointer, after any trims, the base is found |
| `Chunks.TrimmedFramed` | exploration/nanomsg_exploration/nanomsg-1.0.0/src/utils/chunk.c:183-205 | the new tag and size of empty space make the moved pointer valid, the message is the old one without its first n bytes, and the structure's bytes are untouched |
| `Chunks.Chunk.Trim` | exploration/nanomsg_exploration/nanomsg-1.0.0/src/utils/chunk.c:183-205 | in place: that, for the chunk in memory |
| `Chunks.TrimAll` | exploration/nanomsg_exploration/nanomsg-1.0.0/src/utils/chunk.c:183-205 | any series of trims amounts to one by their sum |
| `Chunks.Chunk.AddRef` | exploration/nanomsg_exploration/nanomsg-1.0.0/src/utils/chunk.c:168-175 | n more references, modulo 2^32; the message stays |
| `Chunks.Chunk.Free` | exploration/nanomsg_exploration/nanomsg-1.0.0/src/utils/chunk.c:146-166 | one reference less; the block is deallocated exactly by the last, and its pointer is then no longer a chunk's |
| `ChunkRefs.ChunkRef.constructor` | exploration/nanomsg_exploration/nanomsg-1.0.0/src/utils/chunkref.c:42-56 | a message of less than 32 bytes is kept in the reference, a longer one in a chunk |
| `ChunkRefs.ChunkRef.OfChunk` | exploration/nanomsg_exploration/nanomsg-1.0.0/src/utils/chunkref.c:58-65 | the reference stands for the chunk's message |
| `ChunkRefs.ChunkRef.Term` | exploration/nanomsg_exploration/nanomsg-1.0.0/src/utils/chunkref.c:67-75 | a chunk loses one reference and is deallocated with the last; a short message needs nothing |
| `ChunkRefs.ChunkRef.GetChunk` | exploration/nanomsg_exploration/nanomsg-1.0.0/src/utils/chunkref.c:77-94 | hands over a chunk with the same bytes, the held one or a new one, and leaves the reference empty |
| `ChunkRefs.Mv` | exploration/nanomsg_exploration/nanomsg-1.0.0/src/utils/chunkref.c:96-100 | the target stands for what the source stood for, though only the bytes in use are copied |
| `ChunkRefs.Cp` | exploration/nanomsg_exploration/nanomsg-1.0.0/src/utils/chunkref.c:102-111 | both stand for the message, and a chunk counts one reference more |
| `ChunkRefs.ChunkRef.Data` | exploration/nanomsg_exploration/nanomsg-1.0.0/src/utils/chunkref.c:113-118 | the buffer and place where exactly the message's bytes stand |
| `ChunkRefs.ChunkRef.Size` | exploration/nanomsg_exploration/nanomsg-1.0.0/src/utils/chunkref.c:120-125 | the length of the message |
| `ChunkRefs.ChunkRef.Trim` | exploration/nanomsg_exploration/nanomsg-1.0.0/src/utils/chunkref.c:127-140 | drops the first n bytes, inline or on the heap alike |
| `ChunkRefs.BulkcopyStart` | exploration/nanomsg_exploration/nanomsg-1.0.0/src/utils/chunkref.c:142-150 | adds the announced number to the count and changes no message |
| `ChunkRefs.BulkcopyCp` | exploration/nanomsg_exploration/nanomsg-1.0.0/src/utils/chunkref.c:152-155 | both stand for the message and no count changes |
| `References.StepMeans` | exploration/nanomsg_exploration/nanomsg-1.0.0/src/utils/chunkref.c:42-155 | every operation, on any mixture of shared chunks and short messages, does to the meanings of all references what it would do to messages that are values, and keeps every counter equal to the references held plus the copies still owed |
| `References.RunMeans` | exploration/nanomsg_exploration/nanomsg-1.0.0/src/utils/chunkref.c:42-155 | the same over every run |
| `References.Conserved` | exploration/nanomsg_exploration/nanomsg-1.0.0/src/utils/chunk.c:146-175 | at every moment of a run from nothing, a chunk that is held or owed copies has not been deallocated and counts exactly those; any other has been deallocated exactly once, and stays so |
| `References.TrimIsSafeAlone` | exploration/nanomsg_exploration/nanomsg-1.0.0/src/utils/chunk.c:183-205 | after a trim every other pointer is still a chunk's data pointer if and only if nothing was trimmed or nobody else held the chunk |
| `References.SharedTrim` | exploration/nanomsg_exploration/nanomsg-1.0.0/src/utils/chunk.c:183-205 | concretely: a message of 32 bytes, copied, whose trim by one byte takes it from the copy as well |
| `ReferenceObject.CpStep` | exploration/nanomsg_exploration/nanomsg-1.0.0/src/utils/chunkref.c:102-111 | the copy in memory is the step of the runs, for two references and the chunk they may share |
| `ReferenceObject.MvStep` | exploration/nanomsg_exploration/nanomsg-1.0.0/src/utils/chunkref.c:96-100 | so is the move |
| `ReferenceObject.TrimStep` | exploration/nanomsg_exploration/nanomsg-1.0.0/src/utils/chunkref.c:127-140 | so is the trim, inline and on the heap |
| `ReferenceObject.TermStep` | exploration/nanomsg_exploration/nanomsg-1.0.0/src/utils/chunkref.c:67-75 | so is the end of a reference, and the chunk goes with the last |
| `ReferenceObject.BulkStartStep` | exploration/nanomsg_exploration/nanomsg-1.0.0/src/utils/chunkref.c:142-150 | so is the announcement of copies |
| `ReferenceObject.BulkCpStep` | exploration/nanomsg_exploration/nanomsg-1.0.0/src/utils/chunkref.c:152-155 | so is one of them |
| `ReferenceObject.InitStep` | exploration/nanomsg_exploration/nanomsg-1.0.0/src/utils/chunkref.c:42-56 | a new reference that is filled is the step of the runs, with a chunk of its own from 32 bytes on |
| `ReferenceObject.InitChunkStep` | exploration/nanomsg_exploration/nanomsg-1.0.0/src/utils/chunkref.c:58-65 | so is a reference made for a chunk |
| `ReferenceObject.GetChunkStep` | exploration/nanomsg_exploration/nanomsg-1.0.0/src/utils/chunkref.c:77-94 | so is taking the chunk out of a reference, or making one for a short message |
| `References.BulkCopiesMean` | exploration/nanomsg_exploration/nanomsg-1.0.0/src/utils/chunkref.c:142-155 | copies that have been announced can all be made, each stands for the message, and as many fewer are owed |
| `References.BulkCopyComplete` | exploration/nanomsg_exploration/nanomsg-1.0.0/src/utils/chunkref.c:142-155 | announcing n copies of a reference and making n leaves nothing owed that was not owed before |
| `MessageRuns.SeriesSucceeds` | exploration/nanomsg_exploration/nanomsg-1.0.0/src/utils/chunkref.c:96-155 | a series of copies, of moves, or of announced bulk copies may be performed to the end when there is room, or enough is owed, at its beginning, even where several of the references share a chunk; the references come to stand for what they should |
| `MessageRuns.MsgCopied` | exploration/nanomsg_exploration/nanomsg-1.0.0/src/utils/msg.c:55-60 | with room in the counters the three copies may all be made; the copy is the same message, nothing else changes, and every counter is right |
| `MessageRuns.MsgMoved` | exploration/nanomsg_exploration/nanomsg-1.0.0/src/utils/msg.c:48-53 | the three moves may all be made; the target is the same message and the source none any more |
| `MessageRuns.StartsSucceed` | exploration/nanomsg_exploration/nanomsg-1.0.0/src/utils/msg.c:62-67 | the announcements for all parts of a message may be made and change no message |
| `MessageRuns.MsgBulkCopied` | exploration/nanomsg_exploration/nanomsg-1.0.0/src/utils/msg.c:62-74 | announcing a message once for each target and then copying it to each may all be done; every target is the same message, and no chunk is owed more than before |
| `Ancillary.AlignIs` | exploration/nanomsg_exploration/nanomsg-1.0.0/src/nn.h:287-288 | rounding up gives a multiple of the word size, adds less than a word, and commutes with the header's size |
| `Ancillary.FindSpHdr` | exploration/nanomsg_exploration/nanomsg-1.0.0/src/core/global.c:803-822 | the loop over the control buffer comes to what Search says, for any bytes at all; where the original goes round for ever it says so |
| `ControlSearch.SearchExact` | exploration/nanomsg_exploration/nanomsg-1.0.0/src/core/global.c:803-822 | what Search says is what stepping with nn_cmsg_nxthdr_ does, for any bytes: the steps never stop exactly when Search says so, and where they stop they come to what it says; a length that wraps to an earlier offset is followed there |
| `ControlSearch.SearchIsSafe` | exploration/nanomsg_exploration/nanomsg-1.0.0/src/core/global.c:803-822 | the search ends and reads nothing outside of the buffer if and only if the lengths lead, without coming back to an offset, out of the list or to a protocol header whose size and bytes are inside as far as they are read |
| `ControlSearch.ForwardIsSafe` | exploration/nanomsg_exploration/nanomsg-1.0.0/src/core/global.c:372-415 | in a buffer where no length leads backward: if and only if every length that is met leads forward |
| `ControlSearch.ZerosNeverEnd` | exploration/nanomsg_exploration/nanomsg-1.0.0/src/core/global.c:403-408 | concretely: in a buffer of zeros the search never ends |
| `ControlSearch.TooShortLeadsOutside` | exploration/nanomsg_exploration/nanomsg-1.0.0/src/core/global.c:808-817 | concretely: a length of 8 makes the rest of the header wrap, and its size word leads outside of the buffer |
| `ControlSearch.WrappingEnds` | exploration/nanomsg_exploration/nanomsg-1.0.0/src/core/global.c:403-411 | concretely: a length that wraps leads to an earlier offset, from which the search goes on and ends |
| `Ancillary.SearchFindsFirst` | exploration/nanomsg_exploration/nanomsg-1.0.0/src/core/global.c:803-822 | when the lengths of a whole list cover their headers and stay inside, the search takes the protocol header of the first property that is one |
| `Ancillary.HeadOf` | exploration/nanomsg_exploration/nanomsg-1.0.0/src/nn.h:303-307 | length, level and type of an encoded property are read back |
| `Ancillary.WalkEncoded` | exploration/nanomsg_exploration/nanomsg-1.0.0/src/core/global.c:372-415 | stepping with nn_cmsg_nxthdr_ over a list of properties that is cut off anywhere visits exactly the complete ones, in order, with their levels, types and data |
| `Ancillary.Receive` | exploration/nanomsg_exploration/nanomsg-1.0.0/src/core/global.c:923-966 | the control buffer is filled with the protocol header and as much of the others as fits, or left alone when not even the header fits |
| `Ancillary.ReceivedBytes` | exploration/nanomsg_exploration/nanomsg-1.0.0/src/core/global.c:923-966 | what stands at each offset afterwards: 24 bytes with the size, level and type of the property and the size of the header, then the header, the old filling bytes, as much of the other properties as fits, and the old bytes; or the old buffer, when not even the header fits |
| `Ancillary.SphdrRoundTrip` | exploration/nanomsg_exploration/nanomsg-1.0.0/src/core/global.c:803-823 | for every protocol header of any length, every other content and every old content of the buffer, a send finds exactly the header the receive put there |
| `Ancillary.PropertiesReceived` | exploration/nanomsg_exploration/nanomsg-1.0.0/src/core/global.c:959-965 | in a buffer no larger than needed, the other properties that are complete come through as well, behind the protocol header |
| `Ancillary.WalkThen` | exploration/nanomsg_exploration/nanomsg-1.0.0/src/core/global.c:372-415 | where a whole list ends, the walk goes on with whatever stands there |
| `Ancillary.PropertiesExact` | exploration/nanomsg_exploration/nanomsg-1.0.0/src/core/global.c:923-966 | in a buffer that is large enough, a walk sees exactly what was received if and only if the old bytes right behind do not happen to read as a property |
| `Ancillary.LeftOver` | exploration/nanomsg_exploration/nanomsg-1.0.0/src/core/global.c:936-941 | concretely: a buffer that still ends with an old property shows that as one of the new message |
| `Ancillary.ReusedBuffer` | exploration/nanomsg_exploration/nanomsg-1.0.0/src/core/global.c:936-941 | concretely: a buffer used again for a message with one property fewer shows that property once more |
| `Lists.List.Insert` | exploration/nanomsg_exploration/nanomsg-1.0.0/src/utils/list.c:72-87 | the item stands in front of the given one, or last; all links agree |
| `Lists.List.Erase` | exploration/nanomsg_exploration/nanomsg-1.0.0/src/utils/list.c:89-111 | the item is out and marked so, the others keep their order, and the one after it is returned |
| `Lists.List.Empty` | exploration/nanomsg_exploration/nanomsg-1.0.0/src/utils/list.c:41-44 | whether no item is in the list |
| `Timers.Place` | exploration/nanomsg_exploration/nanomsg-1.0.0/src/aio/timerset.c:51-57 | the place of a new instant: all before it are due no later, the one at it is due later |
| `Timers.PlaceKeepsOrder` | exploration/nanomsg_exploration/nanomsg-1.0.0/src/aio/timerset.c:51-62 | inserting there keeps the list in order |
| `Timers.TimerSet.Add` | exploration/nanomsg_exploration/nanomsg-1.0.0/src/aio/timerset.c:40-64 | the handle is due at now plus timeout, stands behind all that are due no later, and the answer is 1 exactly when it is first |
| `Timers.TimerSet.Rm` | exploration/nanomsg_exploration/nanomsg-1.0.0/src/aio/timerset.c:66-79 | an active handle is removed and the answer is 1 exactly when it was first; another is ignored |
| `Timers.TimerSet.Timeout` | exploration/nanomsg_exploration/nanomsg-1.0.0/src/aio/timerset.c:81-91 | no timer gives -1, otherwise what is left for the first, cut to an int |
| `Timers.RemainingIs` | exploration/nanomsg_exploration/nanomsg-1.0.0/src/aio/timerset.c:88-90 | the wait is the time left, and 0 for a timer that is overdue, exactly while the time left fits into an int, and for timers overdue by so much that the cut difference is not positive either |
| `Timers.TimerSet.Event` | exploration/nanomsg_exploration/nanomsg-1.0.0/src/aio/timerset.c:93-112 | reports and removes the first handle exactly when it is due, and otherwise changes nothing |
| `TimerRuns.StepKeeps` | exploration/nanomsg_exploration/nanomsg-1.0.0/src/aio/timerset.c:40-112 | every operation, with any timeout, keeps the active timers in one strict order, reports none early and loses none |
| `TimerRuns.StepInOrder` | exploration/nanomsg_exploration/nanomsg-1.0.0/src/aio/timerset.c:40-112 | an operation keeps one strict order of all reports, past and to come, by instant and then by activation, if and only if it adds no timer due before the last report |
| `TimerRuns.NotNegative` | exploration/nanomsg_exploration/nanomsg-1.0.0/src/aio/timerset.c:47-48 | a timeout that is not negative never does, unless its instant does not fit into 64 bits |
| `TimerRuns.RunOrdered` | exploration/nanomsg_exploration/nanomsg-1.0.0/src/aio/timerset.c:40-112 | over every run with timeouts as nn_timer_start lets them through, not negative, and instants that fit into 64 bits: the reports come in the order of their instants and, among equals, of their activation |
| `TimerRuns.RunReports` | exploration/nanomsg_exploration/nanomsg-1.0.0/src/aio/timerset.c:40-112 | over every run under a clock that does not go back, with any timeouts: none is reported early, the active ones are in order, and every activation is active, reported or removed, once |
| `TimerRuns.ReportsOrdered` | exploration/nanomsg_exploration/nanomsg-1.0.0/src/aio/timerset.c:40-112 | when no timer is added that is due before the last report, reports come in the order of their instants and, among equals, of their activation |
| `TimerRuns.OutOfOrder` | exploration/nanomsg_exploration/nanomsg-1.0.0/src/aio/timerset.c:47-48 | of nn_timerset_add taken alone, concretely: a negative timeout after a report, whose earlier instant is reported later |
| `TimerObject.TimerLog.Add` | exploration/nanomsg_exploration/nanomsg-1.0.0/src/aio/timerset.c:40-64 | the addition in place is the step of the runs, with its answer |
| `TimerObject.TimerLog.Rm` | exploration/nanomsg_exploration/nanomsg-1.0.0/src/aio/timerset.c:66-79 | so is the removal |
| `TimerObject.TimerLog.Event` | exploration/nanomsg_exploration/nanomsg-1.0.0/src/aio/timerset.c:93-112 | so is the event, and the handle reported is that of the activation |
| `TimerRuns.AnswerIsChange` | exploration/nanomsg_exploration/nanomsg-1.0.0/src/aio/timerset.c:59-78 | add and rm answer 1 exactly when the earliest activation changes |
| `TimerRuns.DrainsAll` | exploration/nanomsg_exploration/nanomsg-1.0.0/src/aio/timerset.c:93-112 | asking until there is no event reports all that are due and only those |
| `TimerRuns.InstantsFollow` | exploration/nanomsg_exploration/nanomsg-1.0.0/src/aio/timerset.c:40-112 | the instants of a run change as those of the timer set do |
| `Hashes.Hash.constructor` | exploration/nanomsg_exploration/nanomsg-1.0.0/src/utils/hash.c:33-44 | the new table is the empty map, with 32 slots |
| `Hashes.HashValues` | exploration/nanomsg_exploration/nanomsg-1.0.0/src/utils/hash.c:142-154 | the hashes of three keys |
| `Hashes.Lookup` | exploration/nanomsg_exploration/nanomsg-1.0.0/src/utils/hash.c:129-137 | every item with a key is in the slot of that key |
| `Hashes.Hash.Insert` | exploration/nanomsg_exploration/nanomsg-1.0.0/src/utils/hash.c:90-112 | binds the key to the item and keeps all other bindings; the slots are doubled exactly when twice the items have become more than the slots and these are fewer than 2^31; while they can be doubled, items*2 is at most their number |
| `Hashes.Hash.Erase` | exploration/nanomsg_exploration/nanomsg-1.0.0/src/utils/hash.c:114-121 | removes that binding and no other |
| `Hashes.Hash.Get` | exploration/nanomsg_exploration/nanomsg-1.0.0/src/utils/hash.c:123-140 | the item bound to the key, or none |
| `Hashes.Hash.Rehash` | exploration/nanomsg_exploration/nanomsg-1.0.0/src/utils/hash.c:55-87 | the same items, each in the slot of its key, among twice as many slots |
| `Hashes.MoveSlot` | exploration/nanomsg_exploration/nanomsg-1.0.0/src/utils/hash.c:71-83 | one old slot is emptied into the new ones, nothing is lost |
| `Hashes.OneMore` | exploration/nanomsg_exploration/nanomsg-1.0.0/src/utils/hash.c:106-111 | the test for a full table cannot overflow before the slots are at their limit |
| `Sockets.StepKeeps` | exploration/nanomsg_exploration/nanomsg-1.0.0/src/core/sock.c:841-932 | in every interleaving of calls, close and endpoint events: the holds are those of the calls in progress plus the owner's, every endpoint is in exactly one of the two lists or deallocated, and each semaphore has been posted at most once, at the right time |
| `Sockets.RmEpStops` | exploration/nanomsg_exploration/nanomsg-1.0.0/src/core/sock.c:526-562 | in every reachable state: the endpoint that is named, and no other, leaves the active ones, whose order is kept, and becomes the last of those shutting down; without it nothing changes |
| `Sockets.EpGoneGoes` | exploration/nanomsg_exploration/nanomsg-1.0.0/src/core/sock.c:876-929 | in every reachable state: the endpoint that reports is the one deallocated, and is in no list any more; when it was the last of a socket being stopped, the socket type is stopped, with its post at once if it has no stop function |
| `Sockets.FreedIsUnused` | exploration/nanomsg_exploration/nanomsg-1.0.0/src/core/global.c:503-552 | when the closing thread frees the socket, every endpoint has been deallocated once, no call has a hold, and each semaphore was posted exactly once |
| `Sockets.NothingAfterFree` | exploration/nanomsg_exploration/nanomsg-1.0.0/src/core/global.c:527-552 | no step can touch a freed socket |
| `Sockets.NoDeadlock` | exploration/nanomsg_exploration/nanomsg-1.0.0/src/core/sock.c:204-240 | from the close to the free, the closing thread, a call, an endpoint or the socket type can always go on |
| `Sockets.StepLess` | exploration/nanomsg_exploration/nanomsg-1.0.0/src/core/sock.c:204-240 | and every step leaves less to do |
| `Sockets.CloseEnds` | exploration/nanomsg_exploration/nanomsg-1.0.0/src/core/global.c:516-552 | so every run from the close on is finite, bounded by the work there was, and stops only with the socket freed |
| `Sockets.LateEndpoint` | exploration/nanomsg_exploration/nanomsg-1.0.0/src/core/sock.c:494-524 | adding an endpoint, which does not look at the state, keeps the invariant if and only if the socket has not been stopped |
| `Sockets.HurriedRun` | exploration/nanomsg_exploration/nanomsg-1.0.0/src/core/sock.c:494-524 | concretely: a call can have its hold while the socket is already stopped |
| `Sockets.LateEndpointRun` | exploration/nanomsg_exploration/nanomsg-1.0.0/src/core/sock.c:245-246 | and if it adds an endpoint then, the closing thread comes to the end of the socket with the endpoint still in the list |
| `SocketObject.Sock.Hold` | exploration/nanomsg_exploration/nanomsg-1.0.0/src/core/sock.c:1111-1124 | a hold while the socket is active, or the error once it is being stopped |
| `SocketObject.Sock.Release` | exploration/nanomsg_exploration/nanomsg-1.0.0/src/core/sock.c:1126-1132 | a hold less, and a post for the last one |
| `SocketObject.Sock.AddEp` | exploration/nanomsg_exploration/nanomsg-1.0.0/src/core/sock.c:494-524 | the endpoint is last in the list, under the next number |
| `SocketObject.Sock.RmEp` | exploration/nanomsg_exploration/nanomsg-1.0.0/src/core/sock.c:526-562 | the endpoint named, and no other, goes from the active ones to the end of the list of those shutting down, or the error when it is not active |
| `SocketObject.Sock.Shutdown` | exploration/nanomsg_exploration/nanomsg-1.0.0/src/core/sock.c:850-903 | the loop moves all endpoints, in order, behind those shutting down; with none there the socket type is stopped |
| `SocketObject.Sock.EpStopped` | exploration/nanomsg_exploration/nanomsg-1.0.0/src/core/sock.c:876-897 | the endpoint that reports leaves its list for good and is deallocated; in a socket being stopped, the last one starts the next phase; in an active one nothing else happens |
| `SocketObject.Sock.ProtocolStopped` | exploration/nanomsg_exploration/nanomsg-1.0.0/src/core/sock.c:904-929 | the last phase, with its post |
| `Descriptors.OpenCount` | exploration/nanomsg_exploration/nanomsg-1.0.0/src/core/global.c:217-225 | the height of the stack says how many descriptors are open |
| `Descriptors.Popped` | exploration/nanomsg_exploration/nanomsg-1.0.0/src/core/global.c:432-457 | a descriptor taken from the stack is not open, and the stack still holds exactly the free ones, each once |
| `Descriptors.Pushed` | exploration/nanomsg_exploration/nanomsg-1.0.0/src/core/global.c:538-543 | the same when one is put back |
| `Descriptors.Descending` | exploration/nanomsg_exploration/nanomsg-1.0.0/src/core/global.c:222-225 | the initial stack holds every descriptor once |
| `Descriptors.Global.constructor` | exploration/nanomsg_exploration/nanomsg-1.0.0/src/core/global.c:207-225 | no socket is open |
| `Descriptors.Global.Create` | exploration/nanomsg_exploration/nanomsg-1.0.0/src/core/global.c:417-462 | errors in their order, for lack of slots exactly when all 512 are open; otherwise a descriptor that was not open is now, and no other changes |
| `Descriptors.Global.Remove` | exploration/nanomsg_exploration/nanomsg-1.0.0/src/core/global.c:538-543 | the descriptor is free and the next to be handed out |
| `BoundedBuffer.StartInv` | nano_benchmarking/ipc/shared_ipc/shared_ipc.c:115-135 | the initial values satisfy the invariant |
| `BoundedBuffer.StepKeeps` | nano_benchmarking/ipc/shared_ipc/shared_ipc.c:34-66 | every step of any process keeps it: mutual exclusion, the account of the slots, the indices, and the ring holding exactly what was inserted and not consumed yet |
| `BoundedBuffer.Bounds` | nano_benchmarking/ipc/shared_ipc/shared_ipc.c:34-66 | count stays between 0 and BUFFER_SIZE; empty, full and the slots held between a wait and its post add up to BUFFER_SIZE; at most one process is in the critical section |
| `BoundedBuffer.PutsBehind` | nano_benchmarking/ipc/shared_ipc/shared_ipc.c:41-43 | a producer that writes has a free slot and overwrites no item |
| `BoundedBuffer.TakesFirst` | nano_benchmarking/ipc/shared_ipc/shared_ipc.c:56-58 | a consumer that reads has an item, and it is the oldest |
| `BoundedBuffer.Unstuck` | nano_benchmarking/ipc/shared_ipc/shared_ipc.c:34-66 | as long as some process has rounds left, some process can take a step |
| `BoundedBuffer.RunInOrder` | nano_benchmarking/ipc/shared_ipc/shared_ipc.c:34-66 | at any moment of any run the consumed items are the beginning of the inserted ones |
| `BoundedBuffer.RunEnds` | nano_benchmarking/ipc/shared_ipc/shared_ipc.c:34-66 | a run that cannot go on has consumed all thread_count*update_count items, each producer's in its order, after 14 steps for each |

## Left out

- Loops that walk a pointer to a pointer (trie.c lines 255-283 and 406-428) are recursion over child slots in `TrieNodes`; conversions reuse the node object where the source allocates a new one and frees the old, so the model does not speak of the release of trie nodes.
- TrieNodes.SubscriptionTrie.SubscribeTo: needs that the 32-bit counter of the string does not wrap; what happens when it does is stated by TrieCounts.SubscribeCounts only.
- TrieNodes.SubscriptionTrie.UnsubscribeFrom: not for the strings whose call faults or leaves a malformed trie; by TrieMisses.CallSettles those are exactly the ones its precondition excludes.
- SampleSortRuns.RunSorts: for K > 0, and the values are taken to be less than 2^31 apart, so that the sort calls sort.
- SampleSortRuns.RunFinishes: for data that are not empty, since an empty array cannot be sampled.
- The sample sort passes arrays by reference; the model passes values, and does not capture the lifetime of the stack array at line 137 of BucketTask.c, memory limits, or a send that is refused.
- RingQueue.Queue.Dequeue: takes a message and clones it in one step; the source clones after the lock has been dropped.
- RingQueue.Queue.Enqueue: needs that tail and sizes stay below 2^31, and a message object whose size covers its contents.
- Function pointers in message records, the queue mutex, shared memory and message kinds other than IntArrayMsg and TopologyMsg.
- nn_chunk_realloc, which ignores trimmed space, and failing allocations.
- ChunkRefs.ChunkRef.constructor: a size so large that the allocation would overflow is the failed assertion of line 55, a precondition here; the pointer that the source keeps in bytes 8 to 15 of the reference is a pair of fields.
- References.StepMeans: for callers that overwrite no reference to a chunk, trim shared chunks by nothing only, and make fewer than 2^32 references to one chunk.
- Ancillary.FindSpHdr: on buffers on which the original never ends, by ControlSearch.SearchExact, the model's loop ends and says so, for which it keeps the offsets it has been at.
- ReferenceObject.CpStep: like its companions for one target, one source and one chunk.
- Sizes and offsets are those of a machine with 8-byte pointers and little-endian numbers.
- Lists.List.Insert: the value that marks an item as outside of any list is a flag of its own.
- Timers.TimerSet.Add: the clock is a parameter, which TimerRuns.StepKeeps takes not to go back.
- Hashes.Hash.Insert: a key that is bound already trips the assertion of line 101, a precondition here.
- Sockets.StepKeeps: the state before the start of the socket, which no call can see, is not modelled, and endpoints are added before the stop only; Sockets.LateEndpoint says why.
- SocketObject.Sock.EpStopped: an endpoint reports once, and only after it was asked to stop.
- Descriptors.Global.Create: whether the socket type is known and what its initialisation answers are parameters.
- The int arithmetic of thread_count*update_count is taken not to overflow, and memory accesses are sequentially consistent.
- Operating-system calls, pollers, worker threads, transports, options, statistics, the socket types with their load balancing and fair queueing, the other tasks, the benchmarks' measurements and the command-line tools.
