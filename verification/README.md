# LEED store and multi-buffer crypto: a verified model

This project models two parts of the repository in Dafny and proves what they are for.

**The LEED key-value store** (`spdk/app/leed`).

- `RingOrder`, `RingChain`, `RingUpdate`, `RingSteps`, `RingEpoch`, `RingCounts`, `RingCopy`: the consistent-hashing
  ring in 64-bit wrap-around order, replica chains while a vnode joins or leaves, what each membership event does to all
  chains, the per-thread ring copies with their version counters as a step system, what the counters of a vnode count,
  and the key ranges that are copied.
- `CompactionModel`, `CompactionRuns`, `BucketLog`: the bucket log with puts, commits and lock-free compaction, first
  as a history of chains with its runs, then as the circular device, wrapped offsets and index of the code.
- `LockModel`, `LockFrame`, `BucketLock`: the all-or-nothing bucket lock that hands cached segments from request to
  request.
- `DataStore`: lock, log and items together; what a get answers and a lock holder sees in any interleaving.
- `PrefetchWindow`, `CircularLogFetch`, `CircularLogIo`: the prefetch ring of a circular log and the split of
  scatter/gather lists where the log wraps.
- `SegmentItems`, `BucketSegment`: the item slots of a bucket chain as a bounded map.
- `BucketMeta`, `Admission`, `CopyModel`, `CopyRuns`, `CopyScheduler`, `ValuePacking`: the two-level index, admission by
  cost, the range copier, and where value compaction puts values.

**The multi-buffer crypto library** (`spdk/intel-ipsec-mb`).

- `CcmSpec`, `CcmLanes`, `AesCcm`: AES-CCM of RFC 3610 over any block cipher, and the lane manager that interleaves jobs.
- `JobPhases`, `JobRing`: the 128-slot in-order ring over out-of-order cipher and hash units.
- `DesBlock`, `DesModes`: DES for any S-box tables and key schedule, and the CBC, 3DES and DOCSIS modes on byte buffers.

`SeqOps` and `WrapMath` hold facts about sequences and about offsets that wrap.

How the code's state is represented: objects that handlers change are classes whose methods are proved against value
models; messages, I/O completions and lock deliveries are events of step systems that come in any order the code allows.
Block ciphers, S-boxes and the assembly kernels are function parameters.

What is assumed, each as an explicit precondition or guard:

- At most one vnode of a ring is joining or leaving (`kv_ring.c:233` exits otherwise), all nodes have the same
  replication factor, and a vnode is put in with a new id. `ApplyOneInvalidIff` says which events break the first.
- `ServesOnlyAfterCopy` and `DroppedReplicaServesNobody` concern histories without the events that let a vnode serve
  data it has not received; `ApplyContinuousIff` shows that these are exactly the `SkipsCopy` events.
- A compaction does not run into a chain with items that is written but not committed (`NoneUncommittedBefore`). The
  code does not guard this; `CompactionSafeIff` shows that it is exactly what compaction needs, and
  `UncommittedPutIsLost` gives a run of the code without it.
- A put does not overwrite a compaction source whose write is outstanding (`SparesSources`). The code does not guard
  this either; `RangeTestExactIff` shows that the test of the write callback is exact if and only if it holds.
- A head move leaves at least as many blocks as the prefetch ring holds, or the window covers the log (`MoveHead`).
  `HeadMoveLeavesWindow` proves it for the bucket log; for the value log it is an assumption. `CopyRightIff` shows what
  it is for.
- A holder marks the segments it changes. The create branch of the batched set (`kv_data_store.c:267`) marks another
  segment; `UnmarkedChangeLeaksIff` says when that matters.
- Lock requests name distinct buckets and at least one.
- Keys are not empty; the code identifies an empty slot by its key length.
- An empty entry is not written over an empty slot of an existing index block; `PutRefinesIff` shows that this is
  exactly what the index needs, and `DeletingNothingLosesAnEntry` that range deletion can violate it.
- The copier reports a range only if its ends differ and no chain of it has buckets but no item;
  `QuietMeansReported`, `StuckIff` and `EmptyRangeIff` show that these are all the exceptions and where they come from.
- AES-CCM messages are shorter than 64 KiB; `CodeB0IsB0Iff` shows that block 0 is right for these messages only.
- A job whose first unit hands it out again when flushed has no out-of-order second unit (`Orderly`);
  `HandedInTwiceIff` shows that complete_job needs exactly this.

## Model

| member | source | states |
|---|---|---|
| RingOrder.FindVidEntry | spdk/app/leed/kv_ring.c:187-197 | the list walk always stops inside a non-empty list, at the vnode the lookup specification names |
| RingOrder.FindIsTheOwner | spdk/app/leed/kv_ring.c:187-197 | on a sorted ring the lookup finds the vnode with the key in (pred, vnode], and no other vnode has it there |
| RingOrder.ViewIsClockwise | spdk/app/leed/kv_ring.c:187-197 | walking on from the owner meets the vnodes in order of distance from the key |
| RingOrder.ClockwiseUnique | spdk/app/leed/kv_ring.c:187-197 | the clockwise order of a set of vnodes does not depend on where the list starts |
| RingOrder.InsertSorted | spdk/app/leed/kv_ring.c:481-491 | insertion keeps the list sorted relative to last.vid + 1 in 64-bit wrap-around order |
| RingOrder.DeleteSorted | spdk/app/leed/kv_ring.c:493-496 | removal keeps the list sorted, also when the last vnode goes |
| RingOrder.InsertView | spdk/app/leed/kv_ring.c:481-491 | seen from any key, insertion adds the vnode at one place and moves nothing else |
| RingOrder.DeleteView | spdk/app/leed/kv_ring.c:493-496 | seen from any key, removal takes one vnode out and moves nothing else |
| RingOrder.InsertedOwns | spdk/app/leed/kv_ring.c:481-491 | the new vnode owns exactly the keys between its predecessor and itself |
| RingOrder.JoinMovesOnlyItsArc | spdk/app/leed/kv_ring.c:481-491 | a join changes the owner of the keys in (pred, vnode] and of no other key |
| RingOrder.LeaveMovesOnlyItsArc | spdk/app/leed/kv_ring.c:493-496 | a removal gives the removed vnode's keys to its successor and changes no other owner |
| RingChain.Walk | spdk/app/leed/kv_ring.c:224-248 | the walk collects exactly the chain: running vnodes in ring order, one fewer past a leaving vnode, with copy target and invalid vnode |
| RingChain.WalkFindsChain | spdk/app/leed/kv_ring.c:228-247 | a walk that stops for lack of need or of vnodes has the serving vnodes, invalid vnode and copy target of the chain specification |
| RingChain.GetChain | spdk/app/leed/kv_ring.c:217-249 | the chain of a key is the specified one whenever at most one vnode is not running; an empty ring and a second invalid vnode are reported as such |
| RingChain.JoinStartKeepsChains | spdk/app/leed/kv_ring.c:217-249 | inserting a joining vnode changes no serving chain of any key |
| RingChain.JoinEndInsertsVnode | spdk/app/leed/kv_ring.c:579-587 | when the joining vnode runs, every chain is the old one with it put in at its ring position and cut to the replication factor; it was the copy target where it enters |
| RingChain.JoinEndDropsFullTail | spdk/app/leed/kv_ring.c:523-525 | the old tail leaves a chain exactly when the chain was full, which is the del flag; all others stay |
| RingChain.LeaveStartRemovesVnode | spdk/app/leed/kv_ring.c:217-249 | marking a vnode as leaving takes it out of the chains and changes nothing else |
| RingChain.LeaveEndAppendsCopy | spdk/app/leed/kv_ring.c:493-496 | deleting a leaving vnode gives old chain ++ [copy target], or the old chain if there is none |
| RingUpdate.ThreadRing.VnodeCreate | spdk/app/leed/kv_ring.c:481-491 | the thread's list becomes the sorted insertion of the new vnode |
| RingUpdate.ThreadRing.BumpVersion | spdk/app/leed/kv_ring.c:582-586 | a version is opened exactly when the slot before the current one counts no requests |
| RingUpdate.ThreadRing.UpdateRing | spdk/app/leed/kv_ring.c:551-627 | one event changes one thread's ring as `Apply`, the subject of the laws of `RingCounts` and `RingSteps`, and is refused exactly when one of the assertions fails |
| RingCounts.EpochGrowsIff | spdk/app/leed/kv_ring.c:578-617 | a new ring version is opened if and only if a deletion ends a join, its vnode running from now on, or ends a departure, its vnode being gone |
| RingCounts.ApplyAtNode | spdk/app/leed/kv_ring.c:551-627 | an event changes the vnode of its own node only, and no node ever has two |
| RingCounts.CountersCount | spdk/app/leed/kv_ring.c:560-617 | over whole histories cp_cnt is the number of announced copies to the vnode less those finished, and rm_cnt one more than the announced copies from it less those finished, modulo 2^32, since the vnode came into the ring |
| RingCounts.JoinsWhileCopied | spdk/app/leed/kv_ring.c:578-591 | a vnode that is not leaving joins exactly while copies to it are outstanding, and runs from the end of the last one on |
| RingCounts.GoesWithLastHolder | spdk/app/leed/kv_ring.c:592-617 | a vnode leaves the ring exactly with the last of its holders, and only a put brings one in |
| RingCounts.BornWith | spdk/app/leed/kv_ring.c:481-491 | a vnode in the ring has the id and data store of the put that created it, and its node has had it ever since |
| RingSteps.ApplyKeepsSorted | spdk/app/leed/kv_ring.c:560-617 | every membership event, in every state, leaves the thread's list in ring order |
| RingSteps.ApplyOneInvalidIff | spdk/app/leed/kv_ring.c:560-617 | with at most one vnode joining or leaving, an event makes a second one if and only if it marks a vnode while another is joining or leaving |
| RingSteps.ApplyContinuousIff | spdk/app/leed/kv_ring.c:560-617 | for all events and all keys: after the event every serving vnode served the key before or was its copy target, if and only if the event is none of these: a running vnode out of nothing, a leaving vnode that runs again, and, with more vnodes than replicas, a running vnode that starts to join again or goes without having left |
| RingSteps.DeletedContinuous | spdk/app/leed/kv_ring.c:817-826 | a vnode may be deleted without a gap if and only if it was not running, or the running vnodes are no more than the replicas, or the next vnode is leaving |
| RingSteps.VanishedVnodeLeavesAGap | spdk/app/leed/kv_ring.c:592-597 | three running vnodes, two replicas: when the first one's node vanishes the third serves keys it never received |
| RingEpoch.StepKeepsInv | spdk/app/leed/kv_ring.c:399-449 | every step of any thread keeps the system invariant |
| RingEpoch.ReachableStates | spdk/app/leed/kv_ring.c:980-1043 | in every reachable state counter[v] is the number of live requests of version slot v, and the master's epoch is behind every worker's |
| RingEpoch.LastAckIsNext | spdk/app/leed/kv_ring.c:556-557 | the acknowledgement that counts an event down to zero is for the event the master has to apply next |
| RingEpoch.MasterIsLast | spdk/app/leed/kv_ring.c:556-557 | the master never applies an event before all workers have |
| RingEpoch.EpochSafety | spdk/app/leed/kv_ring.c:786-799 | once a range is ended, no request of the epoch in which the master started to copy it, or of an older one, is live or ever admitted again, in every continuation and through every wrap of the version numbers; what is ended is the range that was copied |
| RingEpoch.AdmittedRequestsAreLater | spdk/app/leed/kv_ring.c:980-1043 | the same by events: a request that some thread admits, and that is not released, is handled with a ring of a later epoch, the ring of the events that thread had applied |
| RingEpoch.EndRangeIff | spdk/app/leed/kv_ring.c:786-799 | the poller may end a range if and only if its epoch is over for all requests, as long as no version number in use is 64 or more ahead |
| RingEpoch.HistorySorted | spdk/app/leed/kv_ring.c:551-627 | after every history of events with fresh vids and one invalid vnode the ring is sorted, starting from no ring at all |
| RingEpoch.ServesOnlyAfterCopy | spdk/app/leed/kv_ring.c:551-627 | over any stretch of the history, a vnode that does not serve a key serves it later only if it was the key's copy target in between |
| RingEpoch.DroppedReplicaServesNobody | spdk/app/leed/kv_ring.c:786-799 | after a join completed in the epoch in which the master started to copy a range, when that range is ended no request in flight then or later, whatever membership events follow, has a chain that contains the replica whose data is dropped, unless that replica has received the data again |
| RingCopy.CopyRangesPartitionTheArc | spdk/app/leed/kv_ring.c:527-544 | every key of the ring in (prev, base] is in exactly one of the one or two ranges, every other key in none |
| RingCopy.LastIdLeaksIntoRingZero | spdk/app/leed/kv_ring.c:527-544 | with several rings, an arc after id 2^64-1 gives a range that reaches into ring 0 |
| RingCopy.CopyRangesExactIff | spdk/app/leed/kv_ring.c:527-544 | the ranges are exact if and only if the arc does not start after id 2^64-1 in a system of several rings |
| RingCopy.EmptyRangeIff | spdk/app/leed/kv_ring.c:527-544 | start_copy hands out a range whose ends coincide if and only if the arc starts after the last id of a ring other than the last |
| RingCopy.Visited | spdk/app/leed/kv_ring.c:517-549 | the loop visits each vnode at most once, exactly those fewer than rpl_num steps before the changed vnode |
| RingCopy.VisitedAreTheAffected | spdk/app/leed/kv_ring.c:517-549 | these are exactly the owners of the keys whose chain meets the changed vnode |
| RingCopy.BucketHasOneOwner | spdk/app/leed/kv_ring.c:182-185 | with masked vnode ids all keys of a data-store bucket have one owner |
| CompactionModel.StepKeepsInv | spdk/app/leed/kv_bucket_log.c:15-90 | every put, commit, compaction write, head move and completion keeps the log well formed and every index entry inside it; only a commit changes the contents; compaction does not run into an uncommitted chain with items, which `CompactionSafeIff` shows to be exactly what it needs |
| CompactionModel.StepCommitPut | spdk/app/leed/kv_bucket_log.c:297-311 | a commit makes the written chain the content of its bucket, or removes the bucket if the chain has no items |
| CompactionModel.StepCommitMove | spdk/app/leed/kv_bucket_log.c:34-55 | redirecting the index to a copied chain, or not, never changes the contents |
| CompactionModel.StepMoveHead | spdk/app/leed/kv_bucket_log.c:15-26 | the head passes only chains that no index entry needs |
| CompactionModel.EnoughToCompact | spdk/app/leed/kv_bucket_log.c:57-90 | a compaction that is wanted always finds 512 blocks in front of the tail |
| CompactionModel.CascadeAdvances | spdk/app/leed/kv_bucket_log.c:57-90 | each compaction moves compact_head at least 512 blocks further from the head, so nested calls come to an end |
| CompactionModel.RunRefinesMap | spdk/app/leed/kv_bucket_log.c:15-90 | in every run the store is the map given by its commits alone, with the pending puts untouched |
| CompactionModel.FreshStore | spdk/app/leed/kv_bucket_log.c:93-102 | an empty store satisfies the invariant |
| CompactionRuns.CodeRunKeepsSteady | spdk/app/leed/kv_bucket_log.c:57-90 | in every run in which compactions start only when the code's two tests hold, outstanding copies account for all live chains in front of compact_head, and the tail stays a window ahead of it |
| CompactionRuns.HeadMoveLeavesWindow | spdk/app/leed/kv_bucket_log.c:57-102 | in every such run from an empty log every head move leaves at least the blocks of the prefetch ring |
| CompactionRuns.CompactionSafeIff | spdk/app/leed/kv_bucket_log.c:57-90 | when a compaction is wanted, every continuation keeps every index entry inside the log if and only if no chain with items in the stretch it reads is written and not committed |
| CompactionRuns.PassedChainIsLost | spdk/app/leed/kv_bucket_log.c:15-26 | for every state and every such chain there is a continuation that leaves its index entry in front of the head |
| CompactionRuns.UncommittedPutIsLost | spdk/app/leed/kv_bucket_log.c:57-90 | such a state is reached from an empty log, whatever the chain |
| BucketLog.KvBucketLog.ReadChain | spdk/app/leed/kv_bucket_log.c:218-234 | a read at a chain's offset returns that chain, also round the end of the device |
| BucketLog.KvBucketLog.Get | spdk/app/leed/kv_bucket_log.c:218-234 | a bucket is read as its last committed chain |
| BucketLog.KvBucketLog.WriteChain | spdk/app/leed/kv_bucket_log.c:111-123 | a chain written at the tail is laid out behind the others, none of which it overwrites |
| BucketLog.KvBucketLog.Put | spdk/app/leed/kv_bucket_log.c:243-267 | a put is refused exactly when there is no room, and otherwise is the append of the model |
| BucketLog.KvBucketLog.Commit | spdk/app/leed/kv_bucket_log.c:297-311 | the index entry is the committed chain's, in the representation of the model |
| BucketLog.KvBucketLog.Abort | spdk/app/leed/kv_data_store.c:193-198 | a written chain that is not committed leaves the index and the contents as they were |
| BucketLog.KvBucketLog.DeadBlocks | spdk/app/leed/kv_bucket_log.c:15-26 | the loop counts exactly the blocks up to the first chain that is live or not compacted |
| BucketLog.KvBucketLog.CompactMoveHead | spdk/app/leed/kv_bucket_log.c:15-26 | the head moves exactly as the model's |
| BucketLog.KvBucketLog.RangeTest | spdk/app/leed/kv_bucket_log.c:34-55 | the test on wrapped offsets holds exactly when the entry still lies in the compacted range |
| BucketLog.RangeTestExactIff | spdk/app/leed/kv_bucket_log.c:34-55 | that test is exact for all positions if and only if the log is not longer than the device |
| BucketLog.KvBucketLog.CommitCopy | spdk/app/leed/kv_bucket_log.c:34-55 | one turn of the loop redirects one entry as the model does |
| BucketLog.KvBucketLog.CompactWriteCb | spdk/app/leed/kv_bucket_log.c:34-55 | the whole callback commits all copies, moves the head and leaves the contents as they were |
| BucketLog.KvBucketLog.Collect | spdk/app/leed/kv_bucket_log.c:57-90 | the collecting loop takes exactly the live chains of the first 512 or more blocks, in order |
| BucketLog.KvBucketLog.StartCompaction | spdk/app/leed/kv_bucket_log.c:57-90 | the copies are written behind the tail and remembered with their source range |
| BucketLog.KvBucketLog.Compact | spdk/app/leed/kv_bucket_log.c:57-90 | nested compaction terminates and leaves the contents as they were |
| LockModel.Exclusion | spdk/app/leed/kv_bucket.cpp:120-193 | no bucket is held by two requests, and the locked buckets are exactly those of granted requests |
| LockModel.NoStrandedWaiter | spdk/app/leed/kv_bucket.cpp:120-193 | in every reachable state each queued request has a locked bucket, so nothing locked means nobody waits |
| LockModel.CallbacksFireOnce | spdk/app/leed/kv_bucket.cpp:96-119 | each callback fires once, only for a granted request, and has fired once all reads are back |
| LockModel.OneCopy | spdk/app/leed/kv_bucket.cpp:83-94 | at most one segment object per bucket has or fetches its chain |
| LockModel.DeliveryIsCurrent | spdk/app/leed/kv_bucket.cpp:96-193 | when a callback fires each granted segment is clean and holds the last committed chain, through prefetch, overtaking, hand-over and discard |
| LockModel.GrantOneKeepsInv | spdk/app/leed/kv_bucket.cpp:135-147 | granting one bucket keeps the invariant whether its segment is cached, being read or absent |
| LockModel.ReadDoneKeepsInv | spdk/app/leed/kv_bucket.cpp:96-119 | a read that completes keeps the invariant, for a holder and for a waiter |
| LockModel.PrefetchKeepsInv | spdk/app/leed/kv_bucket.cpp:151-165 | a prefetch by a waiter keeps the invariant |
| LockModel.WaiterIsPrefetched | spdk/app/leed/kv_bucket.cpp:151-165 | a request that has to wait has each of its segments cached or on its way, with itself or with another |
| LockModel.ReleaseOneKeepsInv | spdk/app/leed/kv_bucket.cpp:166-186 | releasing one bucket keeps the invariant, with a clean hand-over and with a dirty discard |
| LockModel.UnmarkedChangeLeaksIff | spdk/app/leed/kv_data_store.c:264-270 | after a change that is given up, the next owner of the segment sees the stored chain if and only if the segment was marked dirty, nobody waits for it, or nothing had changed; the create branch of the batched set marks another segment |
| LockModel.EditKeepsInv | spdk/app/leed/kv_data_store.c:217-243 | a holder may change its segment |
| LockModel.CommitKeepsInv | spdk/app/leed/kv_bucket_log.c:297-311 | a holder's commit makes its chain the stored one |
| LockFrame.NextFrame | spdk/app/leed/kv_bucket.cpp:96-193 | whatever requests, reads, releases and commits of others do, a request keeps every bucket it was called back for, with its segment untouched, until it releases it; what it releases it does not get back |
| DataStore.StepKeepsInv | spdk/app/leed/kv_data_store.c:192-243 | locks, log and items stay in step: committed chains of lock and log hold the same entries, a written chain is the holder's segment, and a segment is the committed operations of its bucket with the holder's own on top |
| DataStore.GetIsLastCommitted | spdk/app/leed/kv_data_store.c:363-390 | in every interleaving of locks, reads, sets, deletes, writes, commits, give-ups, unlocks and compactions, the log's answer for a key is the last committed write of that key |
| DataStore.HolderSeesLastCommitted | spdk/app/leed/kv_data_store.c:217-243 | a request that has its callback sees the last committed value of every key of its buckets, changed only by its own operations since |
| DataStore.SegmentCanBeWritten | spdk/app/leed/kv_bucket_log.c:243-267 | the slots set and delete leave, cut into buckets, are a chain that may be written and holds what the segment holds |
| BucketLock.KvBucketLock.Lockable | spdk/app/leed/kv_bucket.cpp:120-126 | true exactly when none of the buckets is locked |
| BucketLock.KvBucketLock.TryLock | spdk/app/leed/kv_bucket.cpp:127-149 | takes all buckets or none, as the model grants |
| BucketLock.KvBucketLock.Acquire | spdk/app/leed/kv_bucket.cpp:151-165 | the request is granted or queued with prefetch, as the model's request |
| BucketLock.KvBucketLock.ReleaseSegment | spdk/app/leed/kv_bucket.cpp:170-185 | a segment goes to the first waiter that wants it if clean, and is dropped otherwise |
| BucketLock.KvBucketLock.Unlock | spdk/app/leed/kv_bucket.cpp:166-193 | release of all buckets and retry of all waiters, as the model's |
| BucketLock.KvBucketLock.ReadCompletion | spdk/app/leed/kv_bucket.cpp:96-119 | a completed read is the model's |
| BucketLock.KvBucketLock.SegmentMove | spdk/app/leed/kv_bucket.cpp:83-94 | the chain moves to the other object and leaves the first empty |
| PrefetchWindow.DropOne | spdk/app/leed/kv_circular_log.c:106-122 | moving the head drops one slot and the rest still mirrors the log |
| PrefetchWindow.StoreOne | spdk/app/leed/kv_circular_log.c:63-104 | a block of a finished read is stored in a slot no other live block uses |
| PrefetchWindow.AppendOne | spdk/app/leed/kv_circular_log.c:33-61 | an appended block copied into the ring keeps the mirror when the window covers the log |
| PrefetchWindow.CopyRightIff | spdk/app/leed/kv_circular_log.c:33-61 | with room in the ring, copying an appended block is right for every block if and only if the window covers the whole log and no read is outstanding |
| CircularLogFetch.FetchedLog.FetchOne | spdk/app/leed/kv_circular_log.c:136-142 | the block fetched is the block of the log at that offset |
| CircularLogFetch.FetchedLog.Grow | spdk/app/leed/kv_circular_log.c:63-104 | the window grows up to the first block that has not arrived |
| CircularLogFetch.FetchedLog.IssueRead | spdk/app/leed/kv_circular_log.c:63-104 | a read is issued exactly when there is room in the ring and something to read |
| CircularLogFetch.FetchedLog.MoveHead | spdk/app/leed/kv_circular_log.c:106-122 | the head moves when the log still fills the ring or the window covers it, the mirror holds, and the loop ends with all reads issued that can be |
| CircularLogFetch.FetchedLog.ReadDone | spdk/app/leed/kv_circular_log.c:63-104 | reads that finish in any order keep the mirror and the window |
| CircularLogFetch.FetchedLog.Append | spdk/app/leed/kv_circular_log.c:33-61 | an append of a list of buffers extends the log and keeps the mirror, whether or not it reaches the ring |
| CircularLogFetch.FetchedLog.CopyPieces | spdk/app/leed/kv_circular_log.c:33-61 | the loop over the list copies the buffers into the ring in order until it is full; the window then ends at the end of the log or the ring is full |
| CircularLogIo.SplitIov | spdk/app/leed/kv_circular_log.c:163-188 | the entries of the first transfer cover the blocks up to the end of the log in order, those of the second all others; there is a second exactly when needed |
| CircularLogIo.ReadWritten | spdk/app/leed/kv_circular_log.c:163-225 | reading back a written range gives what was written, and no other block changes |
| CircularLogIo.TwoTransfers | spdk/app/leed/kv_circular_log.c:215-224 | the one or two writes put block i of the list at (offset + i) % size |
| CircularLogIo.CircularLog.Write | spdk/app/leed/kv_circular_log.c:214-224 | the device holds the flattened list from the offset on, round the end |
| CircularLogIo.CircularLog.Read | spdk/app/leed/kv_circular_log.c:190-202 | the buffers receive block (offset + i) % size in order |
| CircularLogIo.CircularLog.Append | spdk/app/leed/kv_circular_log.c:203-224 | refused exactly for lack of room and then nothing changes; otherwise the log is extended by the list, which reads back |
| SegmentItems.WriteMeans | spdk/app/leed/kv_data_store.c:225-240 | writing a key's own slot, or a new key into an empty one, is the map update |
| SegmentItems.ClearMeans | spdk/app/leed/kv_data_store.c:418-428 | clearing a slot removes its key and nothing else |
| SegmentItems.MoveMeans | spdk/app/leed/kv_data_store.c:142-162 | moving an item into a hole changes nothing |
| SegmentItems.LiveIsSize | spdk/app/leed/kv_data_store.c:109-162 | the occupied slots are as many as the entries |
| SegmentItems.CompactIsDense | spdk/app/leed/kv_data_store.c:142-162 | the shape implies live items >= 16 * (chain_length - 1) |
| SegmentItems.InsertKeepsCompact | spdk/app/leed/kv_data_store.c:128-140 | using the first hole keeps "no hole outside the last bucket, or exactly one and the last bucket full" |
| SegmentItems.DeleteIsFillable | spdk/app/leed/kv_data_store.c:418-428 | after any delete the last bucket can fill the holes, or there is at most one |
| BucketSegment.Segment.FindItemPlus | spdk/app/leed/kv_data_store.c:109-125 | finds the slot of a key, or there is none |
| BucketSegment.Segment.AllocExtra | spdk/app/leed/kv_bucket_log.c:126-144 | adds an empty bucket and renumbers the chain, unless it has 127 |
| BucketSegment.Segment.FreeExtra | spdk/app/leed/kv_bucket_log.c:146-164 | drops the last bucket and renumbers the chain |
| BucketSegment.Segment.FindEmpty | spdk/app/leed/kv_data_store.c:128-140 | the first hole or a new bucket; none exactly when all 2032 slots are used |
| BucketSegment.Segment.FillTheHole | spdk/app/leed/kv_data_store.c:142-162 | restores the shape without losing or duplicating an item, freeing a drained last bucket |
| BucketSegment.Segment.SetItem | spdk/app/leed/kv_data_store.c:217-243 | the map update; fails exactly for a new key on 127 full buckets |
| BucketSegment.Segment.DeleteItem | spdk/app/leed/kv_data_store.c:418-430 | the map removal; reports exactly whether the key was there |
| BucketSegment.Segment.Perform | spdk/app/leed/kv_data_store.c:217-243 | any sequence of sets and deletes has the effect of the bounded map operations, keeps headers and shape, and never lets the chain get longer than its items need |
| BucketMeta.PutRefines | spdk/app/leed/kv_bucket.cpp:43-61 | a write that is not empty over empty keeps the counters exact and is a write to the flat map, also when a block is erased |
| BucketMeta.EmptyOverEmptyBreaks | spdk/app/leed/kv_bucket.cpp:54-57 | the other writes leave a wrong counter or lose an entry |
| BucketMeta.PutRefinesIff | spdk/app/leed/kv_bucket.cpp:43-61 | the index refines the flat map for exactly the writes that are not empty over empty |
| BucketMeta.RunRefinesFlat | spdk/app/leed/kv_bucket.cpp:31-61 | after any number of such writes every id reads as last written, empty by default |
| BucketMeta.DeletingNothingLosesAnEntry | spdk/app/leed/kv_data_store.c:623-628 | deleting a range without entries can lose an entry outside it |
| BucketMeta.MetaTable.MetaGet | spdk/app/leed/kv_bucket.cpp:31-39 | the entry of an id, empty if its block does not exist |
| BucketMeta.MetaTable.MetaPut | spdk/app/leed/kv_bucket.cpp:43-61 | the in-place update is the specified one and a flat write |
| Admission.EnqueueKeepsInv | spdk/app/leed/kv_data_store.c:23-35 | a submitted operation runs or waits behind the others, nothing else is touched, and the load stays the cost of what runs, within the capacity |
| Admission.DequeueKeepsInv | spdk/app/leed/kv_data_store.c:36-52 | finishing an operation admits waiting ones in order, loses none, and leaves a head of queue that does not fit |
| Admission.WaitingHasAWaker | spdk/app/leed/kv_data_store.c:23-52 | a waiting operation implies a running one that will wake it |
| Admission.RunKeepsInv | spdk/app/leed/kv_data_store.c:23-52 | in every run the load is the total cost of running operations and at most the capacity |
| Admission.NothingIsLost | spdk/app/leed/kv_data_store.c:23-52 | in every run the operations submitted are, as a multiset, those finished, running and waiting |
| Admission.QueueFind | spdk/app/leed/kv_ds_queue.c:29-43 | the first idle queue, else the one with most room if it has enough; none exactly when no queue has room |
| Admission.DataStoreQueue.Submit | spdk/app/leed/kv_data_store.c:23-35 | the model's enqueue; sent exactly when it fits |
| Admission.DataStoreQueue.Complete | spdk/app/leed/kv_data_store.c:36-52 | the model's dequeue; what it sends is a prefix of the queue |
| CopyModel.StepKeepsInv | spdk/app/leed/kv_data_store.c:488-611 | adding ranges, locking, deliveries, hand-outs and commits keep the copier's invariant and the buffer bound |
| CopyModel.RunKeepsInv | spdk/app/leed/kv_data_store.c:488-611 | in every run every item found is queued, handed out or committed and only one of them, and at most buf_num are out |
| CopyModel.CompletionMeansCopied | spdk/app/leed/kv_data_store.c:488-497 | in a state in which a range has reported, each of its buckets was locked once in order and every item recorded for it is committed; it reports at most once |
| CopyRuns.ReportedRangesAreCopied | spdk/app/leed/kv_data_store.c:488-611 | in every run, by its events alone: when a range has reported, as many chains were delivered to it as it has buckets, every occupied slot of the k-th chain was handed out and came back committed as an item of the k-th bucket, and no other item was |
| CopyRuns.LineGrows | spdk/app/leed/kv_data_store.c:510-549 | in every run items are handed out in the order in which they were found, none overtaking another |
| CopyModel.BehindIsLocked | spdk/app/leed/kv_data_store.c:580-589 | the forward test is true exactly for buckets the range has handed to the copier |
| CopyModel.LockNextKeepsInv | spdk/app/leed/kv_data_store.c:551-568 | the next bucket of a range is one it has not locked yet |
| CopyModel.DeliverKeepsInv | spdk/app/leed/kv_data_store.c:525-549 | a delivered chain queues exactly its occupied slots, each once, and keeps the invariant |
| CopyModel.CommitKeepsInv | spdk/app/leed/kv_data_store.c:500-508 | a commit counts down its range and finishes the bucket at zero |
| CopyModel.StuckIff | spdk/app/leed/kv_data_store.c:525-549 | a range gets stuck exactly on a chain that has buckets but no item |
| CopyModel.QuietMeansReported | spdk/app/leed/kv_data_store.c:569-578 | in every run without a chain that has buckets but no item, a settled state with nothing waiting and nothing handed out has reported exactly the ranges whose ends differ |
| CopyModel.EmptyRangeNeverReports | spdk/app/leed/kv_data_store.c:488-497 | a range whose ends coincide never reports |
| CopyScheduler.CopyCtx.OnSegCopyDone | spdk/app/leed/kv_data_store.c:488-497 | the segment is released and the callback fires if it was the last |
| CopyScheduler.CopyCtx.CopyConsumer | spdk/app/leed/kv_data_store.c:510-523 | hands out items until the buffers or the queue are used up |
| CopyScheduler.CopyCtx.CopyProducer | spdk/app/leed/kv_data_store.c:551-568 | one turn round the ranges leaves none that could lock a bucket and has not |
| CopyScheduler.CopyCtx.Schedule | spdk/app/leed/kv_data_store.c:569-578 | ends in a settled state, by steps of the model |
| CopyScheduler.CopyCtx.CopyLockCb | spdk/app/leed/kv_data_store.c:525-549 | a delivery and the scheduling after it are a run of the model |
| CopyScheduler.CopyCtx.CopyCommit | spdk/app/leed/kv_data_store.c:500-508 | a commit and the scheduling after it are a run of the model |
| CopyScheduler.CopyCtx.AddKeyRange | spdk/app/leed/kv_data_store.c:593-611 | a new range and the scheduling after it are a run of the model |
| CopyScheduler.CopyCtx.CopyForward | spdk/app/leed/kv_data_store.c:580-589 | true exactly when some range has locked the bucket |
| ValuePacking.NextIsBeyond | spdk/app/leed/kv_value_log.c:313-317 | the next value starts in a later unit and behind the last byte |
| ValuePacking.AddedCovers | spdk/app/leed/kv_value_log.c:214-232 | the blocks added for a value are those its bytes need beyond the blocks already there |
| ValuePacking.RoundingStaysInside | spdk/app/leed/kv_value_log.c:313-317 | rounding the tail never leaves the last block |
| ValuePacking.AppendValIov | spdk/app/leed/kv_value_log.c:214-232 | adds at most one entry, of exactly that many blocks |
| ValuePacking.PackValues | spdk/app/leed/kv_value_log.c:287-318 | values start in strictly increasing units, do not overlap, and the blocks written are exactly those covering the packed bytes |
| ValuePacking.SlotHasOneOwner | spdk/app/leed/kv_value_log.c:73-78 | a bucket-id slot belongs to exactly one unit |
| ValuePacking.WrappedUnitsDiffer | spdk/app/leed/kv_value_log.c:310-311 | units of one pass stay different after wrapping into the log |
| CcmSpec.OpenUndoesSeal | spdk/intel-ipsec-mb/mb_mgr_code.h:151-395 | decrypting an encrypted message gives the text back with the same tag |
| CcmSpec.CbcMacAppend | spdk/intel-ipsec-mb/mb_mgr_code.h:302-308 | a CBC-MAC can be computed piece by piece |
| CcmSpec.TagIsU | spdk/intel-ipsec-mb/mb_mgr_code.h:302-360 | the tag is the authentication field U of section 2.2 of RFC 3610: with X_1 = E(K, B_0) and X_i+1 = E(K, X_i XOR B_i) over B_0, the AAD blocks and the padded message, byte by byte the last X XOR E(K, A_0) |
| CcmSpec.CodeB0IsB0Iff | spdk/intel-ipsec-mb/mb_mgr_code.h:207-214 | block 0 as built is RFC 3610's B_0 if and only if the message is shorter than 64 KiB |
| CcmSpec.CtrBlockIsA | spdk/intel-ipsec-mb/mb_mgr_code.h:184-197 | counting on the last four bytes meets the counter blocks A_i of RFC 3610 |
| CcmSpec.CtrIsCrypt | spdk/intel-ipsec-mb/mb_mgr_code.h:189-197 | the CTR kernel on A_1 is the encryption of section 2.3 of RFC 3610 |
| CcmSpec.FlagsMasked | spdk/intel-ipsec-mb/mb_mgr_code.h:349-354 | the flags are 64 Adata + 8 M' + L', and masking them with 7 leaves the flags of the counter blocks |
| CcmLanes.FeedsItsOwn | spdk/intel-ipsec-mb/mb_mgr_code.h:310-347 | in every phase a lane is about to read the next piece of its own job's authenticated text |
| CcmLanes.RoundKeepsLanes | spdk/intel-ipsec-mb/mb_mgr_code.h:302-308 | when all lanes advance by a common length each stays right about its own job |
| CcmLanes.ToBlocks | spdk/intel-ipsec-mb/mb_mgr_code.h:313-332 | after the header a lane continues with the message |
| CcmLanes.ToLast | spdk/intel-ipsec-mb/mb_mgr_code.h:334-347 | after the whole blocks a lane continues with the zero-padded rest |
| CcmLanes.AllDone | spdk/intel-ipsec-mb/mb_mgr_code.h:349-354 | a lane with nothing left holds the CBC-MAC of B_0, the AAD blocks and the padded message |
| AesCcm.PackTop | spdk/intel-ipsec-mb/mb_mgr_code.h:171-172 | the low nibble is the next free lane, shifting pops it, and 0xF means none |
| AesCcm.PackFits | spdk/intel-ipsec-mb/mb_mgr_code.h:390-390 | the stack of eight lanes fits its word |
| AesCcm.CcmManager.InitBlocks | spdk/intel-ipsec-mb/mb_mgr_code.h:168-242 | the initial blocks are B_0 and the AAD blocks of RFC 3610, and a decrypting job's text is deciphered |
| AesCcm.CcmManager.MinSubmit | spdk/intel-ipsec-mb/mb_mgr_code.h:260-274 | the loop finds a shortest lane |
| AesCcm.CcmManager.MinFlush | spdk/intel-ipsec-mb/mb_mgr_code.h:275-300 | the loop finds a shortest lane with a job and changes only lanes without |
| AesCcm.CcmManager.Round | spdk/intel-ipsec-mb/mb_mgr_code.h:259-308 | one round keeps every lane right and finishes a phase of one |
| AesCcm.CcmManager.NextPhase | spdk/intel-ipsec-mb/mb_mgr_code.h:310-347 | the lane goes to its next phase, or is complete; the phases left decrease |
| AesCcm.CcmManager.Finish | spdk/intel-ipsec-mb/mb_mgr_code.h:349-394 | text and tag are those of RFC 3610 and the lane is free again |
| AesCcm.CcmManager.SubmitFlush | spdk/intel-ipsec-mb/mb_mgr_code.h:151-395 | for any submit and flush order: what is returned is an accepted job with the text and tag of RFC 3610, no job is lost or returned twice, unused_lanes lists exactly the free lanes, and NULL means lanes left (submit) or no job (flush) |
| JobPhases.PutKeeps | spdk/intel-ipsec-mb/mb_mgr_code.h:1470-1480 | a job handed to a unit is in exactly that unit, once |
| JobPhases.DropKeeps | spdk/intel-ipsec-mb/mb_mgr_code.h:1470-1480 | a job a unit gives back is in no unit, with one phase fewer to go |
| JobPhases.ServedTold | spdk/intel-ipsec-mb/mb_mgr_code.h:1470-1480 | when the side a job needs has served it, its new status says exactly which sides have, in order |
| JobPhases.FoundInside | spdk/intel-ipsec-mb/mb_mgr_code.h:1495-1518 | an unfinished job is in the unit it needs |
| JobPhases.HandedInTwiceIff | spdk/intel-ipsec-mb/mb_mgr_code.h:1495-1518 | for a live job in its second phase, one turn of complete_job can leave the second unit holding it twice if and only if the job is not orderly |
| JobRing.MbMgr.FlushUnit | spdk/intel-ipsec-mb/mb_mgr_code.h:742-779 | a flush gives back a job the unit holds, with one phase fewer to go, nothing, or the job itself where the unit redoes its work; except in that case every job stays in exactly one place |
| JobRing.CircleFacts | spdk/intel-ipsec-mb/mb_mgr_code.h:46-60 | no slot is used twice, and the ends of the ring meet exactly when it is full |
| JobRing.CircleShrinks | spdk/intel-ipsec-mb/mb_mgr_code.h:1555-1578 | the oldest slot leaves, and the ends meet exactly when it was the last |
| JobRing.MbMgr.Resubmit | spdk/intel-ipsec-mb/mb_mgr_code.h:1470-1480 | terminates with no job in hand |
| JobRing.MbMgr.CompleteJob | spdk/intel-ipsec-mb/mb_mgr_code.h:1495-1518 | terminates with the job finished, whatever the units give back first; every status stays true to what the units did |
| JobRing.MbMgr.SubmitJobAndCheck | spdk/intel-ipsec-mb/mb_mgr_code.h:1522-1578 | a job that comes back is the oldest one not returned, finished: refused if and only if it was checked and is invalid, failed in a unit that can fail, or completed after both of its units served it in the order of its chain; none comes back exactly when the ring was empty or that job is not finished |
| JobRing.MbMgr.FlushJob | spdk/intel-ipsec-mb/mb_mgr_code.h:1593-1618 | returns the oldest job, finished in the same sense; NULL exactly when all are returned |
| JobRing.MbMgr.GetCompletedJob | spdk/intel-ipsec-mb/mb_mgr_code.h:1636-1653 | returns the oldest job exactly when it is finished, in the same sense |
| JobRing.MbMgr.QueueSize | spdk/intel-ipsec-mb/mb_mgr_code.h:1624-1633 | submitted minus returned, always below 128 |
| DesBlock.FpUndoesIp | spdk/intel-ipsec-mb/des_basic.c:38-67 | fp_z with its arguments exchanged undoes ip_z |
| DesBlock.IpUndoesFp | spdk/intel-ipsec-mb/des_basic.c:38-67 | ip_z with its arguments exchanged undoes fp_z |
| DesBlock.IpIsFips | spdk/intel-ipsec-mb/des_basic.c:49-56 | every bit after ip_z is the one that table IP of FIPS 46-3 names |
| DesBlock.EPhaseIsE | spdk/intel-ipsec-mb/des_basic.c:73-97 | every bit of e_phase is the one that table E of FIPS 46-3 names, with two zero bits per group |
| DesBlock.RoundReadsKeyAndE | spdk/intel-ipsec-mb/des_basic.c:380-402 | fRK looks up table g with the six bits of row g of table E of FIPS 46-3, each XORed with bit 8g to 8g+5 of the round key |
| DesBlock.RoundsAreFeistel | spdk/intel-ipsec-mb/des_basic.c:412-446 | the unrolled rounds are the rounds of FIPS 46-3 |
| DesBlock.FeistelUndone | spdk/intel-ipsec-mb/des_basic.c:412-446 | any number of rounds is undone by the keys in reverse order on exchanged halves |
| DesBlock.Undo | spdk/intel-ipsec-mb/des_basic.c:404-450 | decryption undoes encryption of a block, and the reverse, for all tables and keys |
| DesModes.CbcRoundTrip | spdk/intel-ipsec-mb/des_basic.c:454-502 | CBC decryption undoes CBC encryption for any block function and its inverse |
| DesModes.CbcRoundTripBack | spdk/intel-ipsec-mb/des_basic.c:454-502 | CBC encryption undoes CBC decryption |
| DesModes.CbcEncBlock | spdk/intel-ipsec-mb/des_basic.c:454-474 | C_i = E(P_i XOR C_i-1), the vector standing for C_-1 |
| DesModes.CbcDecBlock | spdk/intel-ipsec-mb/des_basic.c:478-502 | P_i = D(C_i) XOR C_i-1 |
| DesModes.StoredFromLow | spdk/intel-ipsec-mb/des_basic.c:454-502 | words are stored with their lowest byte first |
| DesModes.Des3Inverts | spdk/intel-ipsec-mb/des_basic.c:506-573 | 3DES EDE decryption and encryption undo each other |
| DesModes.Des3IsEde | spdk/intel-ipsec-mb/des_basic.c:506-535 | encryption under the first key, decryption under the second, encryption under the third, told by their inverses; single DES when two neighbouring keys are equal |
| DesModes.DocsisRoundTrip | spdk/intel-ipsec-mb/des_basic.c:618-688 | DOCSIS decryption undoes encryption for every length, with its CFB tail |
| DesModes.DocsisTail | spdk/intel-ipsec-mb/des_basic.c:577-647 | the bytes behind the last whole block are XORed with the enciphered last cipher block, or vector, in order |
| DesModes.ModesInvert | spdk/intel-ipsec-mb/des_basic.c:454-688 | all three modes invert for every table, key schedule, vector and length |
| DesModes.ModesInvertBack | spdk/intel-ipsec-mb/des_basic.c:454-573 | the CBC modes invert the other way round |
| DesModes.DesEncCbc | spdk/intel-ipsec-mb/des_basic.c:454-474 | the output is the CBC encryption of the input's whole blocks, the rest untouched, also when both are one buffer |
| DesModes.DesDecCbc | spdk/intel-ipsec-mb/des_basic.c:478-502 | the same for decryption |
| DesModes.Des3EncCbc | spdk/intel-ipsec-mb/des_basic.c:506-535 | the same for 3DES encryption |
| DesModes.Des3DecCbc | spdk/intel-ipsec-mb/des_basic.c:539-573 | the same for 3DES decryption |
| DesModes.CfbOne | spdk/intel-ipsec-mb/des_basic.c:577-614 | one to seven bytes are combined with the bytes of the enciphered vector in order, whatever the bits of the size |
| DesModes.DocsisDesEnc | spdk/intel-ipsec-mb/des_basic.c:618-647 | the output is the DOCSIS encryption of the input, also in place |
| DesModes.DocsisDesDec | spdk/intel-ipsec-mb/des_basic.c:651-688 | the output is the DOCSIS decryption of the input, also in place |

## Left out

- RDMA, storage, thread messaging, memory and etcd calls: foreign code; their completions are events in any order.
- Duplicate suppression of membership messages, client dispatch and retry, node registration: no law depends on them.
- RingUpdate.ThreadRing.UpdateRing: the ring and its version only; the etcd puts and the calls of start_copy it makes are not part of this model.
- RingEpoch: one ring; the counters of several rings are independent.
- RingEpoch.DroppedReplicaServesNobody: histories without `SkipsCopy` events after the join.
- RingCounts.JoinsWhileCopied: histories of fewer than 2^32 - 1 events, in which the 32-bit counters cannot overflow; `CountersCount` has no such bound.
- RingCounts.GoesWithLastHolder: the same histories.
- CompactionModel.StepKeepsInv: no compaction past an uncommitted chain with items, no append over the source of an outstanding compaction, because the property fails there; see `CompactionSafeIff` and `RangeTestExactIff`.
- CompactionModel.RunRefinesMap: the same runs.
- CompactionRuns.HeadMoveLeavesWindow: the same runs.
- BucketLog.KvBucketLog.Put: puts that do not overwrite the source of an outstanding compaction.
- BucketLog.KvBucketLog.Collect: compactions that do not run into an uncommitted chain with items.
- BucketLog.KvBucketLog.StartCompaction: the same compactions.
- BucketLog.KvBucketLog.Compact: the same compactions, on every level of the nesting.
- BucketLock.KvBucketLock.Acquire: lists without repetition and not empty, as all callers pass them.
- CircularLogFetch.FetchedLog.MoveHead: head moves that leave a full ring or a covering window; for others copy_to_fetch_buf breaks the mirror, see `CopyRightIff`.
- Admission.QueueFind: queues whose load is within their capacity, as admission keeps it; the wrapping of the unsigned difference above it is not modelled.
- DataStore: the value log behind the items, and a segment read that an append overtakes by a whole turn of the log.
- I/O failures other than a write that is given up, and the strict re-read of a segment.
- BucketSegment: the chain entries of a segment are one flattened list of buckets.
- Removal of a finished key range from the copier, and the callback of the two transfers of a split list.
- CopyScheduler: the completion callback does not call back into the copier.
- Byte movement of value compaction, values that wrap in the prefetch buffer, and the bucket-id log itself.
- AesCcm.CcmManager.InitBlocks: messages shorter than 64 KiB, because block 0 is wrong for longer ones.
- AesCcm.CcmManager.SubmitFlush: the same messages; input and output buffers are separate values.
- JobRing.MbMgr.SubmitJobAndCheck: orderly jobs, because others can be handed in twice; what the units compute.
- JobRing.MbMgr.CompleteJob: orderly jobs.
- is_job_invalid beyond its CCM conditions, key expansion, S-box contents, AES and hash kernels, GCM.
- Partly overlapping input and output buffers of the DES modes: buffers are the same or apart.
