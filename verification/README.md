# Verified model of the DORA execution layer of Shore-Kits

Shore-Kits runs transactions on the Shore-MT storage manager with DORA: data-oriented
execution.  A transaction is split into actions.  Each action belongs to one partition, which
has one worker thread, a private lock manager, an input queue and a committed queue.  The
actions of a phase meet at a rendezvous point; the terminal rendezvous point commits or aborts
the transaction and only then sends the actions back to their partitions, where their locks
are released.  This project models that protocol, the utilities below it, and proves what they
are for.

## The parts

**The protocol.**  `Protocol` is a transition system: clients that start transactions, workers
that drain commits, serve ready actions and take input, posts, midway and terminal rendezvous
points, the flusher and the notifier, in any interleaving.  It is the product of a partition
automaton (`Partitions`), a transaction automaton (`Transactions`) and a store with rollback
(`SerialData`).  The main results are about every run:

- `ProtocolHistory.RunIsSerializable` - the committed transactions, in the order of their
  terminal rendezvous points, are a serial history that explains everything any of their
  actions saw, and that leaves the same store; aborted transactions leave no trace.
- `ProtocolEffects.EveryReadIsSerial` - the same without replaying: every value that a committed
  action saw, and every value in the store once all is decided, is what the body of the last
  writer in commit order has returned, or the initial value.
- `ProtocolRuns.ConflictsAreSerial` - of two conflicting actions, the second is served only
  after the transaction of the first has been decided and the first has been released.
- `ProtocolRuns.RunIsSafe` and `ExactlyOnce` - no assert of the code fails; every action is
  enqueued, served, posted, sent back and released at most once.
- `ProtocolRuns.NoPartitionDeadlocks` - the oldest unreleased action of a partition owns all
  its keys.
- `ProtocolStuck.StuckWaits` - the system stops only where actions of different unfinished
  transactions wait for each other's locks, or for the log.
- `ProtocolQueues.InputIsFifo`, `CommittedIsFifo`, `ServesInOrder` and `CommitsComeFirst` - the
  queues lose, repeat and reorder nothing, and commits are released before inputs are taken.
- `ProtocolRendezvous.MidwayRunsOnce`, `MidwayFindsPosted` and `AllSentHome` - every rendezvous
  point runs exactly once, after its posts, and every action is sent back exactly once.
- `ProtocolBodies.CommitsIffNobodyFailed` - a transaction commits exactly if no body of its
  actions has failed and the storage manager commits; `BodiesBalance` counts bodies and
  failures.
- `ProtocolRuns.AbortedIffAsked`, `TerminalDecides` and `LazyWaits` - when a transaction
  aborts, and that a lazily committed one goes to the flusher and keeps its locks until its LSN
  is durable.

**The locks.**  `LogicalLocks` has a logical lock as the code keeps it, with a cached mode and
a promotion loop, and shows that it implements a line: all unreleased requests in arrival
order, of which the longest compatible head run is granted.  From that follow FIFO order over
whole runs and bounded waiting.  `LockTables` and `LockOrder` lift this to many keys for each
action: the lock table of a partition is determined by the order of its unreleased actions,
and an action may run exactly if no earlier one conflicts with it.  `LockManagers` has the
same as objects, with the loops of the code; `LockRenaming` and `ObjectRefinement` show that
these objects run the lock table of the transition system.

**The imperative parts.** `Workers`, `Rvps`, `Countdowns` and `GroupCommit` are the control
loops and objects around the protocol. The methods of `LockManagers`, `Workers` and `Rvps` are
tied to the functions that the transition system is made of, and
`ProtocolProgress.ServiceIsRun` shows that serving an action is a run of it.

**The utilities.** `PoolAllocs` and `Bitmaps` are the self-freeing block allocator,
`KthBiggests` the question when it picks the right unit size, and `PoolRuns` the runs of
several pools and threads on one heap; `HashTables` the linear-probing table; `StaticLists` and
`StaticHashMaps` the rings and chains of caller-owned nodes; `ResourcePools` the FIFO resource
pool; `ConfigFiles`, `ConfigLines` and `ConfigStored` the configuration writer and its
read-ahead reader; `Fnv` the unrolled hash.

## What is taken for granted

- Requests are shared or exclusive (include/dora/range_action.h:130-131).
- Two actions of one transaction never ask for the same key of a partition.  `acquire`
  recognises a repetition only among the owners and `release` matches by transaction
  (src/dora/logical_lock.cpp:181, src/dora/logical_lock.cpp:301);
  `LogicalLocks.RepeatedRequestBreaksRelease` shows what happens otherwise.
- All keys of a partition have the same length, because the comparisons look only at the
  length of the left key; `KeyWrappers.EqualIsPrefix` gives the exact condition.
- The body of an action reads and writes only items that its action has locked, and rollback
  restores the before-images of a transaction.  Both are duties of code outside of DORA.
- An action body gives up with `de_MIDWAY_ABORT` only when its transaction has been aborted
  already, as the action bodies of the benchmarks do.

## Where code and documentation disagree

- The warning at include/dora/lockman.h:114-127 says that acquiring several keys is not handled
  correctly.  The loop does go on after a failure and promotions are counted;
  `LockTables.AcquireAllKeepsAccounts` and `LockOrder.AcquireAllJoins` prove it right for any
  number of keys.
- src/util/pool_alloc.cpp:273 is called `kth_biggest`, but `last` is not moved when a size is
  inserted before the end, so sizes drop out of the list.  `KthBiggests.SixAreWrong` has an
  input with a wrong answer, `RightIffFalling` the exact condition under which the list is
  right.
- The unit that src/util/pool_alloc.cpp:336 chooses from the huge sizes is overwritten at
  src/util/pool_alloc.cpp:366 whenever a normal size is recorded; `Pool.AllocateHuge` states
  both cases.
- The unit size of 8 bytes in include/util/pool_alloc.h:33 is less than a header, and headers
  can be written outside of their block (`PoolAllocs.DefaultUnitOverflows`).  `Pool.Alloc`
  states exactly when; with a unit of at least 16 bytes, as every adapted unit is, never.
- The second loops at include/util/hashtable.h:144 and include/util/hashtable.h:191 announce
  the beginning of the array and start at the hash position;
  `HashTables.HashTable.Contains` states what is found, `ContainsIsRight` when that is right,
  and `ContainsMisses` has a miss.
- src/util/fnv.cpp:108 promises identical output; for length 0 the unrolled loop still makes a
  pass (`Fnv.FirstPassInside`).

## Model

The main results come first, the operations that only set or read a field come last.

| member | source | states |
|---|---|---|
| ProtocolHistory.RunIsSerializable | src/dora/worker.cpp:130-179 | serializability in commit order, over every run: run one after the other in the order of their terminal rendezvous points, the committed transactions see in every action what they saw in the concurrent run; with nothing undecided the store is the one this serial run leaves |
| ProtocolEffects.EveryReadIsSerial | src/dora/rvp.cpp:237-320 | serializability without replaying: in the list of all effects of the committed transactions in commit order, each comes from a body that ran to its end, and what it saw of an item is what the last writer before it in the list returned for it, or the initial value; with everything decided the store holds what the last writer of the list returned, or the initial value |
| ProtocolRuns.ConflictsAreSerial | src/dora/worker.cpp:130-179 | over every run: of two conflicting actions the second is served only after the terminal rendezvous point of the first has committed or aborted and the first has been released, so conflict order is decision order |
| ProtocolRuns.RunIsSafe | src/dora/worker.cpp:120-305 | in every run, however the steps are interleaved, no assert fails and every state satisfies the invariant |
| ProtocolRuns.ExactlyOnce | src/dora/worker.cpp:120-305 | in every run an action is enqueued, served, posted, sent back and released at most once each and a transaction decided at most once; the state tells which has happened |
| ProtocolRuns.NoPartitionDeadlocks | include/dora/lockman.h:105-137 | in every state of every run no partition is deadlocked by its own locks |
| ProtocolStuck.StuckWaits | src/dora/worker.cpp:120-180 | the system never stops by itself: if nothing can happen but new input, every undecided transaction has an action that waits, in its partition, for the lock of an earlier action of another transaction that is undecided too or waits for the log |
| ProtocolBodies.BodiesBalance | src/dora/worker.cpp:225-275 | over every run, the body of an action is run or running exactly once if its transaction was not aborted when the worker came to it, and never otherwise; each failure of a body, and nothing else, is followed by one request for the abort |
| ProtocolBodies.AbortedIffFailed | include/dora/rvp.h:115-118 | when a rendezvous point runs, its transaction is aborted exactly if the body of one of its actions has failed |
| ProtocolBodies.CommitsIffNobodyFailed | src/dora/rvp.cpp:237-320 | a transaction commits exactly if the body of none of its actions has failed and the storage manager commits |
| ProtocolRuns.AbortedIffAsked | include/dora/rvp.h:115-128 | a transaction is aborted exactly if some action of it has reported an error before its post, also across midway rendezvous points |
| ProtocolRuns.TerminalDecides | src/dora/rvp.cpp:237-320 | the terminal rendezvous point aborts exactly if the transaction was aborted or the commit failed; it goes to the flusher, with its own LSN and with nothing to notify, exactly after a lazy commit that succeeds, and otherwise starts to notify all its actions in their order; it finds every action posted and none sent back |
| ProtocolRuns.LazyWaits | src/dora/dflusher.cpp:88-131 | a lazily committed transaction stays with the flusher until its LSN is below the durable LSN, and all its actions own all their locks until then |
| ProtocolQueues.InputIsFifo | include/dora/partition.h:268-304 | over every run the actions sent to a partition, in the order of the sends, are those its worker has taken, in the order of the takes, followed by those in its input queue |
| ProtocolQueues.CommittedIsFifo | include/dora/partition.h:307-345 | over every run the actions sent back to a partition, in that order, are those it has released, in the order of the releases, followed by those in its committed queue |
| ProtocolQueues.ServesInOrder | src/dora/worker.cpp:146-175 | a worker serves the actions in the order in which they became ready, none skipped and none twice |
| ProtocolQueues.CommitsComeFirst | src/dora/worker.cpp:130-165 | before each input that a worker takes it has found its committed queue empty, with no other step of it in between |
| ProtocolQueues.SendsInOrder | include/dora/rvp.h:111-113 | a transaction carries exactly the actions that it was started with and that its midway rendezvous points added, and sends each of them out once, in that order |
| ProtocolQueues.NotifiesInOrder | src/dora/rvp.cpp:196-215 | no action is sent back before the notification has started, and from then on all of them, in the order in which the transaction carries them |
| ProtocolEffects.BodyReachesStore | src/dora/worker.cpp:231-255 | the body of an action reads the current value of each locked key; if it runs to its end in a transaction that is not aborted, the store holds afterwards what it returned for the keys locked exclusively; nothing else changes, and a body that fails or gives up changes nothing beyond those keys |
| ProtocolRendezvous.MidwayRunsOnce | include/dora/common.h:615-632 | over every run, each midway rendezvous point of a transaction has run exactly once if the current one comes after it, and not at all otherwise |
| ProtocolRendezvous.TerminalComesLast | src/dora/rvp.cpp:237-320 | when the terminal rendezvous point runs, every midway one has run exactly once |
| ProtocolRendezvous.MidwayFindsPosted | include/dora/rvp.h:115-118 | a midway rendezvous point finds every action that it carries posted and none sent back |
| ProtocolRendezvous.AllSentHome | src/dora/rvp.cpp:202-210 | on every path, when the notification loop is through, every carried action has been sent back exactly once |
| ProtocolHistory.HistoryOfRun | src/dora/rvp.cpp:237-320 | over every run the committed transactions are those that terminal rendezvous points committed, in that order, each with exactly its own actions |
| Protocol.StepKeeps | src/dora/worker.cpp:120-305 | every step that the code can reach, of any worker, rendezvous point, flusher or client, finds its asserts true and keeps the invariant |
| Protocol.LocksIsolate | src/dora/worker.cpp:130-179 | while their locks are held, no undecided transaction has written an item that another one has touched |
| LogicalLocks.RunIsFifo | src/dora/logical_lock.cpp:164-379 | over every run of acquires and releases, the grants so far followed by the current waiters are the requests in the order in which they were made: nothing is lost, duplicated or overtaken |
| LogicalLocks.WaiterGrantedAfter | src/dora/logical_lock.cpp:164-379 | a waiter with k unreleased requests ahead of it is granted after at most k releases, however many new requests are interleaved; an exclusive waiter not before the k-th |
| LogicalLocks.ModeInvIffShape | src/dora/logical_lock.cpp:410-451 | the mode invariant (pairwise compatible owners, `_dlm` the mode of the owners or exclusive after an upgrade, free exactly when there is no owner, a waiting head conflicts with `_dlm`) holds exactly for three shapes: free; one owner in exclusive mode; shared owners with an exclusive request, if any, at the head of the waiters |
| LogicalLocks.PromoteIsStateOf | src/dora/logical_lock.cpp:197-222 | the promotion loop, one waiter and one refresh of the mode at a time, ends in the state computed from all requests that are left |
| LogicalLocks.AcquireJoinsLine | src/dora/logical_lock.cpp:326-379 | a request of a transaction that owns nothing joins the end of the line, and is granted at once exactly when it conflicts with nobody in the line: a shared request does not overtake a waiting exclusive one |
| LogicalLocks.ReleaseLeavesLine | src/dora/logical_lock.cpp:199-222 | what a release promotes is a prefix of the waiters in their order, appended to the remaining owners; the mode invariant is kept |
| LockTables.AcquireAllKeepsAccounts | include/dora/lockman.h:105-137 | after `acquire_all`, `_keys_needed` is the number of keys on which the action still waits, for any number of keys; for all other actions that stays true |
| LockTables.ReleaseAllKeepsAccounts | include/dora/lockman.h:143-171 | after `release_all` the counters are right again, none is negative, and the ready list holds, once each, exactly the actions whose counter has just become zero |
| LockOrder.AcquireAllJoins | include/dora/lockman.h:105-137 | `acquire_all` refines joining the end of the order of unreleased actions; the keys acquired are those on which nobody earlier conflicts |
| LockOrder.ReleaseKeysLeaves | include/dora/lockman.h:151-155 | releasing the keys of an action that may run finds an owner entry at each key and refines leaving the order |
| LockOrder.MissingIsBlocked | include/dora/base_action.h:133-154 | the key counter is the number of keys on which an earlier unreleased action conflicts, so `is_ready` says that there is none |
| LockOrder.OldestOwnsAll | include/dora/lockman.h:105-137 | the oldest unreleased action owns all its keys and misses none, and whoever waits, waits for an earlier one: no deadlock inside a partition |
| ObjectRefinement.TakeRefines | src/dora/worker.cpp:173 | what the objects of the lock manager do when an input action asks for its locks is what the transition system does with values |
| ObjectRefinement.DrainRefines | src/dora/worker.cpp:139 | what `release` and `gotkeys` assert of the objects of the lock manager follows from what holds in the transition system, and table, counters and ready list correspond |
| ProtocolProgress.ServiceIsRun | src/dora/worker.cpp:200-305 | what the worker program does with the head of the ready list is a run of the transition system: the body unless the transaction is aborted, the request for the abort exactly if the body fails, then the post; afterwards the transaction is aborted exactly if it was or the body failed |
| Workers.Worker.Round | src/dora/worker.cpp:120-180 | a round releases the commits, lets one input action join, serves once each exactly the actions that had waited or arrived and can run, and leaves waiting exactly those that an earlier unreleased action blocks; it posts once for each served action, in that order, with an error exactly where a body ran and failed |
| Countdowns.ExactlyOneWins | src/util/countdown.cpp:46-70 | under every interleaving of n posters from count n the asserts hold, at most one post returns true, and exactly one once all are back |
| Countdowns.WhoWins | src/util/countdown.cpp:46-70 | a post returns true exactly if it reports the first error, or is the last one out with no error reported |
| GroupCommit.Flusher.Round | src/sm/shore/shore_flusher.cpp:214-291 | a round finds the assert of `_move_from_flushing` true; everybody queued before or while the queue is sorted out is afterwards with the notifier, once and durable |
| PoolAllocs.Pool.AllocateNormal | src/util/pool_alloc.cpp:361-397 | at most two retries for any size and any history; the result serves the request with less than a unit to spare, and for everybody else nothing changes; which unit size results and how far the marching bit moves is stated exactly; only the first header can lie outside of its block, exactly if the rest has no room for it |
| PoolAllocs.Pool.Alloc | src/util/pool_alloc.cpp:409-421 | for every size the client gets that many bytes behind a header, in a run that is disjoint from all others; a huge request gets a block of just its size, until there were too many; every adapted unit is a multiple of 8 and no smaller than a header; a header is written outside of its block exactly if the request goes to a current block whose rest has no room for one, and never with a unit of at least 16 bytes |
| PoolAllocs.Pool.AllocateHuge | src/util/pool_alloc.cpp:331-359 | a block of its own up to the thirteenth time; then a normal request is made, and the unit follows the huge sizes only if no normal size is recorded, because otherwise the choice of the normal sizes overrides it at once |
| PoolRuns.RunAll | src/util/pool_alloc.cpp:234-457 | over every interleaving of allocations by several pools and releases by any thread, the runs in use are exactly the allocations made and not released, with bytes of their own |
| PoolRuns.NothingIsLeft | src/util/pool_alloc.cpp:250-266 | when everything was released and no pool has a current block, no block is left |
| KthBiggests.RightIffFalling | src/util/pool_alloc.cpp:273-298 | the exact condition: at every size the list holds the k biggest so far, if and only if the first k sizes fall strictly |
| KthBiggests.AnswersIffFalling | src/util/pool_alloc.cpp:273-298 | for distinct sizes the same condition is exact for the answer after each size |
| HashTables.HashTable.EqualRange | include/util/hashtable.h:369-373 | iterating terminates and yields exactly the inserted items with the key, each as often as it was inserted |
| HashTables.ContainsIsRight | include/util/hashtable.h:174-210 | `contains` is right exactly unless all slots from the home slot on are taken by other items and a copy lies before it; so always if one of those slots is empty |
| StaticHashMaps.HashMap.Remove | src/util/static_hash_map.cpp:207-231 | pops the newest binding and leaves all other keys alone, so it undoes an insert |
| ResourcePools.ResourcePool.Unreserve | src/util/resource_pool.cpp:153-179 | the resources come back, and exactly the longest prefix of the waiters that fits is granted, in order |
| ResourcePools.ResourcePool.NobodyIsStranded | src/util/resource_pool.cpp:320-345 | while anybody waits something is reserved, so a return is still to come that looks at the head again |
| ConfigStored.MapRoundTripIff | src/util/confparser.cpp:89-174 | if delimiter, comment mark and sentry have no spaces, a map survives saving and loading exactly if all its entries pass the check |
| ConfigStored.StoredPasses | src/util/confparser.cpp:103-174 | from any text at all the reader stores only entries that pass the check |
| Fnv.FnvHash | src/util/fnv.cpp:122-162 | the loop with its jump into the body computes FNV-1a, as the plain loop does, for every buffer that is not empty and every start value, and reads nothing outside |
| Fnv.HashConcat | src/util/fnv.cpp:89-100 | hashing a concatenation is hashing the second part from the hash of the first |
| LogicalLocks.GrantedIffInHeadRun | src/dora/logical_lock.cpp:330-378 | on the line of unreleased requests of a lock, the requests of the granted head run are exactly those that conflict with nobody ahead of them |
| LogicalLocks.InvIsCanonical | src/dora/logical_lock.cpp:410-451 | a lock that satisfies the mode invariant caches the mode of the head of its line, and its owners are exactly the granted head run |
| LogicalLocks.StateOfIsCanonical | src/dora/logical_lock.cpp:330-378 | the state computed from a line satisfies the invariant and has that line back |
| LogicalLocks.CanonicalWithoutUpgrade | src/dora/logical_lock.cpp:308-314 | a lock state without an upgraded owner is a function of its line; only the upgrade of a sole owner leaves that form |
| LogicalLocks.AcquireAgain | src/dora/logical_lock.cpp:299-325 | a request of an owner never waits and changes neither owners nor waiters; it changes the line only when a sole shared owner asks for exclusive mode, and then only the mode at the head |
| LogicalLocks.ReleaseIsCanonical | src/dora/logical_lock.cpp:173-230 | a release takes the entry of the owner out of the line and leaves the state computed from the rest, also after an upgrade |
| LogicalLocks.ErasedOwnersAgree | src/dora/logical_lock.cpp:429-442 | the assert of `_upd_dlm` on incompatible owners holds right after any owner of a lock that satisfies the invariant was erased, which is when the code gets there |
| LogicalLocks.StepKeeps | src/dora/logical_lock.cpp:164-379 | every acquire and release of a well-formed client keeps the lock invariant with distinct transactions, and the equation between requests, grants and waiters |
| LogicalLocks.RepeatedRequestBreaksRelease | src/dora/logical_lock.cpp:232-277 | two actions of one transaction on one key: the second release finds no owner entry and a lock that is not free, the state in which `release` asserts |
| LogicalLocks.LogicalLock.Acquire | src/dora/logical_lock.cpp:295-379 | the loop over the owners, the mode shortcut and the scan of the waiters compute `AcquireStep`; the invariant is kept; the unhandled upgrade among several owners is the precondition |
| LogicalLocks.LogicalLock.Release | src/dora/logical_lock.cpp:164-280 | computes `ReleaseStep`, also in the special case of a free lock, appends exactly the promoted actions and returns their number |
| LogicalLocks.LogicalLock.DropOwner | src/dora/logical_lock.cpp:184-223 | erasing an owner, refreshing the mode and promoting only if it changed is the whole release |
| LogicalLocks.LogicalLock.PromoteWaiters | src/dora/logical_lock.cpp:199-222 | the loop moves waiters to the owners and to the promoted list, head first, and ends in `Promote` |
| LogicalLocks.LogicalLock.UpdDlm | src/dora/logical_lock.cpp:410-451 | leaves the mode of the last owner that has one, and says whether that is a change; its inner assert holds |
| LockTables.ReleaseConservesEntries | src/dora/logical_lock.cpp:199-222 | a release turns waiting entries of an action into promotions of it, one for one |
| LockTables.ReleaseKeysAccounts | include/dora/lockman.h:151-155 | releasing all keys of an action lowers the missing keys of every other action by exactly the number of its promotions |
| LockTables.EnoughMissingCanWake | include/dora/base_action.h:145-154 | if every action misses at least as many keys as it is promoted, the assert of `gotkeys` holds at each promotion |
| LockTables.WakeIsExact | include/dora/lockman.h:157-169 | counting promotions: no counter goes below zero, and an action gets on the ready list exactly once, when its last missing key arrives |
| LockTables.AcquireAllAccounts | include/dora/lockman.h:105-137 | `acquire_all` raises the missing keys of its action by exactly the keys that it did not get, and those of nobody else |
| LockTables.ReleaseAllCanWake | include/dora/base_action.h:150-152 | the assert of `gotkeys` never fails in `release_all` on an accounted table |
| KeyWrappers.LessIsStrictTotalOrder | include/dora/key.h:216-257 | among keys of one length `<` is a strict total order, `<=` and `==` fit it, and keys of which neither is less are the same key |
| KeyWrappers.EqualIsPrefix | include/dora/key.h:230-242 | in general `==` says that the left key is a prefix of the right one, so it separates keys exactly if their lengths are equal |
| KeyWrappers.IsLess | include/dora/key.h:218-228 | the scan answers whether the keys agree up to some field in which the left one is smaller |
| KeyWrappers.IsEqual | include/dora/key.h:232-242 | the scan answers whether the left key is a prefix of the right one |
| LockOrder.LineIsWf | src/dora/logical_lock.cpp:295-379 | if two actions of one transaction never share a key, every lock has one request for each transaction, in a real mode |
| LockOrder.GrantedIffNotBlocked | src/dora/logical_lock.cpp:330-378 | an action owns a key exactly when no earlier unreleased action of the partition conflicts with it there |
| LockOrder.JoinOrder | include/dora/lockman.h:105-137 | an action asking for all its keys: the table of the order becomes the table of the longer order |
| LockOrder.LeaveOrder | include/dora/lockman.h:143-171 | an action releasing all its keys: the table of the order becomes the table of the shorter order |
| LockOrder.WaitsIffBlocked | src/dora/logical_lock.cpp:330-364 | an action is among the waiters of a key once if an earlier unreleased action conflicts there, and not at all otherwise |
| LockOrder.RunnableStays | include/dora/lockman.h:143-171 | an action that may run may still run after any other action has left |
| LockOrder.RunnableNeverConflict | include/dora/lockman.h:105-171 | two actions of a partition that may run at the same time do not conflict on any key |
| LockManagers.RangeAction.TrxUpdKeys | include/dora/range_action.h:123-162 | the first call makes one request for the one key of a point action, and for a range action one for each key of its list, in their order, and sets the counter to their number; each is a request of this action and its transaction, shared exactly if the action only reads; later calls change nothing |
| LockManagers.KeyLockMap.AcquireLock | include/dora/logical_lock.h:343-366 | updating an entry and inserting one both compute the table after the request |
| LockManagers.KeyLockMap.Acquire | include/dora/logical_lock.h:343-370 | computes the table after the request, and the counter of the action goes down by one exactly if the key was acquired |
| LockManagers.KeyLockMap.Release | include/dora/logical_lock.h:373-390 | computes the table after the release, of an owner or of a free lock, and appends the promoted actions; other locks do not change |
| LockManagers.LockMan.AcquireAll | include/dora/lockman.h:105-137 | the loop asks for every key, also after a failure and also for keys that the transaction owns already; the counter ends at the number of keys that were not acquired, and the answer is whether that is zero |
| LockManagers.FreshHasNoClash | include/dora/lockman.h:105-137 | a transaction that owns and waits for none of the keys meets the precondition of `acquire_all`, which excludes only upgrades among several owners |
| LockManagers.LockMan.ReleaseLocks | include/dora/lockman.h:151-155 | the first loop of `release_all` computes the released table and the promoted list |
| LockManagers.LockMan.WakeAll | include/dora/lockman.h:157-169 | the second loop counts the promotions and collects the ready list |
| LockManagers.LockMan.ReleaseAll | include/dora/lockman.h:143-171 | both loops together compute table, counters and both lists |
| LockRenaming.AcquireAllNamed | include/dora/lockman.h:105-137 | `acquire_all` does not look at what an action is: it commutes with renaming the actions |
| LockRenaming.ReleaseKeysNamed | include/dora/lockman.h:151-155 | releasing keys and collecting the promoted commutes with renaming the actions |
| LockRenaming.WakeNamed | include/dora/lockman.h:157-169 | counting the promotions, and what `gotkeys` asserts, commutes with renaming the actions if no two get one name |
| Partitions.ReadyIffRunnable | include/dora/base_action.h:133-137 | in every reachable partition an action misses no key, and has passed the lock manager, exactly if no earlier unreleased action blocks it |
| Partitions.ServedOwnsAll | src/dora/worker.cpp:200-204 | strict two-phase locking: an action that is served, has been served or is committed but not released owns all its locks; the assert of `_serve_action` holds |
| Partitions.ReadyCounter | src/dora/worker.cpp:203-204 | the assert of `_serve_action`: an action on a ready list misses no key |
| Partitions.ServedNeverConflict | src/dora/worker.cpp:146-156 | two unreleased actions that have both passed the lock manager never conflict |
| Partitions.NoLocalDeadlock | include/dora/lockman.h:105-137 | in every reachable partition the oldest unreleased action owns all its keys, and waits-for edges point to earlier actions only |
| Partitions.EnqueueKeeps | include/dora/partition.h:268-286 | enqueueing an action keeps the invariant of the partition |
| Partitions.TakeInputKeeps | src/dora/worker.cpp:168-179 | taking an input action and asking for its locks keeps it |
| Partitions.ServeNextKeeps | src/dora/worker.cpp:200-233 | starting to serve a ready action keeps it, aborted or not |
| Partitions.EndExecKeeps | src/dora/worker.cpp:232-259 | the end of `trx_exec` keeps it |
| Partitions.AfterPostKeeps | src/dora/worker.cpp:273-304 | the post keeps it |
| Partitions.EnqueueCommitKeeps | include/dora/partition.h:315-323 | an action that comes back to the committed queue keeps it |
| Partitions.DrainNeverFails | src/dora/worker.cpp:130-140 | whenever a commit is drained, its action is known, owns all its locks, and every promotion finds a missing key: the asserts of `release` and `gotkeys` are unreachable |
| Partitions.WhoIsReady | include/dora/lockman.h:157-169 | the ready list of a drained commit is, once each, exactly the waiting actions whose counter has become zero |
| Partitions.DrainKeeps | src/dora/worker.cpp:130-156 | draining a commit keeps the invariant, releases that action and makes only waiting ones ready |
| Transactions.NewTxInv | include/dora/rvp.h:81-92 | a new transaction expects one post of each of its actions |
| Transactions.SentOneInv | include/dora/partition.h:268-286 | sending one action out moves that action and no other |
| Transactions.SetAbortInv | include/dora/rvp.h:121-124 | an abort changes the decision and the stage of no action |
| Transactions.PostOneInv | include/dora/rvp.h:115-118 | a post of a pending action finds the count positive, and starts the rendezvous point exactly if it is the last one out |
| Transactions.RunMidwayInv | include/dora/common.h:615-632 | a midway rendezvous point hands all actions and an abort on; when aborted it adds none and the next one runs at once |
| Transactions.RunTerminalInv | src/dora/rvp.cpp:237-320 | the terminal rendezvous point runs when no action is out and nothing is decided; it aborts exactly if the transaction was aborted or the commit failed |
| Transactions.FlushDoneInv | src/dora/dflusher.cpp:145-159 | a transaction that leaves the flusher starts to notify its partitions, with no action lost |
| Transactions.NotifyOneInv | src/dora/rvp.cpp:202-210 | one turn of the notification loop sends one action back that had posted and had not been sent back |
| SerialData.ReplayReads | src/dora/rvp.cpp:246-305 | replaying a log changes only the items it writes and leaves there its own last values |
| SerialData.SeenElsewhere | src/dora/rvp.cpp:246-305 | what the actions of a log see depends only on the items they touch |
| SerialData.ExecKeeps | src/dora/worker.cpp:220-259 | an action that runs alone on its items keeps the store equal to the serial history plus the writes of undecided transactions |
| SerialData.CommitKeeps | src/dora/rvp.cpp:269-305 | a commit appends to the serial history: what the transaction saw is what it would see there |
| SerialData.AbortKeeps | src/dora/rvp.cpp:248-263 | rollback leaves the store as if the transaction had never run, with others still running |
| SerialData.QuietStoreIsSerial | src/dora/rvp.cpp:237-320 | with no undecided transaction the store is that of the serial history |
| Protocol.InitInv | include/dora/partition.h:239-254 | the empty system satisfies the invariant |
| Protocol.BeginStep | include/dora/rvp.h:81-92 | starting a transaction keeps the system invariant |
| Protocol.SendStep | include/dora/partition.h:268-286 | sending an action finds its partition and keeps the invariant |
| Protocol.InsideStep | src/dora/worker.cpp:120-180 | the steps of a worker on its own queues and lock table (looking for commits and input, draining, taking, finishing the ready list) find their asserts true and keep the invariant |
| Protocol.ServeStep | src/dora/worker.cpp:200-266 | serving finds the action ready and its transaction present, and keeps the invariant |
| Protocol.BodyStep | src/dora/worker.cpp:231-255 | running a body, whether it fails, gives up or succeeds, keeps the invariant |
| Protocol.MarkStep | include/dora/rvp.h:115-124 | the abort half of `post(true)` keeps the invariant |
| Protocol.PostStep | include/dora/rvp.h:115-118 | the countdown half finds a positive count and keeps the invariant |
| Protocol.MidwayStep | include/dora/common.h:623-632 | a midway rendezvous point keeps the invariant |
| Protocol.AllWhole | src/dora/rvp.cpp:246-305 | when every action of a transaction that is not aborted has posted, every body in its log has run to its end |
| Protocol.TerminalStep | src/dora/rvp.cpp:237-320 | the terminal rendezvous point finds its data and keeps the invariant on every path |
| Protocol.HardenStep | src/sm/shore/shore_flusher.cpp:275-283 | a flush that raises the durable LSN keeps the invariant |
| Protocol.FlushedStep | src/dora/dflusher.cpp:96-128 | handing a durable transaction to the notifier keeps the invariant |
| Protocol.HomeStep | include/dora/action.h:160-164 | sending an action back finds its partition and keeps the invariant |
| ProtocolRuns.StepPasses | src/dora/worker.cpp:120-305 | each step passes at most one milestone of an action or transaction, and none a second time |
| ProtocolRuns.WhenPassed | src/dora/worker.cpp:120-305 | whatever has been reached was passed at some step of the run |
| ProtocolRuns.StaysReached | src/dora/worker.cpp:120-305 | a milestone that was passed stays reached, and had not been reached before |
| ProtocolRuns.LifeOrder | src/dora/rvp.cpp:237-352 | served before posted, posted before decided, decided before sent back, sent back before released |
| ProtocolRuns.ServedFindsReleased | src/dora/worker.cpp:146-179 | an action that is about to be served finds every conflicting action of its partition unserved or released |
| ProtocolHistory.LogIsWhole | src/dora/rvp.cpp:269-305 | when the terminal rendezvous point is about to commit, the log of the transaction has each action it carries exactly once |
| ProtocolProgress.SoloRun | src/dora/worker.cpp:120-180 | the protocol does something: for every action there is a run that serves it, commits and releases its locks |
| Workers.Worker.ServeAction | src/dora/worker.cpp:200-305 | serves the head of the ready list: its assert holds; it posts once, and what post() is told is an error exactly if the transaction was not aborted and the body failed for another reason than a midway abort; return code and counters as in the code |
| Workers.Worker.ServeReady | src/dora/worker.cpp:146-151 | serves the ready list in order, each action once |
| Workers.Worker.DrainCommits | src/dora/worker.cpp:128-156 | releases all committed actions in their order and serves, once each, exactly those that waited and can now run |
| Workers.Worker.TakeOne | src/dora/worker.cpp:162-179 | takes one input action and serves it exactly if no unreleased action of the partition conflicts; otherwise it waits |
| Workers.IdleForgetsNobody | src/dora/worker.cpp:128-179 | in every reachable partition an unreleased action waits exactly if an earlier one blocks it |
| Workers.TakenIsReady | include/dora/action.h:141-146 | `trx_acq_locks` succeeds exactly if no unreleased action conflicts |
| Workers.RemainingOfRest | src/dora/worker.cpp:128-156 | releasing the committed actions one by one leaves the order without them |
| Countdowns.StepInv | src/util/countdown.cpp:46-70 | every read, compare-and-swap and plain store of any poster finds the asserts true and keeps the invariant of the race |
| Countdowns.RemainingIsOut | src/util/countdown.cpp:72-76 | `remaining` is the number of posters that are out, or -1 after an error |
| Countdowns.Countdown.Post | src/util/countdown.cpp:45-70 | however often it has to try again, a post takes exactly one off the count; it wins exactly if it is the last or reports the error |
| Rvps.DeliverIsHomeOf | src/dora/rvp.cpp:202-210 | the notification loop and the single notifications of the transition system leave the same committed queue |
| Rvps.HomeOfCounts | src/dora/rvp.cpp:202-210 | every action is delivered to its own partition exactly as often as it is carried, and to no other |
| Rvps.Rvp.PostAlone | include/dora/rvp.h:115-118 | a post with an error decides the abort, every post takes one off the countdown, and the caller is told to run exactly at zero; this refines the post of the transition system |
| Rvps.Rvp.HandOver | include/dora/common.h:615-632 | a midway rendezvous point refines the midway step: if it was aborted, the next one has its actions and its abort and runs at once; otherwise it has its actions followed by the new ones, is undecided, and counts the new ones |
| Rvps.TerminalRvp.NotifyPartitions | src/dora/rvp.cpp:202-210 | each partition gets exactly its own actions, in order, at the end of its committed queue |
| Rvps.TerminalRvp.NotifyOnAbort | src/dora/rvp.cpp:337-352 | each partition gets exactly its own actions back, and the client is told once before the rendezvous point is given back |
| Rvps.TerminalRvp.Run | src/dora/rvp.cpp:237-320 | a commit that succeeds with the flusher on appends this object to its queue, with the LSN of the commit, and sends nothing home and tells nobody; on every other path each partition gets its own actions in their order, the client is told once and the queue of the flusher stays; statistics and return code as in the code; it refines the terminal step |
| GroupCommit.HalvesAreAll | src/dora/dflusher.cpp:96-128 | sorting the queue by the durable LSN loses and duplicates nobody |
| GroupCommit.GatheredBound | src/dora/dflusher.cpp:117-123 | a flush past the gathered `maxlsn` makes everybody in the flushing queue durable |
| GroupCommit.GatheredIsLogged | src/sm/shore/shore_flusher.cpp:279-290 | if the commit records are in the log, the end of the log is past the gathered `maxlsn` |
| GroupCommit.Flusher.CheckWaiting | src/dora/dflusher.cpp:88-131 | empties the to-flush queue, after sleeping on it if told to and with everybody who joins meanwhile: durable requests go to the notifier, the others to the flushing queue, with `maxlsn` and the counters |
| GroupCommit.Flusher.SortOut | src/dora/dflusher.cpp:97-128 | the loop takes everybody from the to-flush queue, also who joins meanwhile: durable requests go to the notifier, the others to the flushing queue |
| GroupCommit.Flusher.MoveFromFlushing | src/dora/dflusher.cpp:145-159 | moves the flushing queue to the notifier in order; its assert is the precondition |
| GroupCommit.Flusher.MaybeFlush | src/sm/shore/shore_flusher.cpp:227-283 | a full flush exactly if the group or the log is as big as configured or the time is up; without one the log is still made durable whenever anybody waits |
| GroupCommit.Flusher.NotifyNext | src/dora/dflusher.cpp:264-273 | the notifier takes the next request, which is durable; each request is always in exactly one of the four places |
| PoolAllocs.NewBlockInv | src/util/pool_alloc.cpp:316-321 | a new block satisfies the invariant and is not empty |
| PoolAllocs.CarveInv | src/util/pool_alloc.cpp:379-386 | handing out the next units keeps it: runs in use are disjoint, and the bitmap is the units in use plus those not handed out |
| PoolAllocs.ReturnInv | src/util/pool_alloc.cpp:240-248 | taking a run in use out of the bitmap keeps it |
| PoolAllocs.EmptyWhenAllBack | src/util/pool_alloc.cpp:250-266 | the bitmap is empty exactly when all units were handed out and all runs are back |
| PoolAllocs.BytesApart | src/util/pool_alloc.cpp:227-232 | runs in use are disjoint as byte ranges and stay inside the data of the block |
| PoolAllocs.HeaderAt | src/util/pool_alloc.cpp:227-232 | a header at some unit of a block ends inside the data of the block exactly if the units from there on have room for it |
| PoolAllocs.HeaderFits | include/util/pool_alloc.h:66-72 | that is so at all 64 units exactly if a unit is at least as long as a header of 16 bytes |
| PoolAllocs.DefaultUnitOverflows | include/util/pool_alloc.h:33 | a run of the code from a pool with the default unit of 8 bytes: after 21 requests for 8 bytes the header of the rest is written outside of the block |
| PoolAllocs.KeptIs | src/util/pool_alloc.cpp:273-298 | what `kth_biggest` keeps is sorted, comes from the recorded sizes and starts with the biggest |
| PoolAllocs.ChosenIsRecorded | src/util/pool_alloc.cpp:273-298 | `kth_biggest` answers with one of the recorded sizes |
| PoolAllocs.AscendingChoosesBiggest | src/util/pool_alloc.cpp:287-294 | of sizes in ascending order the loop keeps only the biggest, however long a list it was to keep |
| PoolAllocs.KthBiggest | src/util/pool_alloc.cpp:273-298 | the loop over the array computes that choice, within the bounds of its fixed list |
| PoolAllocs.Heap.Release | src/util/pool_alloc.cpp:234-267 | one atomic release by any thread; the block is freed exactly if all units were handed out and this run was the last in use |
| PoolAllocs.Pool.DiscardBlock | src/util/pool_alloc.cpp:300-306 | gives back what is left of the current block and no client notices; its header lies inside the block exactly if the rest has room for one |
| PoolAllocs.Pool.CarveUnits | src/util/pool_alloc.cpp:379-386 | the loop takes just as many units as the request needs, or all that are left |
| PoolAllocs.Pool.Renew | src/util/pool_alloc.cpp:363-371 | a full block is left behind; the unit becomes the choice of the recorded normal sizes, or stays if there are none |
| PoolAllocs.Pool.Carved | src/util/pool_alloc.cpp:373-386 | the run is new, is the only change that clients can see, and serves the request with less than a unit to spare exactly if the rest of the block has room for it; the header lies inside the block exactly if the rest has room for one |
| PoolAllocs.Pool.Attempt | src/util/pool_alloc.cpp:361-386 | a first attempt, in the current block or in a new one |
| PoolAllocs.Pool.GiveBack | src/util/pool_alloc.cpp:389-391 | an undersized allocation is freed as if it had not been made |
| PoolAllocs.Pool.FollowHuge | src/util/pool_alloc.cpp:334-338 | after too many huge requests: the rest of the block is discarded, and the unit that results is the choice of the huge sizes only if no normal size is recorded |
| PoolAllocs.Pool.OwnBlock | src/util/pool_alloc.cpp:340-358 | a huge request gets a block of just its size, all of it in one run |
| PoolAllocs.Pool.Free | src/util/pool_alloc.cpp:423-457 | takes away exactly this allocation, in any thread, and the pool stays valid |
| KthBiggests.KthIsUnique | src/util/pool_alloc.cpp:273-298 | there is at most one k-th biggest: fewer than k sizes are bigger, at least k are not smaller |
| KthBiggests.LastIsKth | src/util/pool_alloc.cpp:297 | the last of a list of the k biggest is the k-th biggest |
| KthBiggests.FallingIsRight | src/util/pool_alloc.cpp:273-298 | if the first k sizes fall strictly, the loop keeps exactly the k biggest, whatever follows |
| KthBiggests.ChosenIsKth | src/util/pool_alloc.cpp:273-298 | if the first k sizes fall strictly, k being a fifth of their number rounded up, `kth_biggest` answers with the k-th biggest |
| KthBiggests.FewAreRight | src/util/pool_alloc.cpp:273-298 | for up to five sizes it answers with the biggest, which is right because k is 1 |
| KthBiggests.AscendingIsWrong | src/util/pool_alloc.cpp:287-294 | for more than five sizes in ascending order the answer is the biggest and is wrong |
| KthBiggests.SixAreWrong | src/util/pool_alloc.cpp:273-298 | 16, 24, 32, 40, 48, 56: the answer is 56, the second biggest is 48 |
| PoolRuns.NewPool | src/util/pool_alloc.cpp:197-214 | a new pool joins others on the same heap |
| PoolRuns.AllocBy | src/util/pool_alloc.cpp:409-421 | an allocation by one thread keeps every pool of every other thread valid |
| PoolRuns.FreeBy | src/util/pool_alloc.cpp:423-457 | a release by any thread, of any block, keeps every pool valid; the block is gone exactly if it was freed |
| Bitmaps.March | src/util/pool_alloc.cpp:383 | the marching bit moves by one unit and falls out of the word after the last one |
| Bitmaps.ReleaseWord | src/util/pool_alloc.cpp:240-248 | `bitmap & ~range` on 64-bit words is set difference |
| Bitmaps.CarveWord | src/util/pool_alloc.cpp:382 | or-ing the marching bit into a range adds one unit |
| Bitmaps.RestWord | src/util/pool_alloc.cpp:303 | `~(_next_unit - 1)` is everything that has not been handed out |
| Bitmaps.EmptyWord | src/util/pool_alloc.cpp:250-251 | the word is zero exactly if the set is empty |
| HashTables.FillKeepsProbed | include/util/hashtable.h:100-120 | filling the first empty slot after its home keeps every item reachable through occupied slots, cyclically |
| HashTables.ScanIsExact | include/util/hashtable.h:327-359 | the iteration over a key stops at exactly the slots that hold an item with the key, once each, also in a full table |
| HashTables.MatchesAreItems | include/util/hashtable.h:369-373 | those slots hold every inserted item with the key, as often as it was inserted |
| HashTables.ContainsMisses | include/util/hashtable.h:188-200 | two inserts into a table of two slots after which `contains` does not find the second item |
| HashTables.HashTable.Probe | include/util/hashtable.h:100-116 | both loops together find the first empty slot at or after the home, cyclically |
| HashTables.HashTable.InsertNoResize | include/util/hashtable.h:93-121 | the item goes to an empty slot that is reached from the slot of its hash code modulo the capacity through full slots only, and nothing else changes; every item stays reachable |
| HashTables.HashTable.Begin | include/util/hashtable.h:258-279 | the first iterator stands before exactly the slots of the scan |
| HashTables.HashTable.Advance | include/util/hashtable.h:327-359 | `++` goes to the next of them, or to the end |
| HashTables.HashTable.Contains | include/util/hashtable.h:174-210 | finds exactly the copies that have not wrapped around the end of the table |
| StaticLists.InsertAfter | src/util/static_list_node.cpp:162-172 | the ring with the node behind the given one; prev and next stay inverse |
| StaticLists.InsertBefore | src/util/static_list_node.cpp:190-200 | the ring with the node before the given one |
| StaticLists.Cut | src/util/static_list_node.cpp:232-240 | the ring without the node, which is alone again |
| StaticLists.List.Prepend | src/util/static_list.cpp:80-84 | the list with the value in front |
| StaticLists.List.Append | src/util/static_list.cpp:100-104 | the list with the value at the end |
| StaticLists.List.RemoveNode | src/util/static_list.cpp:119-124 | the list without the element of the node |
| StaticLists.List.RemoveHead | src/util/static_list.cpp:142-160 | undoes a prepend; nothing happens to an empty list |
| StaticLists.List.RemoveTail | src/util/static_list.cpp:178-196 | undoes an append; nothing happens to an empty list |
| StaticLists.List.Map | src/util/static_list.cpp:284-305 | the traversal ends and replaces every element by its image, once |
| StaticLists.List.Process | src/util/static_list.cpp:368-389 | the traversal ends and visits the elements in order up to the first that says stop |
| StaticHashMaps.FirstIsTop | src/util/static_hash_map.cpp:149-187 | the first entry of a key in its chain is the newest binding, and taking it out pops the stack of that key alone |
| StaticHashMaps.StackAround | src/util/static_hash_map.cpp:351-359 | the stack of a key is that of the chain before an entry, the entry, and the chain behind it |
| StaticHashMaps.HashMap.Insert | src/util/static_hash_map.cpp:117-130 | puts the entry in front of the chain of its hash code modulo the number of chains and leaves the other chains alone; so it pushes on the stack of the key and leaves all other keys alone |
| StaticHashMaps.HashMap.PushFront | src/util/static_hash_map.cpp:329-339 | one chain gets an entry in front, the others stay |
| StaticHashMaps.HashMap.Walk | src/util/static_hash_map.cpp:157-186 | the walk ends at the first entry of the key, or finds that there is none |
| StaticHashMaps.HashMap.Find | src/util/static_hash_map.cpp:149-187 | the newest binding of the key |
| StaticHashMaps.HashMap.Pop | src/util/static_hash_map.cpp:215-227 | cutting the node that was found pops the stack |
| StaticHashMaps.HashMap.CutOut | src/util/static_hash_map.cpp:245-249 | one chain loses a node, the others stay |
| ResourcePools.FittingIs | src/util/resource_pool.cpp:320-345 | the waiters that `waiter_wake` lets pass are the longest prefix that fits together |
| ResourcePools.ResourcePool.Reserve | src/util/resource_pool.cpp:91-137 | granted at once exactly if nobody waits and the request fits, otherwise the request joins the end of the queue; grants followed by waiters are the requests in order, reserved is granted minus returned and within the capacity, and the head never fits |
| ResourcePools.ResourcePool.WaiterWake | src/util/resource_pool.cpp:320-345 | grants exactly the longest prefix of waiters that fits, in order |
| ResourcePools.ResourcePool.NotifyCapacityIncrease | src/util/resource_pool.cpp:198-215 | the capacity grows, and exactly the longest prefix of the waiters that fits is granted, in order |
| ConfigFiles.RoundTrip | src/util/confparser.cpp:89-174 | reading what was written gives back the entries in their order, over whatever was there, for every list of entries that pass the check, multi-line values included |
| ConfigFiles.MapRoundTrip | src/util/confparser.cpp:89-174 | a map whose entries all pass the check survives, in whatever order it is written |
| ConfigFiles.ReadEntries | src/util/confparser.cpp:115-171 | the outer loop, with the first line of the next entry already read ahead |
| ConfigFiles.LinesJoin | src/util/confparser.cpp:145-164 | a value is its lines with newlines between them |
| ConfigFiles.LastLineTwice | src/util/confparser.cpp:145-164 | without a final newline the last line of a value that reaches the end of the text is taken twice |
| ConfigFiles.ConfigFile.Save | src/util/confparser.cpp:89-100 | the loop writes one entry after the other |
| ConfigFiles.ConfigFile.ReadValue | src/util/confparser.cpp:141-164 | the inner loop computes the value, the rest of the stream and the line read ahead |
| ConfigFiles.ConfigFile.Load | src/util/confparser.cpp:103-174 | the outer loop computes the contents and ends |
| ConfigFiles.ConfigFile.Copy | src/util/confparser.cpp:89-174 | saving and loading into an empty configuration copies the contents |
| ConfigStored.EntryOk | src/util/confparser.cpp:128-169 | whatever the reader makes of a line and its continuation passes the check |
| Fnv.ShiftsMultiply | src/util/fnv.cpp:95-99 | the shifts and additions multiply by 0x01000193 modulo 2^32 |
| Fnv.FirstPassInside | src/util/fnv.cpp:125-157 | the first pass of the unrolled loop stays inside the buffer exactly if the buffer is not empty |
| Fnv.FnvReference | src/util/fnv.cpp:81-104 | the plain loop computes FNV-1a of the sign-extended octets |
| Fnv.Pass | src/util/fnv.cpp:137-156 | one pass, entered at any label, hashes the octets from there to the end of the group of eight |
| ProtocolEffects.LogsHaveRun | src/dora/worker.cpp:231-255 | every effect that an undecided or committed transaction has logged comes from a step of the run in which the body of that action ran, and saw the store of that step |
| ProtocolEffects.ReplayIsLastWritten | src/dora/rvp.cpp:269-305 | a serial history leaves in each item what the body of its last writer returned |
| ProtocolBodies.PostedHasRun | src/dora/worker.cpp:267-282 | by the time an action has posted, its body has run at most once, and each failure of it has become one request for the abort |
| ProtocolStuck.EnvironmentIsFree | src/dora/rvp.cpp:237-320 | whenever the code gets there, clients may start any well-formed transaction, bodies may fail or return anything, midway rendezvous points may add any well-formed actions, the storage manager may answer anything and the log may grow, and no assert stands against it |
| ProtocolStuck.StuckTx | src/dora/rvp.cpp:196-320 | in a system that has stopped no transaction has anything to send, to run or to notify, and a flushing one has an LSN that is not durable |
| ProtocolRuns.FlushedNotifies | src/dora/dflusher.cpp:255-285 | leaving the flusher starts the notification of all actions of a committed transaction |
| LockTables.ReleasesInOrder | include/dora/lockman.h:151-155 | the promotions of a key come after those of the keys released before it |
| LockTables.WakesInOrder | include/dora/lockman.h:157-169 | the ready list is in the order in which the last missing keys arrive |
| Rvps.HomeOfConcat | src/dora/rvp.cpp:202-211 | what goes home to a partition keeps the order of the list |
| Rvps.HomeOfOne | include/dora/action.h:160-165 | a single action goes home to its own partition and to no other |
| KeyWrappers.LessIsLexicographic | include/dora/key.h:218-228 | a key is less exactly if it agrees with the other one up to some field in which it is smaller |
| GroupCommit.HalvesSplit | src/dora/dflusher.cpp:107-124 | the first half is what the durable LSN has passed, the second half the rest |
| PoolAllocs.HugeIs | src/util/pool_alloc.cpp:400-416 | a request is huge exactly if it takes, with its header of 16 bytes, more than eight units; up to 13 of them get a block of their own |
| PoolAllocs.TakesIs | src/util/pool_alloc.cpp:379-386 | the number of units taken is the size divided by the unit, rounded up |
| HashTables.AtIsModulo | include/util/hashtable.h:93-121 | going on cyclically from a slot is addition modulo the capacity |
| Fnv.MixIs | src/util/fnv.cpp:115-120 | one step is exclusive or with the sign-extended octet and then multiplication by the prime |
| Fnv.HashIsFnv1a | src/util/fnv.cpp:81-104 | the loop computes FNV-1a as it is defined, octet by octet |
| ConfigLines.CommentIsCut | src/util/confparser.cpp:128-129 | a line is cut before its first comment mark, and stays as it is if it has none |
| ConfigLines.LineIsSkipped | src/util/confparser.cpp:134-136 | a line without a delimiter and without the sentry is passed over |
| ConfigLines.SentryStops | src/util/confparser.cpp:131-132 | nothing is read from a line with the sentry on, also if it was read ahead |
| ConfigLines.NextLineEndsValue | src/util/confparser.cpp:153-157 | a line with a delimiter or with the sentry ends the value before it and is read next |
| ConfigLines.BlankEndsValue | src/util/confparser.cpp:149-151 | a blank line ends a value |
| ConfigLines.CommentInsideValue | src/util/confparser.cpp:153-163 | a comment on a line of its own does not end a value |
| ConfigLines.RemarkDoesNotMatter | src/util/confparser.cpp:128-169 | a comment behind an entry changes nothing: the reader stores the same key and value and goes on with the following entries |
| LogicalLocks.LogicalLock.constructor | src/dora/logical_lock.cpp:139-145 | a new lock is the lock of a line with one request |
| LogicalLocks.LogicalLock.HeadCanAcquire | src/dora/logical_lock.cpp:392-396 | true exactly when there is a waiter and its mode is compatible with `_dlm` |
| LogicalLocks.LogicalLock.IsClean | src/dora/logical_lock.cpp:463-467 | a lock is clean exactly when its line is empty |
| LockManagers.RangeAction.constructor | include/dora/range_action.h:72-88 | a new action has no requests and has not set its keys |
| LockManagers.RangeAction.SetKeys | include/dora/base_action.h:139-143 | sets the counter |
| LockManagers.RangeAction.GotKeys | include/dora/base_action.h:145-154 | lowers the counter, whose assert is the precondition, and says whether it is zero |
| LockManagers.RangeAction.IsReady | include/dora/base_action.h:133-137 | true exactly when no key is missing |
| LockManagers.KeyLockMap.constructor | include/dora/logical_lock.h:312-326 | no key has an entry |
| LockManagers.LockMan.constructor | include/dora/lockman.h:94-97 | a lock manager with an empty map |
| LockManagers.KeyLockMap.Insert | include/dora/logical_lock.h:356-366 | a key without an entry gets a lock owned by its first request |
| Countdowns.Countdown.constructor | include/util/countdown.h:44 | starts at the given count |
| Countdowns.Countdown.Reset | src/util/countdown.cpp:35-42 | starts again at the given count |
| Countdowns.Countdown.Cas | src/util/countdown.cpp:51 | compare-and-swap after posts of others |
| Rvps.PartitionQueues.constructor | include/dora/partition.h:239-254 | both queues start empty |
| Rvps.PartitionQueues.Enqueue | include/dora/partition.h:268-286 | appends to the input queue |
| Rvps.PartitionQueues.Dequeue | include/dora/partition.h:298-302 | takes the head of the input queue, or nothing from an empty one |
| Rvps.PartitionQueues.EnqueueCommit | include/dora/partition.h:315-323 | appends to the committed queue, for an action of this partition only |
| Rvps.PartitionQueues.HasCommitted | include/dora/partition.h:188-190 | true exactly if the committed queue is not empty |
| Rvps.PartitionQueues.DequeueCommit | include/dora/partition.h:335-340 | takes the head of the committed queue |
| Rvps.Rvp.constructor | include/dora/rvp.h:81-92 | an undecided rendezvous point with its count and the copied actions |
| Rvps.Rvp.AddAction | src/dora/rvp.cpp:123-129 | appends one action |
| Rvps.Rvp.AppendActions | src/dora/rvp.cpp:106-112 | appends a list of actions in order |
| Rvps.Rvp.Abort | include/dora/rvp.h:120-124 | decides to abort |
| Rvps.Rvp.IsAborted | include/dora/rvp.h:126-128 | tells whether it did |
| Rvps.FlushQueue.constructor | src/dora/dflusher.cpp:43-55 | the to-flush queue starts empty |
| Rvps.TerminalRvp.constructor | include/dora/rvp.h:194-202 | nothing has been counted or notified |
| GroupCommit.Flusher.constructor | src/dora/dflusher.cpp:78-91 | all queues start empty |
| GroupCommit.Flusher.EnqueueToFlush | src/dora/rvp.cpp:296-298 | a request joins the end of the to-flush queue |
| GroupCommit.Flusher.SyncLog | src/sm/shore/shore_flusher.cpp:279 | everything in the log becomes durable |
| PoolAllocs.Insert | src/util/pool_alloc.cpp:281-294 | one size is inserted into the kept list |
| PoolAllocs.MakeRoom | src/util/pool_alloc.cpp:287-289 | the entries from the insertion point on move up by one place |
| PoolAllocs.Heap.Malloc | src/util/pool_alloc.cpp:312-321 | a block with a new identity, all units in the bitmap |
| PoolAllocs.Heap.HandOut | src/util/pool_alloc.cpp:379-386 | records that the owner has handed out more units of a block |
| PoolAllocs.Pool.constructor | src/util/pool_alloc.cpp:197-214 | a pool without a block |
| PoolAllocs.Pool.NewBlock | src/util/pool_alloc.cpp:308-329 | a fresh current block and cleared statistics; no client notices |
| PoolAllocs.Pool.GetHeader | src/util/pool_alloc.cpp:227-232 | a header is written at an offset of a block; the pool remembers whether it lay inside |
| PoolAllocs.Pool.Record | src/util/pool_alloc.cpp:373-374 | the size is recorded inside the array |
| PoolAllocs.Pool.RecordHuge | src/util/pool_alloc.cpp:332 | the size is recorded inside the array |
| HashTables.HashTable.constructor | include/util/hashtable.h:72-87 | an empty table |
| HashTables.HashTable.Clear | include/util/hashtable.h:213-217 | an empty table again |
| StaticLists.Node.constructor | src/util/static_list_node.cpp:76-80 | a node linked to itself |
| StaticLists.Node.Init | src/util/static_list_node.cpp:76-80 | a given node becomes linked to itself |
| StaticLists.Node.IsSingleton | src/util/static_list_node.cpp:215-218 | true exactly if it is linked to itself |
| StaticLists.SetPayload | src/util/static_list_node.cpp:141-144 | the payload changes and the ring does not |
| StaticLists.List.constructor | src/util/static_list.cpp:60-64 | the empty list |
| StaticLists.List.IsEmpty | src/util/static_list.cpp:260-264 | true exactly for the empty list |
| StaticLists.List.Empty | src/util/static_list.cpp:60-64 | a list becomes empty, whatever it was linked to |
| StaticLists.List.GetHead | src/util/static_list.cpp:211-221 | the first element, if there is one |
| StaticLists.List.GetTail | src/util/static_list.cpp:236-246 | the last element, if there is one |
| StaticHashMaps.HashMap.constructor | src/util/static_hash_map.cpp:81-100 | the loop makes every table entry an empty chain, so no key has a binding |
| ResourcePools.ResourcePool.constructor | include/util/resource_pool.h:75-83 | an idle pool without waiters |
| ResourcePools.ResourcePool.NotifyIdle | src/util/resource_pool.cpp:234-243 | one resource less in use |
| ResourcePools.ResourcePool.NotifyNonIdle | src/util/resource_pool.cpp:246-255 | one more in use, never more than reserved |

## Left out

- Shore-MT itself (transactions, log, records, `cvec_t`): commit and abort are outcomes given by the environment, the log is its durable LSN, LSN differences are integer differences.
- Protocol.TerminalStep: an abort that fails inside Shore-MT is not modelled; its data is taken to be rolled back all the same; the statistics and return codes of that path are in `Rvps.TerminalRvp.Run`.
- Protocol.BodyStep: the body of an action is one step, at its end; the reads and writes inside a body are not interleaved with others.
- `srmwqueue`: queues are FIFO sequences, and a pop that is woken up without an element may return nothing.
- Weak memory: reads, writes, compare-and-swap and fetch-and-and are sequentially consistent.
- Reuse of objects (`giveback`, object caches, key caches, pools): actions and rendezvous points have identities that are not used again.
- Deadlocks across actions and partitions: they depend on how client code orders its enqueues; `ProtocolStuck.StuckWaits` says that nothing but them and the log can stop the system.
- That every action is eventually served: scheduling of threads is not modelled; `ProtocolProgress.SoloRun` shows a run, not all runs.
- Shutdown, recovery and new runs (`_pre_STOP_impl`, `abort_all_enqueued`, `prepareNewRun`, `abort_and_reset`): they drop work outside of the protocol.
- Partition creation, `repartition`, routing and CPU binding: the routing map is outside of the core.
- The worker that posts last runs the rendezvous point inside its post; in `Protocol` the steps of a rendezvous point are not tied to a worker, which only adds runs.
- Workers.Worker.Round: a round in which nobody else interferes; which transactions are aborted and how each body ends are parameters that stay the same for the round, so that a failure does not yet abort the later actions of its transaction; that, and what others do meanwhile, is in `Protocol`. New commits that a post sends to the own partition are drained in the next round.
- Rvps.Rvp.PostAlone: one post with nobody in between; races of posts are in `Countdowns`.
- GroupCommit.Flusher.Round: the configuration, the time, the end of the log and who joins the queue when are parameters; that the thread is told to stop inside a round is not modelled.
- LogicalLocks.LogicalLock.Acquire: an upgrade among several owners is a precondition, because the code asserts there; so is `LogicalLocks.LogicalLock.Release` of a lock that another transaction owns.
- Insertion into `std::map` and its order: `LockManagers.KeyLockMap` is a map with keys of one length, for which the comparison is a total order.
- PoolAllocs.ChosenIsRecorded: says only that the unit is a recorded size; `KthBiggests` says when it is the k-th biggest. An exact condition for one answer alone, for sizes that repeat or after wrong lists, is not given: a wrong list can answer right by accident.
- Sizes, counters, offsets and LSNs are unbounded integers; only the hash and the bitmaps are machine words. A `malloc` that fails is not modelled.
- PoolRuns.RunAll: allocations and releases are interleaved as wholes; the steps inside an allocation touch only blocks of their own pool and its atomic release.
- The bytes behind a header: allocations are ranges of a block, and `TRACK_BLOCKS` and `TRACE_LEAKS` are not modelled.
- `hashtable::insert_unique_noresize`: the same second loop as `contains`, whose effect is stated there. Iterator comparison is not modelled.
- Hash functions, key extractors and comparators are parameters; `StaticHashMaps` takes the comparator to be equality.
- ResourcePools.ResourcePool.Reserve: a thread that waits is a queue entry until it is granted, so spurious wakeups, which the code does not guard against, are excluded; so are requests above the capacity, whose behaviour is undefined.
- The mutex of the resource pool: each method is one critical section.
- ConfigFiles.MapRoundTrip: for delimiters and marks with spaces only this direction is proved; `ConfigStored.MapRoundTripIff` has both for the others, the defaults among them.
- Opening files, and the typed `read` and `add` templates of `ConfigFile`.
- `static_list` in reverse order (`map_reverse`, `process_reverse`): the same loops with the other link.
- Benchmark transactions, QPipe, shell, random input, statistics output, sockets, histories and process information: input and output, or nothing hard to state.
