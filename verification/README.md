# Verified models of kernel algorithms

Dafny models of the algorithms in a Linux 2.4-test kernel that keep shared state and rest on invariants across
several functions or whole runs, with proofs of what they promise. `dafny verify dfyconfig.toml` checks all of it.
Nothing here runs the kernel.

| files | source | what is modelled |
|---|---|---|
| RecordLocks, LockRanges, InodeLocks, LockWaits | fs/locks.c | POSIX record locks: the in-place pass of posix_lock_file, blocking, the deadlock check |
| SemVectors, SemSets, SemArrays, SemRuns, SemAnswers, SemWakeups | ipc/sem.c | System V semaphores: trial and rollback of vectors, sleepers completed by others, undo ledgers, answers, wakeups |
| MessageQueues, MessageAnswers | ipc/msg.c | System V message queues: hand-off to sleeping receivers, signals, IPC_SET, IPC_RMID, who is answered with what |
| Dentries, DentryMoves, Dcache, DentryRuns | fs/dcache.c, fs/namei.c | the dentry tree, reference counts, dput, pruning, lookup, d_move, directory renames |
| Resources | kernel/resource.c | the resource tree: requests, regions, release, allocation |
| Pids | kernel/fork.c | get_pid with its cached gap |
| Sched | kernel/sched.c, kernel/fork.c, kernel/exit.c | goodness, selection, recalculation, time slices |
| PageIo | fs/buffer.c | reading or writing a page through its buffers with completions in any order |
| Pipes | fs/pipe.c | the pipe ring and the byte stream through it |
| LogRing | kernel/printk.c | the message ring and syslog reads during printk |
| ExecArgs | fs/exec.c, fs/binfmt_aout.c | packing argument strings into pages and building pointer tables |
| CompT | kernel/acct.c | the 16-bit accounting float |
| Basics | | types and list functions the others share |

How the models are built:

- A region that runs under a lock is one atomic step; a protocol is a function `Next` or a relation `Step` on
  values, `Behaviour` is any run of it from the start, and the theorems speak of every state of every run. Where
  the source drops a lock in the middle (sleeping calls, dput going on to the parent, d_alloc between its
  reference to the parent and its list, get_pid before it reads its answer, a fork before it links the child, a
  completion around its spin lock, a copy to user space) the step ends there and anything else
  may come in between. Beside the steps there are methods that run several of them with nothing in between (`Dput`,
  `PruneDcache`, `CheckRegion`, `GetPid`, `EndBufferIoAsync`).
- What the source does by changing lists, arrays and fields in place is a class with those fields, and loops with
  invariants; each method is proved against the value-level function the theorems are about.
- Lists are sequences in the order the source keeps. Identities of structures are numbers.
- Oracles: what get_block, alignf, d_delete, a filesystem's rename, the page allocator, signals and other processes do is a
  parameter or an event, so that theorems hold whatever they do.
- C integers are unbounded unless their width matters; it is modelled in the lock offsets (64 bits), semadj
  (16 bits), resource addresses and the msgtyp of msgrcv (32 bits) and comp_t (16 bits). semval
  plus semadj at exit is not clamped at SEMVMX, as in the source.

What turned out not to hold of the code, each with its exact condition and an input:

- fs/locks.c:911 computes `fl_end + 1`, which wraps for a request to the end of the file. The list stays sorted and
  merged if and only if no own lock of the same kind touches such a request (`LockRanges.CanonicalExactly`,
  `LockRanges.HazardWitness`). Exclusion between owners and freedom from deadlock do not depend on it.
- fs/locks.c:625 passes its locks to the conflict test in the other order than posix_lock_file. The answers differ
  exactly for unlock requests under a foreign write lock (`LockWaits.TestMatchesGrant`, `LockWaits.UnlockDiffers`), which
  fcntl_getlk refuses.
- The BUG() at ipc/sem.c:926 is reached if and only if a set is removed between the completion of a sleeper by
  update_queue and its running and its slot is still empty then (`SemRuns.BugExactly`, `SemRuns.BugReachable`).
- ipc/sem.c:302-331 goes over the queue once. A sleeper it completes may raise a semaphore that one it has passed was
  waiting for, and nobody tells that one. A vector can be used without such a loss if and only if it lowers a semaphore,
  changes none, cannot go through when all are zero, or cannot sleep when only one is not
  (`SemWakeups.SafeExactly`); waiting for zero and then raising loses wakeups (`SemWakeups.WaitThenRaise`).
- ipc/sem.c:259 subtracts in a short. The total of a semaphore and its promised undos is conserved exactly when the
  entry still fits, and always modulo 65536 (`SemRuns.ApplyTotal`, `SemRuns.LedgerWraps`).
- kernel/fork.c:586 takes a pid long before line 677 links the child, and get_pid reads its answer from last_pid at line
  122 after it has dropped the lock at line 120. Ids stay distinct if and only if no get_pid passes over an id of a child
  not linked yet, which needs a wrap or a group that everyone else has left meanwhile, and none is overtaken before it
  reads: another get_pid has moved last_pid on, to an id that somebody still uses (`Pids.RunExactly`, `Pids.RunCalm`). A
  run for each ends with two processes of one pid (`Pids.SamePidTwice`, `Pids.SamePidAtOnce`). The comment at line 568
  speaks of the kernel lock, but neither do_fork nor sys_fork takes it.
- kernel/resource.c:170 can wrap when aligning. A granted range that alignf did not move respects the minimum exactly
  when the first gap that fits does not wrap (`Resources.AllocateResource`, `Resources.MinimumIgnored`).
- kernel/resource.c:163 ends a gap on the first byte of the next child. A slot found is refused if and only if it ends
  there, although a later gap may have room (`Resources.RefusedExactly`, `Resources.RoomMissed`), and
  kernel/resource.c:174 finds the whole address space too short (`Resources.RoomIsSeen`).
- fs/buffer.c:804 takes a buffer that someone else has just locked for one still in the page's I/O if it carries an old
  label. The page's unlock is lost if and only if that is so at the last completion (`PageIo.UnlockedExactly`,
  `PageIo.StaleLabelLosesUnlock`).
- fs/buffer.c:1697 goes on after a failed get_block, and the page is marked up to date although the comment at 1717 says
  all its buffers are. They are if and only if no lookup failed (`PageIo.MarkedExactly`, `PageIo.NothingToRead`,
  `PageIo.MarkedWithGap`).
- kernel/sched.c: realtime tasks come first as long as the bound on counters stays clear of 1000, as it does up to an
  HZ of 4000; where it does not, a run makes an ordinary task come before one (`Sched.RealtimeFirst`,
  `Sched.FastClockMisranks`).
- kernel/acct.c: on a machine with wider longs the code overflows 16 bits exactly from 2^34 - 2^20 on
  (`CompT.FitsExactly`, `CompT.FirstOverflow`).
- ipc/msg.c:708-725: the comment on negative types says "less than", the code takes types up to and including the
  bound; the model follows the code. The most negative type of all is its own negation in 32 bits, so it wants no
  message (`MessageQueues.AskingMeans`).

## Model

| member | source | states |
|---|---|---|
| `RecordLocks.SetLockSound` | fs/locks.c:891-1005 | For every list, sorted or not: after posix_lock_file every lock is an untouched one or covers only bytes its owner asked for or already held in that kind; every other owner holds exactly what it held; and every old lock still stands at least as wide under the same structure, or its waiters were woken |
| `RecordLocks.RunGrounded` | fs/locks.c:900-979 | The invariant of the second while loop behind it: what the pass has produced so far is justified lock by lock, whatever mixture of merge, replace and trim it took |
| `RecordLocks.SetLockIds` | fs/locks.c:853-860 | No file_lock structure is linked more often than before, apart from the two allocated in advance, each at most once |
| `RecordLocks.SetLockNoUnlock` | fs/locks.c:981-988 | An unlock request never leaves an F_UNLCK entry in the list |
| `RecordLocks.SetLockGrants` | fs/locks.c:891-1005 | Whatever the state of the list, afterwards the owner holds every requested byte in the requested kind |
| `RecordLocks.RefusedExactly` | fs/locks.c:525-559 | A request is refused exactly when granting it would put some byte under two owners, one of them a writer: both directions, for every list of proper ranges that is exclusive, canonical or not |
| `RecordLocks.WakesOwnOnly` | fs/locks.c:920-1003 | A request wakes only those who wait for a lock of its own owner |
| `LockRanges.GroupEdited` | fs/locks.c:900-1005 | One sorted group of one owner: it stays sorted, disjoint and merged, and each byte of the request gets the requested kind (none for unlock) while every other byte keeps its own |
| `LockRanges.SetLockCanonical` | fs/locks.c:891-1005 | On a list grouped by owner with each group sorted, disjoint and merged, a request that is not the hazard keeps that form and overwrites exactly the requested bytes of its owner |
| `LockRanges.CanonicalExactly` | fs/locks.c:906-912 | The form is kept if and only if the request does not run to OFFSET_MAX while an own lock of its kind touches or overlaps it: there `fl_end + 1` wraps and the pass stops too early |
| `LockRanges.HazardMisplaces` | fs/locks.c:911-912 | Every such request leaves two locks of one owner out of order |
| `LockRanges.HazardWitness` | fs/locks.c:911-912 | A concrete one: byte 12 ends up under a read and a write lock of the same owner |
| `LockRanges.OneKindPerByte` | fs/locks.c:900-979 | In a sorted group a byte has at most one kind, so the map from byte to kind is well defined |
| `InodeLocks.Inode.FindBlocker` | fs/locks.c:863-881 | Returns the first lock of the list that conflicts with the request; none exactly when no lock stops it, which RefusedExactly and RunRefuses say in bytes |
| `InodeLocks.Inode.TestLock` | fs/locks.c:616-631 | Returns the first lock that conflicts with its arguments swapped; for read and write requests that is the first one that would block posix_lock_file, and there is none exactly when no lock stops the request |
| `InodeLocks.Inode.SkipOtherOwners` | fs/locks.c:893-898 | The first while loop stops at the first lock of the owner |
| `InodeLocks.Inode.PassGroup` | fs/locks.c:900-979 | The second while loop with its variables `before`, `left`, `right`, `added` and `caller` ends in the state the specification of the pass gives |
| `InodeLocks.Inode.Complete` | fs/locks.c:981-1005 | Insertion, split and trim after the loops give the specified list and set of woken locks |
| `InodeLocks.Inode.SetPosixLock` | fs/locks.c:891-1005 | The list edited in place: nothing unjustified is granted, the canonical form is kept exactly when the request is not the hazard, and then exactly the requested bytes are overwritten |
| `LockWaits.DeadlockExactly` | fs/locks.c:863-881 | Blocking on a lock closes a cycle in the wait-for graph if and only if its owner already waits, directly or not, for the caller, which is when -EDEADLK is returned |
| `LockWaits.PosixLocksDeadlock` | fs/locks.c:647-673 | Terminates on every reachable state and answers yes exactly when the blocker's owner reaches the caller in the wait-for graph |
| `LockWaits.GrantInv` | fs/locks.c:891-1005 | A granted request keeps the graph acyclic, bytes exclusive, structures linked once, and every sleeper waiting for a lock that still conflicts with it |
| `LockWaits.SleepInv` | fs/locks.c:398-424 | So does going to sleep on the first conflicting lock after the deadlock check |
| `LockWaits.WakeInv` | fs/locks.c:598-605 | So does waking, by the blocker or by a signal |
| `LockWaits.CloseInv` | fs/locks.c:1640-1668 | So does dropping all locks of a files structure on close |
| `LockWaits.RunInv` | fs/locks.c:841-1016 | All of that holds in every state of every run over any number of inodes and owners |
| `LockWaits.RunSafe` | fs/locks.c:545-559 | In every state of every run: no cycle in the wait-for graph, no byte held by two owners of which one has a write lock, every sleeper still justly blocked, and no structure linked twice into a list |
| `LockWaits.TestMatchesGrant` | fs/locks.c:616-631 | posix_test_lock finds nothing exactly when posix_lock_file would grant, for every request but an unlock under a foreign write lock, for which alone they differ |
| `LockWaits.UnlockDiffers` | fs/locks.c:616-631 | Such a request: granted by posix_lock_file, reported as blocked by posix_test_lock |
| `LockWaits.RunMeaning` | fs/locks.c:891-1005 | After every run without the hazard the lists are canonical and mean exactly the map (inode, owner, byte) to kind obtained by letting each granted request overwrite its bytes and each close clear its owner's |
| `LockWaits.RunRefuses` | fs/locks.c:525-559 | After any run a request is let through if and only if no byte of it was last put, by the grants and closes so far, under a lock of another owner that it may not share: two read locks may, any other two may not |
| `LockWaits.StepWaiters` | fs/locks.c:435-503 | Exactly who is asleep after each step: a grant wakes those whose blocker it edited, a close those whose blocker it dropped, a waiter may leave alone, and nobody else stops waiting |
| `SemVectors.AppliedExactly` | ipc/sem.c:241-299 | The trial succeeds exactly when every operation passes on the values left by the ones before it: a wait for zero finds zero, any other stays within 0 to SEMVMX |
| `SemVectors.StopsAt` | ipc/sem.c:262-297 | Otherwise the first operation that does not pass decides: -ERANGE exactly for an overflow, sleep exactly if it may wait, else -EAGAIN |
| `SemVectors.ApplyOps` | ipc/sem.c:249-265 | The first loop stops with the right answer, having applied exactly the operations before the one that stopped it to the values and to the undo ledger |
| `SemVectors.UndoOps` | ipc/sem.c:287-296 | The loop at `undo` takes every value and every 16-bit ledger entry back to where it was, from any point the first loop can stop at |
| `SemVectors.TryAtomicSemop` | ipc/sem.c:241-299 | The whole vector is applied, or every semval and semadj is as before; the answer is that of the trial |
| `SemSets.LeavesQueue` | ipc/sem.c:893-958 | However a sleeper leaves the queue, the tally of calls against applied vectors stays right |
| `SemSets.UpdateAccounted` | ipc/sem.c:304-330 | A pass of update_queue over any queue keeps the tally: completed sleepers applied once, failed and waiting ones never |
| `SemSets.NextAccounted` | ipc/sem.c:893-958 | Every step keeps it: first attempts, retries, signals, removal, SETVAL, SETALL and exits |
| `SemSets.UpdateSane` | ipc/sem.c:304-330 | A pass keeps semvals non-negative, ledgers 16-bit, one per process, and all of them equal to what the history replays to |
| `SemSets.AppliedNonNegative` | ipc/sem.c:257-264 | A vector that succeeds leaves no semaphore negative |
| `SemRuns.ExactlyOnce` | ipc/sem.c:826-964 | Over every interleaving, a semop call that returned 0 has had its vector applied exactly once and one that returned an error never |
| `SemRuns.ApplyTotal` | ipc/sem.c:257-259 | One applied vector changes semval plus the sum of all semadj by its operations without SEM_UNDO exactly when the ledger entry still fits a short, and always modulo 65536 |
| `SemRuns.LedgerWraps` | ipc/sem.c:257-259 | A run of three calls after which the total is 65536 more than the history accounts for |
| `SemRuns.ExitTotal` | ipc/sem.c:1017-1033 | sem_exit keeps that total exactly when no clamp at zero happens, and never lowers it |
| `SemRuns.SetConserves` | ipc/sem.c:622-635 | SETVAL makes the total of that semaphore the value set and leaves the others |
| `SemRuns.SetAllConserves` | ipc/sem.c:577-581 | SETALL makes every total the value set |
| `SemRuns.RunReplays` | ipc/sem.c:241-330 | In every state of every run of a live set: values and ledgers are exactly what the finished vectors, settings and exits replay to, no value is negative, and the total is what the history accounts for, exactly if the ledger entries stay shorts and modulo 65536 otherwise |
| `SemRuns.BugExactly` | ipc/sem.c:923-926 | A completed sleeper that runs again hits the BUG() if and only if the set was removed between its completion by update_queue and its running and by the events since no other set has its slot |
| `SemRuns.BugReachable` | ipc/sem.c:923-926 | A run of five steps that gets there |
| `SemWakeups.UpdateServes` | ipc/sem.c:302-331 | A pass of update_queue serves the first sleeper that can go on and was not told before: it is told to try again if its vector lowers a semaphore, and else leaves the queue with the answer its trial gives |
| `SemWakeups.NextServes` | ipc/sem.c:943-960 | So does every step that changes semaphores, whichever it is: a semop or a retry with an operation other than a wait for zero, SETVAL, SETALL, or an exit with its adjustments |
| `SemAnswers.RunKept` | ipc/sem.c:893-960 | In every state of every run: calls that only wait for zero stand before the others on the queue, the last to come first, and the others in the order they came; every sleeper has slept for a reason; and every answer is one its call and the events deserve, -EAGAIN only with IPC_NOWAIT, -EINTR only after running on the queue, -EIDRM only after a removal |
| `SemWakeups.TameOrRisky` | ipc/sem.c:312-328 | A sleeper's vector that goes through lowers a semaphore or changes none, unless it is risky: it only raises, goes through when all semaphores are zero, and sleeps when one is not |
| `SemWakeups.NoneLost` | ipc/sem.c:302-331 | In every run without a risky vector, whenever some sleeper could go on, a sleeper that can has been told to try again |
| `SemWakeups.RiskyLoses` | ipc/sem.c:302-331 | Every risky vector has a run, beside one vector that is not risky, that ends with a sleeper that could go on and nobody told: the pass does not come back to those it found stuck |
| `SemWakeups.SafeExactly` | ipc/sem.c:302-331 | A vector can be used beside any that lower or change nothing without a wakeup ever being lost if and only if it is not risky |
| `SemWakeups.WaitThenRaise` | ipc/sem.c:302-331 | Waiting for zero and then raising is risky |
| `SemAnswers.NextPresent` | ipc/sem.c:893-960 | No step forgets a call: it sleeps, has an answer waiting or has returned; one that was told to try again stays queued until it runs or the set is removed; and no step tells more than one |
| `SemArrays.SemArray.TryVector` | ipc/sem.c:241-299 | try_atomic_semop on the set in place equals the trial and, if kept, the application to the set and the caller's ledger |
| `SemArrays.SemArray.UpdatePending` | ipc/sem.c:304-330 | The loop that unlinks sleepers while walking the queue computes the specified pass: order of the queue, completion on the spot, stop at the first that could decrease |
| `SemArrays.SemArray.LeaveQueue` | ipc/sem.c:315-327 | One turn that takes a sleeper off the queue leaves the rest of the pass as it was |
| `SemArrays.SemArray.AdjustOnExit` | ipc/sem.c:1027-1033 | The adjustments at exit, each clamped at zero |
| `SemArrays.SemArray.constructor` | ipc/sem.c:112-148 | A new set is all zeros with no ledgers and no sleepers |
| `MessageQueues.FindMessage` | ipc/msg.c:749-764 | The search loop, which narrows the type it looks for as it goes, returns the first wanted message, or for a negative type the first message of the least type |
| `MessageQueues.ChoiceUnique` | ipc/msg.c:749-764 | That description determines the message |
| `MessageQueues.AskingMeans` | ipc/msg.c:708-725 | What a msgrcv call wants by its msgtyp and MSG_EXCEPT, for every 32-bit msgtyp: any message, types up to and including a bound, one type, or any other type; the bound of the most negative msgtyp overflows and nothing is wanted |
| `MessageQueues.OfferSplits` | ipc/msg.c:600-624 | pipelined_send gives the message only to a receiver that wants and can hold it, fails only receivers that want it and cannot, and if nobody takes it no receiver left on the list wants it |
| `MessageQueues.SendInv` | ipc/msg.c:686-693 | Sending keeps: each accepted message in exactly one place, each receiver in one place, no waiting receiver wants a queued message, counters equal to the queue |
| `MessageQueues.TakeInv` | ipc/msg.c:765-800 | So does receiving |
| `MessageQueues.RemoveInv` | ipc/msg.c:281-301 | So does removal of the queue: queued messages are freed, waiting receivers fail, handed messages stay with their receivers |
| `MessageQueues.NextInv` | ipc/msg.c:600-838 | So does every step, including a signal or IPC_SET that arrives between hand-off and the receiver's running, and a sender that runs again to find permission withdrawn or its queue removed and the slot in new use |
| `MessageQueues.RunSafe` | ipc/msg.c:686-838 | Over every run: no accepted message is lost or duplicated, whoever has one asked for it and can hold it, no call is answered twice, no waiting receiver matches a queued message, no unwoken sender could send, and q_cbytes and q_qnum are the sum and count of the queue |
| `MessageQueues.ReceiverKept` | ipc/msg.c:798-838 | A msgrcv call once made is in exactly one place in every later state: waiting, off the list with a message or an error, or answered |
| `MessageQueues.MsgQueue.PipelinedSend` | ipc/msg.c:600-624 | The loop that unlinks receivers while walking computes the specified hand-off |
| `MessageQueues.MsgQueue.Deliver` | ipc/msg.c:686-693 | A message with room is handed over or queued, never both, and the counters move only if it is queued |
| `MessageAnswers.ReceiveMeans` | ipc/msg.c:747-804 | msgrcv takes the message its request chooses and wakes the senders, or answers -E2BIG just if that one is larger than its buffer and MSG_NOERROR is not set; with nothing wanted in the queue it sleeps at the end of the line, or with IPC_NOWAIT answers -ENOMSG |
| `MessageAnswers.SendMeans` | ipc/msg.c:659-684 | msgsnd accepts a message exactly when the bytes and the number of messages queued leave room for it; otherwise it sleeps, or with IPC_NOWAIT answers -EAGAIN |
| `MessageAnswers.OfferExactly` | ipc/msg.c:600-624 | Of the sleeping receivers the first in line that wants the message and can hold it gets it; those before it that want it get -E2BIG; all others keep their places |
| `MessageAnswers.NextAnswers` | ipc/msg.c:626-838 | Every step keeps the next row's claim about answers |
| `MessageAnswers.RunAnswers` | ipc/msg.c:626-838 | In every state of every run: only calls without IPC_NOWAIT sleep; -ENOMSG and -EAGAIN go only to calls with it; -E2BIG only to a call without MSG_NOERROR that wanted an accepted message larger than its buffer; -EINTR, -EACCES and -EIDRM only after a signal, a withdrawn permission and a removal; and the messages stand in the order in which they were accepted |
| `MessageAnswers.NextLine` | ipc/msg.c:600-838 | No step lets a sleeping receiver pass another, and one that goes to sleep goes to the end |
| `Dentries.GetWf` | fs/dcache.c:227-236 | Taking a reference keeps the whole invariant: d_count = outside references + children, dentry_unused = the dentries with count zero, nr_unused = its length, each hashed dentry in its own bucket, no loops |
| `Dentries.AllocWf` | fs/dcache.c:627-631 | So does the locked part of d_alloc, which makes the reference taken on the parent before that of the child |
| `Dentries.AllocRootWf` | fs/dcache.c:673-686 | So does d_alloc_root |
| `Dentries.RehashWf` | fs/dcache.c:845-851 | So does d_rehash of an unhashed dentry |
| `Dentries.UnhashWf` | include/linux/dcache.h:138-144 | So does d_drop of a referenced dentry |
| `Dentries.ReleaseWf` | fs/dcache.c:153-168 | Freeing a dentry with one reference finds no children and keeps the invariant, its parent now holding one reference to be put |
| `Dentries.PutWf` | fs/dcache.c:123-169 | So does the whole cascade of dput |
| `Dentries.PutExactly` | fs/dcache.c:123-169 | dput frees exactly the chain from the dentry upwards in which each has only the reference being put and is unhashed or unwanted, takes one outside reference from the first and none from any other, and leaves parents, names and hashing of the rest alone |
| `DentryMoves.MoveWf` | fs/dcache.c:909-938 | d_move keeps the invariant, every count, and who is a root; the moved dentry takes parent, name and hash state of the target, which ends unhashed under the old parent |
| `DentryMoves.MoveHashed` | fs/dcache.c:909-923 | Taking the target's place in its chain puts the moved dentry in the bucket of its new parent and hash, for any two dentries |
| `DentryMoves.LoopFreeExactly` | fs/namei.c:1698-1701 | For any two dentries that are not roots, a move keeps the tree loop-free with the same roots if and only if neither lies below the other |
| `DentryMoves.MoveUproots` | fs/namei.c:1698-1701 | What goes wrong otherwise: the source becomes its own parent if the target is its child, and else comes to lie on a loop |
| `DentryMoves.PruneSafe` | fs/dcache.c:331-355 | prune_dcache keeps the invariant, frees no dentry with an outside reference, and with count 0 leaves no unused dentry |
| `DentryMoves.PruneCounts` | fs/dcache.c:331-355 | With a count of n and so many unused dentries, the n longest unused go, and the others stay in their order |
| `DentryMoves.PruneOneSafe` | fs/dcache.c:304-316 | One turn of it keeps the invariant and shrinks the cache, so the loop ends |
| `DentryMoves.FallenRefs` | fs/dcache.c:123-169 | What the cascade frees had no outside reference but the one being put |
| `Dcache.DentryCache.DgetLocked` | fs/dcache.c:227-236 | In place: the count rises and a dentry that had none leaves dentry_unused |
| `Dcache.DentryCache.DDrop` | include/linux/dcache.h:138-144 | In place: the dentry leaves its chain |
| `Dcache.DentryCache.Dput` | fs/dcache.c:123-169 | The hand-made tail recursion terminates and computes the specified cascade |
| `Dcache.DentryCache.KillIt` | fs/dcache.c:153-168 | In place: unhash, unlink from the parent and free |
| `Dcache.DentryCache.PruneDcache` | fs/dcache.c:331-355 | The loop terminates and computes the specified pruning |
| `Dcache.DentryCache.PruneOldest` | fs/dcache.c:338-350 | One turn takes the oldest unused dentry |
| `Dcache.DentryCache.DLookup` | fs/dcache.c:706-740 | Looking at one chain, it finds a dentry exactly when some hashed dentry anywhere has this parent and name, and returns it referenced: one more reference and count on it, whether it was in use or not, and every other dentry unchanged |
| `Dcache.DentryCache.IsSubdir` | fs/dcache.c:1087-1104 | Terminates on a loop-free tree and answers whether the first lies below the second or is it |
| `Dcache.DentryCache.RenameDir` | fs/namei.c:1698-1731 | A rename that is_subdir lets pass and the filesystem accepts, which it must not for a target above the source, is the specified move and keeps the invariant; any other changes nothing |
| `Dcache.DentryCache.DMove` | fs/dcache.c:909-938 | The hash chains and then the lists and fields switched in place are the specified move, also when both dentries have one parent |
| `Dcache.DentryCache.SwitchChains` | fs/dcache.c:917-923 | The dentry leaves its chain and takes the target's place in the target's |
| `Dcache.DentryCache.SwitchPlaces` | fs/dcache.c:925-936 | Unlinking both, switching parents, names and hashes, and linking both again gives every dentry what the specified move gives it |
| `Dcache.StepsAt` | fs/dcache.c:925-936 | The same for one dentry, from what each of the five list operations does to it |
| `Dcache.PutIsTurns` | fs/dcache.c:123-169 | The whole of dput is one turn on the dentry and then dput of the parent it leaves a reference to |
| `Dcache.PruneOneIsTurns` | fs/dcache.c:338-350 | A turn of prune_dcache is freeing the oldest unused dentry and then dput of its parent |
| `Dcache.NextWf` | fs/dcache.c:123-355 | Every operation keeps the invariant, with each turn of dput and prune_dcache an operation of its own because they drop dcache_lock before going on to the parent |
| `Dcache.NextRoots` | fs/dcache.c:123-938 | No operation makes or unmakes a root |
| `Dcache.HeldStays` | fs/dcache.c:123-355 | However the turns interleave, a dentry with an outside reference is freed only by a turn of dput that puts its last one, and then has no children |
| `Dcache.RunWf` | fs/dcache.c:123-938 | The invariant holds in every state of every run, whatever comes between the turns of a cascade, and no step changes who is a root; so every run of directory renames keeps the tree loop-free |
| `DentryRuns.NextRefs` | fs/dcache.c:123-355 | Every step changes the outside references of a dentry by those taken, put, handed to a new child, or left by a freed one |
| `DentryRuns.RunRefs` | fs/dcache.c:123-355 | Over every run the outside references of a dentry are those taken less those put, so one taken more often than put is still there |
| `DentryRuns.NextLives` | fs/dcache.c:123-355 | A dentry is there after a step if and only if the step allocates it, or it was there and the step neither puts its last reference, with no children and unhashed or unwanted, nor prunes it as the oldest unused |
| `DentryRuns.NextBinds` | fs/dcache.c:591-940 | Every step gives each dentry the parent, name and hashing that its events say, a rename handing over the target's |
| `DentryRuns.RunBinds` | fs/dcache.c:706-940 | Over every run each dentry has the parent and name, and is hashed or not, as the events since it was allocated say, so that d_lookup finds exactly what they have put under a name |
| `DentryRuns.NextLatest` | fs/dcache.c:153-160 | Every step keeps the order of the next row |
| `DentryRuns.RunLatest` | fs/dcache.c:331-355 | Over every run dentry_unused is in the order of the last put, and a pruning turn frees the dentry that has been unused the longest |
| `Resources.RequestExactly` | kernel/resource.c:67-93 | __request_resource links a resource exactly when its range is proper, lies in the root and meets no child, and then the children are still sorted, disjoint and inside |
| `Resources.RequestResource` | kernel/resource.c:67-93 | The loop over the sibling links computes that |
| `Resources.BusyDisjoint` | kernel/resource.c:217-250 | Any two busy regions anywhere in a well-formed tree are apart |
| `Resources.GrantedExactly` | kernel/resource.c:217-250 | __request_region grants exactly the ranges inside the root that meet no busy region anywhere and cut no other resource |
| `Resources.RegionWf` | kernel/resource.c:217-250 | A granted region keeps the tree well formed at every level |
| `Resources.ReleaseUndoesRequest` | kernel/resource.c:265-292 | Releasing a region just granted gives back the very same tree |
| `Resources.RegionAdds` | kernel/resource.c:213-248 | Granting a region makes exactly it busy and leaves every other busy region of the tree as it was |
| `Resources.ReleaseExactly` | kernel/resource.c:265-292 | __release_region succeeds if and only if some busy region of the tree has exactly that range, and then it alone stops being busy |
| `Resources.UnlinkUndoesRequest` | kernel/resource.c:95-112 | So does release_resource, which unlinks the region from the node it hangs under |
| `Resources.RequestIoRegion` | kernel/resource.c:217-250 | The descending loop computes the specified request |
| `Resources.ReleaseIoRegion` | kernel/resource.c:265-292 | The descending loop computes the specified release |
| `Resources.CheckRegion` | kernel/resource.c:252-263 | Requests the region, unlinks it again with release_resource, leaves the tree as it was and says whether the region would be refused |
| `Resources.FindResource` | kernel/resource.c:151-183 | Returns the first gap in which the size fits after aligning and after alignf, by 32-bit arithmetic, or fails only if there is none |
| `Resources.AllocateResource` | kernel/resource.c:188-203 | A granted range starts where aligning and alignf put the first gap that fits, lies in the root and apart from its siblings; for a positive size it has that size and ends by max; unless alignf moved it, it is aligned and starts at min or above exactly when aligning that gap did not wrap; size 0 is granted only as the whole address space; it fails exactly if no gap fits or the first does not pass the second check |
| `Resources.MinimumIgnored` | kernel/resource.c:170-176 | A concrete wish that is granted at address 0, below its min |
| `Resources.RoomIsSeen` | kernel/resource.c:160-183 | If some aligned range that meets the wish is free and does not start on the last byte, find_resource sees it in its gap, if and only if the slot there does not start at 0 with the gap ending at the top, where the length overflows |
| `Resources.RefusedExactly` | kernel/resource.c:162-176 | Where nothing wraps, the slot of a gap that fits is refused by the second check if and only if its last byte is the first of the next child, which the search counts as free |
| `Resources.RoomMissed` | kernel/resource.c:162-203 | A concrete wish that is refused so although a later gap has room |
| `Resources.StepWf` | kernel/resource.c:95-112 | Each request or release keeps the tree well formed |
| `Resources.RunWf` | kernel/resource.c:67-292 | After every run that nests nothing under a busy node the tree is nested, sorted and disjoint and all busy regions in it are pairwise apart |
| `Pids.PidAllocator.Scan` | kernel/fork.c:100-117 | One pass over the tasks says whether last_pid is in use and, if not, leaves in next_safe the least used id above it, or PID_MAX |
| `Pids.PidAllocator.Advance` | kernel/fork.c:90-120 | The part of get_pid under lastpid_lock: with some id ahead free it terminates; below next_safe it moves last_pid to the next id unseen, else to the first id in cyclic order that no task uses as pid, pgrp or session, with next_safe the least used one above; with no used id between last_pid and next_safe both are that first free id |
| `Pids.PidAllocator.GetPid` | kernel/fork.c:82-123 | When nothing comes between its unlock and its reading of last_pid, it answers that first free id |
| `Pids.FirstFreeUnique` | kernel/fork.c:82-123 | There is only one such id |
| `Pids.FullHasNoFirst` | kernel/fork.c:99-117 | There is a first free id only if some id above last_pid or from 300 to PID_MAX-1 is free; otherwise the scan would not end |
| `Pids.ClaimExactly` | kernel/fork.c:90-120 | The locked part of one get_pid keeps all used ids out of the gap, the pids on the list distinct and the pid of each child not linked yet out of every other process's pid, pgrp and session, if and only if the ids it claims include none of a child not linked yet |
| `Pids.AnswerExactly` | kernel/fork.c:120-122 | Reading last_pid after the unlock keeps the same if and only if the call was not overtaken: last_pid is still the id it was moved to for this call, or at one that no other process uses |
| `Pids.QuietInv` | kernel/fork.c:560-680 | Copying the parent, linking a child, a fork that fails before or after get_pid, exits and changes of group or session keep it |
| `Pids.RunExactly` | kernel/fork.c:560-680 | Over every run, with the copy of the parent, the locked part of get_pid, the reading of its answer and SET_LINKS apart, all is well up to a point if and only if no get_pid before it passed over an id of a process being forked and none was overtaken before it read its answer |
| `Pids.CalmIsSafe` | kernel/fork.c:82-123 | A get_pid passes over nothing and is not overtaken when none overlaps another, none wraps while a child with a pid is not linked, and each child's group and session are in use on the list or lie behind |
| `Pids.RunCalm` | kernel/fork.c:82-123 | So all is well over every run of which this is true throughout |
| `Pids.WrapPasses` | kernel/fork.c:91-97 | A reachable state in which a wrap passes over id 500, handed out and not yet linked |
| `Pids.SamePidTwice` | kernel/fork.c:586-680 | From there a run that ends with two live processes of pid 500 |
| `Pids.OverlapReachable` | kernel/fork.c:120-122 | A reachable state in which all is well and two get_pids have moved last_pid to 2 and to 3 and not read it yet, so the first is overtaken |
| `Pids.OvertakenByFailure` | kernel/fork.c:120-122 | From there too, a run in which the second fork fails after reading 3 and the first then reads 3: overtaken by an id that is free again, all is well |
| `Pids.SamePidAtOnce` | kernel/fork.c:120-122 | From there a run that ends with two live processes of pid 3, without a wrap and with no id passed over |
| `Sched.RecalculatedProper` | kernel/sched.c:658-668 | Recalculation keeps every counter within the bound and leaves none at zero |
| `Sched.NextProper` | kernel/sched.c:679-684 | So do fork, reaping, ticks, refills and changes of nice |
| `Sched.RunProper` | kernel/exit.c:61-63 | Every counter stays within one fixed bound over every run |
| `Sched.SliceLength` | kernel/sched.c:50-65 | The slice of a task at nice 0 is around 50 milliseconds, between 25 and 60, exactly for an HZ from 100 to 3240 |
| `Sched.NicerIsShorter` | kernel/sched.c:53-65 | A nicer task never has a longer slice |
| `Sched.IdleApproaches` | kernel/sched.c:663-664 | Each recalculation halves what a task that does not run is short of two slices less a tick, which it never passes |
| `Sched.ForkShares` | kernel/fork.c:658-659 | A fork preserves the sum of all counters and splits the slice to within a tick |
| `Sched.ReapReturns` | kernel/exit.c:61-63 | Reaping returns the child's slice but for what is over the maximum |
| `Sched.MaxIsFifth` | kernel/exit.c:61-63 | The maximum is a fifth of a second |
| `Sched.TickTakes` | kernel/timer.c:586-587 | A tick takes one from a task that has any, and nothing else |
| `Sched.NextNice` | kernel/sched.c:658-668 | No other event changes what makes a task's slice |
| `Sched.GoodnessRange` | kernel/sched.c:137-187 | goodness is at least -1, is 0 exactly for an exhausted ordinary task that does not yield, and below a fixed bound for ordinary and yielding ones |
| `Sched.PrefersExactly` | kernel/sched.c:137-187 | Goodness ranks tasks by their fields alone: a yielding task last; a realtime one before an ordinary one, as long as the bound stays clear of 1000, and by priority among its like; an ordinary one by counter less nice plus 15 on its last processor plus 1 in the same or no address space, and behind all of those once its slice is used up |
| `Sched.MoreNeverLoses` | kernel/sched.c:137-187 | At equal other fields a task with more of its slice, or less nice, never loses |
| `Sched.RealtimeFirst` | kernel/sched.c:137-187 | If a realtime task that does not yield can be scheduled, the task picked is a realtime one of the highest priority, as long as the bound on counters keeps ordinary tasks below 1000 |
| `Sched.FastClockMisranks` | kernel/sched.c:137-187 | For every HZ where it does not, and whatever realtime task of priority 0 there is, a run of forks, a recalculation and exits makes an ordinary task come before it |
| `Sched.OutrankedUpTo4000` | kernel/sched.c:137-187 | It does for every HZ up to 4000 |
| `Sched.NoSecondRecalculation` | kernel/sched.c:578-580 | After a recalculation the best goodness is not 0 |
| `Sched.SpentExactly` | kernel/sched.c:578-580 | The best goodness is 0 exactly if every candidate yields or is an ordinary task with its slice used up, and not all yield |
| `Sched.Scheduler.Select` | kernel/sched.c:559-576 | The loop finds a maximum of goodness, prev first on ties, then queue order |
| `Sched.Scheduler.Prepare` | kernel/sched.c:679-684 | An exhausted round-robin task is refilled and moved last; a task that no longer runs leaves the queue |
| `Sched.Scheduler.RecalculateCounters` | kernel/sched.c:658-668 | The loop over all tasks recalculates each |
| `Sched.Scheduler.Pick` | kernel/sched.c:559-580 | Recalculates once exactly if every candidate yields or is an ordinary task with its slice used up, and not all yield; then picks a candidate to which no other is preferred by its fields and which is preferred to every one before it, prev first and then queue order; a realtime task of the highest priority if there is one, as long as the bound stays clear of 1000 |
| `PageIo.LastRelease` | fs/buffer.c:799-810 | A completion finds no other buffer busy if and only if it is the last of the I/O and nobody else holds a buffer of the page under a stale async label |
| `PageIo.NextInv` | fs/buffer.c:772-832 | Every step keeps the invariant, with each completion split at its lock into three steps that interleave with all others and with the submitter |
| `PageIo.RunInv` | fs/buffer.c:1526-1540 | It holds in every state of every run of one page I/O |
| `PageIo.UnlockedOnce` | fs/buffer.c:772-832 | At every point of every run the page has been unlocked at most once, only with all its async buffers released and completed, and a completion has marked it up to date exactly if the page had no error before and none of them failed |
| `PageIo.UnlockedExactly` | fs/buffer.c:799-810 | A run in which everything is submitted and nothing is in flight has unlocked the page if and only if, when the last buffer was released, nobody else had a buffer of the page locked under a stale async label |
| `PageIo.StaleLabelLosesUnlock` | drivers/block/ll_rw_blk.c:1054-1062 | A run that loses the unlock, because ll_rw_block locks a buffer before it replaces the label |
| `PageIo.EagerSubmitUnlocksTwice` | fs/buffer.c:1726-1736 | A run of the order that submits each buffer as soon as it is locked: the page is unlocked with the second buffer still to come, and then again |
| `PageIo.MarkedExactly` | fs/buffer.c:1691-1714 | A page read that its completion marks up to date has all buffers up to date if and only if no get_block failed for a buffer that needed it |
| `PageIo.MarkedWithGap` | fs/buffer.c:1697-1698 | A run that marks the page up to date with a buffer that is not |
| `PageIo.NothingToRead` | fs/buffer.c:1716-1724 | The same for a page marked at once because no buffer was picked |
| `PageIo.Page.PickBuffers` | fs/buffer.c:1691-1714 | Picks in order the buffers to read: mapped and not up to date; what it leaves out is up to date or was skipped after a failed get_block |
| `PageIo.Page.PickOne` | fs/buffer.c:1692-1713 | One turn of it: read if mapped, or found by get_block, and not up to date; a hole or a block beyond the end of the file is zero-filled and marked up to date; a failed get_block leaves it alone |
| `PageIo.Page.LockBuffers` | fs/buffer.c:1726-1732 | Stage two locks and labels exactly the listed buffers |
| `PageIo.Page.ReleaseBuffer` | fs/buffer.c:799-810 | Under the lock: unlocks the buffer and says whether no other is locked for async I/O |
| `PageIo.Page.OthersIdle` | fs/buffer.c:802-807 | The walk round the ring looks at every other buffer |
| `PageIo.Page.EndBufferIoAsync` | fs/buffer.c:772-832 | A completion from end to end: page error recorded, page unlocked just if nobody else is busy, marked up to date just if there is no error |
| `Pipes.Ring.Read` | fs/pipe.c:85-121 | Takes the oldest bytes, as many as there are and asked for, across the wrap; if fewer than asked the pipe is empty, so the BUG() after it is not reached |
| `Pipes.Ring.Write` | fs/pipe.c:183-203 | Appends as much as fits, across the wrap |
| `Pipes.Ring.CopyIn` | fs/pipe.c:185-200 | One copy into the ring appends its bytes and disturbs no other |
| `Pipes.ViewAppend` | fs/pipe.c:185-200 | Writing behind the end of a wrapped ring appends to what it holds |
| `Pipes.NextFaithful` | fs/pipe.c:85-203 | Every step keeps bytes read + bytes in the ring = bytes written, in order |
| `Pipes.NextAtomic` | fs/pipe.c:159-203 | Every step keeps writes of at most PIPE_BUF bytes whole |
| `Pipes.NoShortCopy` | fs/pipe.c:85-203 | A writer stops copying only when it is done or the ring is full, and a reader only when it has all it asked for or the ring is empty |
| `Pipes.WaitsOnly` | fs/pipe.c:159-181 | A writer waits only while an atomic write does not fit as a whole, or for any other the ring is full |
| `Pipes.NeverStuck` | fs/pipe.c:159-181 | A writer with bytes left can copy, or there is something to read |
| `Pipes.RunInv` | fs/pipe.c:85-225 | Both, and the order of each writer's bytes, hold over every interleaving |
| `Pipes.SmallIsOnePiece` | fs/pipe.c:159-203 | The same for one state: where the piece of a small write is |
| `Pipes.RunStream` | fs/pipe.c:85-225 | For every interleaving of readers and writers: what was read followed by what is in the ring is what was written; each writer's bytes appear in order; a write of at most PIPE_BUF bytes that entered the stream is one piece of it, at a known place, and nothing else in the stream is from that writer; the ring never overflows; and what a writer has written and has still to write is what it was called with |
| `LogRing.Log.Append` | kernel/printk.c:285-293 | One more character of the stream; the ring still holds the last LOG_BUF_LEN positions |
| `LogRing.Log.Printk` | kernel/printk.c:285-299 | A message extends the stream by exactly itself; unread text is dropped only when the ring is full |
| `LogRing.Log.Read` | kernel/printk.c:136-163 | do_syslog 2 with anything happening between characters: it hands over stream characters at increasing positions, and with no other reader skips one only if it was overwritten; a short count means the log is empty |
| `LogRing.Log.ReadAll` | kernel/printk.c:164-212 | do_syslog 3 and 4 with anything happening between characters: the user buffer starts with exactly the returned number of characters of the stream before the position found at the start, fewer than possible only if the next one back had been overwritten; nothing beyond is touched |
| `LogRing.Log.CopyBack` | kernel/printk.c:192-200 | The backward copy never takes an overwritten character |
| `LogRing.Log.ShiftDown` | kernel/printk.c:203-210 | The correction moves the copied part to the front |
| `LogRing.Log.Clear` | kernel/printk.c:213-217 | do_syslog 5 clears without touching the unread text |
| `ExecArgs.FitsExactly` | fs/exec.c:182-198 | copy_strings succeeds, memory permitting, exactly when no string is missing and all of them with their NULs fit below p |
| `ExecArgs.StopsWith` | fs/exec.c:186-198 | Otherwise the last string that does not go in decides: -EFAULT if it is missing or there is no room at all, -E2BIG if it is too long |
| `ExecArgs.Binprm.CopyString` | fs/exec.c:197-235 | One string lands directly below the others, whatever page boundaries it crosses, and disturbs none of them; the rest of a new page is cleared |
| `ExecArgs.Binprm.CopyStrings` | fs/exec.c:182-237 | The pages hold the strings in order followed by what they held before, or the error is the one the first failing string from the end calls for |
| `ExecArgs.CopyAll` | fs/exec.c:869-880 | After do_execve's three calls the pages hold the arguments, the environment and the file name, in that order |
| `ExecArgs.Binprm.RemoveArgZero` | fs/exec.c:717-739 | Drops exactly the first string, across page boundaries, and does nothing without arguments |
| `ExecArgs.Binprm.SkipString` | fs/exec.c:724-735 | The loop, which keeps one page mapped at a time, stops just past the first NUL |
| `ExecArgs.CreateAoutTables` | fs/binfmt_aout.c:192-247 | On the i386: argc, the two table addresses and both tables lie below the strings, and each table names exactly the original strings in order and ends in NULL; arg_end and env_end are right |
| `ExecArgs.FillTable` | fs/binfmt_aout.c:228-235 | One of its loops: pointer k points to string k, other words are kept |
| `ExecArgs.StepOver` | fs/binfmt_aout.c:231-233 | Steps just past the NUL |
| `ExecArgs.Count` | fs/exec.c:155-175 | The number of pointers before the first null one, or -E2BIG if there are more than the limit |
| `ExecArgs.ExecTables` | fs/exec.c:832-885 | Counting, packing and parsing together: tables naming exactly the strings given to execve, whenever there are at most 32767 arguments and as many environment strings, all fit and there is memory; -E2BIG beyond those counts; otherwise an error; below the strings the pages hold nothing but zeros |
| `CompT.EncodeCompT` | kernel/acct.c:235-260 | The loop and the rounding carry give the value divided by 8^e to the nearest, half up, for the exponent e the loop stops at |
| `CompT.RoundTrip` | kernel/acct.c:235-260 | Decoding gives a multiple of 8^e at most half of 8^e and one part in 2048 away, and the value itself up to MAXFRACT |
| `CompT.Monotone` | kernel/acct.c:235-260 | A larger value never has a smaller code |
| `CompT.FitsExactly` | kernel/acct.c:253-259 | The code fits 16 bits if and only if the value is below 2^34 - 2^20, so for every 32-bit value |
| `CompT.FirstOverflow` | kernel/acct.c:249-252 | The least value that does not fit, and its code |

## Left out

- FLOCK locks, leases, mandatory locking and lockd: their waiters never pass the deadlock check, so the wait-for graph is claimed for POSIX locks only.
- InodeLocks.Inode.SetPosixLock: the linked list is a sequence split at `before`; the pointers `left`, `right` and `caller` are indices, so aliasing of list nodes is not modelled beyond the identity numbers.
- Allocation failure (-ENOLCK) in posix_lock_file, -ENOMEM and -E2BIG checks at the entry of semop and msgsnd: they return before any state changes.
- sempid, times, permission bits, sequence numbers of ids and /proc output in ipc: separate bookkeeping.
- MessageQueues.FindMessage: message types are at least 1, which msgsnd enforces. Copying message text is not modelled.
- have_submounts, select_parent, shrink_dcache_sb, d_prune_aliases, d_delete and negative dentries: they walk or combine the operations modelled here.
- Dcache.DentryCache.RenameDir: the zombie semaphores, d_unhash and the second dput of the target, mount points and dead directories become the one flag for the filesystem's answer.
- Dentry reference counts in `Dentries` count a directory's children and everything else; who holds the rest is not modelled.
- Resources.FindResource: the alignment is a power of two and alignf changes the start only, as every alignf in the tree does.
- Resources.RequestIoRegion: the tree is a value rebuilt along the path; sibling and parent pointers are not modelled.
- Pids.PidAllocator.Advance: CLONE_PID is left out. With no id ahead free the source would scan forever, so a free one is required.
- Sched.Scheduler.Pick: the run queue does not change during one selection. Interrupts, softirqs and the switch itself are left out.
- PageIo.MarkedExactly: one I/O on the page; others may lock, label and unlock buffers outside it but do not change their up-to-date flags. b_count and the data are not modelled.
- Pipes.Ring.Read: copies to and from user space do not fault. A fault in the second of two copies of a write that wraps leaves part of it in the pipe, so the atomicity of small writes rests on this.
- Opening and closing of pipe ends, O_NONBLOCK results, SIGPIPE and signals: a writer that gives up simply takes no further step.
- LogRing.Log.ReadAll: log positions do not wrap at the width of an unsigned long. The prefix printk puts on a line and the consoles are left out.
- ExecArgs.CreateAoutTables: the i386 layout only. Stack addresses are not bounded below.
- ExecArgs.Binprm.CopyStrings: strings do not change while they are copied and user memory does not fault; a null pointer and p == 0 give -EFAULT as on the i386 (arch/i386/lib/usercopy.c:156-179).
- ExecArgs.ExecTables: the pointer vectors do not change between count and the copy, and opening the file succeeds.
- ExecArgs.Binprm.CopyString: pages are sequences that are replaced, not arrays written in place.
- The rest of the kernel: drivers, memory management, networking, architecture code and the filesystems themselves.
