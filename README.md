# libTLE lock elision, modelled in Dafny

libTLE is a header-only C/C++ library of mutexes that can run their critical
sections as hardware transactions (transactional lock elision). A section
runs elided inside a transaction that reads the fallback lock. After enough
aborts it takes the lock for real. The library has three layers:

- **Primitive locks.** A test-and-set spinlock (`tle/spinlock.h`) and a
  reader/writer spinlock over one 32-bit word (`tle/rwlock.h`).
- **Mutex kinds.** Six kinds (`tle/mutex.h`): null, spin and HTM-eliding
  spin, each in an exclusive and a shared (reader/writer) flavour. Each kind
  has a per-thread handle whose status drives the debug-build protocol
  assertions. Each kind has optional profiling counters (`tle/profile.h`).
- **C++ layer.** Profile wrappers (`tle/profile.hpp`), the
  `mutex_wrapper`/`shared_mutex_wrapper` classes and their handles
  (`tle/mutex.hpp`), and the scoped `unique_lock`/`shared_lock`
  (`tle/lock.hpp`).

The Dafny project follows that structure, one module per header:

| module | file | models |
|---|---|---|
| `Htm` | htm.dfy | TME status bits, `_XABORT_CODE`, the self-abort status, `_XBEGIN_RESTART`, retry limits |
| `Profile` | profile.dfy | the three profile records as classes with 64-bit wrapping counters; the abort classification; consistency over runs of acquisitions |
| `Interference` | interference.dfy | the schedule of writes by other threads that the lock loops consume |
| `Spinlocks` | spinlock.dfy | `libtle_spinlock_t` for x86-64 (free = 1) and for other targets (free = 0) |
| `RwLocks` | rwlock.dfy | `libtle_rwlock_t`: bit 0 active writer, bit 1 pending writer, bits 2 and up reader count |
| `Mutexes` | mutex.dfy | the handle status, the six mutex kinds and their lock/unlock operations |
| `MutexWrappers` | wrappers.dfy | `mutex_wrapper`, `shared_mutex_wrapper`, their `handle_type`s and the `void`-handle specialisation |
| `ScopedLocks` | scoped.dfy | `unique_lock`, `shared_lock`, and a thread's run of `unique_lock` scopes |

How the model stands in for what Dafny cannot execute:

- **Other threads.** A lock word is a field that methods update in place.
  Before each atomic access inside a spin or retry loop, the next value of a
  `rivals` schedule is written to the word; the schedule stands for other
  threads' writes. A loop is required to terminate only when the schedule
  ends on a word from which the operation succeeds. That precondition is
  stated with `LastOr`, which returns the value the word settles at.
- **`_xbegin` and `_xtest`.** `_xbegin` is an oracle: a sequence `begins`
  of the values it returns, one per attempt. `_xtest` after `_xend` is the
  boolean `nested`. An elided section that reads the lock held cancels
  itself. It then ends with the status that `tcancel #65535` produces: the
  explicit bit plus the 16-bit immediate, whose bit 15 is the retry flag.
- **Build variants.** A null `Handle?` stands for a release (NDEBUG) build.
  Such a handle carries no status and its `assert`s are compiled out. A
  non-null handle stands for a debug build, whose protocol assertions
  become preconditions.
- **Fixed-width integers.** The `uint64_t` counters wrap modulo 2^64, and
  the reader count of the rwlock word wraps modulo 2^30.

The code disagrees with its own comment in one place, and the model follows
the code. The comment at `tle/rwlock.h:180` describes `libtle_rwlock_is_locked`
as true when no readers or writers hold the lock, the reverse of what it
returns. The code returns the whole word, which is nonzero whenever a reader,
an active writer or a pending writer is recorded, so `RwLock.IsLocked` holds
exactly when the word is nonzero, a pending writer included.

`HtmConsistent` is the definition of
`libtle_htm_mutex_profile_internally_consistent` (tle/profile.h:132-143) on a
value. What it accepts and rejects is stated by `ConsistentWhenCovered`,
`ConsistentWithoutHtm`, `InconsistentWhenUncovered`, `MergeConsistent`,
`MergeUncoveredRejected` and `HtmProfile.InternallyConsistent` below.

## Model

| member | source | states |
|---|---|---|
| Htm.XabortCode | tle/tme.h:33 | the abort reason is the low 15 bits of a status, so it is at most 0x7fff |
| Htm.Restart | tle/mutex.h:32-35 | an abort is retried only when its retry bit is set, and a started transaction is never retried |
| Htm.SelfAbortStatus | tle/mutex.h:32-35 | the status after `_xabort(LIBTLE_LOCK_IS_LOCKED)` is not "started", has the explicit bit and not the conflict bit, is retryable under `_XBEGIN_RESTART`, and carries the lock-is-locked reason |
| Profile.Add64 | tle/profile.h:108-116 | a counter addition is the sum modulo 2^64 |
| Profile.Add64Commutes | tle/profile.h:146-157 | accumulating counters does not depend on operand order |
| Profile.Add64Associates | tle/profile.h:146-157 | accumulating counters does not depend on grouping |
| Profile.Classify | tle/profile.h:174-194 | an abort is filed under the first of conflict, explicit, capacity, nested whose bit is set, and under "other" only when none is set |
| Profile.RecordAbort | tle/profile.h:174-194 | an abort raises by one, modulo 2^64, the counter of the kind `Classify` gives it, and no other counter moves |
| Profile.RecordAbortCounts | tle/profile.h:174-194 | each abort adds exactly one, modulo 2^64, to the total of the five abort counters and leaves acquired and elided unchanged |
| Profile.RecordAbortsTotal | tle/profile.h:174-194 | recording a sequence of aborts adds its length, modulo 2^64, to the abort total |
| Profile.HtmSumCommutes | tle/profile.h:146-157 | accumulating HTM profiles is commutative |
| Profile.HtmSumAssociates | tle/profile.h:146-157 | accumulating HTM profiles is associative |
| Profile.HtmSumZero | tle/profile.h:119-129 | a freshly initialised profile is the identity of accumulation |
| Profile.HtmSumAbortTotal | tle/profile.h:146-157 | the abort total of an accumulated profile is the sum of the two abort totals, modulo 2^64 |
| Profile.MergeConsistent | tle/profile.h:132-157 | accumulating two consistent profiles whose acquisitions are each covered by their aborts gives a profile consistent with the sum of their section counts, when the abort totals do not wrap |
| Profile.MergeUncoveredRejected | tle/profile.h:132-157 | without that coverage accumulation can break consistency: a profile that only fell back, merged with one that only aborted, is rejected |
| Profile.ConsistentWhenCovered | tle/profile.h:132-143 | when acquired does not exceed the abort total, consistency holds exactly when acquired + elided equals the given sum |
| Profile.ConsistentWithoutHtm | tle/profile.h:132-143 | a profile with nothing elided and no aborts is consistent for its acquired count, however large (a build without HTM) |
| Profile.InconsistentWhenUncovered | tle/profile.h:132-143 | when acquisitions outnumber recorded aborts and anything was aborted or elided, no sum is consistent |
| Profile.FallbacksWithinAborts | tle/mutex.h:242-277 | across a run of HTM lock calls, fallbacks to the spinlock never outnumber recorded aborts |
| Profile.FallbacksWithinCompleted | tle/mutex.h:280-302 | every fallback ends in a counted unlock, so fallbacks never outnumber counted sections |
| Profile.CompletedWithinRun | tle/mutex.h:280-302 | at most one unlock or commit is counted per section |
| Profile.ReplayCounts | tle/profile.h:160-194 | replaying a run on a zeroed profile yields acquired = fallbacks, acquired + elided = counted sections, and abort total = aborts, while nothing wraps |
| Profile.ReplayConsistent | tle/profile.h:132-143 | a zeroed profile that recorded any run of HTM lock calls is internally consistent for the number of counted sections |
| Profile.NullProfile.InternallyConsistent | tle/profile.h:44-49 | the null profile accepts every sum |
| Profile.PlainProfile.InternallyConsistent | tle/profile.h:80-85 | the plain check accepts a sum exactly when the HTM check would accept it for a profile with the same acquisitions that never elided or aborted |
| Profile.HtmProfile.InternallyConsistent | tle/profile.h:132-143 | with acquisitions covered by aborts the profile is consistent exactly for acquired + elided; with more acquisitions than aborts it is rejected unless nothing was aborted or elided |
| Profile.PlainProfile.constructor | tle/profile.hpp:25-27 | construction initialises the counter to zero |
| Profile.PlainProfile.Init | tle/profile.h:73-77 | init zeroes the acquisition counter |
| Profile.PlainProfile.Accumulate | tle/profile.h:88-93 | accumulate adds the other record's counter, modulo 2^64 |
| Profile.PlainProfile.AddAssign | tle/profile.hpp:37-41 | `+=` accumulates into this record and returns it |
| Profile.PlainProfile.Plus | tle/profile.hpp:43-46 | `+` returns a fresh record holding the sum and changes neither operand |
| Profile.PlainProfile.UpdateUnlock | tle/profile.h:96-100 | each unlock adds one acquisition |
| Profile.HtmProfile.constructor | tle/profile.hpp:61-63 | construction zeroes all seven counters |
| Profile.HtmProfile.Init | tle/profile.h:119-129 | init zeroes all seven counters |
| Profile.HtmProfile.Accumulate | tle/profile.h:146-157 | accumulate adds every counter field by field, modulo 2^64 |
| Profile.HtmProfile.AddAssign | tle/profile.hpp:81-85 | `+=` accumulates into this record and returns it |
| Profile.HtmProfile.Plus | tle/profile.hpp:87-90 | `+` returns a fresh record holding the field-wise sum |
| Profile.HtmProfile.UpdateUnlock | tle/profile.h:160-164 | an unlock of the fallback lock adds one acquisition and nothing else |
| Profile.HtmProfile.UpdateCommit | tle/profile.h:167-171 | a commit adds one elided section and nothing else |
| Profile.HtmProfile.UpdateAbort | tle/profile.h:174-194 | an abort increments exactly the counter its classification names |
| Spinlocks.FreeWord | tle/spinlock.h:37-43 | the initial word is valid and reads unlocked |
| Spinlocks.BusyWord | tle/spinlock.h:57-88 | the word a lock leaves is valid, reads locked and differs from the free word |
| Spinlocks.EncodingsPartition | tle/spinlock.h:113-121 | a valid word reads unlocked exactly when it is the free word; on non-x86 targets it reads locked exactly when it is 1 |
| Spinlocks.Spinlock.constructor | tle/spinlock.h:37-43 | a static initialiser leaves the word free |
| Spinlocks.Spinlock.Init | tle/spinlock.h:46-54 | init stores the free word |
| Spinlocks.Spinlock.IsLocked | tle/spinlock.h:113-121 | reports locked exactly when the word is at most 0 (x86-64) or nonzero (other targets) |
| Spinlocks.Spinlock.Lock | tle/spinlock.h:57-88 | returns only after taking the word from free to busy, spinning while other threads hold it; with no other thread writing, the free word it took is the one it started from |
| Spinlocks.Spinlock.LockUncontended | tle/spinlock.h:91-99 | stores the busy word without a loop |
| Spinlocks.Spinlock.Unlock | tle/spinlock.h:102-110 | stores the free word |
| Spinlocks.Spinlock.UnlockWait | tle/spinlock.h:124-143 | returns once it has read the word free; the word is one it started with or one another thread wrote |
| RwLocks.FieldsDetermine | tle/rwlock.h:23-31 | the writer bits and the reader count determine the whole word |
| RwLocks.WriteFree | tle/rwlock.h:49-102 | a writer may take the word exactly when no writer is active and no reader holds it |
| RwLocks.ReadFree | tle/rwlock.h:105-156 | a reader may enter exactly when neither writer bit is set |
| RwLocks.MarkPending | tle/rwlock.h:87-100 | announcing a waiting writer sets the pending bit and changes neither the active bit nor the reader count |
| RwLocks.WriteReleased | tle/rwlock.h:159-166 | a write unlock clears both writer bits and keeps the reader count |
| RwLocks.AddReader | tle/rwlock.h:140-154 | entering adds one to the reader count, modulo 2^30, and keeps the writer bits |
| RwLocks.RemoveReader | tle/rwlock.h:169-174 | leaving subtracts one from the reader count, modulo 2^30, and keeps the writer bits |
| RwLocks.RemoveUndoesAdd | tle/rwlock.h:140-174 | a read unlock undoes a read lock and conversely |
| RwLocks.WriteLockedWord | tle/rwlock.h:87-100 | the word a writer stores has the active bit, no pending bit and no readers |
| RwLocks.RwLock.constructor | tle/rwlock.h:38 | a static initialiser leaves the word zero |
| RwLocks.RwLock.Init | tle/rwlock.h:42-46 | init leaves no writer and no readers |
| RwLocks.RwLock.WriteLock | tle/rwlock.h:49-102 | returns only after swapping a word with no active writer and no readers for the write-locked word, which with no other thread writing is the word it started from; the pending mark it sets while waiting is `MarkPending` |
| RwLocks.RwLock.ReadLock | tle/rwlock.h:105-156 | returns only after adding a reader (`fetch_add(4)`) to a word with no active writer; with no other thread writing, that word is the one it started from, so the new word is the old word plus one reader |
| RwLocks.RwLock.WriteUnlock | tle/rwlock.h:159-166 | clears the writer bits and keeps the readers |
| RwLocks.RwLock.ReadUnlock | tle/rwlock.h:169-174 | removes one reader |
| RwLocks.RwLock.IsLocked | tle/rwlock.h:177-182 | reports locked exactly when any writer bit or any reader is present |
| RwLocks.RwLock.UnlockWait | tle/rwlock.h:185-207 | returns once it has read the word zero |
| Mutexes.MayLock | tle/mutex.h:67-73 | a lock call is allowed exactly when the status is unknown or unlocked |
| Mutexes.OrdInjective | tle/mutex.h:67-73 | the five statuses have distinct values 0 to 4 |
| Mutexes.Handle.constructor | tle/mutex.h:97-103 | a new handle's status is unknown |
| Mutexes.Handle.Init | tle/mutex.h:226-232 | `handle_init` sets the status to unknown, from which a lock is allowed |
| Mutexes.AttemptOnSpinlock | tle/mutex.h:251-262 | one elision attempt either starts with the spinlock read free or ends with the status of the begin or of the self-abort |
| Mutexes.AttemptOnRwLock | tle/mutex.h:546-556 | one writer elision attempt either starts with the rwlock word read zero or ends with an abort status |
| Mutexes.NullMutex.Lock | tle/mutex.h:111-120 | the null lock only records the exclusive status |
| Mutexes.NullMutex.Unlock | tle/mutex.h:123-135 | the null unlock requires the exclusive status and records unlocked |
| Mutexes.SpinMutex.constructor | tle/mutex.h:149 | the static initialiser leaves the spinlock free |
| Mutexes.SpinMutex.Init | tle/mutex.h:169-173 | init leaves the spinlock free |
| Mutexes.SpinMutex.Lock | tle/mutex.h:176-186 | takes the spinlock and records the exclusive status |
| Mutexes.SpinMutex.Unlock | tle/mutex.h:189-202 | frees the spinlock, records unlocked and counts one acquisition |
| Mutexes.HtmSpinMutex.constructor | tle/mutex.h:215 | the static initialiser leaves the fallback spinlock free |
| Mutexes.HtmSpinMutex.Init | tle/mutex.h:235-239 | init leaves the fallback spinlock free |
| Mutexes.HtmSpinMutex.Lock | tle/mutex.h:242-277 | retries only retryable aborts and at most the retry limit times, records every abort in the profile, and either returns elided with the spinlock read free or gives up and holds the spinlock |
| Mutexes.HtmSpinMutex.Elide | tle/mutex.h:245-268 | the elision loop: attempt i uses the i-th `_xbegin` result, every recorded abort but the last is retryable, each is counted in the profile, and the loop ends elided or having given up with the spinlock's settling value still ahead |
| Mutexes.Released | tle/mutex.h:280-316 | an unlock leaves the abort total unchanged and adds one to acquired + elided, except for an elided section nested in an outer transaction, which adds nothing |
| Mutexes.HtmSpinMutex.Unlock | tle/mutex.h:280-316 | commits an elided section, counted unless nested, or frees the spinlock and counts an acquisition; a debug build decides by the status and a release build by reading the spinlock |
| Mutexes.NullSharedMutex.Lock | tle/mutex.h:354-363 | records the exclusive status |
| Mutexes.NullSharedMutex.LockShared | tle/mutex.h:366-375 | records the shared status |
| Mutexes.NullSharedMutex.Unlock | tle/mutex.h:378-390 | requires the exclusive status and records unlocked |
| Mutexes.NullSharedMutex.UnlockShared | tle/mutex.h:393-405 | requires the shared status and records unlocked |
| Mutexes.SpinSharedMutex.constructor | tle/mutex.h:419 | the static initialiser leaves the rwlock word zero |
| Mutexes.SpinSharedMutex.Init | tle/mutex.h:439-443 | init leaves the rwlock word zero |
| Mutexes.SpinSharedMutex.Lock | tle/mutex.h:446-456 | write-locks the rwlock and records the exclusive status |
| Mutexes.SpinSharedMutex.LockShared | tle/mutex.h:459-469 | holds a read lock with no active writer and records the shared status; with no other thread writing, the word is the old word plus one reader |
| Mutexes.SpinSharedMutex.Unlock | tle/mutex.h:472-485 | write-unlocks, records unlocked and counts one acquisition |
| Mutexes.SpinSharedMutex.UnlockShared | tle/mutex.h:488-501 | read-unlocks, records unlocked and counts one acquisition |
| Mutexes.HtmSpinSharedMutex.constructor | tle/mutex.h:516 | the static initialiser leaves the rwlock zero and the writer flag free |
| Mutexes.HtmSpinSharedMutex.Init | tle/mutex.h:532-537 | init leaves the rwlock zero and the writer flag free |
| Mutexes.HtmSpinSharedMutex.Lock | tle/mutex.h:540-572 | writer elision reads the rwlock zero, or after giving up write-locks the rwlock and raises the writer flag; aborts are recorded and bounded by the write retry limit |
| Mutexes.HtmSpinSharedMutex.LockShared | tle/mutex.h:575-606 | reader elision reads the writer flag free and leaves the rwlock word unchanged, or after giving up takes a read lock, which with no other thread writing adds one reader to the old word; aborts are recorded and bounded by the read retry limit |
| Mutexes.HtmSpinSharedMutex.Unlock | tle/mutex.h:609-632 | lowers the writer flag and write-unlocks a held lock, or commits an elided one |
| Mutexes.HtmSpinSharedMutex.UnlockShared | tle/mutex.h:635-657 | read-unlocks a held lock or commits an elided one |
| MutexWrappers.UniqueUnlockable | tle/mutex.h:123-135 | an exclusive unlock is accepted only from a locked, non-shared status |
| MutexWrappers.WriterUnlockable | tle/mutex.h:378-390 | a writer unlock is accepted only from a locked, non-shared status |
| MutexWrappers.ReaderUnlockable | tle/mutex.h:393-405 | a reader unlock is accepted only from a locked, non-exclusive status |
| MutexWrappers.LockUnique | tle/mutex.h:833-855 | the `libtle_mutex_lock` overload of each exclusive kind locks it and updates its profile |
| MutexWrappers.UnlockUnique | tle/mutex.h:909-931 | the `libtle_mutex_unlock` overload of each exclusive kind releases it and counts the section |
| MutexWrappers.LockWriter | tle/mutex.h:857-879 | the `libtle_mutex_lock` overload of each shared kind write-locks it |
| MutexWrappers.LockReader | tle/mutex.h:883-905 | the `libtle_mutex_lock_shared` overload of each shared kind read-locks it: no active writer remains, an HTM section that elided leaves the rwlock word unchanged, and a held read lock adds one reader to the old word when no other thread writes it |
| MutexWrappers.UnlockWriter | tle/mutex.h:933-955 | the `libtle_mutex_unlock` overload of each shared kind write-unlocks it: the spin kind write-releases its word; the HTM kind frees `wflag` and write-releases a held lock, and leaves both words unchanged after an elided section; the section is counted |
| MutexWrappers.UnlockReader | tle/mutex.h:959-981 | the `libtle_mutex_unlock_shared` overload of each shared kind read-unlocks it: one reader is removed from a held word, an elided section leaves the word unchanged, `wflag` never changes, and the section is counted |
| MutexWrappers.MutexWrapper.Null | tle/mutex.hpp:72-75 | constructs a wrapper over a null mutex |
| MutexWrappers.MutexWrapper.Spin | tle/mutex.hpp:72-75 | constructs a wrapper whose spinlock starts free |
| MutexWrappers.MutexWrapper.Htm | tle/mutex.hpp:72-75 | constructs a wrapper whose fallback spinlock starts free |
| MutexWrappers.MutexWrapper.Lock | tle/mutex.hpp:140-142 | the handle-free `lock(profile)` locks with no status record |
| MutexWrappers.MutexWrapper.Unlock | tle/mutex.hpp:144-146 | the handle-free `unlock(profile)` releases with no status record: the spin kind frees its word; the HTM kind frees a spinlock it reads busy and leaves one it reads free unchanged (a commit); the section is counted accordingly |
| MutexWrappers.MutexHandle.constructor | tle/mutex.hpp:43-47 | binds the mutex and profile; in a debug build the status starts unknown |
| MutexWrappers.MutexHandle.Lock | tle/mutex.hpp:49-52 | forwards to the kind's lock with the handle's status and profile |
| MutexWrappers.MutexHandle.Unlock | tle/mutex.hpp:54-57 | forwards to the kind's unlock |
| MutexWrappers.SharedMutexWrapper.Null | tle/mutex.hpp:217-220 | constructs a wrapper over a null shared mutex |
| MutexWrappers.SharedMutexWrapper.Spin | tle/mutex.hpp:217-220 | constructs a wrapper whose rwlock starts zero |
| MutexWrappers.SharedMutexWrapper.Htm | tle/mutex.hpp:217-220 | constructs a wrapper whose rwlock starts zero and writer flag free |
| MutexWrappers.SharedMutexWrapper.Lock | tle/mutex.hpp:296-298 | the handle-free `lock` write-locks |
| MutexWrappers.SharedMutexWrapper.LockShared | tle/mutex.hpp:304-307 | the handle-free `lock_shared` read-locks: no active writer, and one reader added to the old word when no other thread writes it |
| MutexWrappers.SharedMutexWrapper.Unlock | tle/mutex.hpp:300-302 | the handle-free `unlock` write-unlocks |
| MutexWrappers.SharedMutexWrapper.UnlockShared | tle/mutex.hpp:309-312 | the handle-free `unlock_shared` read-unlocks |
| MutexWrappers.SharedMutexHandle.constructor | tle/mutex.hpp:178-182 | binds the mutex and profile; in a debug build the status starts unknown |
| MutexWrappers.SharedMutexHandle.Lock | tle/mutex.hpp:184-187 | forwards to the kind's write lock |
| MutexWrappers.SharedMutexHandle.LockShared | tle/mutex.hpp:194-197 | forwards to the kind's read lock, with the same word effects as `LockReader` |
| MutexWrappers.SharedMutexHandle.Unlock | tle/mutex.hpp:189-192 | forwards to the kind's write unlock, with the same word effects per kind and held status as `UnlockWriter` |
| MutexWrappers.SharedMutexHandle.UnlockShared | tle/mutex.hpp:199-202 | forwards to the kind's read unlock, with the same word effects per kind and held status as `UnlockReader` |
| ScopedLocks.UniqueLock.constructor | tle/lock.hpp:38-41 | constructing a `unique_lock` locks the handle |
| ScopedLocks.UniqueLock.Deferred | tle/lock.hpp:43-46 | a `defer_lock` construction does not touch the handle |
| ScopedLocks.UniqueLock.Lock | tle/lock.hpp:52-54 | forwards to the handle's lock |
| ScopedLocks.UniqueLock.Unlock | tle/lock.hpp:56-58 | forwards to the handle's unlock |
| ScopedLocks.UniqueLock.Destroy | tle/lock.hpp:48-50 | the destructor unlocks the handle; in a debug build a deferred lock that was never locked violates the unlock's status assertion |
| ScopedLocks.SharedLock.constructor | tle/lock.hpp:80-83 | constructing a `shared_lock` read-locks the handle, with the word effects of `LockReader` |
| ScopedLocks.SharedLock.Deferred | tle/lock.hpp:85-88 | a `defer_lock` construction does not touch the handle |
| ScopedLocks.SharedLock.Lock | tle/lock.hpp:94-96 | forwards to the handle's `lock_shared`, with the word effects of `LockReader` |
| ScopedLocks.SharedLock.Unlock | tle/lock.hpp:98-100 | forwards to the handle's `unlock_shared`: a held reader is removed from the rwlock word, an elided section leaves it unchanged, `wflag` stays, and the section is counted |
| ScopedLocks.SharedLock.Destroy | tle/lock.hpp:90-92 | the destructor read-unlocks, with the same word effects and count as `Unlock` |
| ScopedLocks.ReplayedStep | tle/profile.h:96-100 | one more scope adds exactly one scope's worth of counts to the replayed profile, of any kind |
| ScopedLocks.SharedSection | tle/lock.hpp:80-92 | a `shared_lock` scope with no other thread writing the rwlock word leaves that word as it found it, elided or not, leaves the handle unlocked and counts exactly one scope after its aborts |
| ScopedLocks.Section | tle/lock.hpp:38-50 | a scope leaves the lock idle and the handle unlocked, and counts exactly one section in the profile after its aborts; an HTM scope falls back only after an abort |
| ScopedLocks.IdleReady | tle/spinlock.h:124-143 | an idle lock and a settling schedule are enough for the next scope's lock call to return |
| ScopedLocks.Sections | tle/profile.h:132-143 | a run of scopes leaves the lock idle and, after at least one scope, the handle unlocked; it leaves the profile holding the replay of the run, so a fresh plain profile counts exactly the scopes and a fresh HTM profile is internally consistent for the counted scopes |

## Left out

- Real concurrency and memory ordering: other threads appear only as the `rivals` schedule, and acquire/release orderings are not modelled.
- Transactional rollback: an aborted attempt's effects are never made, because an attempt only reads lock words before it commits or aborts.
- Termination under contention: each lock loop is proved to return only when the `rivals` schedule ends on a word from which it can succeed.
- The x86-64 assembly fast paths of `libtle_rwlock_write_lock` and `libtle_rwlock_read_lock`, and the AArch64 assembly of `libtle_spinlock_lock`: the portable loops stand for them.
- The AArch64 assembly of `libtle_rwlock_write_lock`, `libtle_rwlock_read_lock` and `libtle_rwlock_unlock_wait` (tle/rwlock.h:69-86, 125-139, 192-200): the portable loops stand for them. The AArch64 `read_lock` adds its reader with an exclusive store only when the word shows no writer, so it never adds and then undoes a reader as the portable loop can; the model has only the portable add-then-undo.
- Spinlocks.Spinlock.Lock: the x86-64 word is an unbounded integer, so the 32-bit wrap of the decrement after 2^31 waiting threads is not modelled.
- The x86 HTM constants (`LIBTLE_LOCK_IS_LOCKED` 255 and its `_XBEGIN_RESTART`, tle/mutex.h:23-26): the model uses the AArch64 TME values of tle/tme.h.
- `_xbegin`, `_xend` and `_xtest` as instructions: they are the `begins` oracle and the `nested` flag.
- The `_Generic` dispatch macros and C++ overloads of tle/profile.h:203-265: the model calls each kind's operation directly.
- `update_abort()` of the HTM profile wrapper (tle/profile.hpp:73-75): it passes no status, so it does not compile when instantiated.
- `_M_recast` in tle/profile.hpp: it only converts the wrapper's address, and a null profile stays null.
- Profile.NullProfile.Init, Accumulate and UpdateUnlock: the null profile's operations do nothing, so they carry no contract.
- `alignas(64)` padding of the profile records.
- `unique_lock` over a shared-mutex handle: the model pairs `unique_lock` with exclusive handles and `shared_lock` with shared handles.
- The type aliases of tle/mutex.hpp:327-404, which choose a debug or release instantiation per kind: the model passes the choice as the wrapper's `debug` flag.
- tle/real_clock.hpp, benchmark/bench.cpp and the examples: timing, threads and I/O.
- `Sections` covers runs of `unique_lock` scopes only; a `shared_lock` scope is modelled singly by `SharedSection`, not as a run.
- RwLocks.RwLock.ReadLock, RwLocks.RwLock.WriteLock and Spinlocks.Spinlock.Lock: under interference the new word is tied to the value `seen` that the successful atomic access replaced, not to the starting word, because other threads' writes in between decide it; the starting word is tied only when the schedule is empty. The lock and `lock_shared` contracts above them inherit this.
