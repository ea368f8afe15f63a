/**
 * The scoped locks of libTLE (tle/lock.hpp). A `unique_lock` or
 * `shared_lock` refers to a mutex handle; unless constructed with
 * `defer_lock` it locks the handle on construction, and its destructor
 * always unlocks it. The destructor is modelled as the method `Destroy`.
 *
 * `unique_lock` is modelled over the exclusive-mutex handle and
 * `shared_lock` over the shared-mutex handle.
 */
module ScopedLocks {
  import opened Htm
  import opened Profile
  import opened Spinlocks
  import opened RwLocks
  import opened Interference
  import opened Mutexes
  import opened MutexWrappers

  /** `tle::unique_lock<handle>`. */
  class UniqueLock {
    const handle: MutexHandle
    /** What the last lock call through this scope recorded, for the accounting below. */
    ghost var aborts: seq<bv32>
    ghost var elided: bool

    /** The locking constructor: it calls the handle's `lock`. */
    constructor (h: MutexHandle, env: Env)
      requires h.Bound() && (h.st != null ==> MayLock(h.st.status))
      requires UniqueReady(h.mutex.impl, env)
      modifies UniqueObjects(h.mutex.impl), h.st, StatsObjects(h.stats)
      ensures handle == h
      ensures UniqueHeld(h.mutex.impl, elided)
      ensures h.mutex.impl.HtmImpl? ==> RetriedWithin(aborts, env.begins, HTM_SPIN_MUTEX_RETRY_LIMIT)
      ensures h.mutex.impl.HtmImpl? && !elided ==> GaveUp(aborts, HTM_SPIN_MUTEX_RETRY_LIMIT)
      ensures !h.mutex.impl.HtmImpl? ==> aborts == []
      ensures h.st != null ==> h.st.status == (if elided then Elided else LockedUnique)
      ensures View(h.stats) == AfterLock(old(View(h.stats)), aborts)
    {
      handle := h;
      new;
      var a, e := h.Lock(env);
      aborts, elided := a, e;
    }

    /** The `defer_lock` constructor: it binds the handle and does not lock. */
    constructor Deferred(h: MutexHandle)
      ensures handle == h && aborts == [] && !elided
    {
      handle := h;
      aborts := [];
      elided := false;
    }

    /** `unique_lock::lock`. */
    method Lock(env: Env)
      requires handle.Bound() && (handle.st != null ==> MayLock(handle.st.status))
      requires UniqueReady(handle.mutex.impl, env)
      modifies this, UniqueObjects(handle.mutex.impl), handle.st, StatsObjects(handle.stats)
      ensures UniqueHeld(handle.mutex.impl, elided)
      ensures handle.mutex.impl.HtmImpl? ==> RetriedWithin(aborts, env.begins, HTM_SPIN_MUTEX_RETRY_LIMIT)
      ensures handle.mutex.impl.HtmImpl? && !elided ==> GaveUp(aborts, HTM_SPIN_MUTEX_RETRY_LIMIT)
      ensures !handle.mutex.impl.HtmImpl? ==> aborts == []
      ensures handle.st != null ==> handle.st.status == (if elided then Elided else LockedUnique)
      ensures View(handle.stats) == AfterLock(old(View(handle.stats)), aborts)
    {
      var a, e := handle.Lock(env);
      aborts, elided := a, e;
    }

    /** `unique_lock::unlock`. */
    method Unlock(nested: bool)
      requires handle.Bound() && (handle.st != null ==> UniqueUnlockable(handle.mutex.impl, handle.st.status))
      modifies UniqueObjects(handle.mutex.impl), handle.st, StatsObjects(handle.stats)
      ensures handle.st != null ==> handle.st.status == Unlocked
      ensures View(handle.stats) == AfterUnlock(old(View(handle.stats)), old(HeldIn(handle.mutex.impl, handle.st)), nested)
      ensures handle.mutex.impl.SpinImpl? ==>
        handle.mutex.impl.s.state.word == FreeWord(handle.mutex.impl.s.state.arch)
      ensures handle.mutex.impl.HtmImpl? && old(HeldIn(handle.mutex.impl, handle.st)) == LockedUnique ==>
        handle.mutex.impl.h.state.word == FreeWord(handle.mutex.impl.h.state.arch)
      ensures handle.mutex.impl.HtmImpl? && old(HeldIn(handle.mutex.impl, handle.st)) == Elided ==>
        handle.mutex.impl.h.state.word == old(handle.mutex.impl.h.state.word)
    {
      handle.Unlock(nested);
    }

    /** `~unique_lock`: it unlocks unconditionally. */
    method Destroy(nested: bool)
      requires handle.Bound() && (handle.st != null ==> UniqueUnlockable(handle.mutex.impl, handle.st.status))
      modifies UniqueObjects(handle.mutex.impl), handle.st, StatsObjects(handle.stats)
      ensures handle.st != null ==> handle.st.status == Unlocked
      ensures View(handle.stats) == AfterUnlock(old(View(handle.stats)), old(HeldIn(handle.mutex.impl, handle.st)), nested)
      ensures handle.mutex.impl.SpinImpl? ==>
        handle.mutex.impl.s.state.word == FreeWord(handle.mutex.impl.s.state.arch)
      ensures handle.mutex.impl.HtmImpl? && old(HeldIn(handle.mutex.impl, handle.st)) == LockedUnique ==>
        handle.mutex.impl.h.state.word == FreeWord(handle.mutex.impl.h.state.arch)
      ensures handle.mutex.impl.HtmImpl? && old(HeldIn(handle.mutex.impl, handle.st)) == Elided ==>
        handle.mutex.impl.h.state.word == old(handle.mutex.impl.h.state.word)
    {
      Unlock(nested);
    }
  }

  /** `tle::shared_lock<handle>`: the same scope over the reader side of a shared handle. */
  class SharedLock {
    const handle: SharedMutexHandle
    ghost var aborts: seq<bv32>
    ghost var elided: bool

    /** The locking constructor: it calls the handle's `lock_shared`. */
    constructor (h: SharedMutexHandle, env: Env)
      requires h.Bound() && (h.st != null ==> MayLock(h.st.status))
      requires ReaderReady(h.mutex.impl, env)
      modifies SharedObjects(h.mutex.impl), h.st, StatsObjects(h.stats)
      ensures handle == h
      ensures ReaderHeld(h.mutex.impl, elided)
      ensures h.mutex.impl.SpinSharedImpl? && env.rwRivals == [] ==>
        h.mutex.impl.s.state.word == AddReader(old(h.mutex.impl.s.state.word))
      ensures h.mutex.impl.HtmSharedImpl? && !elided && env.rwRivals == [] ==>
        h.mutex.impl.h.state.word == AddReader(old(h.mutex.impl.h.state.word))
      ensures h.mutex.impl.HtmSharedImpl? && elided ==> h.mutex.impl.h.state.word == old(h.mutex.impl.h.state.word)
      ensures h.mutex.impl.HtmSharedImpl? ==> RetriedWithin(aborts, env.begins, RetryLimit(true))
      ensures h.mutex.impl.HtmSharedImpl? && !elided ==> GaveUp(aborts, RetryLimit(true))
      ensures !h.mutex.impl.HtmSharedImpl? ==> aborts == []
      ensures h.st != null ==> h.st.status == (if elided then Elided else LockedShared)
      ensures View(h.stats) == AfterLock(old(View(h.stats)), aborts)
    {
      handle := h;
      new;
      var a, e := h.LockShared(env);
      aborts, elided := a, e;
    }

    /** The `defer_lock` constructor. */
    constructor Deferred(h: SharedMutexHandle)
      ensures handle == h && aborts == [] && !elided
    {
      handle := h;
      aborts := [];
      elided := false;
    }

    /** `shared_lock::lock`: the handle's `lock_shared`. */
    method Lock(env: Env)
      requires handle.Bound() && (handle.st != null ==> MayLock(handle.st.status))
      requires ReaderReady(handle.mutex.impl, env)
      modifies this, SharedObjects(handle.mutex.impl), handle.st, StatsObjects(handle.stats)
      ensures ReaderHeld(handle.mutex.impl, elided)
      ensures handle.mutex.impl.SpinSharedImpl? && env.rwRivals == [] ==>
        handle.mutex.impl.s.state.word == AddReader(old(handle.mutex.impl.s.state.word))
      ensures handle.mutex.impl.HtmSharedImpl? && !elided && env.rwRivals == [] ==>
        handle.mutex.impl.h.state.word == AddReader(old(handle.mutex.impl.h.state.word))
      ensures handle.mutex.impl.HtmSharedImpl? && elided ==> handle.mutex.impl.h.state.word == old(handle.mutex.impl.h.state.word)
      ensures handle.mutex.impl.HtmSharedImpl? ==> RetriedWithin(aborts, env.begins, RetryLimit(true))
      ensures handle.mutex.impl.HtmSharedImpl? && !elided ==> GaveUp(aborts, RetryLimit(true))
      ensures !handle.mutex.impl.HtmSharedImpl? ==> aborts == []
      ensures handle.st != null ==> handle.st.status == (if elided then Elided else LockedShared)
      ensures View(handle.stats) == AfterLock(old(View(handle.stats)), aborts)
    {
      var a, e := handle.LockShared(env);
      aborts, elided := a, e;
    }

    /** `shared_lock::unlock`: the handle's `unlock_shared`. */
    method Unlock(nested: bool)
      requires handle.Bound() && (handle.st != null ==> ReaderUnlockable(handle.mutex.impl, handle.st.status))
      modifies SharedObjects(handle.mutex.impl), handle.st, StatsObjects(handle.stats)
      ensures handle.st != null ==> handle.st.status == Unlocked
      ensures handle.mutex.impl.SpinSharedImpl? ==>
        handle.mutex.impl.s.state.word == RemoveReader(old(handle.mutex.impl.s.state.word))
      ensures handle.mutex.impl.HtmSharedImpl? && old(Held(handle.st)) == LockedShared ==>
        handle.mutex.impl.h.state.word == RemoveReader(old(handle.mutex.impl.h.state.word))
      ensures handle.mutex.impl.HtmSharedImpl? && old(Held(handle.st)) == Elided ==>
        handle.mutex.impl.h.state.word == old(handle.mutex.impl.h.state.word)
      ensures handle.mutex.impl.HtmSharedImpl? ==> handle.mutex.impl.h.wflag.word == old(handle.mutex.impl.h.wflag.word)
      ensures View(handle.stats) == AfterUnlock(old(View(handle.stats)), old(Held(handle.st)), nested)
    {
      handle.UnlockShared(nested);
    }

    /** `~shared_lock`. */
    method Destroy(nested: bool)
      requires handle.Bound() && (handle.st != null ==> ReaderUnlockable(handle.mutex.impl, handle.st.status))
      modifies SharedObjects(handle.mutex.impl), handle.st, StatsObjects(handle.stats)
      ensures handle.st != null ==> handle.st.status == Unlocked
      ensures handle.mutex.impl.SpinSharedImpl? ==>
        handle.mutex.impl.s.state.word == RemoveReader(old(handle.mutex.impl.s.state.word))
      ensures handle.mutex.impl.HtmSharedImpl? && old(Held(handle.st)) == LockedShared ==>
        handle.mutex.impl.h.state.word == RemoveReader(old(handle.mutex.impl.h.state.word))
      ensures handle.mutex.impl.HtmSharedImpl? && old(Held(handle.st)) == Elided ==>
        handle.mutex.impl.h.state.word == old(handle.mutex.impl.h.state.word)
      ensures handle.mutex.impl.HtmSharedImpl? ==> handle.mutex.impl.h.wflag.word == old(handle.mutex.impl.h.wflag.word)
      ensures View(handle.stats) == AfterUnlock(old(View(handle.stats)), old(Held(handle.st)), nested)
    {
      Unlock(nested);
    }
  }

  // ---------------------------------------------------------------------------
  // Whole scopes, and a thread's run of them
  // ---------------------------------------------------------------------------

  /** What one scope leaves in a profile of any kind. */
  function Accounted(v: Counts, a: Acquisition): Counts {
    match v
    case NoCounts => NoCounts
    case PlainCount(n) => PlainCount(Add64(n, 1))
    case HtmCount(c) => HtmCount(Settle(c, a))
  }

  /** What a run of scopes leaves in a profile of any kind. */
  function Replayed(v: Counts, run: seq<Acquisition>): Counts {
    match v
    case NoCounts => NoCounts
    case PlainCount(n) => PlainCount((n + |run|) % U64_LIMIT)
    case HtmCount(c) => HtmCount(Replay(c, run))
  }

  lemma ReplayedStep(v: Counts, run: seq<Acquisition>, a: Acquisition)
    ensures Replayed(v, run + [a]) == Accounted(Replayed(v, run), a)
  {
    assert (run + [a])[..|run|] == run;
    match v
    case NoCounts =>
    case PlainCount(n) =>
      ModAddLeft(n + |run|, 1);
    case HtmCount(c) =>
  }

  /**
   * One `unique_lock` scope that is not deferred: the constructor locks, the
   * critical section runs, the destructor unlocks. The handle ends UNLOCKED,
   * the lock word free again, and the profile has counted exactly one event
   * for the scope, an acquisition or a commit, after the aborts of its
   * elision attempts; an HTM scope falls back only after recording an abort.
   */
  method Section(h: MutexHandle, env: Env, nested: bool) returns (ghost a: Acquisition)
    requires h.Bound() && (h.st != null ==> MayLock(h.st.status))
    requires UniqueReady(h.mutex.impl, env)
    modifies UniqueObjects(h.mutex.impl), h.st, StatsObjects(h.stats)
    ensures h.st != null ==> h.st.status == Unlocked
    ensures UniqueIdle(h.mutex.impl)
    ensures a.nested == nested && |a.aborts| <= HTM_SPIN_MUTEX_RETRY_LIMIT
    ensures h.mutex.impl.HtmImpl? ==> WellFormed(a)
    ensures !h.mutex.impl.HtmImpl? ==> a.aborts == [] && a.fallback
    ensures View(h.stats) == Accounted(old(View(h.stats)), a)
  {
    var scope := new UniqueLock(h, env);
    scope.Destroy(nested);
    a := Acquisition(scope.aborts, !scope.elided, nested);
  }

  /**
   * One `shared_lock` scope over a shared handle: construction read-locks,
   * destruction read-unlocks. Without interference on the rwlock word the
   * scope leaves that word as it found it, whichever way the section ran, and
   * the profile counts exactly one scope after its aborts.
   */
  method SharedSection(h: SharedMutexHandle, env: Env, nested: bool) returns (ghost a: Acquisition)
    requires h.Bound() && (h.st != null ==> MayLock(h.st.status))
    requires ReaderReady(h.mutex.impl, env)
    modifies SharedObjects(h.mutex.impl), h.st, StatsObjects(h.stats)
    ensures h.st != null ==> h.st.status == Unlocked
    ensures h.mutex.impl.SpinSharedImpl? && env.rwRivals == [] ==>
      h.mutex.impl.s.state.word == old(h.mutex.impl.s.state.word)
    ensures h.mutex.impl.HtmSharedImpl? && env.rwRivals == [] ==>
      h.mutex.impl.h.state.word == old(h.mutex.impl.h.state.word)
    ensures a.nested == nested && |a.aborts| <= HTM_SPIN_SHARED_MUTEX_READ_RETRY_LIMIT
    ensures h.mutex.impl.HtmSharedImpl? ==> WellFormed(a)
    ensures !h.mutex.impl.HtmSharedImpl? ==> a.aborts == [] && a.fallback
    ensures View(h.stats) == Accounted(old(View(h.stats)), a)
  {
    var scope := new SharedLock(h, env);
    scope.Destroy(nested);
    if !scope.elided && !h.mutex.impl.NullSharedImpl? {
      RemoveUndoesAdd(old(if h.mutex.impl.SpinSharedImpl? then h.mutex.impl.s.state.word
                          else h.mutex.impl.h.state.word));
    }
    a := Acquisition(scope.aborts, !scope.elided, nested);
  }

  /** The input a scope needs, given that the previous scope left the lock idle. */
  ghost predicate SectionReady(impl: UniqueImpl, env: Env) {
    match impl
    case NullImpl(_) => true
    case SpinImpl(m) =>
      AllOk(m.state.arch, env.spinRivals) &&
      (env.spinRivals != [] ==> !Locked(m.state.arch, env.spinRivals[|env.spinRivals| - 1]))
    case HtmImpl(m) =>
      |env.begins| >= HTM_SPIN_MUTEX_RETRY_LIMIT && AllOk(m.state.arch, env.spinRivals) &&
      (env.spinRivals != [] ==> !Locked(m.state.arch, env.spinRivals[|env.spinRivals| - 1]))
  }

  lemma IdleReady(impl: UniqueImpl, env: Env)
    requires UniqueIdle(impl) && SectionReady(impl, env)
    ensures UniqueReady(impl, env)
  {
  }

  /**
   * A thread's run of scopes on one handle, as the benchmark loop performs
   * them. Every HTM scope is well formed, no scope records more than the
   * retry limit of aborts, and the profile holds the replay of the run: so a
   * fresh plain profile is consistent for the number of scopes, and a fresh
   * HTM profile for the number of counted scopes, as long as nothing wraps.
   */
  method Sections(h: MutexHandle, envs: seq<Env>, nested: seq<bool>) returns (ghost run: seq<Acquisition>)
    requires |nested| == |envs|
    requires h.Bound() && (h.st != null ==> MayLock(h.st.status))
    requires UniqueIdle(h.mutex.impl)
    requires forall k :: 0 <= k < |envs| ==> SectionReady(h.mutex.impl, envs[k])
    modifies UniqueObjects(h.mutex.impl), h.st, StatsObjects(h.stats)
    ensures |run| == |envs|
    ensures UniqueIdle(h.mutex.impl)
    ensures h.st != null && |envs| > 0 ==> h.st.status == Unlocked
    ensures h.mutex.impl.HtmImpl? ==> forall k :: 0 <= k < |run| ==> WellFormed(run[k])
    ensures AbortsIn(run) <= HTM_SPIN_MUTEX_RETRY_LIMIT * |run|
    ensures Completed(run) <= |run|
    ensures View(h.stats) == Replayed(old(View(h.stats)), run)
    ensures (h.stats.PlainStats? && h.stats.pp != null && old(h.stats.pp.locksAcquired) == 0 &&
             |envs| < U64_LIMIT) ==> h.stats.pp.InternallyConsistent(|envs|)
    ensures (h.stats.HtmStats? && h.stats.hp != null && old(h.stats.hp.Counters()) == HTM_ZERO &&
             HTM_SPIN_MUTEX_RETRY_LIMIT * |envs| < U64_LIMIT) ==> h.stats.hp.InternallyConsistent(Completed(run))
  {
    run := [];
    var i := 0;
    while i < |envs|
      invariant 0 <= i <= |envs| && |run| == i
      invariant h.st != null ==> MayLock(h.st.status)
      invariant UniqueIdle(h.mutex.impl)
      invariant h.st != null && i > 0 ==> h.st.status == Unlocked
      invariant h.mutex.impl.HtmImpl? ==> forall k :: 0 <= k < |run| ==> WellFormed(run[k])
      invariant AbortsIn(run) <= HTM_SPIN_MUTEX_RETRY_LIMIT * |run|
      invariant View(h.stats) == Replayed(old(View(h.stats)), run)
    {
      IdleReady(h.mutex.impl, envs[i]);
      ghost var a := Section(h, envs[i], nested[i]);
      ReplayedStep(old(View(h.stats)), run, a);
      assert (run + [a])[..|run|] == run;
      run := run + [a];
      i := i + 1;
    }
    CompletedWithinRun(run);
    if h.stats.HtmStats? && h.stats.hp != null && old(h.stats.hp.Counters()) == HTM_ZERO &&
       HTM_SPIN_MUTEX_RETRY_LIMIT * |envs| < U64_LIMIT {
      ReplayConsistent(run);
    }
  }
}
