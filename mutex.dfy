/**
 * The six mutex kinds of libTLE (tle/mutex.h) and the per-thread handle
 * whose status field enforces the lock/unlock protocol.
 *
 * A handle reference `st` that is null stands for a release (NDEBUG) build,
 * where the handle has no status field and the protocol assertions are
 * compiled out; a non-null `st` is a debug build, where every `assert` on the
 * status is a precondition of the call. A null profile reference `p` means
 * no statistics are kept.
 *
 * Hardware transactions are inputs: `begins` lists what `_xbegin` returns on
 * each attempt, and `nested` is what `_xtest` reports after `_xend`. Other
 * threads' writes to the lock words are schedules (see module Interference).
 */
module Mutexes {
  import opened Htm
  import opened Interference
  import opened Profile
  import opened Spinlocks
  import opened RwLocks

  /** `enum libtle_mutex_status_t`. */
  datatype Status = Unknown | Unlocked | LockedUnique | LockedShared | Elided

  /** The enumerator's value. */
  function Ord(s: Status): nat {
    match s
    case Unknown => 0
    case Unlocked => 1
    case LockedUnique => 2
    case LockedShared => 3
    case Elided => 4
  }

  /** The lock precondition `st->status <= LIBTLE_MUTEX_STATUS_UNLOCKED`: a fresh or released handle. */
  function MayLock(s: Status): (ok: bool)
    ensures ok <==> s == Unknown || s == Unlocked
  {
    Ord(s) <= Ord(Unlocked)
  }

  /** The status enumerators are distinct and ordered as declared. */
  lemma OrdInjective(a: Status, b: Status)
    ensures Ord(a) == Ord(b) <==> a == b
    ensures Ord(a) <= 4
  {
  }

  /** A mutex handle of any kind in a debug build: its status record. */
  class Handle {
    var status: Status

    constructor ()
      ensures status == Unknown
    {
      status := Unknown;
    }

    /** `libtle_*_mutex_handle_init`: the status starts out unknown, which permits a first lock. */
    method Init()
      modifies this
      ensures status == Unknown && MayLock(status)
    {
      status := Unknown;
    }
  }

  /**
   * What an HTM unlock leaves in the profile: an elided section is counted
   * as a commit unless it ended inside an enclosing transaction; a section
   * that held the fallback lock is counted as an acquisition.
   */
  function Released(c: HtmCounters, held: Status, nested: bool): (r: HtmCounters)
    ensures AbortTotal(r) == AbortTotal(c)
    ensures Add64(r.acquired, r.elided) ==
      if held == Elided && nested then Add64(c.acquired, c.elided) else Add64(Add64(c.acquired, c.elided), 1)
  {
    if held == Elided then (if nested then c else CommitOf(c)) else UnlockOf(c)
  }

  /**
   * How an exclusive HTM section is held: the handle's status in a debug
   * build; in a release build, which has no status, whether the fallback
   * spinlock reads busy.
   */
  function HtmHeld(st: Handle?, lock: Spinlock): Status
    reads st, lock
  {
    if st != null then st.status
    else if Locked(lock.arch, lock.word) then LockedUnique
    else Elided
  }

  /**
   * One attempt of an HTM lock whose transaction reads a spinlock: wait
   * until the spinlock reads free, begin a transaction (`begun` is what
   * `_xbegin` returns), and inside it read the spinlock again, cancelling
   * with `LOCK_IS_LOCKED` if it is held. `xstatus` is `XBEGIN_STARTED` when
   * the section runs elided and the abort status otherwise. The lock word is
   * only read.
   */
  method AttemptOnSpinlock(lock: Spinlock, begun: bv32, rivals: seq<int>)
    returns (xstatus: bv32, rest: seq<int>)
    requires !Locked(lock.arch, LastOr(lock.word, rivals))
    modifies lock
    ensures IsSuffix(rest, rivals)
    ensures LastOr(lock.word, rest) == LastOr(old(lock.word), rivals)
    ensures lock.word == old(lock.word) || lock.word in rivals
    ensures xstatus == XBEGIN_STARTED ==> begun == XBEGIN_STARTED && !Locked(lock.arch, lock.word)
    ensures xstatus != XBEGIN_STARTED ==> AttemptAborted(begun, xstatus)
  {
    rest := lock.UnlockWait(rivals);
    xstatus := begun;
    if xstatus == XBEGIN_STARTED {
      // inside the transaction: add the lock word to the read set
      var rest' := lock.Interfere(rest);
      SuffixTransitive(rest', rest, rivals);
      rest := rest';
      var locked := lock.IsLocked();
      if locked {
        // _xabort(LOCK_IS_LOCKED) rolls back to _xbegin, which reports the cancellation
        xstatus := SelfAbortStatus();
      }
    }
  }

  /** The same attempt against a reader-writer lock, which must read 0 (no holder at all). */
  method AttemptOnRwLock(lock: RwLock, begun: bv32, rivals: seq<bv32>)
    returns (xstatus: bv32, rest: seq<bv32>)
    requires LastOr(lock.word, rivals) == 0
    modifies lock
    ensures IsSuffix(rest, rivals)
    ensures LastOr(lock.word, rest) == 0
    ensures xstatus == XBEGIN_STARTED ==> begun == XBEGIN_STARTED && lock.word == 0
    ensures xstatus != XBEGIN_STARTED ==> AttemptAborted(begun, xstatus)
  {
    rest := lock.UnlockWait(rivals);
    xstatus := begun;
    if xstatus == XBEGIN_STARTED {
      var rest' := lock.Interfere(rest);
      SuffixTransitive(rest', rest, rivals);
      rest := rest';
      var locked := lock.IsLocked();
      if locked {
        xstatus := SelfAbortStatus();
      }
    }
  }

  // ---------------------------------------------------------------------------
  // Exclusive mutexes
  // ---------------------------------------------------------------------------

  /** `libtle_null_mutex_t`: no lock word, only the protocol. */
  class NullMutex {

    constructor ()
    {
    }

    method Lock(st: Handle?, p: NullProfile?)
      requires st != null ==> MayLock(st.status)
      modifies st
      ensures st != null ==> st.status == LockedUnique
    {
      if st != null {
        st.status := LockedUnique;
      }
    }

    method Unlock(st: Handle?, p: NullProfile?)
      requires st != null ==> st.status == LockedUnique
      modifies st
      ensures st != null ==> st.status == Unlocked
    {
      if st != null {
        st.status := Unlocked;
      }
      if p != null {
        p.UpdateUnlock();
      }
    }
  }

  /** `libtle_spin_mutex_t`: a spinlock. */
  class SpinMutex {
    const state: Spinlock

    /** `LIBTLE_SPIN_MUTEX_INIT`. */
    constructor (arch: Arch)
      ensures fresh(state) && state.arch == arch && state.word == FreeWord(arch)
    {
      state := new Spinlock(arch);
    }

    /** `libtle_spin_mutex_init`. */
    method Init()
      modifies state
      ensures state.word == FreeWord(state.arch)
    {
      state.Init();
    }

    method Lock(st: Handle?, p: PlainProfile?, rivals: seq<int>)
      requires st != null ==> MayLock(st.status)
      requires state.Valid() && AllOk(state.arch, rivals)
      requires !Locked(state.arch, LastOr(state.word, rivals))
      modifies state, st
      ensures state.word == BusyWord(state.arch)
      ensures st != null ==> st.status == LockedUnique
    {
      var _ := state.Lock(rivals);
      if st != null {
        st.status := LockedUnique;
      }
    }

    method Unlock(st: Handle?, p: PlainProfile?)
      requires st != null ==> st.status == LockedUnique
      modifies state, st, p
      ensures state.word == FreeWord(state.arch)
      ensures st != null ==> st.status == Unlocked
      ensures p != null ==> p.locksAcquired == Add64(old(p.locksAcquired), 1)
    {
      state.Unlock();
      if st != null {
        st.status := Unlocked;
      }
      if p != null {
        p.UpdateUnlock();
      }
    }
  }

  /** `libtle_htm_spin_mutex_t`: elide with HTM, fall back to a spinlock. */
  class HtmSpinMutex {
    const state: Spinlock

    /** `LIBTLE_HTM_SPIN_MUTEX_INIT`. */
    constructor (arch: Arch)
      ensures fresh(state) && state.arch == arch && state.word == FreeWord(arch)
    {
      state := new Spinlock(arch);
    }

    /** `libtle_htm_spin_mutex_init`. */
    method Init()
      modifies state
      ensures state.word == FreeWord(state.arch)
    {
      state.Init();
    }

    /**
     * `libtle_htm_spin_mutex_lock`. Each attempt waits for the spinlock to
     * read free, begins a transaction and, once inside, reads the spinlock
     * again and cancels itself if it is held. A failed attempt is counted and
     * recorded; the loop gives up after a non-retryable abort or after
     * `HTM_SPIN_MUTEX_RETRY_LIMIT` attempts and takes the spinlock.
     * `aborts` are the statuses recorded, `elided` tells which way it ended.
     */
    method Lock(st: Handle?, p: HtmProfile?, begins: seq<bv32>, rivals: seq<int>)
      returns (aborts: seq<bv32>, elided: bool)
      requires st != null ==> MayLock(st.status)
      requires |begins| >= HTM_SPIN_MUTEX_RETRY_LIMIT
      requires state.Valid() && AllOk(state.arch, rivals)
      requires !Locked(state.arch, LastOr(state.word, rivals))
      modifies state, st, p
      ensures RetriedWithin(aborts, begins, HTM_SPIN_MUTEX_RETRY_LIMIT)
      ensures elided ==> |aborts| < HTM_SPIN_MUTEX_RETRY_LIMIT && begins[|aborts|] == XBEGIN_STARTED
      ensures elided ==> !Locked(state.arch, state.word) && (state.word == old(state.word) || state.word in rivals)
      ensures !elided ==> GaveUp(aborts, HTM_SPIN_MUTEX_RETRY_LIMIT) && state.word == BusyWord(state.arch)
      ensures st != null ==> st.status == (if elided then Elided else LockedUnique)
      ensures p != null ==> p.Counters() == RecordAborts(old(p.Counters()), aborts)
      ensures state.Valid()
    {
      var rest;
      aborts, elided, rest := Elide(p, begins, rivals);
      if elided {
        if st != null {
          st.status := Elided;
        }
        return;
      }
      AllOkSuffix(state.arch, rest, rivals);
      var _ := state.Lock(rest);
      if st != null {
        st.status := LockedUnique;
      }
    }

    /**
     * The elision loop of `libtle_htm_spin_mutex_lock`: attempts until one
     * runs elided or the loop gives up. `rest` is what is left of the other
     * threads' writes when it gives up, for the fallback acquisition.
     */
    method Elide(p: HtmProfile?, begins: seq<bv32>, rivals: seq<int>)
      returns (aborts: seq<bv32>, elided: bool, rest: seq<int>)
      requires |begins| >= HTM_SPIN_MUTEX_RETRY_LIMIT
      requires state.Valid() && AllOk(state.arch, rivals)
      requires !Locked(state.arch, LastOr(state.word, rivals))
      modifies state, p
      ensures RetriedWithin(aborts, begins, HTM_SPIN_MUTEX_RETRY_LIMIT)
      ensures state.Valid()
      ensures state.word == old(state.word) || state.word in rivals
      ensures elided ==> |aborts| < HTM_SPIN_MUTEX_RETRY_LIMIT && begins[|aborts|] == XBEGIN_STARTED
      ensures elided ==> !Locked(state.arch, state.word)
      ensures !elided ==> GaveUp(aborts, HTM_SPIN_MUTEX_RETRY_LIMIT)
      ensures !elided ==> IsSuffix(rest, rivals) && !Locked(state.arch, LastOr(state.word, rest))
      ensures p != null ==> p.Counters() == RecordAborts(old(p.Counters()), aborts)
    {
      aborts := [];
      rest := rivals;
      while true
        invariant |aborts| < HTM_SPIN_MUTEX_RETRY_LIMIT
        invariant forall k :: 0 <= k < |aborts| ==> AttemptAborted(begins[k], aborts[k]) && Restart(aborts[k])
        invariant IsSuffix(rest, rivals)
        invariant state.Valid()
        invariant !Locked(state.arch, LastOr(state.word, rest))
        invariant state.word == old(state.word) || state.word in rivals
        invariant p != null ==> p.Counters() == RecordAborts(old(p.Counters()), aborts)
        decreases HTM_SPIN_MUTEX_RETRY_LIMIT - |aborts|
      {
        ghost var before := state.word;
        var xstatus, rest' := AttemptOnSpinlock(state, begins[|aborts|], rest);
        if state.word != before {
          SuffixMember(state.word, rest, rivals);
        }
        SuffixTransitive(rest', rest, rivals);
        rest := rest';
        if xstatus == XBEGIN_STARTED {
          elided := true;
          return;
        }
        assert (aborts + [xstatus])[..|aborts|] == aborts;
        aborts := aborts + [xstatus];
        if p != null {
          p.UpdateAbort(xstatus);
        }
        if !(Restart(xstatus) && |aborts| < HTM_SPIN_MUTEX_RETRY_LIMIT) {
          elided := false;
          return;
        }
      }
    }

    /**
     * `libtle_htm_spin_mutex_unlock`. A debug build goes by the handle's
     * status: it commits an elided section (counted only when not nested in
     * an outer transaction) or releases the spinlock (counted as an
     * acquisition), and any other status is a protocol error. A release
     * build (no handle) makes the same choice by reading the spinlock.
     */
    method Unlock(st: Handle?, p: HtmProfile?, nested: bool)
      requires st != null ==> st.status == Elided || st.status == LockedUnique
      modifies state, st, p
      ensures st != null ==> st.status == Unlocked
      ensures old(HtmHeld(st, state)) == LockedUnique ==> state.word == FreeWord(state.arch)
      ensures old(HtmHeld(st, state)) == Elided ==> state.word == old(state.word)
      ensures p != null ==> p.Counters() == Released(old(p.Counters()), old(HtmHeld(st, state)), nested)
    {
      var held: Status;
      if st != null {
        held := st.status;
      } else {
        var locked := state.IsLocked();
        held := if locked then LockedUnique else Elided;
      }
      if held == Elided {
        // _xend()
        if p != null && !nested {
          p.UpdateCommit();
        }
      } else {
        state.Unlock();
        if p != null {
          p.UpdateUnlock();
        }
      }
      if st != null {
        st.status := Unlocked;
      }
    }
  }

  // ---------------------------------------------------------------------------
  // Reader/writer mutexes
  // ---------------------------------------------------------------------------

  /** `libtle_null_shared_mutex_t`: no lock word, only the protocol. */
  class NullSharedMutex {

    constructor ()
    {
    }

    method Lock(st: Handle?, p: NullProfile?)
      requires st != null ==> MayLock(st.status)
      modifies st
      ensures st != null ==> st.status == LockedUnique
    {
      if st != null {
        st.status := LockedUnique;
      }
    }

    method LockShared(st: Handle?, p: NullProfile?)
      requires st != null ==> MayLock(st.status)
      modifies st
      ensures st != null ==> st.status == LockedShared
    {
      if st != null {
        st.status := LockedShared;
      }
    }

    method Unlock(st: Handle?, p: NullProfile?)
      requires st != null ==> st.status == LockedUnique
      modifies st
      ensures st != null ==> st.status == Unlocked
    {
      if st != null {
        st.status := Unlocked;
      }
      if p != null {
        p.UpdateUnlock();
      }
    }

    method UnlockShared(st: Handle?, p: NullProfile?)
      requires st != null ==> st.status == LockedShared
      modifies st
      ensures st != null ==> st.status == Unlocked
    {
      if st != null {
        st.status := Unlocked;
      }
      if p != null {
        p.UpdateUnlock();
      }
    }
  }

  /** `libtle_spin_shared_mutex_t`: a reader-writer spinlock. */
  class SpinSharedMutex {
    const state: RwLock

    /** `LIBTLE_SPIN_SHARED_MUTEX_INIT`. */
    constructor ()
      ensures fresh(state) && state.word == 0
    {
      state := new RwLock();
    }

    /** `libtle_spin_shared_mutex_init`. */
    method Init()
      modifies state
      ensures state.word == 0
    {
      state.Init();
    }

    method Lock(st: Handle?, p: PlainProfile?, rivals: seq<bv32>)
      requires st != null ==> MayLock(st.status)
      requires WriteFree(LastOr(state.word, rivals))
      modifies state, st
      ensures state.word == WRITE_LOCKED
      ensures st != null ==> st.status == LockedUnique
    {
      var _ := state.WriteLock(rivals);
      if st != null {
        st.status := LockedUnique;
      }
    }

    method LockShared(st: Handle?, p: PlainProfile?, rivals: seq<bv32>)
      requires st != null ==> MayLock(st.status)
      requires ReadFree(LastOr(state.word, rivals))
      modifies state, st
      ensures !WriterActive(state.word)
      ensures rivals == [] ==> state.word == AddReader(old(state.word))
      ensures st != null ==> st.status == LockedShared
    {
      var _ := state.ReadLock(rivals);
      if st != null {
        st.status := LockedShared;
      }
    }

    method Unlock(st: Handle?, p: PlainProfile?)
      requires st != null ==> st.status == LockedUnique
      modifies state, st, p
      ensures state.word == WriteReleased(old(state.word))
      ensures st != null ==> st.status == Unlocked
      ensures p != null ==> p.locksAcquired == Add64(old(p.locksAcquired), 1)
    {
      state.WriteUnlock();
      if st != null {
        st.status := Unlocked;
      }
      if p != null {
        p.UpdateUnlock();
      }
    }

    method UnlockShared(st: Handle?, p: PlainProfile?)
      requires st != null ==> st.status == LockedShared
      modifies state, st, p
      ensures state.word == RemoveReader(old(state.word))
      ensures st != null ==> st.status == Unlocked
      ensures p != null ==> p.locksAcquired == Add64(old(p.locksAcquired), 1)
    {
      state.ReadUnlock();
      if st != null {
        st.status := Unlocked;
      }
      if p != null {
        p.UpdateUnlock();
      }
    }
  }

  /**
   * `libtle_htm_spin_shared_mutex_t`: elide with HTM, fall back to a
   * reader-writer spinlock. Writers elide against the whole rwlock word;
   * readers elide against `wflag`, a spinlock a fallback writer holds.
   * Its handle always has a status, in every build.
   */
  class HtmSpinSharedMutex {
    const state: RwLock
    const wflag: Spinlock

    /** `LIBTLE_HTM_SPIN_SHARED_MUTEX_INIT`. */
    constructor (arch: Arch)
      ensures fresh(state) && fresh(wflag)
      ensures state.word == 0 && wflag.arch == arch && wflag.word == FreeWord(arch)
    {
      state := new RwLock();
      wflag := new Spinlock(arch);
    }

    /** `libtle_htm_spin_shared_mutex_init`. */
    method Init()
      modifies state, wflag
      ensures state.word == 0 && wflag.word == FreeWord(wflag.arch)
    {
      state.Init();
      wflag.Init();
    }

    /**
     * `libtle_htm_spin_shared_mutex_lock`: the writer waits for and aborts on
     * any holder of the rwlock; its fallback takes the write lock and then
     * marks `wflag` busy.
     */
    method Lock(st: Handle, p: HtmProfile?, begins: seq<bv32>, rivals: seq<bv32>)
      returns (aborts: seq<bv32>, elided: bool)
      requires MayLock(st.status)
      requires |begins| >= HTM_SPIN_SHARED_MUTEX_WRITE_RETRY_LIMIT
      requires LastOr(state.word, rivals) == 0
      modifies state, wflag, st, p
      ensures RetriedWithin(aborts, begins, HTM_SPIN_SHARED_MUTEX_WRITE_RETRY_LIMIT)
      ensures elided ==> |aborts| < HTM_SPIN_SHARED_MUTEX_WRITE_RETRY_LIMIT && begins[|aborts|] == XBEGIN_STARTED
      ensures elided ==> state.word == 0 && wflag.word == old(wflag.word)
      ensures !elided ==> GaveUp(aborts, HTM_SPIN_SHARED_MUTEX_WRITE_RETRY_LIMIT)
      ensures !elided ==> state.word == WRITE_LOCKED && wflag.word == BusyWord(wflag.arch)
      ensures st.status == (if elided then Elided else LockedUnique)
      ensures p != null ==> p.Counters() == RecordAborts(old(p.Counters()), aborts)
    {
      aborts := [];
      var rest := rivals;
      while true
        invariant |aborts| < HTM_SPIN_SHARED_MUTEX_WRITE_RETRY_LIMIT
        invariant forall k :: 0 <= k < |aborts| ==> AttemptAborted(begins[k], aborts[k]) && Restart(aborts[k])
        invariant LastOr(state.word, rest) == 0
        invariant wflag.word == old(wflag.word)
        invariant p != null ==> p.Counters() == RecordAborts(old(p.Counters()), aborts)
        decreases HTM_SPIN_SHARED_MUTEX_WRITE_RETRY_LIMIT - |aborts|
      {
        var xstatus;
        xstatus, rest := AttemptOnRwLock(state, begins[|aborts|], rest);
        if xstatus == XBEGIN_STARTED {
          st.status := Elided;
          elided := true;
          return;
        }
        aborts := aborts + [xstatus];
        if p != null {
          p.UpdateAbort(xstatus);
        }
        if !(Restart(xstatus) && |aborts| < HTM_SPIN_SHARED_MUTEX_WRITE_RETRY_LIMIT) {
          break;
        }
      }
      var _ := state.WriteLock(rest);
      wflag.LockUncontended();
      st.status := LockedUnique;
      elided := false;
    }

    /**
     * `libtle_htm_spin_shared_mutex_lock_shared`: the reader waits for and
     * aborts on `wflag` only; its fallback takes a read lock on the rwlock.
     */
    method LockShared(st: Handle, p: HtmProfile?, begins: seq<bv32>, flagRivals: seq<int>, rivals: seq<bv32>)
      returns (aborts: seq<bv32>, elided: bool)
      requires MayLock(st.status)
      requires |begins| >= HTM_SPIN_SHARED_MUTEX_READ_RETRY_LIMIT
      requires !Locked(wflag.arch, LastOr(wflag.word, flagRivals))
      requires ReadFree(LastOr(state.word, rivals))
      modifies state, wflag, st, p
      ensures RetriedWithin(aborts, begins, HTM_SPIN_SHARED_MUTEX_READ_RETRY_LIMIT)
      ensures elided ==> |aborts| < HTM_SPIN_SHARED_MUTEX_READ_RETRY_LIMIT && begins[|aborts|] == XBEGIN_STARTED
      ensures elided ==> !Locked(wflag.arch, wflag.word) && state.word == old(state.word)
      ensures !elided ==> GaveUp(aborts, HTM_SPIN_SHARED_MUTEX_READ_RETRY_LIMIT)
      ensures !elided ==> !WriterActive(state.word)
      ensures !elided && rivals == [] ==> state.word == AddReader(old(state.word))
      ensures wflag.word == old(wflag.word) || wflag.word in flagRivals
      ensures st.status == (if elided then Elided else LockedShared)
      ensures p != null ==> p.Counters() == RecordAborts(old(p.Counters()), aborts)
    {
      aborts := [];
      var rest := flagRivals;
      while true
        invariant |aborts| < HTM_SPIN_SHARED_MUTEX_READ_RETRY_LIMIT
        invariant forall k :: 0 <= k < |aborts| ==> AttemptAborted(begins[k], aborts[k]) && Restart(aborts[k])
        invariant IsSuffix(rest, flagRivals)
        invariant !Locked(wflag.arch, LastOr(wflag.word, rest))
        invariant wflag.word == old(wflag.word) || wflag.word in flagRivals
        invariant state.word == old(state.word)
        invariant p != null ==> p.Counters() == RecordAborts(old(p.Counters()), aborts)
        decreases HTM_SPIN_SHARED_MUTEX_READ_RETRY_LIMIT - |aborts|
      {
        var xstatus, rest' := AttemptOnSpinlock(wflag, begins[|aborts|], rest);
        SuffixTransitive(rest', rest, flagRivals);
        rest := rest';
        if xstatus == XBEGIN_STARTED {
          st.status := Elided;
          elided := true;
          return;
        }
        aborts := aborts + [xstatus];
        if p != null {
          p.UpdateAbort(xstatus);
        }
        if !(Restart(xstatus) && |aborts| < HTM_SPIN_SHARED_MUTEX_READ_RETRY_LIMIT) {
          break;
        }
      }
      var _ := state.ReadLock(rivals);
      st.status := LockedShared;
      elided := false;
    }

    /**
     * `libtle_htm_spin_shared_mutex_unlock`: commit an elided section, or
     * release `wflag` and then the write lock.
     */
    method Unlock(st: Handle, p: HtmProfile?, nested: bool)
      requires st.status == Elided || st.status == LockedUnique
      modifies state, wflag, st, p
      ensures st.status == Unlocked
      ensures old(st.status) == LockedUnique ==>
        wflag.word == FreeWord(wflag.arch) && state.word == WriteReleased(old(state.word))
      ensures old(st.status) == Elided ==> state.word == old(state.word) && wflag.word == old(wflag.word)
      ensures p != null ==> p.Counters() == Released(old(p.Counters()), old(st.status), nested)
    {
      if st.status == Elided {
        if p != null && !nested {
          p.UpdateCommit();
        }
      } else {
        wflag.Unlock();
        state.WriteUnlock();
        if p != null {
          p.UpdateUnlock();
        }
      }
      st.status := Unlocked;
    }

    /**
     * `libtle_htm_spin_shared_mutex_unlock_shared`: commit an elided section,
     * or release one read lock.
     */
    method UnlockShared(st: Handle, p: HtmProfile?, nested: bool)
      requires st.status == Elided || st.status == LockedShared
      modifies state, st, p
      ensures st.status == Unlocked
      ensures old(st.status) == LockedShared ==> state.word == RemoveReader(old(state.word))
      ensures old(st.status) == Elided ==> state.word == old(state.word)
      ensures p != null ==> p.Counters() == Released(old(p.Counters()), old(st.status), nested)
    {
      if st.status == Elided {
        if p != null && !nested {
          p.UpdateCommit();
        }
      } else {
        state.ReadUnlock();
        if p != null {
          p.UpdateUnlock();
        }
      }
      st.status := Unlocked;
    }
  }
}
