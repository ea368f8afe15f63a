/**
 * The C++ layer over the C mutexes (tle/mutex.hpp): `mutex_wrapper` and
 * `shared_mutex_wrapper` own one C mutex and initialise it on construction;
 * their nested `handle_type` binds one wrapper and an optional profile, owns
 * the per-thread status record and forwards `lock`, `unlock`, `lock_shared`
 * and `unlock_shared` to the C functions of the mutex's kind.
 *
 * The C++ templates are instantiated for three exclusive and three shared
 * kinds; the model names the kind with a datatype. The `void`-handle
 * specialisation, selected in release (NDEBUG) builds, has no status
 * record: its handle passes a null one, as does its own `lock(profile)`.
 */
module MutexWrappers {
  import opened Htm
  import opened Interference
  import opened Profile
  import opened Spinlocks
  import opened RwLocks
  import opened Mutexes

  /** The C mutex an exclusive wrapper owns. */
  datatype UniqueImpl = NullImpl(n: NullMutex) | SpinImpl(s: SpinMutex) | HtmImpl(h: HtmSpinMutex)

  /** The C mutex a shared wrapper owns. */
  datatype SharedImpl =
    | NullSharedImpl(n: NullSharedMutex)
    | SpinSharedImpl(s: SpinSharedMutex)
    | HtmSharedImpl(h: HtmSpinSharedMutex)

  /** The profile a handle was given, typed by the kind's profile; null when none. */
  datatype Stats = NullStats(np: NullProfile?) | PlainStats(pp: PlainProfile?) | HtmStats(hp: HtmProfile?)

  /** The `profile_type` each kind is instantiated with. */
  predicate UniqueMatches(impl: UniqueImpl, stats: Stats) {
    match impl
    case NullImpl(_) => stats.NullStats?
    case SpinImpl(_) => stats.PlainStats?
    case HtmImpl(_) => stats.HtmStats?
  }

  predicate SharedMatches(impl: SharedImpl, stats: Stats) {
    match impl
    case NullSharedImpl(_) => stats.NullStats?
    case SpinSharedImpl(_) => stats.PlainStats?
    case HtmSharedImpl(_) => stats.HtmStats?
  }

  /** The lock words an exclusive kind owns. */
  function UniqueObjects(impl: UniqueImpl): set<object> {
    match impl
    case NullImpl(_) => {}
    case SpinImpl(m) => {m.state}
    case HtmImpl(m) => {m.state}
  }

  function SharedObjects(impl: SharedImpl): set<object> {
    match impl
    case NullSharedImpl(_) => {}
    case SpinSharedImpl(m) => {m.state}
    case HtmSharedImpl(m) => {m.state, m.wflag}
  }

  function StatsObjects(stats: Stats): set<object> {
    match stats
    case NullStats(p) => if p == null then {} else {p}
    case PlainStats(p) => if p == null then {} else {p}
    case HtmStats(p) => if p == null then {} else {p}
  }

  /** What a profile has counted, whatever its kind; `NoCounts` when it keeps none. */
  datatype Counts = NoCounts | PlainCount(n: U64) | HtmCount(c: HtmCounters)

  function View(stats: Stats): Counts
    reads StatsObjects(stats)
  {
    match stats
    case NullStats(_) => NoCounts
    case PlainStats(p) => if p == null then NoCounts else PlainCount(p.locksAcquired)
    case HtmStats(p) => if p == null then NoCounts else HtmCount(p.Counters())
  }

  /** A lock call records its aborts; only HTM profiles count them. */
  function AfterLock(v: Counts, aborts: seq<bv32>): Counts {
    match v
    case HtmCount(c) => HtmCount(RecordAborts(c, aborts))
    case _ => v
  }

  /**
   * An unlock call counts one release: the plain counter always, the HTM
   * record as an acquisition or a commit according to the status it left.
   */
  function AfterUnlock(v: Counts, held: Status, nested: bool): Counts {
    match v
    case NoCounts => NoCounts
    case PlainCount(n) => PlainCount(Add64(n, 1))
    case HtmCount(c) => HtmCount(Released(c, held, nested))
  }

  /** The status an unlock starts from; a release build keeps none, so it is taken as held. */
  function Held(st: Handle?): Status
    reads st
  {
    if st == null then LockedUnique else st.status
  }

  /** How an exclusive section is held, as its kind's unlock decides it. */
  function HeldIn(impl: UniqueImpl, st: Handle?): Status
    reads st, UniqueObjects(impl)
  {
    if impl.HtmImpl? then HtmHeld(st, impl.h.state) else Held(st)
  }

  /** The inputs one lock call draws on: `_xbegin` results and other threads' writes to each word. */
  datatype Env = Env(begins: seq<bv32>, spinRivals: seq<int>, rwRivals: seq<bv32>)

  /** What a lock call of each exclusive kind needs in order to return (see module Interference). */
  ghost predicate UniqueReady(impl: UniqueImpl, env: Env)
    reads UniqueObjects(impl)
  {
    match impl
    case NullImpl(_) => true
    case SpinImpl(m) =>
      m.state.Valid() && AllOk(m.state.arch, env.spinRivals) &&
      !Locked(m.state.arch, LastOr(m.state.word, env.spinRivals))
    case HtmImpl(m) =>
      |env.begins| >= HTM_SPIN_MUTEX_RETRY_LIMIT &&
      m.state.Valid() && AllOk(m.state.arch, env.spinRivals) &&
      !Locked(m.state.arch, LastOr(m.state.word, env.spinRivals))
  }

  /** The lock words after an exclusive lock call: held, unless the section runs elided. */
  ghost predicate UniqueHeld(impl: UniqueImpl, elided: bool)
    reads UniqueObjects(impl)
  {
    match impl
    case NullImpl(_) => !elided
    case SpinImpl(m) => !elided && m.state.word == BusyWord(m.state.arch)
    case HtmImpl(m) =>
      m.state.Valid() &&
      if elided then !Locked(m.state.arch, m.state.word) else m.state.word == BusyWord(m.state.arch)
  }

  /** The lock words of an exclusive kind when nobody holds them: valid and free. */
  ghost predicate UniqueIdle(impl: UniqueImpl)
    reads UniqueObjects(impl)
  {
    match impl
    case NullImpl(_) => true
    case SpinImpl(m) => m.state.Valid() && !Locked(m.state.arch, m.state.word)
    case HtmImpl(m) => m.state.Valid() && !Locked(m.state.arch, m.state.word)
  }

  /** The statuses from which an exclusive unlock is permitted (its protocol assertion). */
  function UniqueUnlockable(impl: UniqueImpl, s: Status): (ok: bool)
    ensures ok ==> !MayLock(s) && s != LockedShared
  {
    s == LockedUnique || (impl.HtmImpl? && s == Elided)
  }

  /** The exclusive lock call of each kind, as `handle_type::lock` makes it. */
  method LockUnique(impl: UniqueImpl, st: Handle?, stats: Stats, env: Env)
    returns (aborts: seq<bv32>, elided: bool)
    requires UniqueMatches(impl, stats)
    requires st != null ==> MayLock(st.status)
    requires UniqueReady(impl, env)
    modifies UniqueObjects(impl), st, StatsObjects(stats)
    ensures UniqueHeld(impl, elided)
    ensures impl.HtmImpl? ==> RetriedWithin(aborts, env.begins, HTM_SPIN_MUTEX_RETRY_LIMIT)
    ensures impl.HtmImpl? && !elided ==> GaveUp(aborts, HTM_SPIN_MUTEX_RETRY_LIMIT)
    ensures !impl.HtmImpl? ==> aborts == []
    ensures st != null ==> st.status == (if elided then Elided else LockedUnique)
    ensures View(stats) == AfterLock(old(View(stats)), aborts)
  {
    match impl
    case NullImpl(m) =>
      m.Lock(st, stats.np);
      aborts, elided := [], false;
    case SpinImpl(m) =>
      m.Lock(st, stats.pp, env.spinRivals);
      aborts, elided := [], false;
    case HtmImpl(m) =>
      aborts, elided := m.Lock(st, stats.hp, env.begins, env.spinRivals);
  }

  /** The exclusive unlock call of each kind, as `handle_type::unlock` makes it. */
  method UnlockUnique(impl: UniqueImpl, st: Handle?, stats: Stats, nested: bool)
    requires UniqueMatches(impl, stats)
    requires st != null ==> UniqueUnlockable(impl, st.status)
    modifies UniqueObjects(impl), st, StatsObjects(stats)
    ensures st != null ==> st.status == Unlocked
    ensures impl.SpinImpl? ==> impl.s.state.word == FreeWord(impl.s.state.arch)
    ensures impl.HtmImpl? && old(HeldIn(impl, st)) == LockedUnique ==> impl.h.state.word == FreeWord(impl.h.state.arch)
    ensures impl.HtmImpl? && old(HeldIn(impl, st)) == Elided ==> impl.h.state.word == old(impl.h.state.word)
    ensures View(stats) == AfterUnlock(old(View(stats)), old(HeldIn(impl, st)), nested)
  {
    match impl
    case NullImpl(m) =>
      m.Unlock(st, stats.np);
    case SpinImpl(m) =>
      m.Unlock(st, stats.pp);
    case HtmImpl(m) =>
      m.Unlock(st, stats.hp, nested);
  }

  /** What a writer lock call of each shared kind needs in order to return. */
  ghost predicate WriterReady(impl: SharedImpl, env: Env)
    reads SharedObjects(impl)
  {
    match impl
    case NullSharedImpl(_) => true
    case SpinSharedImpl(m) => WriteFree(LastOr(m.state.word, env.rwRivals))
    case HtmSharedImpl(m) =>
      |env.begins| >= HTM_SPIN_SHARED_MUTEX_WRITE_RETRY_LIMIT && LastOr(m.state.word, env.rwRivals) == 0
  }

  /** What a reader lock call of each shared kind needs in order to return. */
  ghost predicate ReaderReady(impl: SharedImpl, env: Env)
    reads SharedObjects(impl)
  {
    match impl
    case NullSharedImpl(_) => true
    case SpinSharedImpl(m) => ReadFree(LastOr(m.state.word, env.rwRivals))
    case HtmSharedImpl(m) =>
      |env.begins| >= HTM_SPIN_SHARED_MUTEX_READ_RETRY_LIMIT &&
      !Locked(m.wflag.arch, LastOr(m.wflag.word, env.spinRivals)) &&
      ReadFree(LastOr(m.state.word, env.rwRivals))
  }

  ghost predicate WriterHeld(impl: SharedImpl, elided: bool)
    reads SharedObjects(impl)
  {
    match impl
    case NullSharedImpl(_) => !elided
    case SpinSharedImpl(m) => !elided && m.state.word == WRITE_LOCKED
    case HtmSharedImpl(m) =>
      if elided then m.state.word == 0
      else m.state.word == WRITE_LOCKED && m.wflag.word == BusyWord(m.wflag.arch)
  }

  ghost predicate ReaderHeld(impl: SharedImpl, elided: bool)
    reads SharedObjects(impl)
  {
    match impl
    case NullSharedImpl(_) => !elided
    case SpinSharedImpl(m) => !elided && !WriterActive(m.state.word)
    case HtmSharedImpl(m) =>
      if elided then !Locked(m.wflag.arch, m.wflag.word) else !WriterActive(m.state.word)
  }

  function WriterUnlockable(impl: SharedImpl, s: Status): (ok: bool)
    ensures ok ==> !MayLock(s) && s != LockedShared
  {
    s == LockedUnique || (impl.HtmSharedImpl? && s == Elided)
  }

  function ReaderUnlockable(impl: SharedImpl, s: Status): (ok: bool)
    ensures ok ==> !MayLock(s) && s != LockedUnique
  {
    s == LockedShared || (impl.HtmSharedImpl? && s == Elided)
  }

  /** The HTM shared kind's own limit for one of its two lock calls. */
  function RetryLimit(shared: bool): nat {
    if shared then HTM_SPIN_SHARED_MUTEX_READ_RETRY_LIMIT else HTM_SPIN_SHARED_MUTEX_WRITE_RETRY_LIMIT
  }

  /** The writer lock call of each shared kind. */
  method LockWriter(impl: SharedImpl, st: Handle?, stats: Stats, env: Env)
    returns (aborts: seq<bv32>, elided: bool)
    requires SharedMatches(impl, stats)
    requires impl.HtmSharedImpl? ==> st != null
    requires st != null ==> MayLock(st.status)
    requires WriterReady(impl, env)
    modifies SharedObjects(impl), st, StatsObjects(stats)
    ensures WriterHeld(impl, elided)
    ensures impl.HtmSharedImpl? ==> RetriedWithin(aborts, env.begins, RetryLimit(false))
    ensures impl.HtmSharedImpl? && !elided ==> GaveUp(aborts, RetryLimit(false))
    ensures !impl.HtmSharedImpl? ==> aborts == []
    ensures st != null ==> st.status == (if elided then Elided else LockedUnique)
    ensures View(stats) == AfterLock(old(View(stats)), aborts)
  {
    match impl
    case NullSharedImpl(m) =>
      m.Lock(st, stats.np);
      aborts, elided := [], false;
    case SpinSharedImpl(m) =>
      m.Lock(st, stats.pp, env.rwRivals);
      aborts, elided := [], false;
    case HtmSharedImpl(m) =>
      aborts, elided := m.Lock(st, stats.hp, env.begins, env.rwRivals);
  }

  /** The reader lock call of each shared kind. */
  method LockReader(impl: SharedImpl, st: Handle?, stats: Stats, env: Env)
    returns (aborts: seq<bv32>, elided: bool)
    requires SharedMatches(impl, stats)
    requires impl.HtmSharedImpl? ==> st != null
    requires st != null ==> MayLock(st.status)
    requires ReaderReady(impl, env)
    modifies SharedObjects(impl), st, StatsObjects(stats)
    ensures ReaderHeld(impl, elided)
    ensures impl.SpinSharedImpl? && env.rwRivals == [] ==>
      impl.s.state.word == AddReader(old(impl.s.state.word))
    ensures impl.HtmSharedImpl? && !elided && env.rwRivals == [] ==>
      impl.h.state.word == AddReader(old(impl.h.state.word))
    ensures impl.HtmSharedImpl? && elided ==> impl.h.state.word == old(impl.h.state.word)
    ensures impl.HtmSharedImpl? ==> RetriedWithin(aborts, env.begins, RetryLimit(true))
    ensures impl.HtmSharedImpl? && !elided ==> GaveUp(aborts, RetryLimit(true))
    ensures !impl.HtmSharedImpl? ==> aborts == []
    ensures st != null ==> st.status == (if elided then Elided else LockedShared)
    ensures View(stats) == AfterLock(old(View(stats)), aborts)
  {
    match impl
    case NullSharedImpl(m) =>
      m.LockShared(st, stats.np);
      aborts, elided := [], false;
    case SpinSharedImpl(m) =>
      m.LockShared(st, stats.pp, env.rwRivals);
      aborts, elided := [], false;
    case HtmSharedImpl(m) =>
      aborts, elided := m.LockShared(st, stats.hp, env.begins, env.spinRivals, env.rwRivals);
  }

  /** The writer unlock call of each shared kind. */
  method UnlockWriter(impl: SharedImpl, st: Handle?, stats: Stats, nested: bool)
    requires SharedMatches(impl, stats)
    requires impl.HtmSharedImpl? ==> st != null
    requires st != null ==> WriterUnlockable(impl, st.status)
    modifies SharedObjects(impl), st, StatsObjects(stats)
    ensures st != null ==> st.status == Unlocked
    ensures impl.SpinSharedImpl? ==> impl.s.state.word == WriteReleased(old(impl.s.state.word))
    ensures impl.HtmSharedImpl? && old(Held(st)) == LockedUnique ==>
      impl.h.state.word == WriteReleased(old(impl.h.state.word)) && impl.h.wflag.word == FreeWord(impl.h.wflag.arch)
    ensures impl.HtmSharedImpl? && old(Held(st)) == Elided ==>
      impl.h.state.word == old(impl.h.state.word) && impl.h.wflag.word == old(impl.h.wflag.word)
    ensures View(stats) == AfterUnlock(old(View(stats)), old(Held(st)), nested)
  {
    match impl
    case NullSharedImpl(m) =>
      m.Unlock(st, stats.np);
    case SpinSharedImpl(m) =>
      m.Unlock(st, stats.pp);
    case HtmSharedImpl(m) =>
      m.Unlock(st, stats.hp, nested);
  }

  /** The reader unlock call of each shared kind. */
  method UnlockReader(impl: SharedImpl, st: Handle?, stats: Stats, nested: bool)
    requires SharedMatches(impl, stats)
    requires impl.HtmSharedImpl? ==> st != null
    requires st != null ==> ReaderUnlockable(impl, st.status)
    modifies SharedObjects(impl), st, StatsObjects(stats)
    ensures st != null ==> st.status == Unlocked
    ensures impl.SpinSharedImpl? ==> impl.s.state.word == RemoveReader(old(impl.s.state.word))
    ensures impl.HtmSharedImpl? && old(Held(st)) == LockedShared ==>
      impl.h.state.word == RemoveReader(old(impl.h.state.word))
    ensures impl.HtmSharedImpl? && old(Held(st)) == Elided ==> impl.h.state.word == old(impl.h.state.word)
    ensures impl.HtmSharedImpl? ==> impl.h.wflag.word == old(impl.h.wflag.word)
    ensures View(stats) == AfterUnlock(old(View(stats)), old(Held(st)), nested)
  {
    match impl
    case NullSharedImpl(m) =>
      m.UnlockShared(st, stats.np);
    case SpinSharedImpl(m) =>
      m.UnlockShared(st, stats.pp);
    case HtmSharedImpl(m) =>
      m.UnlockShared(st, stats.hp, nested);
  }

  // ---------------------------------------------------------------------------
  // The wrapper and handle classes
  // ---------------------------------------------------------------------------

  /**
   * `mutex_wrapper<Mutex, Handle, Profile>`. `debug` tells whether its handles
   * carry a status record; it is false for the `void`-handle specialisation
   * that release builds select.
   */
  class MutexWrapper {
    const impl: UniqueImpl
    const debug: bool

    /** The constructor runs the kind's `init`. */
    constructor Null(debug: bool)
      ensures impl.NullImpl? && this.debug == debug
    {
      var m := new NullMutex();
      impl := NullImpl(m);
      this.debug := debug;
    }

    /** The constructor runs `libtle_spin_mutex_init`: the spinlock starts free. */
    constructor Spin(arch: Arch, debug: bool)
      ensures impl.SpinImpl? && this.debug == debug
      ensures fresh(impl.s.state) && impl.s.state.arch == arch && impl.s.state.word == FreeWord(arch)
    {
      var m := new SpinMutex(arch);
      m.Init();
      impl := SpinImpl(m);
      this.debug := debug;
    }

    /** The constructor runs `libtle_htm_spin_mutex_init`: the fallback spinlock starts free. */
    constructor Htm(arch: Arch, debug: bool)
      ensures impl.HtmImpl? && this.debug == debug
      ensures fresh(impl.h.state) && impl.h.state.arch == arch && impl.h.state.word == FreeWord(arch)
    {
      var m := new HtmSpinMutex(arch);
      m.Init();
      impl := HtmImpl(m);
      this.debug := debug;
    }

    /** The `void` specialisation's own `lock(profile)`: the kind's lock with no status record. */
    method Lock(stats: Stats, env: Env) returns (aborts: seq<bv32>, elided: bool)
      requires !debug && UniqueMatches(impl, stats)
      requires UniqueReady(impl, env)
      modifies UniqueObjects(impl), StatsObjects(stats)
      ensures UniqueHeld(impl, elided)
      ensures impl.HtmImpl? ==> RetriedWithin(aborts, env.begins, HTM_SPIN_MUTEX_RETRY_LIMIT)
      ensures impl.HtmImpl? && !elided ==> GaveUp(aborts, HTM_SPIN_MUTEX_RETRY_LIMIT)
      ensures !impl.HtmImpl? ==> aborts == []
      ensures View(stats) == AfterLock(old(View(stats)), aborts)
    {
      aborts, elided := LockUnique(impl, null, stats, env);
    }

    /**
     * The `void` specialisation's own `unlock(profile)`, with no status
     * record: the HTM kind tells an elided section from a held one by
     * reading its spinlock.
     */
    method Unlock(stats: Stats, nested: bool)
      requires !debug && UniqueMatches(impl, stats)
      modifies UniqueObjects(impl), StatsObjects(stats)
      ensures impl.SpinImpl? ==> impl.s.state.word == FreeWord(impl.s.state.arch)
      ensures impl.HtmImpl? && old(HeldIn(impl, null)) == LockedUnique ==> impl.h.state.word == FreeWord(impl.h.state.arch)
      ensures impl.HtmImpl? && old(HeldIn(impl, null)) == Elided ==> impl.h.state.word == old(impl.h.state.word)
      ensures View(stats) == AfterUnlock(old(View(stats)), old(HeldIn(impl, null)), nested)
    {
      UnlockUnique(impl, null, stats, nested);
    }
  }

  /** `mutex_wrapper::handle_type`: one thread's access to one exclusive mutex. */
  class MutexHandle {
    const mutex: MutexWrapper
    const stats: Stats
    /** `_M_handle`; null in the `void` specialisation, which passes no status record. */
    const st: Handle?

    predicate Bound() {
      UniqueMatches(mutex.impl, stats)
    }

    /** Binds the mutex and the profile and runs `handle_init`: the status starts unknown. */
    constructor (m: MutexWrapper, s: Stats)
      requires UniqueMatches(m.impl, s)
      ensures mutex == m && stats == s && Bound()
      ensures st != null <==> m.debug
      ensures st != null ==> fresh(st) && st.status == Unknown
    {
      mutex := m;
      stats := s;
      if m.debug {
        var h := new Handle();
        h.Init();
        st := h;
      } else {
        st := null;
      }
    }

    /** `handle_type::lock`: the kind's lock with this handle's status record and profile. */
    method Lock(env: Env) returns (aborts: seq<bv32>, elided: bool)
      requires Bound() && (st != null ==> MayLock(st.status))
      requires UniqueReady(mutex.impl, env)
      modifies UniqueObjects(mutex.impl), st, StatsObjects(stats)
      ensures UniqueHeld(mutex.impl, elided)
      ensures mutex.impl.HtmImpl? ==> RetriedWithin(aborts, env.begins, HTM_SPIN_MUTEX_RETRY_LIMIT)
      ensures mutex.impl.HtmImpl? && !elided ==> GaveUp(aborts, HTM_SPIN_MUTEX_RETRY_LIMIT)
      ensures !mutex.impl.HtmImpl? ==> aborts == []
      ensures st != null ==> st.status == (if elided then Elided else LockedUnique)
      ensures View(stats) == AfterLock(old(View(stats)), aborts)
    {
      aborts, elided := LockUnique(mutex.impl, st, stats, env);
    }

    /** `handle_type::unlock`. */
    method Unlock(nested: bool)
      requires Bound() && (st != null ==> UniqueUnlockable(mutex.impl, st.status))
      modifies UniqueObjects(mutex.impl), st, StatsObjects(stats)
      ensures st != null ==> st.status == Unlocked
      ensures mutex.impl.SpinImpl? ==> mutex.impl.s.state.word == FreeWord(mutex.impl.s.state.arch)
      ensures mutex.impl.HtmImpl? && old(HeldIn(mutex.impl, st)) == LockedUnique ==>
        mutex.impl.h.state.word == FreeWord(mutex.impl.h.state.arch)
      ensures mutex.impl.HtmImpl? && old(HeldIn(mutex.impl, st)) == Elided ==>
        mutex.impl.h.state.word == old(mutex.impl.h.state.word)
      ensures View(stats) == AfterUnlock(old(View(stats)), old(HeldIn(mutex.impl, st)), nested)
    {
      UnlockUnique(mutex.impl, st, stats, nested);
    }
  }

  /** `shared_mutex_wrapper<Mutex, Handle, Profile>`. */
  class SharedMutexWrapper {
    const impl: SharedImpl
    const debug: bool

    constructor Null(debug: bool)
      ensures impl.NullSharedImpl? && this.debug == debug
    {
      var m := new NullSharedMutex();
      impl := NullSharedImpl(m);
      this.debug := debug;
    }

    /** The constructor runs `libtle_spin_shared_mutex_init`: the rwlock word starts at 0. */
    constructor Spin(debug: bool)
      ensures impl.SpinSharedImpl? && this.debug == debug
      ensures fresh(impl.s.state) && impl.s.state.word == 0
    {
      var m := new SpinSharedMutex();
      m.Init();
      impl := SpinSharedImpl(m);
      this.debug := debug;
    }

    /**
     * The constructor runs `libtle_htm_spin_shared_mutex_init`. This kind
     * has no `void`-handle alias: its handles always carry a status record.
     */
    constructor Htm(arch: Arch)
      ensures impl.HtmSharedImpl? && debug
      ensures fresh(impl.h.state) && fresh(impl.h.wflag)
      ensures impl.h.state.word == 0 && impl.h.wflag.arch == arch && impl.h.wflag.word == FreeWord(arch)
    {
      var m := new HtmSpinSharedMutex(arch);
      m.Init();
      impl := HtmSharedImpl(m);
      debug := true;
    }

    /** The `void` specialisation's own `lock(profile)`. */
    method Lock(stats: Stats, env: Env)
      requires !debug && SharedMatches(impl, stats) && !impl.HtmSharedImpl?
      requires WriterReady(impl, env)
      modifies SharedObjects(impl), StatsObjects(stats)
      ensures WriterHeld(impl, false)
      ensures View(stats) == old(View(stats))
    {
      var _, _ := LockWriter(impl, null, stats, env);
    }

    /** The `void` specialisation's own `lock_shared(profile)`. */
    method LockShared(stats: Stats, env: Env)
      requires !debug && SharedMatches(impl, stats) && !impl.HtmSharedImpl?
      requires ReaderReady(impl, env)
      modifies SharedObjects(impl), StatsObjects(stats)
      ensures ReaderHeld(impl, false)
      ensures impl.SpinSharedImpl? && env.rwRivals == [] ==>
        impl.s.state.word == AddReader(old(impl.s.state.word))
      ensures View(stats) == old(View(stats))
    {
      var _, _ := LockReader(impl, null, stats, env);
    }

    /** The `void` specialisation's own `unlock(profile)`. */
    method Unlock(stats: Stats)
      requires !debug && SharedMatches(impl, stats) && !impl.HtmSharedImpl?
      modifies SharedObjects(impl), StatsObjects(stats)
      ensures impl.SpinSharedImpl? ==> impl.s.state.word == WriteReleased(old(impl.s.state.word))
      ensures View(stats) == AfterUnlock(old(View(stats)), LockedUnique, false)
    {
      UnlockWriter(impl, null, stats, false);
    }

    /** The `void` specialisation's own `unlock_shared(profile)`. */
    method UnlockShared(stats: Stats)
      requires !debug && SharedMatches(impl, stats) && !impl.HtmSharedImpl?
      modifies SharedObjects(impl), StatsObjects(stats)
      ensures impl.SpinSharedImpl? ==> impl.s.state.word == RemoveReader(old(impl.s.state.word))
      ensures View(stats) == AfterUnlock(old(View(stats)), LockedShared, false)
    {
      UnlockReader(impl, null, stats, false);
    }
  }

  /** `shared_mutex_wrapper::handle_type`. */
  class SharedMutexHandle {
    const mutex: SharedMutexWrapper
    const stats: Stats
    const st: Handle?

    predicate Bound() {
      SharedMatches(mutex.impl, stats) && (mutex.impl.HtmSharedImpl? ==> st != null)
    }

    constructor (m: SharedMutexWrapper, s: Stats)
      requires SharedMatches(m.impl, s)
      requires m.impl.HtmSharedImpl? ==> m.debug
      ensures mutex == m && stats == s && Bound()
      ensures st != null <==> m.debug
      ensures st != null ==> fresh(st) && st.status == Unknown
    {
      mutex := m;
      stats := s;
      if m.debug {
        var h := new Handle();
        h.Init();
        st := h;
      } else {
        st := null;
      }
    }

    method Lock(env: Env) returns (aborts: seq<bv32>, elided: bool)
      requires Bound() && (st != null ==> MayLock(st.status))
      requires WriterReady(mutex.impl, env)
      modifies SharedObjects(mutex.impl), st, StatsObjects(stats)
      ensures WriterHeld(mutex.impl, elided)
      ensures mutex.impl.HtmSharedImpl? ==> RetriedWithin(aborts, env.begins, RetryLimit(false))
      ensures mutex.impl.HtmSharedImpl? && !elided ==> GaveUp(aborts, RetryLimit(false))
      ensures !mutex.impl.HtmSharedImpl? ==> aborts == []
      ensures st != null ==> st.status == (if elided then Elided else LockedUnique)
      ensures View(stats) == AfterLock(old(View(stats)), aborts)
    {
      aborts, elided := LockWriter(mutex.impl, st, stats, env);
    }

    method LockShared(env: Env) returns (aborts: seq<bv32>, elided: bool)
      requires Bound() && (st != null ==> MayLock(st.status))
      requires ReaderReady(mutex.impl, env)
      modifies SharedObjects(mutex.impl), st, StatsObjects(stats)
      ensures ReaderHeld(mutex.impl, elided)
      ensures mutex.impl.SpinSharedImpl? && env.rwRivals == [] ==>
        mutex.impl.s.state.word == AddReader(old(mutex.impl.s.state.word))
      ensures mutex.impl.HtmSharedImpl? && !elided && env.rwRivals == [] ==>
        mutex.impl.h.state.word == AddReader(old(mutex.impl.h.state.word))
      ensures mutex.impl.HtmSharedImpl? && elided ==> mutex.impl.h.state.word == old(mutex.impl.h.state.word)
      ensures mutex.impl.HtmSharedImpl? ==> RetriedWithin(aborts, env.begins, RetryLimit(true))
      ensures mutex.impl.HtmSharedImpl? && !elided ==> GaveUp(aborts, RetryLimit(true))
      ensures !mutex.impl.HtmSharedImpl? ==> aborts == []
      ensures st != null ==> st.status == (if elided then Elided else LockedShared)
      ensures View(stats) == AfterLock(old(View(stats)), aborts)
    {
      aborts, elided := LockReader(mutex.impl, st, stats, env);
    }

    method Unlock(nested: bool)
      requires Bound() && (st != null ==> WriterUnlockable(mutex.impl, st.status))
      modifies SharedObjects(mutex.impl), st, StatsObjects(stats)
      ensures st != null ==> st.status == Unlocked
      ensures mutex.impl.SpinSharedImpl? ==> mutex.impl.s.state.word == WriteReleased(old(mutex.impl.s.state.word))
      ensures mutex.impl.HtmSharedImpl? && old(Held(st)) == LockedUnique ==>
        mutex.impl.h.state.word == WriteReleased(old(mutex.impl.h.state.word)) &&
        mutex.impl.h.wflag.word == FreeWord(mutex.impl.h.wflag.arch)
      ensures mutex.impl.HtmSharedImpl? && old(Held(st)) == Elided ==>
        mutex.impl.h.state.word == old(mutex.impl.h.state.word) && mutex.impl.h.wflag.word == old(mutex.impl.h.wflag.word)
      ensures View(stats) == AfterUnlock(old(View(stats)), old(Held(st)), nested)
    {
      UnlockWriter(mutex.impl, st, stats, nested);
    }

    method UnlockShared(nested: bool)
      requires Bound() && (st != null ==> ReaderUnlockable(mutex.impl, st.status))
      modifies SharedObjects(mutex.impl), st, StatsObjects(stats)
      ensures st != null ==> st.status == Unlocked
      ensures mutex.impl.SpinSharedImpl? ==> mutex.impl.s.state.word == RemoveReader(old(mutex.impl.s.state.word))
      ensures mutex.impl.HtmSharedImpl? && old(Held(st)) == LockedShared ==>
        mutex.impl.h.state.word == RemoveReader(old(mutex.impl.h.state.word))
      ensures mutex.impl.HtmSharedImpl? && old(Held(st)) == Elided ==>
        mutex.impl.h.state.word == old(mutex.impl.h.state.word)
      ensures mutex.impl.HtmSharedImpl? ==> mutex.impl.h.wflag.word == old(mutex.impl.h.wflag.word)
      ensures View(stats) == AfterUnlock(old(View(stats)), old(Held(st)), nested)
    {
      UnlockReader(mutex.impl, st, stats, nested);
    }
  }
}
