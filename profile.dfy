/**
 * Statistics ("profile") records of libTLE: the null record, the plain
 * acquisition counter and the seven HTM counters, with their C operations
 * (tle/profile.h) and the C++ wrapper members over them (tle/profile.hpp).
 *
 * Counters are `uint64_t`; every addition below wraps around at 2^64 as the
 * C arithmetic does. The value-level definitions (HtmCounters and the
 * functions over it) specify the in-place methods of the classes.
 */
module Profile {
  import opened Htm

  const U64_LIMIT: int := 0x1_0000_0000_0000_0000

  type U64 = x: int | 0 <= x < U64_LIMIT

  /** `uint64_t` addition. */
  function Add64(a: U64, b: U64): (r: U64)
    ensures r == (a + b) % U64_LIMIT
  {
    if a + b < U64_LIMIT then a + b else a + b - U64_LIMIT
  }

  lemma Add64Commutes(a: U64, b: U64)
    ensures Add64(a, b) == Add64(b, a)
  {
  }

  lemma Add64Associates(a: U64, b: U64, c: U64)
    ensures Add64(Add64(a, b), c) == Add64(a, Add64(b, c))
  {
  }

  // ---------------------------------------------------------------------------
  // Value view of the HTM record
  // ---------------------------------------------------------------------------

  datatype HtmCounters = HtmCounters(
    acquired: U64,
    elided: U64,
    explicitAborts: U64,
    conflictAborts: U64,
    capacityAborts: U64,
    nestedAborts: U64,
    otherAborts: U64)

  const HTM_ZERO: HtmCounters := HtmCounters(0, 0, 0, 0, 0, 0, 0)

  /** The abort total, summed in `uint64_t` in the order the consistency check sums it. */
  function AbortTotal(c: HtmCounters): U64 {
    Add64(Add64(Add64(Add64(c.explicitAborts, c.conflictAborts), c.capacityAborts),
                c.nestedAborts), c.otherAborts)
  }

  /** `libtle_htm_mutex_profile_internally_consistent` on a value. */
  predicate HtmConsistent(c: HtmCounters, sum: U64) {
    Add64(c.acquired, c.elided) == sum &&
    (c.acquired <= AbortTotal(c) || (AbortTotal(c) == 0 && c.elided == 0))
  }

  /** Field-wise sum: what `libtle_htm_mutex_profile_accumulate` leaves in its target. */
  function HtmSum(a: HtmCounters, b: HtmCounters): HtmCounters {
    HtmCounters(
      Add64(a.acquired, b.acquired),
      Add64(a.elided, b.elided),
      Add64(a.explicitAborts, b.explicitAborts),
      Add64(a.conflictAborts, b.conflictAborts),
      Add64(a.capacityAborts, b.capacityAborts),
      Add64(a.nestedAborts, b.nestedAborts),
      Add64(a.otherAborts, b.otherAborts))
  }

  /** One fallback acquisition released. */
  function UnlockOf(c: HtmCounters): HtmCounters {
    c.(acquired := Add64(c.acquired, 1))
  }

  /** One elided critical section committed. */
  function CommitOf(c: HtmCounters): HtmCounters {
    c.(elided := Add64(c.elided, 1))
  }

  datatype AbortKind = ConflictAbort | ExplicitAbort | CapacityAbort | NestedAbort | OtherAbort

  /** Position in the order in which the abort bits are examined. */
  function Priority(k: AbortKind): nat {
    match k
    case ConflictAbort => 0
    case ExplicitAbort => 1
    case CapacityAbort => 2
    case NestedAbort => 3
    case OtherAbort => 4
  }

  /** The status bit that selects a kind; the catch-all kind has none. */
  function KindBit(k: AbortKind): bv32 {
    match k
    case ConflictAbort => XABORT_CONFLICT
    case ExplicitAbort => XABORT_EXPLICIT
    case CapacityAbort => XABORT_CAPACITY
    case NestedAbort => XABORT_NESTED
    case OtherAbort => 0
  }

  /**
   * The counter an abort status is charged to: the first kind, in priority
   * order, whose bit is set; the catch-all when none of the four is.
   */
  function Classify(xstatus: bv32): (k: AbortKind)
    ensures forall j :: Priority(j) < Priority(k) ==> xstatus & KindBit(j) == 0
    ensures k != OtherAbort ==> xstatus & KindBit(k) != 0
  {
    if xstatus & XABORT_CONFLICT != 0 then ConflictAbort
    else if xstatus & XABORT_EXPLICIT != 0 then ExplicitAbort
    else if xstatus & XABORT_CAPACITY != 0 then CapacityAbort
    else if xstatus & XABORT_NESTED != 0 then NestedAbort
    else OtherAbort
  }

  /** The counter that counts aborts of one kind. */
  function AbortCount(c: HtmCounters, k: AbortKind): U64 {
    match k
    case ConflictAbort => c.conflictAborts
    case ExplicitAbort => c.explicitAborts
    case CapacityAbort => c.capacityAborts
    case NestedAbort => c.nestedAborts
    case OtherAbort => c.otherAborts
  }

  /**
   * The counters after `libtle_htm_mutex_profile_update_abort(p, xstatus)`:
   * the counter of the status's kind rises by one and no other counter moves.
   */
  function RecordAbort(c: HtmCounters, xstatus: bv32): (r: HtmCounters)
    ensures r.acquired == c.acquired && r.elided == c.elided
    ensures forall k ::
              AbortCount(r, k) == if k == Classify(xstatus) then Add64(AbortCount(c, k), 1) else AbortCount(c, k)
  {
    match Classify(xstatus)
    case ConflictAbort => c.(conflictAborts := Add64(c.conflictAborts, 1))
    case ExplicitAbort => c.(explicitAborts := Add64(c.explicitAborts, 1))
    case CapacityAbort => c.(capacityAborts := Add64(c.capacityAborts, 1))
    case NestedAbort => c.(nestedAborts := Add64(c.nestedAborts, 1))
    case OtherAbort => c.(otherAborts := Add64(c.otherAborts, 1))
  }

  /** The five abort counters summed without wrap-around. */
  function RawAbortTotal(c: HtmCounters): int {
    c.explicitAborts + c.conflictAborts + c.capacityAborts + c.nestedAborts + c.otherAborts
  }

  lemma ModShift(x: int, k: int)
    ensures (x + k * U64_LIMIT) % U64_LIMIT == x % U64_LIMIT
  {
  }

  lemma ModAddLeft(x: int, y: int)
    ensures (x % U64_LIMIT + y) % U64_LIMIT == (x + y) % U64_LIMIT
  {
    ModShift(x % U64_LIMIT + y, x / U64_LIMIT);
  }

  /** Adding to a wrapped partial sum wraps the whole sum. */
  lemma Add64Wraps(x: int, y: U64)
    requires x >= 0
    ensures Add64(x % U64_LIMIT, y) == (x + y) % U64_LIMIT
  {
    ModAddLeft(x, y);
  }

  /** The wrapped abort total is the true total reduced mod 2^64. */
  lemma AbortTotalWraps(c: HtmCounters)
    ensures AbortTotal(c) == RawAbortTotal(c) % U64_LIMIT
  {
    FiveWrap(c.explicitAborts, c.conflictAborts, c.capacityAborts, c.nestedAborts, c.otherAborts);
  }

  lemma FiveWrap(e: U64, f: U64, g: U64, h: U64, i: U64)
    ensures Add64(Add64(Add64(Add64(e, f), g), h), i) == (e + f + g + h + i) % U64_LIMIT
  {
    var s2 := Add64(Add64(e, f), g);
    assert s2 == (e + f + g) % U64_LIMIT by {
      Add64Wraps(e + f, g);
    }
    var s3 := Add64(s2, h);
    assert s3 == (e + f + g + h) % U64_LIMIT by {
      Add64Wraps(e + f + g, h);
    }
    Add64Wraps(e + f + g + h, i);
  }

  /** Recording one abort adds one to exactly one abort counter, which may wrap to zero. */
  lemma RecordAbortRaw(c: HtmCounters, xstatus: bv32)
    ensures RawAbortTotal(RecordAbort(c, xstatus)) == RawAbortTotal(c) + 1 ||
            RawAbortTotal(RecordAbort(c, xstatus)) == RawAbortTotal(c) + 1 - U64_LIMIT
    ensures RecordAbort(c, xstatus).acquired == c.acquired
    ensures RecordAbort(c, xstatus).elided == c.elided
  {
    match Classify(xstatus)
    case ConflictAbort =>
    case ExplicitAbort =>
    case CapacityAbort =>
    case NestedAbort =>
    case OtherAbort =>
  }

  /**
   * `update_abort` charges exactly one abort counter: the abort total rises
   * by one (mod 2^64) and the acquisition and elision counters stay put.
   */
  lemma RecordAbortCounts(c: HtmCounters, xstatus: bv32)
    ensures AbortTotal(RecordAbort(c, xstatus)) == Add64(AbortTotal(c), 1)
    ensures RecordAbort(c, xstatus).acquired == c.acquired
    ensures RecordAbort(c, xstatus).elided == c.elided
  {
    var r := RecordAbort(c, xstatus);
    RecordAbortRaw(c, xstatus);
    AbortTotalWraps(c);
    AbortTotalWraps(r);
    WrapStep(RawAbortTotal(c), RawAbortTotal(r));
  }

  /** A raw total that rose by one, possibly wrapping, reduces to one more than before. */
  lemma WrapStep(raw: int, raw': int)
    requires raw' == raw + 1 || raw' == raw + 1 - U64_LIMIT
    ensures raw' % U64_LIMIT == (raw % U64_LIMIT + 1) % U64_LIMIT
  {
    ModShift(raw + 1 - U64_LIMIT, 1);
    ModAddLeft(raw, 1);
  }

  /** The counters after recording a sequence of abort statuses in order. */
  function RecordAborts(c: HtmCounters, aborts: seq<bv32>): HtmCounters
    decreases |aborts|
  {
    if aborts == [] then c
    else RecordAbort(RecordAborts(c, aborts[..|aborts| - 1]), aborts[|aborts| - 1])
  }

  /** Recording n aborts raises the abort total by exactly n (mod 2^64) and touches no other counter. */
  lemma {:induction false} RecordAbortsTotal(c: HtmCounters, aborts: seq<bv32>)
    ensures AbortTotal(RecordAborts(c, aborts)) == (AbortTotal(c) + |aborts|) % U64_LIMIT
    ensures RecordAborts(c, aborts).acquired == c.acquired
    ensures RecordAborts(c, aborts).elided == c.elided
    decreases |aborts|
  {
    if aborts != [] {
      var init := aborts[..|aborts| - 1];
      RecordAbortsTotal(c, init);
      RecordAbortCounts(RecordAborts(c, init), aborts[|aborts| - 1]);
      ModAddLeft(AbortTotal(c) + |init|, 1);
    }
  }

  lemma HtmSumCommutes(a: HtmCounters, b: HtmCounters)
    ensures HtmSum(a, b) == HtmSum(b, a)
  {
  }

  lemma HtmSumAssociates(a: HtmCounters, b: HtmCounters, c: HtmCounters)
    ensures HtmSum(HtmSum(a, b), c) == HtmSum(a, HtmSum(b, c))
  {
    Add64Associates(a.acquired, b.acquired, c.acquired);
    Add64Associates(a.elided, b.elided, c.elided);
    Add64Associates(a.explicitAborts, b.explicitAborts, c.explicitAborts);
    Add64Associates(a.conflictAborts, b.conflictAborts, c.conflictAborts);
    Add64Associates(a.capacityAborts, b.capacityAborts, c.capacityAborts);
    Add64Associates(a.nestedAborts, b.nestedAborts, c.nestedAborts);
    Add64Associates(a.otherAborts, b.otherAborts, c.otherAborts);
  }

  lemma HtmSumZero(a: HtmCounters)
    ensures HtmSum(a, HTM_ZERO) == a && HtmSum(HTM_ZERO, a) == a
  {
  }

  /** Accumulating two records adds their abort totals, modulo 2^64. */
  lemma HtmSumAbortTotal(a: HtmCounters, b: HtmCounters)
    ensures AbortTotal(HtmSum(a, b)) == Add64(AbortTotal(a), AbortTotal(b))
  {
    var s := HtmSum(a, b);
    var ra, rb := RawAbortTotal(a), RawAbortTotal(b);
    var e, f, g := a.explicitAborts + b.explicitAborts, a.conflictAborts + b.conflictAborts, a.capacityAborts + b.capacityAborts;
    var h, i := a.nestedAborts + b.nestedAborts, a.otherAborts + b.otherAborts;
    var total := e + f + g + h + i;
    assert total == ra + rb;
    calc {
      AbortTotal(s);
      { AbortTotalWraps(s); }
      RawAbortTotal(s) % U64_LIMIT;
      { WrappedFiveSum(e, f, g, h, i, s.explicitAborts, s.conflictAborts, s.capacityAborts, s.nestedAborts, s.otherAborts); }
      total % U64_LIMIT;
      { Add64OfResidues(ra, rb); }
      Add64(ra % U64_LIMIT, rb % U64_LIMIT);
      { AbortTotalWraps(a); AbortTotalWraps(b); }
      Add64(AbortTotal(a), AbortTotal(b));
    }
  }

  /** Adding two reduced values in `uint64_t` reduces their true sum. */
  lemma Add64OfResidues(x: int, y: int)
    ensures Add64(x % U64_LIMIT, y % U64_LIMIT) == (x + y) % U64_LIMIT
  {
    ModAddLeft(x, y % U64_LIMIT);
    ModAddLeft(y, x);
  }

  /** Five wrapped terms sum to the residue of their true sum. */
  lemma WrappedFiveSum(e: int, f: int, g: int, h: int, i: int, e': int, f': int, g': int, h': int, i': int)
    requires e' == e % U64_LIMIT && f' == f % U64_LIMIT && g' == g % U64_LIMIT
    requires h' == h % U64_LIMIT && i' == i % U64_LIMIT
    ensures (e' + f' + g' + h' + i') % U64_LIMIT == (e + f + g + h + i) % U64_LIMIT
  {
    var m := U64_LIMIT;
    calc {
      (e' + f' + g' + h' + i') % m;
      (e % m + (f' + g' + h' + i')) % m;
      { ModAddLeft(e, f' + g' + h' + i'); }
      (f % m + (e + g' + h' + i')) % m;
      { ModAddLeft(f, e + g' + h' + i'); }
      (g % m + (e + f + h' + i')) % m;
      { ModAddLeft(g, e + f + h' + i'); }
      (h % m + (e + f + g + i')) % m;
      { ModAddLeft(h, e + f + g + i'); }
      (i % m + (e + f + g + h)) % m;
      { ModAddLeft(i, e + f + g + h); }
      (e + f + g + h + i) % m;
    }
  }

  /**
   * Accumulating two consistent records whose fallback acquisitions are each
   * covered by their aborts gives a record consistent with the sum of their
   * section counts, as long as the abort totals together do not wrap.
   */
  lemma MergeConsistent(c1: HtmCounters, s1: U64, c2: HtmCounters, s2: U64)
    requires HtmConsistent(c1, s1) && HtmConsistent(c2, s2)
    requires c1.acquired <= AbortTotal(c1) && c2.acquired <= AbortTotal(c2)
    requires AbortTotal(c1) + AbortTotal(c2) < U64_LIMIT
    ensures HtmConsistent(HtmSum(c1, c2), Add64(s1, s2))
  {
    var m := HtmSum(c1, c2);
    HtmSumAbortTotal(c1, c2);
    assert m.acquired == c1.acquired + c2.acquired;
    ModAddLeft(c1.elided + c2.elided, m.acquired);
    ModAddLeft(c1.acquired + c1.elided, s2);
    ModAddLeft(c2.acquired + c2.elided, c1.acquired + c1.elided);
  }

  /**
   * Without that coverage accumulation does not keep consistency: a record
   * that only fell back (accepted, nothing aborted or elided) merged with one
   * that only aborted is rejected.
   */
  lemma MergeUncoveredRejected()
    ensures HtmConsistent(HTM_ZERO.(acquired := 2), 2)
    ensures HtmConsistent(HTM_ZERO.(conflictAborts := 1), 0)
    ensures !HtmConsistent(HtmSum(HTM_ZERO.(acquired := 2), HTM_ZERO.(conflictAborts := 1)), 2)
  {
  }

  /**
   * The consistency check in the form the HTM protocol makes useful: once the
   * fallback acquisitions are covered by recorded aborts, the record is
   * consistent for exactly one sum, the number of completed sections.
   */
  lemma ConsistentWhenCovered(c: HtmCounters, sum: U64)
    requires c.acquired <= AbortTotal(c)
    ensures HtmConsistent(c, sum) <==> Add64(c.acquired, c.elided) == sum
  {
  }

  /** Fallback acquisitions with no recorded abort and nothing elided are still accepted. */
  lemma ConsistentWithoutHtm(c: HtmCounters)
    requires AbortTotal(c) == 0 && c.elided == 0
    ensures HtmConsistent(c, c.acquired)
  {
  }

  /** Fallback acquisitions outnumbering aborts once anything was elided or aborted are rejected. */
  lemma InconsistentWhenUncovered(c: HtmCounters, sum: U64)
    requires AbortTotal(c) < c.acquired && (AbortTotal(c) != 0 || c.elided != 0)
    ensures !HtmConsistent(c, sum)
  {
  }

  // ---------------------------------------------------------------------------
  // One acquisition's worth of events, and a whole run of them
  // ---------------------------------------------------------------------------

  /**
   * What one lock/unlock pair of an HTM mutex records: the abort statuses of
   * its failed attempts, whether it fell back to the real lock, and whether
   * the commit happened inside an enclosing transaction (no commit counted).
   */
  datatype Acquisition = Acquisition(aborts: seq<bv32>, fallback: bool, nested: bool)

  /** What the elision loop guarantees: the fallback is taken only after an abort. */
  predicate WellFormed(a: Acquisition) {
    a.fallback ==> |a.aborts| >= 1
  }

  function Settle(c: HtmCounters, a: Acquisition): HtmCounters {
    var r := RecordAborts(c, a.aborts);
    if a.fallback then UnlockOf(r) else if a.nested then r else CommitOf(r)
  }

  function Replay(c: HtmCounters, run: seq<Acquisition>): HtmCounters
    decreases |run|
  {
    if run == [] then c else Settle(Replay(c, run[..|run| - 1]), run[|run| - 1])
  }

  /** Acquisitions that end in a counted unlock or commit. */
  function Completed(run: seq<Acquisition>): nat
    decreases |run|
  {
    if run == [] then 0
    else Completed(run[..|run| - 1]) + (if run[|run| - 1].fallback || !run[|run| - 1].nested then 1 else 0)
  }

  function Fallbacks(run: seq<Acquisition>): nat
    decreases |run|
  {
    if run == [] then 0 else Fallbacks(run[..|run| - 1]) + (if run[|run| - 1].fallback then 1 else 0)
  }

  function AbortsIn(run: seq<Acquisition>): nat
    decreases |run|
  {
    if run == [] then 0 else AbortsIn(run[..|run| - 1]) + |run[|run| - 1].aborts|
  }

  lemma {:induction false} FallbacksWithinAborts(run: seq<Acquisition>)
    requires forall k :: 0 <= k < |run| ==> WellFormed(run[k])
    ensures Fallbacks(run) <= AbortsIn(run)
    decreases |run|
  {
    if run != [] {
      FallbacksWithinAborts(run[..|run| - 1]);
    }
  }

  lemma {:induction false} FallbacksWithinCompleted(run: seq<Acquisition>)
    ensures Fallbacks(run) <= Completed(run)
    decreases |run|
  {
    if run != [] {
      FallbacksWithinCompleted(run[..|run| - 1]);
    }
  }

  lemma {:induction false} CompletedWithinRun(run: seq<Acquisition>)
    ensures Completed(run) <= |run|
    decreases |run|
  {
    if run != [] {
      CompletedWithinRun(run[..|run| - 1]);
    }
  }

  /** While nothing wraps, replaying a run from zero counts it exactly. */
  lemma {:induction false} ReplayCounts(run: seq<Acquisition>)
    requires AbortsIn(run) < U64_LIMIT && Completed(run) < U64_LIMIT
    ensures Replay(HTM_ZERO, run).acquired == Fallbacks(run)
    ensures Add64(Replay(HTM_ZERO, run).acquired, Replay(HTM_ZERO, run).elided) == Completed(run)
    ensures AbortTotal(Replay(HTM_ZERO, run)) == AbortsIn(run)
    decreases |run|
  {
    if run != [] {
      var init := run[..|run| - 1];
      var a := run[|run| - 1];
      ReplayCounts(init);
      var c := Replay(HTM_ZERO, init);
      RecordAbortsTotal(c, a.aborts);
      FallbacksWithinCompleted(run);
    }
  }

  /**
   * The profile consistency promise: after any run of well-formed HTM
   * acquisitions on a fresh record, `internally_consistent(N)` holds for N
   * the number of completed sections (as long as no counter wraps).
   */
  lemma ReplayConsistent(run: seq<Acquisition>)
    requires forall k :: 0 <= k < |run| ==> WellFormed(run[k])
    requires AbortsIn(run) < U64_LIMIT && Completed(run) < U64_LIMIT
    ensures HtmConsistent(Replay(HTM_ZERO, run), Completed(run))
  {
    ReplayCounts(run);
    FallbacksWithinAborts(run);
  }

  // ---------------------------------------------------------------------------
  // The three records, updated in place
  // ---------------------------------------------------------------------------

  /** `libtle_null_mutex_profile_t` / `tle::null_mutex_profile`: no counters at all. */
  class NullProfile {

    /** The C++ wrapper's constructor, which runs the (empty) init. */
    constructor ()
    {
    }

    /** `libtle_null_mutex_profile_init`: nothing to reset. */
    method Init()
    {
    }

    /** `libtle_null_mutex_profile_internally_consistent`: every sum is accepted. */
    function InternallyConsistent(sum: U64): (ok: bool)
      ensures ok
    {
      true
    }

    /** `libtle_null_mutex_profile_accumulate`: nothing to add. */
    method Accumulate(q: NullProfile)
    {
    }

    /** `libtle_null_mutex_profile_update_unlock`: nothing to count. */
    method UpdateUnlock()
    {
    }
  }

  /** `libtle_mutex_profile_t` / `tle::mutex_profile`: one acquisition counter. */
  class PlainProfile {
    var locksAcquired: U64

    /** The C++ wrapper's constructor runs `libtle_mutex_profile_init`. */
    constructor ()
      ensures locksAcquired == 0
    {
      locksAcquired := 0;
    }

    method Init()
      modifies this
      ensures locksAcquired == 0
    {
      locksAcquired := 0;
    }

    /** The plain check is the HTM check on a record that never elided or aborted. */
    function InternallyConsistent(sum: U64): (ok: bool)
      reads this
      ensures ok <==> HtmConsistent(HTM_ZERO.(acquired := locksAcquired), sum)
    {
      locksAcquired == sum
    }

    method Accumulate(q: PlainProfile)
      modifies this
      ensures locksAcquired == Add64(old(locksAcquired), old(q.locksAcquired))
    {
      locksAcquired := Add64(locksAcquired, q.locksAcquired);
    }

    /** `operator+=`: accumulate into this record and return it. */
    method AddAssign(other: PlainProfile) returns (self: PlainProfile)
      modifies this
      ensures self == this
      ensures locksAcquired == Add64(old(locksAcquired), old(other.locksAcquired))
    {
      Accumulate(other);
      self := this;
    }

    /** `operator+`: accumulate into a copy; neither operand changes. */
    method Plus(other: PlainProfile) returns (r: PlainProfile)
      ensures fresh(r)
      ensures r.locksAcquired == Add64(locksAcquired, other.locksAcquired)
    {
      r := new PlainProfile();
      r.locksAcquired := locksAcquired;
      var _ := r.AddAssign(other);
    }

    method UpdateUnlock()
      modifies this
      ensures locksAcquired == Add64(old(locksAcquired), 1)
    {
      locksAcquired := Add64(locksAcquired, 1);
    }
  }

  /** `libtle_htm_mutex_profile_t` / `tle::htm_mutex_profile`: seven counters. */
  class HtmProfile {
    var locksAcquired: U64
    var locksElided: U64
    var explicitAborts: U64
    var conflictAborts: U64
    var capacityAborts: U64
    var nestedAborts: U64
    var otherAborts: U64

    function Counters(): HtmCounters
      reads this
    {
      HtmCounters(locksAcquired, locksElided, explicitAborts, conflictAborts,
                  capacityAborts, nestedAborts, otherAborts)
    }

    method Set(c: HtmCounters)
      modifies this
      ensures Counters() == c
    {
      locksAcquired, locksElided := c.acquired, c.elided;
      explicitAborts, conflictAborts := c.explicitAborts, c.conflictAborts;
      capacityAborts, nestedAborts, otherAborts := c.capacityAborts, c.nestedAborts, c.otherAborts;
    }

    /** The C++ wrapper's constructor runs `libtle_htm_mutex_profile_init`. */
    constructor ()
      ensures Counters() == HTM_ZERO
    {
      locksAcquired, locksElided := 0, 0;
      explicitAborts, conflictAborts, capacityAborts, nestedAborts, otherAborts := 0, 0, 0, 0, 0;
    }

    method Init()
      modifies this
      ensures Counters() == HTM_ZERO
    {
      locksAcquired := 0;
      locksElided := 0;
      explicitAborts := 0;
      conflictAborts := 0;
      capacityAborts := 0;
      nestedAborts := 0;
      otherAborts := 0;
    }

    /**
     * With the fallback acquisitions covered by aborts the record is consistent
     * exactly for the number of completed sections; with more fallbacks than
     * aborts it is rejected unless HTM never ran.
     */
    function InternallyConsistent(sum: U64): (ok: bool)
      reads this
      ensures locksAcquired <= AbortTotal(Counters()) ==> (ok <==> Add64(locksAcquired, locksElided) == sum)
      ensures AbortTotal(Counters()) < locksAcquired && (AbortTotal(Counters()) != 0 || locksElided != 0) ==> !ok
    {
      HtmConsistent(Counters(), sum)
    }

    method Accumulate(q: HtmProfile)
      modifies this
      ensures Counters() == HtmSum(old(Counters()), old(q.Counters()))
    {
      locksAcquired := Add64(locksAcquired, q.locksAcquired);
      locksElided := Add64(locksElided, q.locksElided);
      explicitAborts := Add64(explicitAborts, q.explicitAborts);
      conflictAborts := Add64(conflictAborts, q.conflictAborts);
      capacityAborts := Add64(capacityAborts, q.capacityAborts);
      nestedAborts := Add64(nestedAborts, q.nestedAborts);
      otherAborts := Add64(otherAborts, q.otherAborts);
    }

    /** `operator+=`. */
    method AddAssign(other: HtmProfile) returns (self: HtmProfile)
      modifies this
      ensures self == this
      ensures Counters() == HtmSum(old(Counters()), old(other.Counters()))
    {
      Accumulate(other);
      self := this;
    }

    /** `operator+`: the field-wise sum in a fresh record; both operands unchanged. */
    method Plus(other: HtmProfile) returns (r: HtmProfile)
      ensures fresh(r)
      ensures r.Counters() == HtmSum(Counters(), other.Counters())
    {
      r := new HtmProfile();
      r.Set(Counters());
      var _ := r.AddAssign(other);
    }

    method UpdateUnlock()
      modifies this
      ensures Counters() == UnlockOf(old(Counters()))
    {
      locksAcquired := Add64(locksAcquired, 1);
    }

    method UpdateCommit()
      modifies this
      ensures Counters() == CommitOf(old(Counters()))
    {
      locksElided := Add64(locksElided, 1);
    }

    method UpdateAbort(xstatus: bv32)
      modifies this
      ensures Counters() == RecordAbort(old(Counters()), xstatus)
    {
      if xstatus & XABORT_CONFLICT != 0 {
        assert Classify(xstatus) == ConflictAbort;
        conflictAborts := Add64(conflictAborts, 1);
      } else if xstatus & XABORT_EXPLICIT != 0 {
        assert Classify(xstatus) == ExplicitAbort;
        explicitAborts := Add64(explicitAborts, 1);
      } else if xstatus & XABORT_CAPACITY != 0 {
        assert Classify(xstatus) == CapacityAbort;
        capacityAborts := Add64(capacityAborts, 1);
      } else if xstatus & XABORT_NESTED != 0 {
        assert Classify(xstatus) == NestedAbort;
        nestedAborts := Add64(nestedAborts, 1);
      } else {
        assert Classify(xstatus) == OtherAbort;
        otherAborts := Add64(otherAborts, 1);
      }
    }
  }
}
