/**
 * Status words of the hardware transactional memory interface, as the
 * AArch64 TME layer of libTLE defines them (tle/tme.h), the self-abort
 * code the mutexes use, the restart test of the elision loops and their
 * retry limits (tle/mutex.h).
 *
 * `_xbegin` is not modelled as an instruction: the lock algorithms take the
 * sequence of values it returns as an input (an oracle), one per attempt.
 */
module Htm {

  /** `_xbegin` returns this when the transaction has started. */
  const XBEGIN_STARTED: bv32 := 0

  const XABORT_RETRY: bv32 := 0x8000        // 1 << 15
  const XABORT_EXPLICIT: bv32 := 0x1_0000   // 1 << 16
  const XABORT_CONFLICT: bv32 := 0x2_0000   // 1 << 17
  const XABORT_UNKNOWN: bv32 := 0x4_0000    // 1 << 18
  const XABORT_ERROR: bv32 := 0x8_0000      // 1 << 19
  const XABORT_CAPACITY: bv32 := 0x10_0000  // 1 << 20
  const XABORT_NESTED: bv32 := 0x20_0000    // 1 << 21
  const XABORT_DEBUG: bv32 := 0x40_0000     // 1 << 22
  const XABORT_INTERRUPT: bv32 := 0x80_0000 // 1 << 23

  /** The reason code carried in the low 15 bits of an abort status. */
  function XabortCode(x: bv32): (code: bv32)
    ensures code <= 0x7fff
  {
    x & 0x7fff
  }

  /** The code a transaction cancels itself with when it finds the fallback lock held (AArch64 value). */
  const LOCK_IS_LOCKED: bv32 := 65535

  const HTM_SPIN_MUTEX_RETRY_LIMIT: nat := 10
  const HTM_SPIN_SHARED_MUTEX_WRITE_RETRY_LIMIT: nat := 10
  const HTM_SPIN_SHARED_MUTEX_READ_RETRY_LIMIT: nat := 10

  /**
   * `_XBEGIN_RESTART` on AArch64: an abort is retried only when the hardware
   * flags it retryable, which a started transaction never is.
   */
  function Restart(xstatus: bv32): (retry: bool)
    ensures retry ==> xstatus != XBEGIN_STARTED
  {
    xstatus & XABORT_RETRY != 0
  }

  /**
   * The status `_xbegin` returns after the transaction cancelled itself with
   * `_xabort(LOCK_IS_LOCKED)`: TCANCEL sets the cancellation (explicit) bit and
   * copies its 16-bit immediate into the low half, whose bit 15 is the retry flag.
   */
  function SelfAbortStatus(): (xstatus: bv32)
    ensures xstatus != XBEGIN_STARTED
    ensures xstatus & XABORT_EXPLICIT != 0 && xstatus & XABORT_CONFLICT == 0
    ensures Restart(xstatus)
    ensures XabortCode(xstatus) == XabortCode(LOCK_IS_LOCKED)
  {
    XABORT_EXPLICIT | (LOCK_IS_LOCKED & 0xffff)
  }

  /**
   * The status one elision attempt ends with when it does not elide: what
   * `_xbegin` returned, or the self-abort status when the transaction started
   * but saw the fallback lock held.
   */
  predicate AttemptAborted(begun: bv32, xstatus: bv32) {
    xstatus != XBEGIN_STARTED &&
    (xstatus == begun || (begun == XBEGIN_STARTED && xstatus == SelfAbortStatus()))
  }

  /**
   * The shape of the abort statuses one elision loop records: at most `limit`
   * of them, each produced by the attempt with the same index, and every one
   * but possibly the last retryable.
   */
  ghost predicate RetriedWithin(aborts: seq<bv32>, begins: seq<bv32>, limit: nat) {
    |aborts| <= limit && |aborts| <= |begins| &&
    (forall k :: 0 <= k < |aborts| ==> AttemptAborted(begins[k], aborts[k])) &&
    (forall k :: 0 <= k < |aborts| - 1 ==> Restart(aborts[k]))
  }

  /** The loop gave up: the last abort was not retryable or the limit was reached. */
  ghost predicate GaveUp(aborts: seq<bv32>, limit: nat) {
    |aborts| >= 1 && (|aborts| == limit || !Restart(aborts[|aborts| - 1]))
  }
}
