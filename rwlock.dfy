/**
 * The reader-writer spinlock of libTLE (tle/rwlock.h): one unsigned 32-bit
 * word. Bit 0 marks an active writer, bit 1 a pending writer, and bits 2-31
 * count active readers. The portable C loops are modelled; the x86-64 and
 * AArch64 assembly variants follow the same protocol.
 *
 * Unsigned arithmetic wraps at 2^32, which `bv32` does by construction.
 */
module RwLocks {
  import opened Interference

  predicate WriterActive(w: bv32) {
    w & 1 != 0
  }

  predicate WriterPending(w: bv32) {
    w & 2 != 0
  }

  /** The reader count held in bits 2-31. */
  function Readers(w: bv32): bv32 {
    w >> 2
  }

  /** A word is determined by its three fields. */
  lemma FieldsDetermine(a: bv32, b: bv32)
    requires WriterActive(a) == WriterActive(b) && WriterPending(a) == WriterPending(b)
    requires Readers(a) == Readers(b)
    ensures a == b
  {
  }

  /** `write_lock` may take the lock: no active writer and no reader, pending bit ignored (`!(s & ~2u)`). */
  function WriteFree(w: bv32): (free: bool)
    ensures free <==> !WriterActive(w) && Readers(w) == 0
  {
    w & !2 == 0
  }

  /** `read_lock` may try: neither an active nor a pending writer (`!(s & 3u)`). */
  function ReadFree(w: bv32): (free: bool)
    ensures free <==> !WriterActive(w) && !WriterPending(w)
  {
    w & 3 == 0
  }

  /** What the writer's `fetch_or(2)` leaves: the pending bit set, everything else kept. */
  function MarkPending(w: bv32): (r: bv32)
    ensures WriterPending(r)
    ensures WriterActive(r) == WriterActive(w)
    ensures Readers(r) == Readers(w)
  {
    assert (w | 2) >> 2 == w >> 2;
    assert (w | 2) & 1 == w & 1;
    w | 2
  }

  /** What `write_unlock`'s `fetch_and(~3)` leaves: both writer bits clear, readers kept. */
  function WriteReleased(w: bv32): (r: bv32)
    ensures !WriterActive(r) && !WriterPending(r)
    ensures Readers(r) == Readers(w)
  {
    w & !3
  }

  /** What the reader's `fetch_add(4)` leaves: one more reader (mod 2^30), writer bits kept. */
  function AddReader(w: bv32): (r: bv32)
    ensures Readers(r) == (Readers(w) + 1) & 0x3fff_ffff
    ensures WriterActive(r) == WriterActive(w) && WriterPending(r) == WriterPending(w)
  {
    w + 4
  }

  /** What `fetch_sub(4)` leaves: one reader fewer (mod 2^30), writer bits kept. */
  function RemoveReader(w: bv32): (r: bv32)
    ensures Readers(r) == (Readers(w) - 1) & 0x3fff_ffff
    ensures WriterActive(r) == WriterActive(w) && WriterPending(r) == WriterPending(w)
  {
    w - 4
  }

  /** The reader's undo after losing to a writer restores the word exactly. */
  lemma RemoveUndoesAdd(w: bv32)
    ensures RemoveReader(AddReader(w)) == w
    ensures AddReader(RemoveReader(w)) == w
  {
  }

  /** The word a successful `write_lock` installs. */
  const WRITE_LOCKED: bv32 := 1

  /** The single word of a write-locked rwlock: active writer, no pending bit, no readers. */
  lemma WriteLockedWord()
    ensures WriterActive(WRITE_LOCKED) && !WriterPending(WRITE_LOCKED) && Readers(WRITE_LOCKED) == 0
  {
  }

  /** `libtle_rwlock_t`. */
  class RwLock {
    var word: bv32

    /** `LIBTLE_RWLOCK_INIT`. */
    constructor ()
      ensures word == 0
    {
      word := 0;
    }

    /** `libtle_rwlock_init`: no writer, no pending writer, no readers. */
    method Init()
      modifies this
      ensures word == 0
      ensures !WriterActive(word) && !WriterPending(word) && Readers(word) == 0
    {
      word := 0;
    }

    /** The next scheduled write by another thread lands on the word, if one is left. */
    method Interfere(rivals: seq<bv32>) returns (rest: seq<bv32>)
      modifies this
      ensures rivals == [] ==> rest == [] && word == old(word)
      ensures rivals != [] ==> rest == rivals[1..] && word == rivals[0]
      ensures LastOr(word, rest) == LastOr(old(word), rivals)
    {
      if rivals == [] {
        rest := [];
      } else {
        LastOrStep(word, rivals);
        word := rivals[0];
        rest := rivals[1..];
      }
    }

    /**
     * `libtle_rwlock_write_lock` (portable loop). It takes the lock only by a
     * compare-and-swap from a word `seen` with no reader and no active writer,
     * and leaves exactly `WRITE_LOCKED`, which drops any pending bit. While
     * blocked it sets the pending bit when no other writer has.
     */
    method WriteLock(rivals: seq<bv32>) returns (seen: bv32)
      requires WriteFree(LastOr(word, rivals))
      modifies this
      ensures WriteFree(seen)
      ensures rivals == [] ==> seen == old(word)
      ensures word == WRITE_LOCKED
    {
      var rest := rivals;
      while true
        invariant WriteFree(LastOr(word, rest))
        invariant rivals == [] ==> rest == [] && word == old(word)
        decreases |rest|
      {
        rest := Interfere(rest);
        var s := word;
        if WriteFree(s) {
          rest := Interfere(rest);
          // atomic_compare_exchange_strong(&lock, &s, 1u)
          if word == s {
            word := WRITE_LOCKED;
            seen := s;
            break;
          }
        } else if !WriterPending(s) {
          rest := Interfere(rest);
          word := MarkPending(word);
        }
      }
    }

    /**
     * `libtle_rwlock_read_lock` (portable loop). It tries only from a word with
     * both writer bits clear, keeps its `fetch_add(4)` only when the value it
     * replaced (`seen`) had no active writer, and otherwise undoes the add.
     * Uncontended, it adds one reader to the word it started from.
     */
    method ReadLock(rivals: seq<bv32>) returns (seen: bv32)
      requires ReadFree(LastOr(word, rivals))
      modifies this
      ensures !WriterActive(seen)
      ensures word == AddReader(seen)
      ensures rivals == [] ==> seen == old(word) && word == AddReader(old(word))
    {
      var rest := rivals;
      while true
        invariant ReadFree(LastOr(word, rest))
        invariant rivals == [] ==> rest == [] && word == old(word)
        decreases |rest|
      {
        rest := Interfere(rest);
        var s := word;
        if ReadFree(s) {
          rest := Interfere(rest);
          var t := word;
          word := AddReader(word);
          if !WriterActive(t) {
            seen := t;
            break;
          }
          rest := Interfere(rest);
          word := RemoveReader(word);
        }
      }
    }

    /** `libtle_rwlock_write_unlock`. */
    method WriteUnlock()
      modifies this
      ensures word == WriteReleased(old(word))
    {
      word := word & !3;
    }

    /** `libtle_rwlock_read_unlock`. */
    method ReadUnlock()
      modifies this
      ensures word == RemoveReader(old(word))
    {
      word := word - 4;
    }

    /**
     * `libtle_rwlock_is_locked`: the raw word taken as a truth value. It is
     * true exactly when a writer is active or pending or some reader holds
     * the lock.
     */
    method IsLocked() returns (locked: bool)
      ensures locked <==> WriterActive(word) || WriterPending(word) || Readers(word) != 0
    {
      locked := word != 0;
    }

    /**
     * `libtle_rwlock_unlock_wait`: spin until the word is 0. It never writes:
     * the word it leaves is the one it started with or one another thread wrote.
     */
    method UnlockWait(rivals: seq<bv32>) returns (rest: seq<bv32>)
      requires LastOr(word, rivals) == 0
      modifies this
      ensures word == 0
      ensures word == old(word) || word in rivals
      ensures IsSuffix(rest, rivals)
      ensures LastOr(word, rest) == LastOr(old(word), rivals)
    {
      rest := Interfere(rivals);
      var locked := IsLocked();
      while locked
        invariant IsSuffix(rest, rivals)
        invariant LastOr(word, rest) == LastOr(old(word), rivals)
        invariant word == old(word) || word in rivals
        invariant locked <==> word != 0
        decreases |rest|
      {
        rest := Interfere(rest);
        locked := IsLocked();
      }
    }
  }
}
