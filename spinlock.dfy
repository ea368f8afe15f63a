/**
 * The test-and-set spinlock of libTLE (tle/spinlock.h) as a single word that
 * this thread changes in place.
 *
 * The word has two encodings. On x86-64 it is an integer: 1 means free, any
 * value <= 0 means busy, `lock` decrements it and a failed decrement leaves
 * it negative until the holder stores 1 again. On every other architecture
 * it is a boolean: 0 means free, anything else busy, and `lock` exchanges in 1.
 * The AArch64 assembly of `lock` and `unlock_wait` performs the same exchange
 * and the same wait as the portable C loop, so it is modelled by that loop.
 */
module Spinlocks {
  import opened Interference

  datatype Arch = X86_64 | Other

  /** The values the word can hold: x86-64 words never exceed 1, other words are 0 or 1. */
  predicate WordOk(arch: Arch, w: int) {
    match arch
    case X86_64 => w <= 1
    case Other => 0 <= w <= 1
  }

  /** `libtle_spinlock_is_locked` on a word value. */
  predicate Locked(arch: Arch, w: int) {
    match arch
    case X86_64 => w <= 0
    case Other => w != 0
  }

  /** The value `init` and `unlock` store: free under both encodings. */
  function FreeWord(arch: Arch): (w: int)
    ensures WordOk(arch, w) && !Locked(arch, w)
  {
    match arch
    case X86_64 => 1
    case Other => 0
  }

  /** The value a successful `lock` and `lock_uncontended` leave: busy under both encodings. */
  function BusyWord(arch: Arch): (w: int)
    ensures WordOk(arch, w) && Locked(arch, w)
    ensures w != FreeWord(arch)
  {
    match arch
    case X86_64 => 0
    case Other => 1
  }

  /** Under each encoding the valid words are exactly the free word and the busy ones. */
  lemma EncodingsPartition(arch: Arch, w: int)
    requires WordOk(arch, w)
    ensures !Locked(arch, w) <==> w == FreeWord(arch)
    ensures arch == Other ==> (Locked(arch, w) <==> w == BusyWord(arch))
  {
  }

  predicate AllOk(arch: Arch, rivals: seq<int>) {
    forall k :: 0 <= k < |rivals| ==> WordOk(arch, rivals[k])
  }

  lemma AllOkSuffix(arch: Arch, rest: seq<int>, rivals: seq<int>)
    requires AllOk(arch, rivals) && IsSuffix(rest, rivals)
    ensures AllOk(arch, rest)
  {
    forall k | 0 <= k < |rest|
      ensures WordOk(arch, rest[k])
    {
      assert rest[k] == rivals[|rivals| - |rest| + k];
    }
  }

  /** `libtle_spinlock_t`. */
  class Spinlock {
    const arch: Arch
    var word: int

    ghost predicate Valid()
      reads this
    {
      WordOk(arch, word)
    }

    /** `LIBTLE_SPINLOCK_INIT`: a statically initialised lock is free. */
    constructor (arch: Arch)
      ensures this.arch == arch && word == FreeWord(arch)
      ensures Valid()
    {
      this.arch := arch;
      word := FreeWord(arch);
    }

    /** `libtle_spinlock_init`. */
    method Init()
      modifies this
      ensures word == FreeWord(arch) && !Locked(arch, word)
    {
      word := FreeWord(arch);
    }

    /** The next scheduled write by another thread lands on the word, if one is left. */
    method Interfere(rivals: seq<int>) returns (rest: seq<int>)
      modifies this
      ensures rivals == [] ==> rest == [] && word == old(word)
      ensures rivals != [] ==> rest == rivals[1..] && word == rivals[0]
      ensures LastOr(word, rest) == LastOr(old(word), rivals)
    {
      if rivals == [] {
        rest := [];
      } else {
        LastOrStep(word, rivals);
        word := rivals[0];
        rest := rivals[1..];
      }
    }

    /** `libtle_spinlock_is_locked`: one load, busy under the word's own encoding. */
    method IsLocked() returns (locked: bool)
      ensures locked <==> Locked(arch, word)
      ensures WordOk(arch, word) ==> (locked <==> word != FreeWord(arch))
    {
      if arch == X86_64 {
        locked := word <= 0;
      } else {
        locked := word != 0;
      }
    }

    /**
     * `libtle_spinlock_lock`. It returns, with the word busy, only after its
     * own atomic access found the word free; `seen` is the value it found.
     */
    method Lock(rivals: seq<int>) returns (seen: int)
      requires Valid() && AllOk(arch, rivals)
      requires !Locked(arch, LastOr(word, rivals))
      modifies this
      ensures seen == FreeWord(arch)
      ensures rivals == [] ==> seen == old(word)
      ensures word == BusyWord(arch)
    {
      EncodingsPartition(arch, word);
      var rest := rivals;
      if arch == X86_64 {
        while true
          invariant Valid() && AllOk(arch, rest)
          invariant !Locked(arch, LastOr(word, rest))
          decreases |rest|
        {
          rest := Interfere(rest);
          // lock; decl: succeed when the decremented value is not negative
          seen := word;
          word := word - 1;
          if word >= 0 {
            break;
          }
          // pause; cmpl $0: wait while the word stays <= 0, then retry
          rest := Interfere(rest);
          while word <= 0
            invariant Valid() && AllOk(arch, rest)
            invariant !Locked(arch, LastOr(word, rest))
            decreases |rest|
          {
            rest := Interfere(rest);
          }
        }
      } else {
        while true
          invariant Valid() && AllOk(arch, rest)
          invariant !Locked(arch, LastOr(word, rest))
          decreases |rest|
        {
          rest := Interfere(rest);
          // atomic_exchange(&lock, 1): succeed when the old value was 0
          seen := word;
          word := 1;
          if seen == 0 {
            break;
          }
        }
      }
    }

    /** `libtle_spinlock_lock_uncontended`: a plain store of the busy word. */
    method LockUncontended()
      modifies this
      ensures word == BusyWord(arch) && Locked(arch, word)
    {
      word := BusyWord(arch);
    }

    /** `libtle_spinlock_unlock`: a store of the free word. */
    method Unlock()
      modifies this
      ensures word == FreeWord(arch) && !Locked(arch, word)
    {
      word := FreeWord(arch);
    }

    /**
     * `libtle_spinlock_unlock_wait`: spin on `is_locked` until the lock reads
     * free. It never writes: the word it leaves is the one it started with or
     * one another thread wrote. `rest` is the part of the schedule not yet landed.
     */
    method UnlockWait(rivals: seq<int>) returns (rest: seq<int>)
      requires !Locked(arch, LastOr(word, rivals))
      modifies this
      ensures !Locked(arch, word)
      ensures word == old(word) || word in rivals
      ensures IsSuffix(rest, rivals)
      ensures LastOr(word, rest) == LastOr(old(word), rivals)
    {
      rest := Interfere(rivals);
      var locked := IsLocked();
      while locked
        invariant IsSuffix(rest, rivals)
        invariant LastOr(word, rest) == LastOr(old(word), rivals)
        invariant word == old(word) || word in rivals
        invariant locked <==> Locked(arch, word)
        decreases |rest|
      {
        rest := Interfere(rest);
        locked := IsLocked();
      }
    }
  }
}
