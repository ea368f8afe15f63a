/**
 * The abstraction under which the lock words are modelled single-threaded.
 *
 * Other threads are not modelled as threads: a lock operation is given a
 * schedule `rivals` of values that other threads write to the word, and
 * before each of its own atomic accesses inside a spin or retry loop the
 * next scheduled value (if any) lands on the word. A loop that waits for the
 * word to reach some state terminates when the schedule eventually leaves
 * the word in that state; `LastOr` names the value the word settles at.
 */
module Interference {

  /** The value the word holds once every scheduled write has landed. */
  function LastOr<T>(w: T, rivals: seq<T>): T {
    if rivals == [] then w else rivals[|rivals| - 1]
  }

  /** Landing the first scheduled write does not change where the word settles. */
  lemma LastOrStep<T>(w: T, rivals: seq<T>)
    requires rivals != []
    ensures LastOr(rivals[0], rivals[1..]) == LastOr(w, rivals)
  {
    if |rivals| > 1 {
      assert rivals[1..][|rivals| - 2] == rivals[|rivals| - 1];
    }
  }

  /** `rest` is what is left of the schedule `rivals` after some of it has landed. */
  predicate IsSuffix<T(==)>(rest: seq<T>, rivals: seq<T>) {
    |rest| <= |rivals| && rest == rivals[|rivals| - |rest|..]
  }

  lemma SuffixTransitive<T>(a: seq<T>, b: seq<T>, c: seq<T>)
    requires IsSuffix(a, b) && IsSuffix(b, c)
    ensures IsSuffix(a, c)
  {
    assert a == c[|c| - |a|..] by {
      forall k | 0 <= k < |a|
        ensures a[k] == c[|c| - |a| + k]
      {
        assert a[k] == b[|b| - |a| + k];
      }
    }
  }

  /** A value still to land was in the whole schedule. */
  lemma SuffixMember<T>(x: T, rest: seq<T>, rivals: seq<T>)
    requires IsSuffix(rest, rivals) && x in rest
    ensures x in rivals
  {
    var k :| 0 <= k < |rest| && rest[k] == x;
    assert rivals[|rivals| - |rest| + k] == x;
  }
}
