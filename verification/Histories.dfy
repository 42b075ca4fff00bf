/**
 Laws over runs.  The calls of a run are numbered; what holds after the first `n` of them is traced
 back to the call that brought it about and to the absence of a later one that undid it.
 */
module Histories {
  import opened Common

  /** One of the first `n` calls begins it, and none since then ends it. */
  ghost predicate Since(n: nat, begins: nat -> bool, ends: nat -> bool) {
    exists i: nat :: i < n && begins(i) && NoneSince(n, ends, i)
  }

  ghost predicate NoneSince(n: nat, ends: nat -> bool, i: nat) {
    forall k: nat :: i < k < n ==> !ends(k)
  }

  /** Call `i` is the last of the first `n` that writes. */
  ghost predicate IsLast(n: nat, writes: nat -> bool, i: nat) {
    i < n && writes(i) && NoneSince(n, writes, i)
  }

  lemma SinceNext(n: nat, begins: nat -> bool, ends: nat -> bool)
    ensures Since(n + 1, begins, ends) <==> begins(n) || (Since(n, begins, ends) && !ends(n))
  {
    if i: nat :| i < n + 1 && begins(i) && NoneSince(n + 1, ends, i) {
      assert i < n ==> NoneSince(n, ends, i) && !ends(n);
    }
    if begins(n) {
      assert NoneSince(n + 1, ends, n);
    } else if Since(n, begins, ends) && !ends(n) {
      var i: nat :| i < n && begins(i) && NoneSince(n, ends, i);
      assert NoneSince(n + 1, ends, i);
    }
  }

  lemma LastNext(n: nat, writes: nat -> bool, i: nat)
    ensures IsLast(n + 1, writes, i) <==> if writes(n) then i == n else IsLast(n, writes, i)
  {
    if writes(n) && i < n {
      assert !NoneSince(n + 1, writes, i);
    }
  }

  lemma LastsNext(n: nat, writes: nat -> bool)
    ensures forall i: nat :: IsLast(n + 1, writes, i) <==> if writes(n) then i == n else IsLast(n, writes, i)
  {
    forall i: nat ensures IsLast(n + 1, writes, i) <==> if writes(n) then i == n else IsLast(n, writes, i) {
      LastNext(n, writes, i);
    }
  }

  /** It has happened among the first `n` calls. */
  ghost predicate Once(n: nat, happens: nat -> bool) {
    exists i: nat :: i < n && happens(i)
  }

  lemma OnceNext(n: nat, happens: nat -> bool)
    ensures Once(n + 1, happens) <==> Once(n, happens) || happens(n)
  {
    if Once(n, happens) {
      var i: nat :| i < n && happens(i);
      assert i < n + 1 && happens(i);
    }
  }

  /** What has happened has happened a last time. */
  lemma {:induction false} OnceHasLast(n: nat, happens: nat -> bool)
    ensures Once(n, happens) <==> exists i: nat :: IsLast(n, happens, i)
  {
    if n > 0 {
      OnceNext(n - 1, happens);
      LastsNext(n - 1, happens);
      OnceHasLast(n - 1, happens);
      assert happens(n - 1) ==> IsLast(n, happens, n - 1);
    }
  }

  // ---------------------------------------------------------------------------
  // A value and the calls that write it
  // ---------------------------------------------------------------------------

  /** The calls that write the value. */
  function Wrote<V>(written: nat -> Option<V>): nat -> bool {
    (i: nat) => written(i).Some?
  }

  /** Call `k` sets the value to what it writes, or leaves it. */
  predicate FollowsAt<V(==)>(value: nat -> V, written: nat -> Option<V>, k: nat) {
    value(k + 1) == if written(k).Some? then written(k).value else value(k)
  }

  /** The value after the first `n` calls is what the last write wrote, or the one it began with. */
  ghost predicate LastWriteStands<V(!new)>(n: nat, value: nat -> V, written: nat -> Option<V>) {
    && (forall i: nat :: IsLast(n, Wrote(written), i) ==> Some(value(n)) == written(i))
    && (!Once(n, Wrote(written)) ==> value(n) == value(0))
  }

  lemma {:induction false} Unwritten<V(!new)>(i: nat, n: nat, value: nat -> V, written: nat -> Option<V>)
    requires i <= n && forall k: nat :: i <= k < n ==> FollowsAt(value, written, k) && written(k).None?
    ensures value(n) == value(i)
    decreases n
  {
    if i < n {
      assert FollowsAt(value, written, n - 1);
      Unwritten(i, n - 1, value, written);
    }
  }

  lemma {:induction false} LastWriter<V(!new)>(n: nat, value: nat -> V, written: nat -> Option<V>)
    requires forall k: nat :: k < n ==> FollowsAt(value, written, k)
    ensures LastWriteStands(n, value, written)
  {
    var w := Wrote(written);
    forall i: nat | IsLast(n, w, i) ensures Some(value(n)) == written(i) {
      assert FollowsAt(value, written, i);
      forall k: nat | i < k < n ensures written(k).None? {
        assert !w(k);
      }
      Unwritten(i + 1, n, value, written);
    }
    if !Once(n, w) {
      forall k: nat | k < n ensures written(k).None? {
        assert !w(k);
      }
      Unwritten(0, n, value, written);
    }
  }
}
