/**
 A loop that goes through a list and keeps what nothing kept before makes redundant, for any
 relation `covers` between a kept entry and a later one.
 */
module Sieve {

  predicate Redundant<T(==)>(valid: seq<T>, p: T, covers: (T, T) -> bool) {
    exists v :: v in valid && covers(v, p)
  }

  function Keep<T(==)>(ps: seq<T>, covers: (T, T) -> bool): seq<T>
    decreases |ps|
  {
    if ps == [] then []
    else
      var n := |ps| - 1;
      var valid := Keep(ps[..n], covers);
      if Redundant(valid, ps[n], covers) then valid else valid + [ps[n]]
  }

  /** Nothing in the list is made redundant by anything before it. */
  ghost predicate Irredundant<T>(q: seq<T>, covers: (T, T) -> bool) {
    forall i, j :: 0 <= i < j < |q| ==> !covers(q[i], q[j])
  }

  /** `q` lists entries of `ps` in their order. */
  ghost predicate KeepsOrder<T>(q: seq<T>, ps: seq<T>, before: (T, T) -> bool) {
    (forall i, j :: 0 <= i < j < |ps| ==> before(ps[i], ps[j])) ==>
      forall i, j :: 0 <= i < j < |q| ==> before(q[i], q[j])
  }

  lemma {:induction false} KeepIsIrredundant<T>(ps: seq<T>, covers: (T, T) -> bool)
    ensures Irredundant(Keep(ps, covers), covers)
    ensures forall v :: v in Keep(ps, covers) ==> v in ps
    decreases |ps|
  {
    if ps != [] {
      var n := |ps| - 1;
      KeepIsIrredundant(ps[..n], covers);
      var valid := Keep(ps[..n], covers);
      if !Redundant(valid, ps[n], covers) {
        forall i | 0 <= i < |valid| ensures !covers(valid[i], ps[n]) {
          assert valid[i] in valid;
        }
      }
    }
  }

  lemma {:induction false} KeepKeepsOrder<T>(ps: seq<T>, covers: (T, T) -> bool, before: (T, T) -> bool)
    ensures KeepsOrder(Keep(ps, covers), ps, before)
    decreases |ps|
  {
    if ps != [] && forall i, j :: 0 <= i < j < |ps| ==> before(ps[i], ps[j]) {
      var n := |ps| - 1;
      KeepKeepsOrder(ps[..n], covers, before);
      KeepIsIrredundant(ps[..n], covers);
      var valid := Keep(ps[..n], covers);
      forall i | 0 <= i < |valid| ensures before(valid[i], ps[n]) {
        assert valid[i] in ps[..n];
      }
    }
  }

  /** Every entry is kept, or a kept entry makes it redundant. */
  lemma {:induction false} KeepHasWitness<T>(ps: seq<T>, p: T, covers: (T, T) -> bool)
    requires p in ps
    ensures p in Keep(ps, covers) || Redundant(Keep(ps, covers), p, covers)
    decreases |ps|
  {
    var n := |ps| - 1;
    if p in ps[..n] {
      KeepHasWitness(ps[..n], p, covers);
      if p !in Keep(ps[..n], covers) {
        var v :| v in Keep(ps[..n], covers) && covers(v, p);
        assert v in Keep(ps, covers);
      }
    }
  }

  lemma {:induction false} KeepOfIrredundant<T>(q: seq<T>, covers: (T, T) -> bool)
    requires Irredundant(q, covers)
    ensures Keep(q, covers) == q
    decreases |q|
  {
    if q != [] {
      var n := |q| - 1;
      KeepOfIrredundant(q[..n], covers);
      forall v | v in q[..n] ensures !covers(v, q[n]) {
        var i :| 0 <= i < n && q[..n][i] == v;
        assert !covers(q[i], q[n]);
      }
      assert q == q[..n] + [q[n]];
    }
  }
}
