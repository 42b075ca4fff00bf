/**
 Keyset paging in general: pages of the newest `limit` rows older than a position, over any strict
 total order, while rows are added between the requests.
 */
module Keyset {
  import opened Common

  ghost predicate StrictOrder<T(!new)>(older: (T, T) -> bool) {
    && (forall a :: !older(a, a))
    && (forall a, b :: a == b || older(a, b) || older(b, a))
    && (forall a, b, c :: older(a, b) && older(b, c) ==> older(a, c))
  }

  /** Strictly descending: newest first, no repetition. */
  ghost predicate Descending<T(!new)>(q: seq<T>, older: (T, T) -> bool) {
    forall i, j :: 0 <= i < j < |q| ==> older(q[j], q[i])
  }

  ghost predicate Lists<T(!new)>(q: seq<T>, s: set<T>) {
    forall k :: k in q <==> k in s
  }

  ghost predicate Newest<T(!new)>(m: T, s: set<T>, older: (T, T) -> bool) {
    m in s && forall x :: x in s ==> x == m || older(x, m)
  }

  lemma {:induction false} NewestExists<T(!new)>(s: set<T>, older: (T, T) -> bool)
    requires s != {} && StrictOrder(older)
    ensures exists m :: Newest(m, s, older)
  {
    var k :| k in s;
    if s - {k} == {} {
      assert s == {k};
      assert Newest(k, s, older);
    } else {
      NewestExists(s - {k}, older);
      var m :| Newest(m, s - {k}, older);
      assert Newest(if older(k, m) then m else k, s, older);
    }
  }

  /** The rows of `s`, newest first. */
  ghost function Sorted<T(!new)>(s: set<T>, older: (T, T) -> bool): (q: seq<T>)
    requires StrictOrder(older)
    ensures |q| == |s| && Descending(q, older) && Lists(q, s)
  {
    if s == {} then []
    else
      NewestExists(s, older);
      var m :| Newest(m, s, older);
      [m] + Sorted(s - {m}, older)
  }

  lemma TailLists<T(!new)>(q: seq<T>, s: set<T>, older: (T, T) -> bool)
    requires StrictOrder(older) && q != [] && Descending(q, older) && Lists(q, s)
    ensures Descending(q[1..], older) && Lists(q[1..], s - {q[0]})
  {
    forall k ensures k in q[1..] <==> k in s - {q[0]} {
      if k in s - {q[0]} {
        var i :| 0 <= i < |q| && q[i] == k;
        assert q[1..][i - 1] == k;
      }
      if k in q[1..] {
        var i :| 0 <= i < |q[1..]| && q[1..][i] == k;
        assert q[i + 1] == k && k in q;
        assert older(q[i + 1], q[0]);
      }
    }
  }

  lemma ListsEmpty<T(!new)>(q: seq<T>, s: set<T>)
    requires Lists(q, s)
    ensures q == [] <==> s == {}
  {
    if q != [] {
      assert q[0] in q;
    }
  }

  lemma FirstIsNewest<T(!new)>(q: seq<T>, k: T, older: (T, T) -> bool)
    requires StrictOrder(older) && Descending(q, older) && k in q
    ensures k == q[0] || (older(k, q[0]) && !older(q[0], k))
  {
    var i :| 0 <= i < |q| && q[i] == k;
    assert i > 0 ==> older(q[i], q[0]);
  }

  /** A strictly descending listing is determined by what it lists. */
  lemma {:induction false} ListingIsUnique<T(!new)>(q: seq<T>, r: seq<T>, s: set<T>, older: (T, T) -> bool)
    requires StrictOrder(older)
    requires Descending(q, older) && Lists(q, s)
    requires Descending(r, older) && Lists(r, s)
    ensures q == r
  {
    ListsEmpty(q, s);
    ListsEmpty(r, s);
    if q == [] {
      assert r == [];
    } else {
      assert q[0] in q && q[0] in s && q[0] in r;
      assert r[0] in r && r[0] in s && r[0] in q;
      assert q[0] == r[0] by {
        FirstIsNewest(q, r[0], older);
        FirstIsNewest(r, q[0], older);
      }
      TailLists(q, s, older);
      TailLists(r, s, older);
      ListingIsUnique(q[1..], r[1..], s - {q[0]}, older);
      assert q == [q[0]] + q[1..] && r == [r[0]] + r[1..];
    }
  }

  // ---------------------------------------------------------------------------
  // One page
  // ---------------------------------------------------------------------------

  ghost function Below<T(!new)>(rows: set<T>, p: Option<T>, older: (T, T) -> bool): set<T> {
    if p.None? then rows else set k | k in rows && older(k, p.value)
  }

  /** The newest `limit` rows below `p`, and where to go on: the oldest of them, if there are more. */
  ghost function PageAt<T(!new)>(rows: set<T>, p: Option<T>, limit: nat, older: (T, T) -> bool): (seq<T>, Option<T>)
    requires StrictOrder(older) && limit >= 1
  {
    var q := Sorted(Below(rows, p, older), older);
    if |q| <= limit then (q, None) else (q[..limit], Some(q[limit - 1]))
  }

  /** In a descending list, what follows position `n` is what is older than the entry before it. */
  lemma TailIsOlder<T(!new)>(q: seq<T>, n: nat, k: T, older: (T, T) -> bool)
    requires StrictOrder(older) && Descending(q, older) && 1 <= n <= |q|
    ensures k in q[n..] <==> k in q && older(k, q[n - 1])
  {
    if k in q[n..] {
      var i :| n <= i < |q| && q[i] == k;
    }
    if k in q && older(k, q[n - 1]) {
      var i :| 0 <= i < |q| && q[i] == k;
      assert i >= n;
      assert q[n..][i - n] == k;
    }
  }

  /** The rows left after `n` rows are exactly those older than the last one taken. */
  lemma RestOfPage<T(!new)>(rows: set<T>, p: Option<T>, n: nat, older: (T, T) -> bool)
    requires StrictOrder(older) && 1 <= n <= |Below(rows, p, older)|
    ensures var q := Sorted(Below(rows, p, older), older);
            Sorted(Below(rows, Some(q[n - 1]), older), older) == q[n..]
  {
    var q := Sorted(Below(rows, p, older), older);
    var rest := Below(rows, Some(q[n - 1]), older);
    LastIsBelow(rows, p, q, n, older);
    forall k ensures k in q[n..] <==> k in rest {
      TailIsOlder(q, n, k, older);
      assert k in q <==> k in Below(rows, p, older);
    }
    assert Descending(q[n..], older);
    ListingIsUnique(Sorted(rest, older), q[n..], rest, older);
  }

  /** Whatever is older than a row below `p` is below `p`. */
  lemma LastIsBelow<T(!new)>(rows: set<T>, p: Option<T>, q: seq<T>, n: nat, older: (T, T) -> bool)
    requires StrictOrder(older) && Lists(q, Below(rows, p, older)) && 1 <= n <= |q|
    ensures forall k :: k in Below(rows, Some(q[n - 1]), older) ==> k in Below(rows, p, older)
  {
    assert q[n - 1] in q;
  }

  // ---------------------------------------------------------------------------
  // The walk
  // ---------------------------------------------------------------------------

  datatype Walk<T> = Walk(pages: seq<seq<T>>, finished: bool)

  /** Request i sees the rows `snaps[i]`; the walk ends when there is nowhere to go on, or no request left. */
  ghost function Follow<T(!new)>(snaps: seq<set<T>>, p: Option<T>, limit: nat, older: (T, T) -> bool): Walk<T>
    requires StrictOrder(older) && limit >= 1
  {
    if snaps == [] then Walk([], false)
    else
      var (page, next) := PageAt(snaps[0], p, limit, older);
      if next.None? then Walk([page], true)
      else
        var rest := Follow(snaps[1..], next, limit, older);
        Walk([page] + rest.pages, rest.finished)
  }

  function Flatten<T>(pages: seq<seq<T>>): seq<T> {
    if pages == [] then [] else pages[0] + Flatten(pages[1..])
  }

  lemma FlattenCons<T>(page: seq<T>, pages: seq<seq<T>>)
    ensures Flatten([page] + pages) == page + Flatten(pages)
  {
    assert ([page] + pages)[1..] == pages;
  }

  /** The first page, and the rest of the walk. */
  lemma OnePage<T(!new)>(snaps: seq<set<T>>, p: Option<T>, limit: nat, older: (T, T) -> bool)
    requires StrictOrder(older) && limit >= 1 && snaps != []
    ensures var (page, next) := PageAt(snaps[0], p, limit, older);
            var w := Follow(snaps, p, limit, older);
            if next.None? then w.finished && |w.pages| == 1 && Flatten(w.pages) == page
            else
              var rest := Follow(snaps[1..], next, limit, older);
              && w.finished == rest.finished && |w.pages| == 1 + |rest.pages|
              && Flatten(w.pages) == page + Flatten(rest.pages)
  {
    var (page, next) := PageAt(snaps[0], p, limit, older);
    if next.None? {
      assert Flatten([page]) == page + [];
    } else {
      FlattenCons(page, Follow(snaps[1..], next, limit, older).pages);
    }
  }

  /** No row is ever removed between two requests. */
  ghost predicate OnlyGrows<T(!new)>(snaps: seq<set<T>>) {
    forall i, j :: 0 <= i <= j < |snaps| ==> snaps[i] <= snaps[j]
  }

  /** What a finished walk has to show for itself. */
  ghost predicate Covers<T(!new)>(d: seq<T>, first: set<T>, last: set<T>, older: (T, T) -> bool) {
    && Descending(d, older)
    && (forall k :: k in first ==> k in d)
    && (forall k :: k in d ==> k in last)
  }

  lemma DescendingJoin<T(!new)>(q: seq<T>, d: seq<T>, older: (T, T) -> bool)
    requires StrictOrder(older) && q != [] && Descending(q, older) && Descending(d, older)
    requires forall k :: k in d ==> older(k, q[|q| - 1])
    ensures Descending(q + d, older)
  {
    var all, last := q + d, q[|q| - 1];
    forall i, j | 0 <= i < j < |all| ensures older(all[j], all[i]) {
      if i < |q| <= j {
        assert all[j] in d;
        assert all[i] == last || older(last, all[i]);
      }
    }
  }

  lemma PageOrRest<T>(q: seq<T>, n: nat, k: T)
    requires n <= |q|
    ensures k in q <==> k in q[..n] || k in q[n..]
  {
    assert q == q[..n] + q[n..];
  }

  /** A full page followed by a walk from its last row covers everything below `p`. */
  lemma PageThenWalkCovers<T(!new)>(now: set<T>, later: set<T>, end: set<T>, p: Option<T>, limit: nat,
                                    d: seq<T>, older: (T, T) -> bool)
    requires StrictOrder(older) && limit >= 1 && now <= later && now <= end
    requires |Below(now, p, older)| > limit
    requires var last := Sorted(Below(now, p, older), older)[limit - 1];
             Covers(d, Below(later, Some(last), older), Below(end, Some(last), older), older)
    ensures Covers(Sorted(Below(now, p, older), older)[..limit] + d, Below(now, p, older), Below(end, p, older), older)
  {
    var q := Sorted(Below(now, p, older), older);
    var page, last := q[..limit], q[limit - 1];
    assert last in q;
    assert Descending(page + d, older) by { DescendingJoin(page, d, older); }
    RestOfPage(now, p, limit, older);
    forall k | k in Below(now, p, older) ensures k in page + d {
      PageOrRest(q, limit, k);
    }
    forall k | k in page + d ensures k in Below(end, p, older) {
      if k in page {
        PageOrRest(q, limit, k);
      } else {
        assert k in Below(end, Some(last), older);
      }
    }
  }

  lemma {:induction false} WalkCovers<T(!new)>(snaps: seq<set<T>>, p: Option<T>, limit: nat, older: (T, T) -> bool)
    requires StrictOrder(older) && limit >= 1 && OnlyGrows(snaps)
    requires Follow(snaps, p, limit, older).finished
    ensures snaps != []
    ensures Covers(Flatten(Follow(snaps, p, limit, older).pages),
                   Below(snaps[0], p, older), Below(snaps[|snaps| - 1], p, older), older)
  {
    var q := Sorted(Below(snaps[0], p, older), older);
    if |q| <= limit {
      assert Flatten([q]) == q;
      assert forall k :: k in q ==> k in snaps[0];
      assert snaps[0] <= snaps[|snaps| - 1];
    } else {
      var tail, last := snaps[1..], q[limit - 1];
      var rest := Follow(tail, Some(last), limit, older);
      assert OnlyGrows(tail) by { GrowingTail(snaps); }
      WalkCovers(tail, Some(last), limit, older);
      FlattenCons(q[..limit], rest.pages);
      PageThenWalkCovers(snaps[0], tail[0], snaps[|snaps| - 1], p, limit, Flatten(rest.pages), older);
    }
  }

  lemma GrowingTail<T(!new)>(snaps: seq<set<T>>)
    requires OnlyGrows(snaps) && snaps != []
    ensures OnlyGrows(snaps[1..])
  {
    forall i, j | 0 <= i <= j < |snaps[1..]| ensures snaps[1..][i] <= snaps[1..][j] {
      assert snaps[i + 1] <= snaps[j + 1];
    }
  }

  // ---------------------------------------------------------------------------
  // Exactness and cost
  // ---------------------------------------------------------------------------

  /** The requests needed for `n` rows. */
  function Requests(n: nat, limit: nat): nat
    requires limit >= 1
  {
    if n <= limit then 1 else 1 + Requests(n - limit, limit)
  }

  /** Two sets of rows that agree below `p` agree below any row they have there. */
  lemma BelowShrinks<T(!new)>(a: set<T>, b: set<T>, p: Option<T>, last: T, older: (T, T) -> bool)
    requires StrictOrder(older) && Below(a, p, older) == Below(b, p, older) && last in Below(b, p, older)
    ensures Below(a, Some(last), older) == Below(b, Some(last), older)
  {
    forall k | older(k, last) ensures k in a <==> k in b {
      assert k in Below(a, p, older) <==> k in a;
      assert k in Below(b, p, older) <==> k in b;
    }
  }

  /** One full page, and the rest of the walk from its last row. */
  lemma OnePageMore<T(!new)>(snaps: seq<set<T>>, p: Option<T>, limit: nat, older: (T, T) -> bool)
    requires StrictOrder(older) && limit >= 1 && snaps != [] && |Below(snaps[0], p, older)| > limit
    ensures var q := Sorted(Below(snaps[0], p, older), older);
            var last := Some(q[limit - 1]);
            var (w, rest) := (Follow(snaps, p, limit, older), Follow(snaps[1..], last, limit, older));
            && w.finished == rest.finished
            && |w.pages| == 1 + |rest.pages|
            && Flatten(w.pages) == q[..limit] + Flatten(rest.pages)
            && Sorted(Below(snaps[0], last, older), older) == q[limit..]
            && |Below(snaps[0], last, older)| == |q| - limit
            && q[limit - 1] in Below(snaps[0], p, older)
  {
    var q := Sorted(Below(snaps[0], p, older), older);
    assert q[limit - 1] in q;
    RestOfPage(snaps[0], p, limit, older);
    OnePage(snaps, p, limit, older);
  }

  /** What the walk shows when it has exactly the rows `todo` to deliver, in this order. */
  predicate Exact<T(==)>(w: Walk<T>, todo: seq<T>, requests: nat, limit: nat)
    requires limit >= 1
  {
    && (w.finished <==> requests >= Requests(|todo|, limit))
    && (w.finished ==> |w.pages| == Requests(|todo|, limit) && Flatten(w.pages) == todo)
  }

  lemma {:induction false} WalkIsExact<T(!new)>(snaps: seq<set<T>>, p: Option<T>, limit: nat, todo: set<T>,
                                                older: (T, T) -> bool)
    requires StrictOrder(older) && limit >= 1
    requires forall i :: 0 <= i < |snaps| ==> Below(snaps[i], p, older) == todo
    ensures Exact(Follow(snaps, p, limit, older), Sorted(todo, older), |snaps|, limit)
    decreases |snaps|, 1
  {
    if snaps != [] {
      if |todo| > limit {
        var last := Sorted(todo, older)[limit - 1];
        OnePageMore(snaps, p, limit, older);
        forall i | 1 <= i < |snaps| ensures Below(snaps[i], Some(last), older) == Below(snaps[0], Some(last), older) {
          BelowShrinks(snaps[i], snaps[0], p, last, older);
        }
      }
      ExactStep(snaps, p, limit, older);
    }
  }

  lemma {:induction false} ExactStep<T(!new)>(snaps: seq<set<T>>, p: Option<T>, limit: nat, older: (T, T) -> bool)
    requires StrictOrder(older) && limit >= 1 && snaps != []
    requires |Below(snaps[0], p, older)| > limit ==>
               var last := Some(Sorted(Below(snaps[0], p, older), older)[limit - 1]);
               forall i :: 1 <= i < |snaps| ==> Below(snaps[i], last, older) == Below(snaps[0], last, older)
    ensures Exact(Follow(snaps, p, limit, older), Sorted(Below(snaps[0], p, older), older), |snaps|, limit)
    decreases |snaps|, 0
  {
    if |Below(snaps[0], p, older)| <= limit {
      OnePage(snaps, p, limit, older);
    } else {
      var last := Some(Sorted(Below(snaps[0], p, older), older)[limit - 1]);
      WalkIsExact(snaps[1..], last, limit, Below(snaps[0], last, older), older);
      ExactMore(snaps, p, limit, older);
    }
  }

  lemma ExactMore<T(!new)>(snaps: seq<set<T>>, p: Option<T>, limit: nat, older: (T, T) -> bool)
    requires StrictOrder(older) && limit >= 1 && snaps != [] && |Below(snaps[0], p, older)| > limit
    requires var last := Some(Sorted(Below(snaps[0], p, older), older)[limit - 1]);
             Exact(Follow(snaps[1..], last, limit, older), Sorted(Below(snaps[0], last, older), older),
                   |snaps| - 1, limit)
    ensures Exact(Follow(snaps, p, limit, older), Sorted(Below(snaps[0], p, older), older), |snaps|, limit)
  {
    var q := Sorted(Below(snaps[0], p, older), older);
    var last := Some(q[limit - 1]);
    OnePageMore(snaps, p, limit, older);
    ExactJoin(Follow(snaps, p, limit, older), Follow(snaps[1..], last, limit, older), q, |snaps| - 1, limit);
  }

  /** A full page and an exact walk over the rest are an exact walk. */
  lemma ExactJoin<T>(w: Walk<T>, w': Walk<T>, q: seq<T>, n: nat, limit: nat)
    requires limit >= 1 && |q| > limit
    requires w.finished == w'.finished && |w.pages| == 1 + |w'.pages|
    requires Flatten(w.pages) == q[..limit] + Flatten(w'.pages)
    requires Exact(w', q[limit..], n, limit)
    ensures Exact(w, q, n + 1, limit)
  {
    assert q == q[..limit] + q[limit..];
  }

  /** Everything that appears after the first request is newer than everything it saw. */
  ghost predicate NewcomersAreNewer<T(!new)>(snaps: seq<set<T>>, older: (T, T) -> bool) {
    forall i, k, k0 :: 0 <= i < |snaps| && k in snaps[i] && k !in snaps[0] && k0 in snaps[0] ==> older(k0, k)
  }

  lemma NewcomersStayAbove<T(!new)>(snaps: seq<set<T>>, i: nat, last: T, older: (T, T) -> bool)
    requires StrictOrder(older) && i < |snaps| && OnlyGrows(snaps) && NewcomersAreNewer(snaps, older)
    requires last in snaps[0]
    ensures Below(snaps[i], Some(last), older) == Below(snaps[0], Some(last), older)
  {
    assert snaps[0] <= snaps[i];
  }

  lemma {:induction false} WalkDeliversTheStart<T(!new)>(snaps: seq<set<T>>, limit: nat, older: (T, T) -> bool)
    requires StrictOrder(older) && limit >= 1 && snaps != []
    requires OnlyGrows(snaps) && NewcomersAreNewer(snaps, older)
    ensures Exact(Follow(snaps, None, limit, older), Sorted(snaps[0], older), |snaps|, limit)
  {
    if |snaps[0]| > limit {
      var last := Sorted(snaps[0], older)[limit - 1];
      OnePageMore(snaps, None, limit, older);
      forall i | 1 <= i < |snaps| ensures Below(snaps[i], Some(last), older) == Below(snaps[0], Some(last), older) {
        NewcomersStayAbove(snaps, i, last, older);
      }
    }
    ExactStep(snaps, None, limit, older);
  }

  /** max(1, ceil(n / limit)) */
  function Ceiling(n: nat, limit: nat): nat
    requires limit >= 1
  {
    if n == 0 then 1 else (n + limit - 1) / limit
  }

  lemma {:induction false} RequestsIsCeiling(n: nat, limit: nat)
    requires limit >= 1
    ensures Requests(n, limit) == Ceiling(n, limit)
  {
    if n > limit {
      RequestsIsCeiling(n - limit, limit);
      var m := n - 1;
      QuotientIs(m + limit, limit, m / limit + 1, m % limit);
    } else if n > 0 {
      QuotientIs(n + limit - 1, limit, 1, n - 1);
    }
  }

  lemma QuotientIs(a: nat, d: nat, k: nat, r: nat)
    requires d >= 1 && r < d && a == k * d + r
    ensures a / d == k
  {
    var e := a / d - k;
    assert e * d == r - a % d by {
      assert a == (a / d) * d + a % d;
      assert (k + e) * d == k * d + e * d;
    }
    assert e == 0;
  }
}
