/**
 Offset paging of a ranked list and the hydration that restores the rank
 (src/users/users.service.ts, `findAll`; src/sessions/services/sessions.service.ts, `findAll`).
 The ranked list is what the ranking query orders: distinct uids, best first.
 */
module OffsetPaging {
  import opened Common
  import Cursor
  import Keyset

  // ---------------------------------------------------------------------------
  // The cursor: an offset in decimal
  // ---------------------------------------------------------------------------

  function Decimal(n: nat): (s: string)
    ensures |s| >= 1 && forall i :: 0 <= i < |s| ==> Cursor.IsDigit(s[i])
  {
    var last := ['0' + (n % 10) as char];
    if n < 10 then last else Decimal(n / 10) + last
  }

  function DigitPrefix(s: string): (p: string)
    ensures forall i :: 0 <= i < |p| ==> Cursor.IsDigit(p[i])
  {
    if s != "" && Cursor.IsDigit(s[0]) then [s[0]] + DigitPrefix(s[1..]) else ""
  }

  /** `parseInt(s, 10)` of an unsigned number: the longest run of leading digits, None for NaN. */
  function ParseInt(s: string): Option<nat> {
    var p := DigitPrefix(s);
    if p == "" then None else Some(Cursor.Number(p))
  }

  lemma {:induction false} AllDigits(s: string)
    requires forall i :: 0 <= i < |s| ==> Cursor.IsDigit(s[i])
    ensures DigitPrefix(s) == s
  {
    if s != "" {
      AllDigits(s[1..]);
    }
  }

  lemma {:induction false} NumberOfDecimal(n: nat)
    ensures Cursor.Number(Decimal(n)) == n
  {
    var s := Decimal(n);
    if n >= 10 {
      NumberOfDecimal(n / 10);
      assert s[..|s| - 1] == Decimal(n / 10);
    } else {
      assert s[..|s| - 1] == "";
    }
  }

  lemma OffsetRoundTrip(n: nat)
    ensures ParseInt(Decimal(n)) == Some(n)
  {
    AllDigits(Decimal(n));
    NumberOfDecimal(n);
  }

  // ---------------------------------------------------------------------------
  // One request
  // ---------------------------------------------------------------------------

  datatype Reply = Failed | Ok(page: seq<Uid>, nextCursor: Option<string>)

  /** LIMIT limit + 1 OFFSET offset, the extra row cut off again. */
  function Respond(ranked: seq<Uid>, cursor: Option<string>, limit: nat): Reply {
    var offset := if cursor.None? || cursor.value == "" then Some(0) else ParseInt(cursor.value);
    match offset
    case None => Failed
    case Some(from) =>
      var rest := if from <= |ranked| then ranked[from..] else [];
      if |rest| > limit then Ok(rest[..limit], Some(Decimal(from + limit))) else Ok(rest, None)
  }

  /** A cursor is refused exactly if it does not begin with a digit; an absent or empty one starts at the top. */
  lemma {:induction false} OffsetFailsExactly(ranked: seq<Uid>, cursor: Option<string>, limit: nat)
    ensures Respond(ranked, cursor, limit) == Failed <==>
            cursor.Some? && cursor.value != "" && !('0' <= cursor.value[0] <= '9')
  {
  }

  // ---------------------------------------------------------------------------
  // Hydration
  // ---------------------------------------------------------------------------

  predicate Distinct(q: seq<Uid>) {
    forall i, j :: 0 <= i < j < |q| ==> q[i] != q[j]
  }

  /** The index map, with the 999 used for a uid it does not know. */
  function IndexIn(page: seq<Uid>, u: Uid): (n: nat)
    ensures u in page ==> n < |page| && page[n] == u
  {
    if u in page then FirstIndex(page, u) else 999
  }

  function FirstIndex(page: seq<Uid>, u: Uid): (n: nat)
    requires u in page
    ensures n < |page| && page[n] == u
  {
    if page[0] == u then 0 else 1 + FirstIndex(page[1..], u)
  }

  /** `rows` are rows of the page in whatever order the database answers; `shown` is their sort by index. */
  ghost predicate Hydrates(page: seq<Uid>, rows: seq<Uid>, shown: seq<Uid>) {
    && Distinct(rows)
    && (forall u :: u in rows ==> u in page)
    && Distinct(shown)
    && (forall u :: u in shown <==> u in rows)
    && (forall i, j :: 0 <= i < j < |shown| ==> IndexIn(page, shown[i]) <= IndexIn(page, shown[j]))
  }

  function Indices(page: seq<Uid>, q: seq<Uid>): seq<nat> {
    seq(|q|, i requires 0 <= i < |q| => IndexIn(page, q[i]))
  }

  function Present(page: seq<Uid>, rows: seq<Uid>): (q: seq<Uid>)
    ensures forall u :: u in q <==> u in page && u in rows
  {
    if page == [] then [] else (if page[0] in rows then [page[0]] else []) + Present(page[1..], rows)
  }

  /** Entries of the page in page order: their indices increase. */
  ghost predicate InPageOrder(page: seq<Uid>, q: seq<Uid>) {
    && (forall u :: u in q ==> u in page)
    && forall i, j :: 0 <= i < j < |q| ==> IndexIn(page, q[i]) < IndexIn(page, q[j])
  }

  lemma PageOrderIsUnique(page: seq<Uid>, q: seq<Uid>, r: seq<Uid>)
    requires InPageOrder(page, q) && InPageOrder(page, r) && forall u :: u in q <==> u in r
    ensures q == r
  {
    var later := (a: nat, b: nat) => a > b;
    var a, b := Indices(page, q), Indices(page, r);
    IndicesList(page, q);
    IndicesList(page, r);
    var all := set u | u in q :: IndexIn(page, u);
    assert all == set u | u in r :: IndexIn(page, u);
    Keyset.ListingIsUnique(a, b, all, later);
    forall i | 0 <= i < |q| ensures q[i] == r[i] {
      assert a[i] == b[i];
      assert q[i] in q && r[i] in r;
    }
  }

  lemma IndicesList(page: seq<Uid>, q: seq<Uid>)
    requires InPageOrder(page, q)
    ensures Keyset.Descending(Indices(page, q), (a: nat, b: nat) => a > b)
    ensures Keyset.Lists(Indices(page, q), set u | u in q :: IndexIn(page, u))
  {
    var a := Indices(page, q);
    forall k ensures k in a <==> k in set u | u in q :: IndexIn(page, u) {
      if k in a {
        var i :| 0 <= i < |a| && a[i] == k;
        assert q[i] in q;
      }
      if u :| u in q && IndexIn(page, u) == k {
        var i :| 0 <= i < |q| && q[i] == u;
        assert a[i] == k;
      }
    }
  }

  lemma IndexOfEntry(page: seq<Uid>, i: nat)
    requires Distinct(page) && i < |page|
    ensures IndexIn(page, page[i]) == i
  {
    assert page[i] in page;
  }

  /** An entry in front of a list whose entries all come later on the page. */
  lemma InOrderCons(page: seq<Uid>, u: Uid, tail: seq<Uid>)
    requires u in page && InPageOrder(page, tail) && forall v :: v in tail ==> IndexIn(page, u) < IndexIn(page, v)
    ensures InPageOrder(page, [u] + tail)
  {
    var q := [u] + tail;
    forall i, j | 0 <= i < j < |q| ensures IndexIn(page, q[i]) < IndexIn(page, q[j]) {
      assert q[j] == tail[j - 1] && tail[j - 1] in tail;
      assert i > 0 ==> q[i] == tail[i - 1];
    }
  }

  lemma {:induction false} PresentInOrder(page: seq<Uid>, from: nat, rows: seq<Uid>)
    requires Distinct(page) && from <= |page|
    ensures InPageOrder(page, Present(page[from..], rows))
    ensures forall u :: u in Present(page[from..], rows) ==> IndexIn(page, u) >= from
    decreases |page| - from
  {
    if from < |page| {
      PresentInOrder(page, from + 1, rows);
      assert page[from..][1..] == page[from + 1..] && page[from..][0] == page[from];
      IndexOfEntry(page, from);
      InOrderCons(page, page[from], Present(page[from + 1..], rows));
    }
  }

  /**
   Hydration restores the rank: whatever order the database returns the rows in, and even if some
   have disappeared, sorting them by the index map shows the page's entries that exist, in page order.
   */
  lemma {:induction false} HydrationRestoresRank(page: seq<Uid>, rows: seq<Uid>, shown: seq<Uid>)
    requires Distinct(page) && Hydrates(page, rows, shown)
    ensures shown == Present(page, rows)
    ensures |rows| == |page| ==> shown == page
  {
    PresentInOrder(page, 0, rows);
    assert page[0..] == page;
    forall i, j | 0 <= i < j < |shown| ensures IndexIn(page, shown[i]) < IndexIn(page, shown[j]) {
      assert shown[i] in shown && shown[j] in shown;
    }
    PageOrderIsUnique(page, shown, Present(page, rows));
    if |rows| == |page| {
      AllPresent(page, rows);
      PresentWhenAll(page, rows);
    }
  }

  /** As many distinct rows as page entries, all from the page: every entry is there. */
  lemma AllPresent(page: seq<Uid>, rows: seq<Uid>)
    requires Distinct(page) && Distinct(rows) && |rows| == |page| && forall u :: u in rows ==> u in page
    ensures forall u :: u in page ==> u in rows
  {
    var a, b := set u | u in rows, set u | u in page;
    DistinctSize(rows);
    DistinctSize(page);
    assert a <= b && |b - a| == |b| - |a| == 0;
    assert b - a == {} && b <= a;
    forall u | u in page ensures u in rows {
      assert u in b;
    }
  }

  lemma {:induction false} DistinctSize(q: seq<Uid>)
    requires Distinct(q)
    ensures |set u | u in q| == |q|
  {
    if q != [] {
      DistinctSize(q[1..]);
      assert q == [q[0]] + q[1..];
      assert (set u | u in q) == {q[0]} + (set u | u in q[1..]);
    }
  }

  lemma {:induction false} PresentWhenAll(page: seq<Uid>, rows: seq<Uid>)
    requires forall u :: u in page ==> u in rows
    ensures Present(page, rows) == page
  {
    if page != [] {
      PresentWhenAll(page[1..], rows);
      assert page == [page[0]] + page[1..];
    }
  }

  // ---------------------------------------------------------------------------
  // Following the offset cursor
  // ---------------------------------------------------------------------------

  datatype Walk = Walk(pages: seq<seq<Uid>>, finished: bool)

  /** At most `requests` requests, each with the cursor of the one before. */
  function Follow(ranked: seq<Uid>, cursor: Option<string>, limit: nat, requests: nat): Walk
    decreases requests
  {
    if requests == 0 then Walk([], false)
    else
      match Respond(ranked, cursor, limit)
      case Failed => Walk([], false)
      case Ok(page, next) =>
        if next.None? then Walk([page], true)
        else
          var rest := Follow(ranked, next, limit, requests - 1);
          Walk([page] + rest.pages, rest.finished)
  }

  lemma RespondAt(ranked: seq<Uid>, from: nat, limit: nat)
    requires from <= |ranked|
    ensures var rest := ranked[from..];
            Respond(ranked, Some(Decimal(from)), limit) ==
            if |rest| > limit then Ok(rest[..limit], Some(Decimal(from + limit))) else Ok(rest, None)
  {
    OffsetRoundTrip(from);
  }

  /** One request at `from`, and the rest of the walk. */
  lemma OneRequest(ranked: seq<Uid>, from: nat, limit: nat, requests: nat)
    requires from <= |ranked| && requests > 0
    ensures var w := Follow(ranked, Some(Decimal(from)), limit, requests);
            if |ranked| - from <= limit then w == Walk([ranked[from..]], true)
            else
              var rest := Follow(ranked, Some(Decimal(from + limit)), limit, requests - 1);
              w == Walk([ranked[from..][..limit]] + rest.pages, rest.finished)
  {
    RespondAt(ranked, from, limit);
  }

  /** What a walk with `requests` requests shows of the list it has to deliver. */
  predicate Delivers(w: Walk, list: seq<Uid>, limit: nat, requests: nat)
    requires limit >= 1
  {
    && (w.finished <==> requests >= Keyset.Requests(|list|, limit))
    && (w.finished ==> |w.pages| == Keyset.Requests(|list|, limit) && Keyset.Flatten(w.pages) == list)
  }

  lemma PageThenDelivers(page: seq<Uid>, rest: Walk, list: seq<Uid>, limit: nat, requests: nat)
    requires |page| == limit >= 1 && list != [] && Delivers(rest, list, limit, requests)
    ensures Delivers(Walk([page] + rest.pages, rest.finished), page + list, limit, requests + 1)
  {
    Keyset.FlattenCons(page, rest.pages);
  }

  lemma LastPageDelivers(list: seq<Uid>, limit: nat, requests: nat)
    requires limit >= 1 && |list| <= limit && requests > 0
    ensures Delivers(Walk([list], true), list, limit, requests)
  {
    assert Keyset.Flatten([list]) == list + [];
  }

  lemma NothingDelivered(list: seq<Uid>, limit: nat)
    requires limit >= 1
    ensures Delivers(Walk([], false), list, limit, 0)
  {
  }

  lemma {:induction false} FollowFrom(ranked: seq<Uid>, from: nat, limit: nat, requests: nat)
    requires limit >= 1 && from <= |ranked|
    ensures Delivers(Follow(ranked, Some(Decimal(from)), limit, requests), ranked[from..], limit, requests)
    decreases requests
  {
    if requests == 0 {
      NothingDelivered(ranked[from..], limit);
    } else {
      OneRequest(ranked, from, limit, requests);
      if |ranked| - from <= limit {
        LastPageDelivers(ranked[from..], limit, requests);
      } else {
        var page, rest := ranked[from..][..limit], ranked[from + limit..];
        FollowFrom(ranked, from + limit, limit, requests - 1);
        PageThenDelivers(page, Follow(ranked, Some(Decimal(from + limit)), limit, requests - 1),
                         rest, limit, requests - 1);
        assert page + rest == ranked[from..];
      }
    }
  }

  /**
   Following the offset cursor over a fixed ranking gives exactly the ranked list, page after page,
   in max(1, ceil(n / limit)) requests, whatever order each page's rows come back in.
   */
  lemma {:induction false} OffsetPagingIsExact(ranked: seq<Uid>, limit: nat, requests: nat,
                                               rows: seq<seq<Uid>>, shown: seq<seq<Uid>>)
    requires limit >= 1 && Distinct(ranked)
    requires var pages := Follow(ranked, None, limit, requests).pages;
             && |rows| == |shown| == |pages|
             && forall i :: 0 <= i < |pages| ==> Hydrates(pages[i], rows[i], shown[i]) && |rows[i]| == |pages[i]|
    ensures var finished := Follow(ranked, None, limit, requests).finished;
            && (finished <==> requests >= Keyset.Ceiling(|ranked|, limit))
            && (finished ==> |shown| == Keyset.Ceiling(|ranked|, limit) && Keyset.Flatten(shown) == ranked)
  {
    var w := Follow(ranked, None, limit, requests);
    OffsetRoundTrip(0);
    assert Respond(ranked, None, limit) == Respond(ranked, Some(Decimal(0)), limit);
    assert w == Follow(ranked, Some(Decimal(0)), limit, requests);
    FollowFrom(ranked, 0, limit, requests);
    Keyset.RequestsIsCeiling(|ranked|, limit);
    forall i | 0 <= i < |w.pages| ensures shown[i] == w.pages[i] {
      PagesAreDistinct(ranked, None, limit, requests, i);
      HydrationRestoresRank(w.pages[i], rows[i], shown[i]);
    }
    assert shown == w.pages;
    assert ranked[0..] == ranked;
  }

  lemma PageIsDistinct(ranked: seq<Uid>, cursor: Option<string>, limit: nat)
    requires Distinct(ranked) && Respond(ranked, cursor, limit).Ok?
    ensures Distinct(Respond(ranked, cursor, limit).page)
  {
  }

  lemma {:induction false} PagesAreDistinct(ranked: seq<Uid>, cursor: Option<string>, limit: nat, requests: nat, i: nat)
    requires Distinct(ranked) && i < |Follow(ranked, cursor, limit, requests).pages|
    ensures Distinct(Follow(ranked, cursor, limit, requests).pages[i])
    decreases requests
  {
    PageIsDistinct(ranked, cursor, limit);
    if i > 0 {
      var next := Respond(ranked, cursor, limit).nextCursor;
      var rest := Follow(ranked, next, limit, requests - 1);
      assert Follow(ranked, cursor, limit, requests).pages[i] == rest.pages[i - 1];
      PagesAreDistinct(ranked, next, limit, requests - 1, i - 1);
    }
  }
}
