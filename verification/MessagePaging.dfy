/**
 Keyset paging of the messages of one conversation
 (src/conversations/services/messages.service.ts, `getMessages`), and the walk a client makes by
 following `nextCursor` while the conversation changes under it.

 A conversation is the set of the keys of its messages.  Deleting a message only sets its
 globalStatus, which the query does not look at, so the set never loses a key.
 */
module MessagePaging {
  import opened Common
  import opened Cursor
  import opened Keyset

  /** Message uids are never empty. */
  type RowKey = k: Key | k.uid != "" witness Key(Fields(1970, 1, 1, 0, 0, 0, 0), "c")

  /** ORDER BY createdAt DESC, uid DESC lists the rows against this order. */
  const OLDER: (RowKey, RowKey) -> bool := (a: RowKey, b: RowKey) => Older(a, b)

  lemma OlderOrdersRows()
    ensures StrictOrder(OLDER)
  {
    forall a: RowKey ensures !OLDER(a, a) {
      OlderIsTotal(a, a);
    }
    forall a: RowKey, b: RowKey ensures a == b || OLDER(a, b) || OLDER(b, a) {
      OlderIsTotal(a, b);
    }
    forall a: RowKey, b: RowKey, c: RowKey | OLDER(a, b) && OLDER(b, c) ensures OLDER(a, c) {
      OlderTransitive(a, b, c);
    }
  }

  ghost function NewestFirst(rows: set<RowKey>): seq<RowKey> {
    OlderOrdersRows();
    Sorted(rows, OLDER)
  }

  // ---------------------------------------------------------------------------
  // One request
  // ---------------------------------------------------------------------------

  datatype Page = Page(items: seq<RowKey>, nextCursor: Option<string>)

  datatype Reply = Ok(page: Page) | Failed

  function Reverse<T>(q: seq<T>): (r: seq<T>)
    ensures |r| == |q|
    ensures forall i :: 0 <= i < |q| ==> r[i] == q[|q| - 1 - i]
  {
    if q == [] then [] else Reverse(q[1..]) + [q[0]]
  }

  function Min(a: nat, b: nat): nat {
    if a < b then a else b
  }

  /** The rows the query lets through at a position. */
  ghost function Matching(rows: set<RowKey>, p: Position): set<RowKey>
    requires !p.InvalidDate?
  {
    if p.FromStart? then rows else set k | k in rows && Older(k, p.key)
  }

  /** The rows kept for a page, and the row the next cursor is printed from. */
  datatype Cut = Cut(kept: seq<RowKey>, next: Option<RowKey>) | NothingToPrint

  /** One row more than the limit is fetched and cut off; with limit 0 there is no row to print. */
  function CutAt(all: seq<RowKey>, limit: nat): Cut {
    var fetched := all[..Min(limit + 1, |all|)];
    var hasMore := |fetched| > limit;
    var kept := if hasMore then fetched[..limit] else fetched;
    if hasMore && kept == [] then NothingToPrint
    else Cut(kept, if hasMore then Some(kept[|kept| - 1]) else None)
  }

  ghost function Fetch(rows: set<RowKey>, p: Position, limit: nat): Cut
    requires !p.InvalidDate?
  {
    CutAt(NewestFirst(Matching(rows, p)), limit)
  }

  /** The cursor printed for a row. */
  function CursorOf(p: Option<RowKey>): Option<string> {
    if p.None? then None else Some(PrintCursor(p.value))
  }

  /** `getMessages`: parse the cursor, fetch, and reverse the page for display. */
  ghost function GetMessages(rows: set<RowKey>, cursor: Option<string>, limit: nat,
                             other: string -> Option<Instant>): Reply
  {
    var p := ParseCursor(cursor, other);
    if p.InvalidDate? then Failed
    else match Fetch(rows, p, limit)
      case NothingToPrint => Failed
      case Cut(kept, next) => Ok(Page(Reverse(kept), CursorOf(next)))
  }

  function PositionOf(p: Option<RowKey>): Position {
    if p.None? then FromStart else After(p.value)
  }

  lemma CursorIsUnderstood(p: Option<RowKey>, other: string -> Option<Instant>)
    ensures ParseCursor(CursorOf(p), other) == PositionOf(p)
  {
    if p.Some? {
      CursorRoundTrip(p.value, other);
    }
  }

  /** One step of keyset paging over message rows. */
  ghost function RowsAt(rows: set<RowKey>, p: Option<RowKey>, limit: nat): (seq<RowKey>, Option<RowKey>)
    requires limit >= 1
  {
    OlderOrdersRows();
    PageAt(rows, p, limit, OLDER)
  }

  /** Taking one row too many and cutting it off is taking `limit` rows. */
  lemma CutOff(all: seq<RowKey>, limit: nat)
    requires limit >= 1
    ensures CutAt(all, limit) == if |all| <= limit then Cut(all, None) else Cut(all[..limit], Some(all[limit - 1]))
  {
    if |all| > limit {
      assert all[..limit + 1][..limit] == all[..limit];
    } else {
      assert all[..|all|] == all;
    }
  }

  lemma FetchIsOnePage(rows: set<RowKey>, p: Option<RowKey>, limit: nat)
    requires limit >= 1 && StrictOrder(OLDER)
    ensures var (page, next) := PageAt(rows, p, limit, OLDER);
            Fetch(rows, PositionOf(p), limit) == Cut(page, next)
  {
    assert Matching(rows, PositionOf(p)) == Below(rows, p, OLDER);
    CutOff(NewestFirst(Below(rows, p, OLDER)), limit);
  }

  /** A request carrying a printed cursor is one step of keyset paging at the row that was printed. */
  lemma {:induction false} RequestIsOnePage(rows: set<RowKey>, p: Option<RowKey>, limit: nat,
                                            other: string -> Option<Instant>)
    requires limit >= 1
    ensures var (page, next) := RowsAt(rows, p, limit);
            GetMessages(rows, CursorOf(p), limit, other) == Ok(Page(Reverse(page), CursorOf(next)))
  {
    CursorIsUnderstood(p, other);
    OlderOrdersRows();
    FetchIsOnePage(rows, p, limit);
  }

  lemma CutFailsExactly(all: seq<RowKey>, limit: nat)
    ensures CutAt(all, limit) == NothingToPrint <==> limit == 0 && all != []
  {
    if limit >= 1 {
      CutOff(all, limit);
    }
  }

  /** A request fails exactly if its date cannot be read, or with limit 0 when there is a row to show. */
  lemma {:induction false} FailsExactly(rows: set<RowKey>, cursor: Option<string>, limit: nat,
                                        other: string -> Option<Instant>)
    ensures var p := ParseCursor(cursor, other);
            GetMessages(rows, cursor, limit, other) == Failed <==>
            p.InvalidDate? || (limit == 0 && exists k :: k in rows && (p.FromStart? || Older(k, p.key)))
  {
    var p := ParseCursor(cursor, other);
    if !p.InvalidDate? {
      var all, shown := NewestFirst(Matching(rows, p)), Matching(rows, p);
      CutFailsExactly(all, limit);
      OlderOrdersRows();
      ListsEmpty(all, shown);
      assert (exists k :: k in rows && (p.FromStart? || Older(k, p.key))) <==> shown != {} by {
        if k :| k in rows && (p.FromStart? || Older(k, p.key)) {
          assert k in shown;
        }
      }
    }
  }

  // ---------------------------------------------------------------------------
  // Following nextCursor
  // ---------------------------------------------------------------------------

  /** Request i sees the rows `snaps[i]`; the client stops when there is no cursor or no request left. */
  ghost function FollowCursors(snaps: seq<set<RowKey>>, cursor: Option<string>, limit: nat,
                               other: string -> Option<Instant>): Walk<RowKey>
  {
    if snaps == [] then Walk([], false)
    else
      match GetMessages(snaps[0], cursor, limit, other)
      case Failed => Walk([], false)
      case Ok(page) =>
        if page.nextCursor.None? then Walk([page.items], true)
        else
          var rest := FollowCursors(snaps[1..], page.nextCursor, limit, other);
          Walk([page.items] + rest.pages, rest.finished)
  }

  /** All pages as the query listed them, that is each page turned back, one after the other. */
  function Delivered(pages: seq<seq<RowKey>>): seq<RowKey> {
    if pages == [] then [] else Reverse(pages[0]) + Delivered(pages[1..])
  }

  lemma ReverseTwice<T>(q: seq<T>)
    ensures Reverse(Reverse(q)) == q
  {
  }

  /** One answered request, and the rest of the walk. */
  lemma OneRequest(snaps: seq<set<RowKey>>, cursor: Option<string>, limit: nat, other: string -> Option<Instant>,
                   page: seq<RowKey>, next: Option<string>)
    requires snaps != [] && GetMessages(snaps[0], cursor, limit, other) == Ok(Page(Reverse(page), next))
    ensures var w := FollowCursors(snaps, cursor, limit, other);
            if next.None? then w.finished && |w.pages| == 1 && Delivered(w.pages) == page
            else
              var rest := FollowCursors(snaps[1..], next, limit, other);
              w.finished == rest.finished && |w.pages| == 1 + |rest.pages|
              && Delivered(w.pages) == page + Delivered(rest.pages)
  {
    ReverseTwice(page);
    if next.None? {
      assert Delivered([Reverse(page)]) == page + [];
    } else {
      var rest := FollowCursors(snaps[1..], next, limit, other);
      assert ([Reverse(page)] + rest.pages)[1..] == rest.pages;
    }
  }

  ghost predicate SameWalk(w: Walk<RowKey>, k: Walk<RowKey>) {
    w.finished == k.finished && |w.pages| == |k.pages| && Delivered(w.pages) == Flatten(k.pages)
  }

  /** Following printed cursors is keyset paging, with every page reversed. */
  lemma {:induction false} CursorsFollowKeys(snaps: seq<set<RowKey>>, p: Option<RowKey>, limit: nat,
                                             other: string -> Option<Instant>)
    requires limit >= 1 && StrictOrder(OLDER)
    ensures SameWalk(FollowCursors(snaps, CursorOf(p), limit, other), Follow(snaps, p, limit, OLDER))
  {
    if snaps != [] {
      RequestIsOnePage(snaps[0], p, limit, other);
      var (page, next) := RowsAt(snaps[0], p, limit);
      OneRequest(snaps, CursorOf(p), limit, other, page, CursorOf(next));
      OnePage(snaps, p, limit, OLDER);
      if next.Some? {
        CursorsFollowKeys(snaps[1..], next, limit, other);
      }
    }
  }

  /**
   Coverage.  A client that follows `nextCursor` until it is null has been given every message
   that existed at its first request, in strictly descending order over all pages, hence each
   exactly once, and nothing that does not exist, whatever was sent or soft-deleted meanwhile.
   */
  lemma {:induction false} PagingCoversTheStart(snaps: seq<set<RowKey>>, limit: nat, other: string -> Option<Instant>)
    requires limit >= 1 && OnlyGrows(snaps)
    ensures var w := FollowCursors(snaps, None, limit, other);
            var d := Delivered(w.pages);
            w.finished ==>
              && snaps != []
              && (forall i, j :: 0 <= i < j < |d| ==> Older(d[j], d[i]))
              && (forall k :: k in snaps[0] ==> k in d)
              && (forall k :: k in d ==> k in snaps[|snaps| - 1])
  {
    OlderOrdersRows();
    CursorsFollowKeys(snaps, None, limit, other);
    if Follow(snaps, None, limit, OLDER).finished {
      WalkCovers(snaps, None, limit, OLDER);
    }
  }

  lemma {:induction false} CountedPaging(snaps: seq<set<RowKey>>, limit: nat, other: string -> Option<Instant>)
    requires limit >= 1 && snaps != [] && OnlyGrows(snaps) && NewcomersAreNewer(snaps, OLDER)
    ensures var w := FollowCursors(snaps, None, limit, other);
            && (w.finished <==> |snaps| >= Requests(|snaps[0]|, limit))
            && (w.finished ==> |w.pages| == Requests(|snaps[0]|, limit) && Delivered(w.pages) == NewestFirst(snaps[0]))
  {
    OlderOrdersRows();
    CursorsFollowKeys(snaps, None, limit, other);
    WalkDeliversTheStart(snaps, limit, OLDER);
  }

  /**
   Exactness and cost.  If only newer messages appear between the requests, the client is given
   exactly the messages of its first request, newest first, and is done after
   max(1, ceil(n / limit)) requests, neither earlier nor later.
   */
  lemma {:induction false} PagingIsExact(snaps: seq<set<RowKey>>, limit: nat, other: string -> Option<Instant>)
    requires limit >= 1 && snaps != [] && OnlyGrows(snaps)
    requires NewcomersAreNewer(snaps, OLDER)
    ensures var w := FollowCursors(snaps, None, limit, other);
            var needed := Ceiling(|snaps[0]|, limit);
            && (w.finished <==> |snaps| >= needed)
            && (w.finished ==> |w.pages| == needed && Delivered(w.pages) == NewestFirst(snaps[0]))
  {
    CountedPaging(snaps, limit, other);
    RequestsIsCeiling(|snaps[0]|, limit);
  }
}
