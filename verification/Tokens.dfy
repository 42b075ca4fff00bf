/**
 Refresh-token rotation (src/auth/services/auth-b2c.service.ts, `refreshToken`, `login`, `logout`,
 `resetForgottenPassword`).  A refresh is two steps, the lookup and the rotating transaction, and
 the steps of any number of refreshes interleave with logins, logouts and password resets.

 Row uids are numbers handed out in increasing order.  Signed tokens are arbitrary strings: the
 unique constraint on RefreshTokens.token is modelled, their freshness is not needed.
 */
module Tokens {
  import opened Common

  const SEVEN_DAYS: int := 7 * 24 * 60 * 60 * 1000

  datatype RefreshRow = RefreshRow(token: string, user: Uid, expiresAt: int)

  datatype AccessRow = AccessRow(token: string, user: Uid)

  /** `next` and `nextAccess` are the next row uids of the two tables; `connected` the users that may refresh. */
  datatype Tables = Tables(refresh: map<nat, RefreshRow>, access: map<nat, AccessRow>,
                           users: set<Uid>, connected: set<Uid>, next: nat, nextAccess: nat)

  // ---------------------------------------------------------------------------
  // Queries and transactions
  // ---------------------------------------------------------------------------

  predicate Usable(t: Tables, id: nat, token: string, user: Uid, now: int) {
    id in t.refresh && t.refresh[id].token == token && t.refresh[id].user == user && t.refresh[id].expiresAt > now
  }

  ghost predicate TokensAreUnique(t: Tables) {
    forall i, j :: i in t.refresh && j in t.refresh && t.refresh[i].token == t.refresh[j].token ==> i == j
  }

  /** The checks of a refresh before its transaction: the row of the token, if it may be rotated. */
  ghost function LookupRow(t: Tables, token: string, user: Uid, now: int): Option<nat> {
    if user in t.users && user in t.connected && exists id :: Usable(t, id, token, user, now) then
      var id :| Usable(t, id, token, user, now);
      Some(id)
    else None
  }

  predicate Taken(t: Tables, token: string) {
    exists id :: id in t.refresh && t.refresh[id].token == token
  }

  /** `findFirst` of a user's access tokens: the database may answer any of them, here `pick` if it can. */
  ghost function FirstAccess(t: Tables, user: Uid, pick: nat): Option<nat> {
    if pick in t.access && t.access[pick].user == user then Some(pick)
    else if id: nat :| id in t.access && t.access[id].user == user then Some(id)
    else None
  }

  function InsertRefresh(t: Tables, row: RefreshRow): Tables {
    t.(refresh := t.refresh[t.next := row], next := t.next + 1)
  }

  function InsertAccess(t: Tables, row: AccessRow): Tables {
    t.(access := t.access[t.nextAccess := row], nextAccess := t.nextAccess + 1)
  }

  /** The rotating transaction: it fails as a whole if the row is gone or the new token is taken. */
  ghost predicate CanRotate(t: Tables, row: nat, newRefresh: string) {
    row in t.refresh && !Taken(t.(refresh := t.refresh - {row}), newRefresh)
  }

  ghost function Rotate(t: Tables, row: nat, user: Uid, newAccess: string, newRefresh: string, pick: nat,
                        now: int): Tables
    requires CanRotate(t, row, newRefresh)
  {
    var t1 := InsertRefresh(t.(refresh := t.refresh - {row}), RefreshRow(newRefresh, user, now + SEVEN_DAYS));
    match FirstAccess(t1, user, pick)
    case Some(id) => t1.(access := t1.access[id := AccessRow(newAccess, user)])
    case None => InsertAccess(t1, AccessRow(newAccess, user))
  }

  /** A new pair of tokens, refused if the refresh token is taken; the refresh row gets uid `next`. */
  function Issue(t: Tables, user: Uid, access: string, refresh: string, now: int): Tables {
    InsertRefresh(InsertAccess(t, AccessRow(access, user)), RefreshRow(refresh, user, now + SEVEN_DAYS))
  }

  function DropUser(t: Tables, user: Uid): Tables {
    t.(refresh := map id | id in t.refresh && t.refresh[id].user != user :: t.refresh[id],
       access := map id | id in t.access && t.access[id].user != user :: t.access[id])
  }

  // ---------------------------------------------------------------------------
  // The interleaved system
  // ---------------------------------------------------------------------------

  datatype InFlight = InFlight(row: nat, user: Uid, token: string, at: int)

  /**
   The tables, the refreshes between their two steps, and two history variables: `parent` says which
   row a row was rotated from, `rotated` lists the rows rotated so far.
   */
  datatype System = System(tables: Tables, inFlight: map<nat, InFlight>, parent: map<nat, nat>, rotated: seq<nat>)

  datatype Op =
    | Lookup(call: nat, token: string, user: Uid, now: int)
    | Commit(call: nat, access: string, refresh: string, pick: nat, now: int)
    | Login(user: Uid, passwordOk: bool, access: string, refresh: string, now: int)
    | Logout(user: Uid)
    | Reset(user: Uid, access: string, refresh: string, now: int)
    | SetConnected(user: Uid, connected: bool)

  /** The call completes and issues a pair of tokens to `user`. */
  ghost predicate Issues(s: System, op: Op, user: Uid) {
    match op
    case Commit(call, _, refresh, _, _) =>
      call in s.inFlight && s.inFlight[call].user == user && CanRotate(s.tables, s.inFlight[call].row, refresh)
    case Login(u, ok, _, refresh, _) => u == user && ok && u in s.tables.users && !Taken(s.tables, refresh)
    case Reset(u, _, refresh, _) => u == user && u in s.tables.users && !Taken(DropUser(s.tables, u), refresh)
    case _ => false
  }

  ghost function Step(s: System, op: Op): System {
    match op
    case Lookup(call, token, user, now) =>
      (match LookupRow(s.tables, token, user, now)
       case Some(row) =>
         if call in s.inFlight then s else s.(inFlight := s.inFlight[call := InFlight(row, user, token, now)])
       case None => s)
    case Commit(call, access, refresh, pick, now) =>
      if call !in s.inFlight then s
      else
        var f := s.inFlight[call];
        var done := s.(inFlight := s.inFlight - {call});
        if !Issues(s, op, f.user) then done
        else done.(tables := Rotate(s.tables, f.row, f.user, access, refresh, pick, now),
                   parent := s.parent[s.tables.next := f.row], rotated := s.rotated + [f.row])
    case Login(user, _, access, refresh, now) =>
      if !Issues(s, op, user) then s else s.(tables := Issue(s.tables, user, access, refresh, now))
    case Logout(user) => s.(tables := DropUser(s.tables, user))
    case Reset(user, access, refresh, now) =>
      if !Issues(s, op, user) then s else s.(tables := Issue(DropUser(s.tables, user), user, access, refresh, now))
    case SetConnected(user, c) =>
      s.(tables := s.tables.(connected := if c then s.tables.connected + {user} else s.tables.connected - {user}))
  }

  ghost function Run(s: System, ops: seq<Op>): System
    decreases |ops|
  {
    if ops == [] then s else Step(Run(s, ops[..|ops| - 1]), ops[|ops| - 1])
  }

  function Start(users: set<Uid>): System {
    System(Tables(map[], map[], users, users, 0, 0), map[], map[], [])
  }

  // ---------------------------------------------------------------------------
  // Lineage
  // ---------------------------------------------------------------------------

  /** `r` is `a` or was obtained from `a` by rotations. */
  predicate Descends(parent: map<nat, nat>, r: nat, a: nat) {
    r == a || (r in parent && parent[r] < r && Descends(parent, parent[r], a))
  }

  /** Recording the parent of a new row changes nothing for the rows before it. */
  lemma {:induction false} OlderLineageStays(parent: map<nat, nat>, n: nat, p: nat, r: nat, a: nat)
    requires r < n
    ensures Descends(parent[n := p], r, a) <==> Descends(parent, r, a)
  {
    if r in parent && parent[r] < r {
      OlderLineageStays(parent, n, p, parent[r], a);
    }
  }

  lemma {:induction false} AncestorsAreOlder(parent: map<nat, nat>, r: nat, a: nat)
    requires Descends(parent, r, a)
    ensures a <= r
  {
    if r != a {
      AncestorsAreOlder(parent, parent[r], a);
    }
  }

  // ---------------------------------------------------------------------------
  // Invariants
  // ---------------------------------------------------------------------------

  /** Uids are handed out once, and a row is rotated from an older one. */
  ghost predicate UidsAreFresh(s: System) {
    && (forall id :: id in s.tables.refresh ==> id < s.tables.next)
    && (forall id :: id in s.tables.access ==> id < s.tables.nextAccess)
    && (forall id :: id in s.parent ==> id < s.tables.next && s.parent[id] < id)
  }

  /** A refresh in flight is about the row of its user that holds the presented token, found unexpired. */
  ghost predicate LookupsAreTrue(s: System) {
    && (forall c :: c in s.inFlight ==> s.inFlight[c].row < s.tables.next)
    && (forall c :: c in s.inFlight && s.inFlight[c].row in s.tables.refresh ==>
          var (f, row) := (s.inFlight[c], s.tables.refresh[s.inFlight[c].row]);
          row.user == f.user && row.token == f.token && f.at < row.expiresAt)
  }

  /** A row that was rotated is gone for good and was rotated once. */
  ghost predicate RotatedOnce(s: System) {
    && (forall i :: 0 <= i < |s.rotated| ==> s.rotated[i] < s.tables.next && s.rotated[i] !in s.tables.refresh)
    && (forall i, j :: 0 <= i < j < |s.rotated| ==> s.rotated[i] != s.rotated[j])
  }

  ghost predicate Inv(s: System) {
    TokensAreUnique(s.tables) && UidsAreFresh(s) && LookupsAreTrue(s) && RotatedOnce(s)
  }

  /** Two live rows never come from the same login: each login has at most one live refresh token. */
  ghost predicate FamiliesAreApart(s: System) {
    forall r, q, a: nat :: r in s.tables.refresh && q in s.tables.refresh && r != q ==>
      !(Descends(s.parent, r, a) && Descends(s.parent, q, a))
  }

  lemma StepKeepsTokensUnique(s: System, op: Op)
    requires TokensAreUnique(s.tables)
    ensures TokensAreUnique(Step(s, op).tables)
  {
  }

  /** What a rotation does to the refresh tokens, whichever access token it replaces. */
  lemma RotateMovesRefresh(t: Tables, row: nat, user: Uid, access: string, refresh: string, pick: nat, now: int)
    requires CanRotate(t, row, refresh)
    ensures var t' := Rotate(t, row, user, access, refresh, pick, now);
            && t'.refresh == (t.refresh - {row})[t.next := RefreshRow(refresh, user, now + SEVEN_DAYS)]
            && t'.next == t.next + 1 && t'.nextAccess >= t.nextAccess
  {
  }

  lemma CommitMoves(s: System, op: Op)
    requires op.Commit? && op.call in s.inFlight
    ensures var s', f := Step(s, op), s.inFlight[op.call];
            && s'.inFlight == s.inFlight - {op.call}
            && (if CanRotate(s.tables, f.row, op.refresh)
                then && s'.tables.refresh == (s.tables.refresh - {f.row})[s.tables.next :=
                          RefreshRow(op.refresh, f.user, op.now + SEVEN_DAYS)]
                     && s'.tables.next == s.tables.next + 1 && s'.parent == s.parent[s.tables.next := f.row]
                else s'.tables == s.tables && s'.parent == s.parent)
  {
    var f := s.inFlight[op.call];
    if CanRotate(s.tables, f.row, op.refresh) {
      RotateMovesRefresh(s.tables, f.row, f.user, op.access, op.refresh, op.pick, op.now);
    }
  }

  lemma CommitKeepsLookupsTrue(s: System, op: Op)
    requires UidsAreFresh(s) && LookupsAreTrue(s) && op.Commit? && op.call in s.inFlight
    ensures LookupsAreTrue(Step(s, op))
  {
    CommitMoves(s, op);
  }

  lemma CommitKeepsUidsFresh(s: System, op: Op)
    requires UidsAreFresh(s) && LookupsAreTrue(s) && op.Commit? && op.call in s.inFlight
    ensures UidsAreFresh(Step(s, op)) && Step(s, op).tables.next >= s.tables.next
  {
    CommitMoves(s, op);
  }

  lemma StepKeepsLookupsTrue(s: System, op: Op)
    requires UidsAreFresh(s) && LookupsAreTrue(s)
    ensures LookupsAreTrue(Step(s, op))
  {
    if op.Commit? {
      if op.call in s.inFlight {
        CommitKeepsLookupsTrue(s, op);
      }
    }
  }

  lemma StepKeepsUidsFresh(s: System, op: Op)
    requires UidsAreFresh(s) && LookupsAreTrue(s)
    ensures UidsAreFresh(Step(s, op))
    ensures Step(s, op).tables.next >= s.tables.next
  {
    if op.Commit? {
      if op.call in s.inFlight {
        CommitKeepsUidsFresh(s, op);
      }
    }
  }

  lemma StepKeepsRotatedOnce(s: System, op: Op)
    requires UidsAreFresh(s) && LookupsAreTrue(s) && RotatedOnce(s)
    ensures RotatedOnce(Step(s, op))
  {
  }

  lemma StepKeepsInv(s: System, op: Op)
    requires Inv(s)
    ensures Inv(Step(s, op))
    ensures Step(s, op).tables.next >= s.tables.next
  {
    StepKeepsTokensUnique(s, op);
    StepKeepsUidsFresh(s, op);
    StepKeepsLookupsTrue(s, op);
    StepKeepsRotatedOnce(s, op);
  }

  lemma StepKeepsFamiliesApart(s: System, op: Op)
    requires Inv(s) && FamiliesAreApart(s)
    ensures FamiliesAreApart(Step(s, op))
  {
    var s', n := Step(s, op), s.tables.next;
    forall r, q, a: nat | r in s'.tables.refresh && q in s'.tables.refresh && r < q
      ensures !(Descends(s'.parent, r, a) && Descends(s'.parent, q, a))
    {
      if q == n {
        if op.Commit? {
          var p := s.inFlight[op.call].row;
          OlderLineageStays(s.parent, n, p, r, a);
          OlderLineageStays(s.parent, n, p, p, a);
          if Descends(s'.parent, r, a) {
            AncestorsAreOlder(s'.parent, r, a);
          }
        } else if Descends(s'.parent, r, a) {
          AncestorsAreOlder(s'.parent, r, a);
        }
      } else if s'.parent != s.parent {
        OlderLineageStays(s.parent, n, s'.parent[n], r, a);
        OlderLineageStays(s.parent, n, s'.parent[n], q, a);
      }
    }
  }

  /** Every reachable state, whatever the interleaving. */
  lemma {:induction false} Reachable(users: set<Uid>, ops: seq<Op>)
    ensures Inv(Run(Start(users), ops)) && FamiliesAreApart(Run(Start(users), ops))
    decreases |ops|
  {
    if ops != [] {
      Reachable(users, ops[..|ops| - 1]);
      StepKeepsInv(Run(Start(users), ops[..|ops| - 1]), ops[|ops| - 1]);
      StepKeepsFamiliesApart(Run(Start(users), ops[..|ops| - 1]), ops[|ops| - 1]);
    }
  }

  /** Over every interleaving each refresh-token row is rotated successfully at most once. */
  lemma {:induction false} RotatedAtMostOnce(users: set<Uid>, ops: seq<Op>)
    ensures var s := Run(Start(users), ops);
            && (forall i, j :: 0 <= i < j < |s.rotated| ==> s.rotated[i] != s.rotated[j])
            && (forall i :: 0 <= i < |s.rotated| ==> s.rotated[i] !in s.tables.refresh)
  {
    Reachable(users, ops);
  }

  /** A rotation that succeeds rotates the row of the token that was presented, found unexpired, for its own user. */
  lemma {:induction false} RotationsAreOfPresentedToken(users: set<Uid>, ops: seq<Op>, op: Op, user: Uid)
    requires op.Commit? && Issues(Run(Start(users), ops), op, user)
    ensures var s := Run(Start(users), ops);
            var f := s.inFlight[op.call];
            && Usable(s.tables, f.row, f.token, user, f.at)
            && f.row !in Step(s, op).tables.refresh
            && Step(s, op).tables.refresh[s.tables.next] == RefreshRow(op.refresh, user, op.now + SEVEN_DAYS)
  {
    Reachable(users, ops);
  }

  /** Of all the rows descending from one login, at most one is live at any moment. */
  lemma {:induction false} OneLiveTokenPerLogin(users: set<Uid>, ops: seq<Op>, login: nat, r: nat, q: nat)
    requires var s := Run(Start(users), ops);
             && r in s.tables.refresh && Descends(s.parent, r, login)
             && q in s.tables.refresh && Descends(s.parent, q, login)
    ensures r == q
  {
    Reachable(users, ops);
  }

  // ---------------------------------------------------------------------------
  // Logout and reset
  // ---------------------------------------------------------------------------

  /** No live row of `user` has an ancestor issued before uid `cut`. */
  ghost predicate CutAt(s: System, user: Uid, cut: nat) {
    forall r, a: nat ::
      r in s.tables.refresh && s.tables.refresh[r].user == user && Descends(s.parent, r, a) ==> a >= cut
  }

  lemma StepKeepsCut(s: System, op: Op, user: Uid, cut: nat)
    requires Inv(s) && CutAt(s, user, cut) && cut <= s.tables.next
    ensures CutAt(Step(s, op), user, cut)
  {
    var s', n := Step(s, op), s.tables.next;
    forall r, a: nat | r in s'.tables.refresh && s'.tables.refresh[r].user == user && Descends(s'.parent, r, a)
      ensures a >= cut
    {
      if r == n {
        if op.Commit? {
          OlderLineageStays(s.parent, n, s'.parent[n], s'.parent[n], a);
        }
      } else if s'.parent != s.parent {
        OlderLineageStays(s.parent, n, s'.parent[n], r, a);
      }
    }
  }

  lemma {:induction false} RunKeepsCut(s: System, ops: seq<Op>, user: Uid, cut: nat)
    requires Inv(s) && CutAt(s, user, cut) && cut <= s.tables.next
    ensures Inv(Run(s, ops)) && CutAt(Run(s, ops), user, cut) && cut <= Run(s, ops).tables.next
    decreases |ops|
  {
    if ops != [] {
      RunKeepsCut(s, ops[..|ops| - 1], user, cut);
      StepKeepsInv(Run(s, ops[..|ops| - 1]), ops[|ops| - 1]);
      StepKeepsCut(Run(s, ops[..|ops| - 1]), ops[|ops| - 1], user, cut);
    }
  }

  /**
   After a logout, or a reset that succeeds, no live token of the user ever descends from a row
   issued before it, whatever follows, including refreshes whose lookup came before the logout.
   */
  lemma {:induction false} LogoutEndsLineage(users: set<Uid>, before: seq<Op>, op: Op, after: seq<Op>, r: nat, a: nat)
    requires op.Logout? || (op.Reset? && Issues(Run(Start(users), before), op, op.user))
    requires var s := Run(Step(Run(Start(users), before), op), after);
             r in s.tables.refresh && s.tables.refresh[r].user == op.user && Descends(s.parent, r, a)
    ensures a >= Run(Start(users), before).tables.next
  {
    var s := Run(Start(users), before);
    Reachable(users, before);
    StepKeepsInv(s, op);
    var s' := Step(s, op);
    forall q, b: nat | q in s'.tables.refresh && s'.tables.refresh[q].user == op.user && Descends(s'.parent, q, b)
      ensures b >= s.tables.next
    {
      assert q == s.tables.next && q !in s'.parent;
    }
    RunKeepsCut(s', after, op.user, s.tables.next);
  }

  /** Call `i` issued this access token to the user. */
  ghost predicate IssuedAt(s: System, ops: seq<Op>, i: nat, user: Uid, token: string) {
    i < |ops| && Issues(Run(s, ops[..i]), ops[i], user) && ops[i].access == token
  }

  /** Every access token of the user in the table was issued by one of the calls. */
  ghost predicate AccessFrom(s: System, ops: seq<Op>, user: Uid) {
    forall id :: id in Run(s, ops).tables.access && Run(s, ops).tables.access[id].user == user ==>
      exists i: nat :: IssuedAt(s, ops, i, user, Run(s, ops).tables.access[id].token)
  }

  lemma IssuedAtPrefix(s: System, ops: seq<Op>, i: nat, user: Uid, token: string)
    requires i + 1 < |ops|
    ensures IssuedAt(s, ops[..|ops| - 1], i, user, token) == IssuedAt(s, ops, i, user, token)
  {
    assert ops[..|ops| - 1][..i] == ops[..i];
  }

  lemma NewAccessIsIssued(s: System, op: Op, id: nat)
    requires id in Step(s, op).tables.access
    requires !(id in s.tables.access && s.tables.access[id] == Step(s, op).tables.access[id])
    ensures var row := Step(s, op).tables.access[id]; Issues(s, op, row.user) && op.access == row.token
  {
  }

  lemma {:induction false} AccessComesFromCalls(s: System, ops: seq<Op>, user: Uid)
    requires forall id :: id in s.tables.access ==> s.tables.access[id].user != user
    ensures AccessFrom(s, ops, user)
    decreases |ops|
  {
    if ops != [] {
      var n := |ops| - 1;
      AccessComesFromCalls(s, ops[..n], user);
      var before, after := Run(s, ops[..n]).tables.access, Run(s, ops).tables.access;
      forall id | id in after && after[id].user == user
        ensures exists i: nat :: IssuedAt(s, ops, i, user, after[id].token)
      {
        if id in before && before[id] == after[id] {
          var i: nat :| IssuedAt(s, ops[..n], i, user, after[id].token);
          IssuedAtPrefix(s, ops, i, user, after[id].token);
        } else {
          NewAccessIsIssued(Run(s, ops[..n]), ops[n], id);
          assert IssuedAt(s, ops, n, user, after[id].token);
        }
      }
    }
  }

  /** After a logout the guards accept no access token but those issued by calls completed since. */
  lemma {:induction false} LogoutEndsAccess(users: set<Uid>, before: seq<Op>, user: Uid, after: seq<Op>)
    ensures AccessFrom(Step(Run(Start(users), before), Logout(user)), after, user)
  {
    AccessComesFromCalls(Step(Run(Start(users), before), Logout(user)), after, user);
  }

  // ---------------------------------------------------------------------------
  // The transactions, write by write
  // ---------------------------------------------------------------------------

  class AuthStore {
    var refresh: map<nat, RefreshRow>
    var access: map<nat, AccessRow>
    var users: set<Uid>
    var connected: set<Uid>
    var next: nat
    var nextAccess: nat

    constructor (users: set<Uid>)
      ensures Contents() == Start(users).tables
    {
      refresh, access, next, nextAccess := map[], map[], 0, 0;
      this.users, connected := users, users;
    }

    function Contents(): Tables
      reads this
    {
      Tables(refresh, access, users, connected, next, nextAccess)
    }

    /** First half of `refreshToken`: nothing is written. */
    method FindRefreshToken(token: string, user: Uid, now: int) returns (row: Option<nat>)
      requires TokensAreUnique(Contents())
      ensures row == LookupRow(Contents(), token, user, now)
    {
      row := None;
      if id: nat :|
        id in refresh && refresh[id].token == token && refresh[id].user == user && refresh[id].expiresAt > now
      {
        assert Usable(Contents(), id, token, user, now);
        if user in users && user in connected {
          row := Some(id);
        }
      }
    }

    /** Second half: one transaction, undone as a whole when it throws; `pick` is the access token it found. */
    method RotateToken(row: nat, user: Uid, newAccess: string, newRefresh: string, now: int)
      returns (ok: bool, ghost pick: nat)
      modifies this
      ensures ok <==> CanRotate(old(Contents()), row, newRefresh)
      ensures Contents() == if ok then Rotate(old(Contents()), row, user, newAccess, newRefresh, pick, now)
                            else old(Contents())
    {
      pick := 0;
      if row !in refresh {
        return false, pick;
      }
      var saved := refresh;
      refresh := refresh - {row};
      if id: nat :| id in refresh && refresh[id].token == newRefresh {
        refresh := saved;
        return false, pick;
      }
      assert !Taken(old(Contents()).(refresh := old(refresh) - {row}), newRefresh);
      refresh := refresh[next := RefreshRow(newRefresh, user, now + SEVEN_DAYS)];
      next := next + 1;
      if id: nat :| id in access && access[id].user == user {
        pick := id;
        access := access[id := AccessRow(newAccess, user)];
      } else {
        access := access[nextAccess := AccessRow(newAccess, user)];
        nextAccess := nextAccess + 1;
      }
      return true, pick;
    }

    /** The transaction of `login`, and the last two writes of a reset. */
    method IssueTokens(user: Uid, newAccess: string, newRefresh: string, now: int) returns (ok: bool)
      modifies this
      ensures ok <==> !Taken(old(Contents()), newRefresh)
      ensures Contents() == if ok then Issue(old(Contents()), user, newAccess, newRefresh, now) else old(Contents())
    {
      var savedAccess, savedNext := access, nextAccess;
      access := access[nextAccess := AccessRow(newAccess, user)];
      nextAccess := nextAccess + 1;
      if id: nat :| id in refresh && refresh[id].token == newRefresh {
        access, nextAccess := savedAccess, savedNext;
        return false;
      }
      refresh := refresh[next := RefreshRow(newRefresh, user, now + SEVEN_DAYS)];
      next := next + 1;
      return true;
    }

    method LogoutUser(user: Uid)
      modifies this
      ensures Contents() == DropUser(old(Contents()), user)
    {
      access := map id | id in access && access[id].user != user :: access[id];
      refresh := map id | id in refresh && refresh[id].user != user :: refresh[id];
    }

    method ResetForgottenPassword(user: Uid, newAccess: string, newRefresh: string, now: int) returns (ok: bool)
      modifies this
      ensures ok <==> user in old(users) && !Taken(DropUser(old(Contents()), user), newRefresh)
      ensures Contents() == if ok then Issue(DropUser(old(Contents()), user), user, newAccess, newRefresh, now)
                            else old(Contents())
    {
      if user !in users {
        return false;
      }
      var savedAccess, savedRefresh := access, refresh;
      LogoutUser(user);
      ok := IssueTokens(user, newAccess, newRefresh, now);
      if !ok {
        access, refresh := savedAccess, savedRefresh;
      }
    }
  }
}
