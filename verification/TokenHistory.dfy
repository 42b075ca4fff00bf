/**
 What the token tables owe to the calls of a run (module Tokens): who may refresh, which refresh
 tokens are live and until when, which access tokens are there.
 */
module TokenHistory {
  import opened Common
  import opened Histories
  import opened Tokens

  /** The state before call `i`. */
  ghost function At(users: set<Uid>, ops: seq<Op>, i: nat): System
    requires i <= |ops|
  {
    Run(Start(users), ops[..i])
  }

  lemma NextAt(users: set<Uid>, ops: seq<Op>, i: nat)
    requires i < |ops|
    ensures At(users, ops, i + 1) == Step(At(users, ops, i), ops[i])
  {
    assert ops[..i + 1][..i] == ops[..i];
  }

  // ---------------------------------------------------------------------------
  // Who may refresh
  // ---------------------------------------------------------------------------

  /** The row `id` holds this token of the user and expires later than `now`. */
  predicate IsLive(t: Tables, id: nat, token: string, user: Uid, now: int) {
    id in t.refresh && t.refresh[id].token == token && t.refresh[id].user == user && now < t.refresh[id].expiresAt
  }

  ghost predicate MayRefresh(t: Tables, token: string, user: Uid, now: int) {
    user in t.users && user in t.connected && exists id :: IsLive(t, id, token, user, now)
  }

  /**
   On every reachable state a refresh gets past its lookup exactly if its user is known and connected
   and the token is one of his, not expired; it is then about the row of that token.
   */
  lemma {:induction false} LookupExactly(users: set<Uid>, ops: seq<Op>, call: nat, token: string, user: Uid, now: int)
    requires call !in Run(Start(users), ops).inFlight
    ensures var s := Run(Start(users), ops);
            var s' := Step(s, Lookup(call, token, user, now));
            && s'.tables == s.tables
            && (call in s'.inFlight <==> MayRefresh(s.tables, token, user, now))
            && (call in s'.inFlight ==> IsLive(s.tables, s'.inFlight[call].row, token, user, now)
                                        && s'.inFlight[call].user == user && s'.inFlight[call].token == token)
  {
    Reachable(users, ops);
    LookupFinds(Run(Start(users), ops).tables, token, user, now);
  }

  lemma LookupFinds(t: Tables, token: string, user: Uid, now: int)
    ensures LookupRow(t, token, user, now).Some? <==> MayRefresh(t, token, user, now)
    ensures LookupRow(t, token, user, now).Some? ==> IsLive(t, LookupRow(t, token, user, now).value, token, user, now)
  {
    if id: nat :| IsLive(t, id, token, user, now) {
      assert Usable(t, id, token, user, now);
    }
    if id: nat :| Usable(t, id, token, user, now) {
      assert IsLive(t, id, token, user, now);
    }
  }

  /** A user is connected, as at the start, unless the last change says otherwise. */
  function Changes(ops: seq<Op>, user: Uid): nat -> bool {
    (i: nat) => i < |ops| && ops[i].SetConnected? && ops[i].user == user
  }

  lemma {:induction false} ConnectedExactly(users: set<Uid>, ops: seq<Op>, n: nat, user: Uid)
    requires n <= |ops|
    ensures At(users, ops, n).tables.users == users
    ensures forall i: nat :: IsLast(n, Changes(ops, user), i) ==>
              (user in At(users, ops, n).tables.connected <==> ops[i].connected)
    ensures !Once(n, Changes(ops, user)) ==> (user in At(users, ops, n).tables.connected <==> user in users)
  {
    if n > 0 {
      ConnectedExactly(users, ops, n - 1, user);
      NextAt(users, ops, n - 1);
      OnceNext(n - 1, Changes(ops, user));
      StepMovesConnected(At(users, ops, n - 1), ops[n - 1], user);
      LastsNext(n - 1, Changes(ops, user));
    }
  }

  lemma StepMovesConnected(s: System, op: Op, user: Uid)
    ensures Step(s, op).tables.users == s.tables.users
    ensures user in Step(s, op).tables.connected <==>
            if op.SetConnected? && op.user == user then op.connected else user in s.tables.connected
  {
    if op.Commit? && op.call in s.inFlight {
      CommitMoves(s, op);
    }
  }

  // ---------------------------------------------------------------------------
  // Live refresh tokens
  // ---------------------------------------------------------------------------

  /** No row but `except` holds the token. */
  ghost predicate IsFree(t: Tables, token: string, except: set<nat>) {
    forall id :: id in t.refresh && id !in except ==> t.refresh[id].token != token
  }

  ghost function RowsOf(t: Tables, user: Uid): set<nat> {
    set id | id in t.refresh && t.refresh[id].user == user
  }

  /** The refresh in flight that goes through: its row is still there, and the new token is not taken. */
  ghost predicate Rotates(s: System, op: Op, row: nat) {
    && op.Commit? && op.call in s.inFlight && s.inFlight[op.call].row == row
    && row in s.tables.refresh && IsFree(s.tables, op.refresh, {row})
  }

  /** The call issues tokens to the user: a right password, a reset, or a refresh that goes through. */
  ghost predicate IssuesTo(s: System, op: Op, user: Uid) {
    match op
    case Login(u, passwordOk, _, r, _) => u == user && passwordOk && u in s.tables.users && IsFree(s.tables, r, {})
    case Reset(u, _, r, _) => u == user && u in s.tables.users && IsFree(s.tables, r, RowsOf(s.tables, u))
    case Commit(call, _, _, _, _) =>
      call in s.inFlight && s.inFlight[call].user == user && Rotates(s, op, s.inFlight[call].row)
    case _ => false
  }

  /** The call puts `row`, which lives for seven days, into the table under the uid `id`. */
  ghost predicate IssuesRow(s: System, op: Op, id: nat, row: RefreshRow) {
    && s.tables.next == id && IssuesTo(s, op, row.user)
    && row.token == op.refresh && row.expiresAt == op.now + 604800000
  }

  /** The call takes the row `id` of `user` away: a logout, a reset that goes through, or its rotation. */
  ghost predicate EndsRow(s: System, op: Op, id: nat, user: Uid) {
    match op
    case Logout(u) => u == user
    case Reset(u, _, r, _) => u == user && u in s.tables.users && IsFree(s.tables, r, RowsOf(s.tables, u))
    case Commit(_, _, _, _, _) => Rotates(s, op, id)
    case _ => false
  }

  ghost function RowIssued(users: set<Uid>, ops: seq<Op>, id: nat, row: RefreshRow): nat -> bool {
    (i: nat) => i < |ops| && IssuesRow(At(users, ops, i), ops[i], id, row)
  }

  ghost function RowEnded(users: set<Uid>, ops: seq<Op>, id: nat, user: Uid): nat -> bool {
    (i: nat) => i < |ops| && EndsRow(At(users, ops, i), ops[i], id, user)
  }

  lemma RotatesIfFree(t: Tables, row: nat, token: string)
    ensures CanRotate(t, row, token) <==> row in t.refresh && IsFree(t, token, {row})
  {
    var rest := t.(refresh := t.refresh - {row});
    if id: nat :| id in t.refresh && id != row && t.refresh[id].token == token {
      assert id in rest.refresh && rest.refresh[id].token == token;
    }
  }

  lemma FreeAfterDrop(t: Tables, user: Uid, token: string)
    ensures Taken(DropUser(t, user), token) <==> !IsFree(t, token, RowsOf(t, user))
  {
    var rest := DropUser(t, user);
    if id: nat :| id in t.refresh && id !in RowsOf(t, user) && t.refresh[id].token == token {
      assert id in rest.refresh && rest.refresh[id].token == token;
    }
  }

  lemma FreeIfNotTaken(t: Tables, token: string)
    ensures Taken(t, token) <==> !IsFree(t, token, {})
  {
  }

  lemma CommitMovesRow(s: System, op: Op, id: nat, row: RefreshRow)
    requires Inv(s) && op.Commit? && op.call in s.inFlight
    ensures var t' := Step(s, op).tables;
            (id in t'.refresh && t'.refresh[id] == row) <==>
            IssuesRow(s, op, id, row)
            || (id in s.tables.refresh && s.tables.refresh[id] == row && !EndsRow(s, op, id, row.user))
  {
    var f := s.inFlight[op.call];
    CommitMoves(s, op);
    RotatesIfFree(s.tables, f.row, op.refresh);
  }

  lemma StepMovesRow(s: System, op: Op, id: nat, row: RefreshRow)
    requires Inv(s)
    ensures var t' := Step(s, op).tables;
            (id in t'.refresh && t'.refresh[id] == row) <==>
            IssuesRow(s, op, id, row)
            || (id in s.tables.refresh && s.tables.refresh[id] == row && !EndsRow(s, op, id, row.user))
  {
    match op
    case Commit(call, _, _, _, _) =>
      if call in s.inFlight {
        CommitMovesRow(s, op, id, row);
      }
    case Login(_, _, _, r, _) =>
      FreeIfNotTaken(s.tables, r);
    case Reset(u, _, r, _) =>
      FreeAfterDrop(s.tables, u, r);
    case _ =>
  }

  /**
   Over every interleaving: a refresh token is in the table exactly if it was issued, for seven days,
   and since then its user has neither logged out nor reset his password and it has not been rotated.
   */
  lemma {:induction false} RefreshRowExactly(users: set<Uid>, ops: seq<Op>, n: nat, id: nat, row: RefreshRow)
    requires n <= |ops|
    ensures var t := At(users, ops, n).tables;
            (id in t.refresh && t.refresh[id] == row)
            <==> Since(n, RowIssued(users, ops, id, row), RowEnded(users, ops, id, row.user))
  {
    if n > 0 {
      RefreshRowExactly(users, ops, n - 1, id, row);
      Reachable(users, ops[..n - 1]);
      NextAt(users, ops, n - 1);
      StepMovesRow(At(users, ops, n - 1), ops[n - 1], id, row);
      SinceNext(n - 1, RowIssued(users, ops, id, row), RowEnded(users, ops, id, row.user));
    }
  }

  // ---------------------------------------------------------------------------
  // A refresh that goes through
  // ---------------------------------------------------------------------------

  /** Call `i` logs the user in and issues `row`. */
  ghost predicate LogsIn(users: set<Uid>, ops: seq<Op>, i: nat, row: RefreshRow) {
    && i < |ops| && ops[i].Login? && ops[i].passwordOk && ops[i].user in users
    && IsFree(At(users, ops, i).tables, ops[i].refresh, {})
    && row == RefreshRow(ops[i].refresh, ops[i].user, ops[i].now + 604800000)
  }

  /** Nothing between the calls `i` and `k` ends the row. */
  ghost predicate Undisturbed(users: set<Uid>, ops: seq<Op>, i: nat, k: nat, id: nat, user: Uid) {
    k <= |ops| && NoneSince(k, RowEnded(users, ops, id, user), i)
  }

  function Committed(ops: seq<Op>, call: nat): nat -> bool {
    (i: nat) => i < |ops| && ops[i].Commit? && ops[i].call == call
  }

  lemma {:induction false} StaysInFlight(users: set<Uid>, ops: seq<Op>, j: nat, k: nat, call: nat)
    requires j < k <= |ops| && call in At(users, ops, j + 1).inFlight && NoneSince(k, Committed(ops, call), j)
    ensures call in At(users, ops, k).inFlight
    ensures At(users, ops, k).inFlight[call] == At(users, ops, j + 1).inFlight[call]
  {
    if j + 1 < k {
      StaysInFlight(users, ops, j, k - 1, call);
      NextAt(users, ops, k - 1);
      assert !Committed(ops, call)(k - 1);
      if ops[k - 1].Commit? && ops[k - 1].call in At(users, ops, k - 1).inFlight {
        CommitMoves(At(users, ops, k - 1), ops[k - 1]);
      }
    }
  }

  lemma RowThere(users: set<Uid>, ops: seq<Op>, i: nat, n: nat, row: RefreshRow)
    requires LogsIn(users, ops, i, row) && i < n <= |ops|
    requires Undisturbed(users, ops, i, n, At(users, ops, i).tables.next, row.user)
    ensures var id := At(users, ops, i).tables.next;
            id in At(users, ops, n).tables.refresh && At(users, ops, n).tables.refresh[id] == row
  {
    var id := At(users, ops, i).tables.next;
    ConnectedExactly(users, ops, i, row.user);
    assert RowIssued(users, ops, id, row)(i);
    RefreshRowExactly(users, ops, n, id, row);
  }

  /**
   A user logs in at call `i`; at call `j`, less than seven days later and while connected, he presents
   the refresh token, and call `k` is the transaction of that refresh.  If neither a logout nor a reset of
   his nor another rotation of the token comes in between and the new token is not taken, it goes
   through: the new token is his for seven days, and the old one is gone.
   */
  lemma {:induction false} LoginThenRefresh(users: set<Uid>, ops: seq<Op>, i: nat, j: nat, k: nat, row: RefreshRow)
    requires LogsIn(users, ops, i, row) && i < j < k < |ops|
    requires ops[j].Lookup? && ops[j].token == row.token && ops[j].user == row.user
    requires ops[j].now < ops[i].now + 7 * 24 * 60 * 60 * 1000 && row.user in At(users, ops, j).tables.connected
    requires ops[j].call !in At(users, ops, j).inFlight
    requires Undisturbed(users, ops, i, k, At(users, ops, i).tables.next, row.user)
    requires ops[k].Commit? && ops[k].call == ops[j].call && NoneSince(k, Committed(ops, ops[j].call), j)
    requires IsFree(At(users, ops, k).tables, ops[k].refresh, {At(users, ops, i).tables.next})
    ensures var (s, t') := (At(users, ops, k), At(users, ops, k + 1).tables);
            && s.tables.next in t'.refresh
            && t'.refresh[s.tables.next] == RefreshRow(ops[k].refresh, row.user, ops[k].now + 604800000)
            && At(users, ops, i).tables.next !in t'.refresh
  {
    var id, call := At(users, ops, i).tables.next, ops[j].call;
    RowThere(users, ops, i, j, row);
    RowThere(users, ops, i, k, row);
    ConnectedExactly(users, ops, j, row.user);
    assert IsLive(At(users, ops, j).tables, id, row.token, row.user, ops[j].now);
    LookupExactly(users, ops[..j], call, row.token, row.user, ops[j].now);
    NextAt(users, ops, j);
    StaysInFlight(users, ops, j, k, call);
    Reachable(users, ops[..j]);
    Reachable(users, ops[..k]);
    NextAt(users, ops, k);
    assert At(users, ops, k).inFlight[call].row == id;
    assert Rotates(At(users, ops, k), ops[k], id);
    RotationReplaces(At(users, ops, k), ops[k], id);
  }

  lemma RotationReplaces(s: System, op: Op, id: nat)
    requires Inv(s) && Rotates(s, op, id)
    ensures var t' := Step(s, op).tables;
            && s.tables.next in t'.refresh && id !in t'.refresh
            && t'.refresh[s.tables.next] == RefreshRow(op.refresh, s.inFlight[op.call].user, op.now + 604800000)
  {
    CommitMoves(s, op);
    RotatesIfFree(s.tables, id, op.refresh);
  }

  // ---------------------------------------------------------------------------
  // Access tokens
  // ---------------------------------------------------------------------------

  ghost function AccessOf(t: Tables, user: Uid): set<nat> {
    set id | id in t.access && t.access[id].user == user
  }

  /** The user's access tokens are the same ones. */
  ghost predicate SameAccess(t: Tables, t': Tables, user: Uid) {
    AccessOf(t', user) == AccessOf(t, user) && forall id :: id in AccessOf(t, user) ==> t'.access[id] == t.access[id]
  }

  ghost predicate HasAccess(t: Tables, user: Uid, token: string) {
    exists id :: id in t.access && t.access[id] == AccessRow(token, user)
  }

  /**
   What a call does to a user's access tokens: a login adds one, a reset leaves one, a refresh replaces
   one or adds the first, a logout leaves none; the issued token is among them.  Others keep theirs.
   */
  lemma {:induction false} AccessExactly(users: set<Uid>, ops: seq<Op>, op: Op, user: Uid)
    ensures var s := Run(Start(users), ops);
            var (t, t') := (s.tables, Step(s, op).tables);
            if IssuesTo(s, op, user) then
              && HasAccess(t', user, op.access)
              && |AccessOf(t', user)| == (if op.Login? then |AccessOf(t, user)| + 1
                                          else if op.Reset? || AccessOf(t, user) == {} then 1
                                          else |AccessOf(t, user)|)
            else if op == Logout(user) then AccessOf(t', user) == {}
            else SameAccess(t, t', user)
  {
    var s := Run(Start(users), ops);
    Reachable(users, ops);
    match op
    case Login(u, ok, a, r, now) => LoginMovesAccess(s, op, user);
    case Reset(u, a, r, now) => ResetMovesAccess(s, op, user);
    case Commit(call, a, r, pick, now) => CommitMovesAccess(s, op, user);
    case _ =>
  }

  /** Issuing adds one access row of the user, under a uid that is free. */
  lemma IssueAdds(t: Tables, u: Uid, a: string, r: string, now: int, user: Uid)
    requires t.nextAccess !in t.access
    ensures var t' := Issue(t, u, a, r, now);
            && AccessOf(t', user) == AccessOf(t, user) + (if user == u then {t.nextAccess} else {})
            && HasAccess(t', u, a) && (user != u ==> SameAccess(t, t', user))
  {
    var t' := Issue(t, u, a, r, now);
    assert t'.access[t.nextAccess] == AccessRow(a, u);
  }

  lemma LoginMovesAccess(s: System, op: Op, user: Uid)
    requires Inv(s) && op.Login?
    ensures var (t, t') := (s.tables, Step(s, op).tables);
            if IssuesTo(s, op, user)
            then HasAccess(t', user, op.access) && |AccessOf(t', user)| == |AccessOf(t, user)| + 1
            else SameAccess(t, t', user)
  {
    FreeIfNotTaken(s.tables, op.refresh);
    IssueAdds(s.tables, op.user, op.access, op.refresh, op.now, user);
  }

  lemma ResetMovesAccess(s: System, op: Op, user: Uid)
    requires Inv(s) && op.Reset?
    ensures var (t, t') := (s.tables, Step(s, op).tables);
            if IssuesTo(s, op, user)
            then HasAccess(t', user, op.access) && |AccessOf(t', user)| == 1
            else SameAccess(t, t', user)
  {
    var (t, t') := (s.tables, Step(s, op).tables);
    FreeAfterDrop(t, op.user, op.refresh);
    if IssuesTo(s, op, op.user) {
      assert t'.access[t.nextAccess] == AccessRow(op.access, op.user);
      assert AccessOf(t', user) == if user == op.user then {t.nextAccess} else AccessOf(t, user);
    }
  }

  lemma CommitMovesAccess(s: System, op: Op, user: Uid)
    requires Inv(s) && op.Commit?
    ensures var (t, t') := (s.tables, Step(s, op).tables);
            if IssuesTo(s, op, user)
            then HasAccess(t', user, op.access)
                 && |AccessOf(t', user)| == if AccessOf(t, user) == {} then 1 else |AccessOf(t, user)|
            else SameAccess(t, t', user)
  {
    var t := s.tables;
    if op.call in s.inFlight {
      var f := s.inFlight[op.call];
      RotatesIfFree(t, f.row, op.refresh);
      if Rotates(s, op, f.row) {
        RotateMovesAccess(t, f.row, f.user, op.access, op.refresh, op.pick, op.now, user);
      }
    }
  }

  lemma RotateMovesAccess(t: Tables, row: nat, u: Uid, a: string, r: string, pick: nat, now: int, user: Uid)
    requires CanRotate(t, row, r) && t.nextAccess !in t.access
    ensures var t' := Rotate(t, row, u, a, r, pick, now);
            && HasAccess(t', u, a)
            && |AccessOf(t', u)| == (if AccessOf(t, u) == {} then 1 else |AccessOf(t, u)|)
            && (user != u ==> AccessOf(t', user) == AccessOf(t, user)
                              && forall id :: id in AccessOf(t, user) ==> t'.access[id] == t.access[id])
  {
    var t1 := InsertRefresh(t.(refresh := t.refresh - {row}), RefreshRow(r, u, now + SEVEN_DAYS));
    var t' := Rotate(t, row, u, a, r, pick, now);
    var found := FirstAccess(t1, u, pick);
    if found.Some? {
      assert found.value in AccessOf(t, u);
      assert t'.access[found.value] == AccessRow(a, u);
      assert AccessOf(t', u) == AccessOf(t, u);
    } else {
      assert AccessOf(t, u) == {};
      assert t'.access[t.nextAccess] == AccessRow(a, u);
      assert AccessOf(t', u) == {t.nextAccess};
    }
  }
}
