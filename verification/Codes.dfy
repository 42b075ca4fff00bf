/**
 One-time codes (src/auth/services/auth-b2c.service.ts, src/auth/guards/verify-email.guard.ts,
 src/users/users.service.ts): issuing and resending, the e-mail link (a guard, then the service
 call) and the exchange of a code for a reset token (a lookup, then the writes).  The two halves of
 a use interleave with everything else.  Row uids are numbers handed out in increasing order.
 */
module Codes {
  import opened Common

  const FIFTEEN_MINUTES: int := 15 * 60 * 1000

  datatype CodeRow = CodeRow(user: Uid, code: string, createdAt: int, expiresAt: int)

  /** `resetTokens` lists the users a reset token was created for. */
  datatype Tables = Tables(codes: map<nat, CodeRow>, users: set<Uid>, verified: set<Uid>,
                           resetTokens: seq<Uid>, next: nat)

  // ---------------------------------------------------------------------------
  // Queries and writes
  // ---------------------------------------------------------------------------

  predicate Holds(t: Tables, id: nat, user: Uid, code: string) {
    id in t.codes && t.codes[id].user == user && t.codes[id].code == code
  }

  ghost function FindCode(t: Tables, user: Uid, code: string): Option<nat> {
    if id: nat :| Holds(t, id, user, code) then Some(id) else None
  }

  /** The link's guard: the code must expire strictly later. */
  ghost function GuardFinds(t: Tables, user: Uid, code: string, now: int): Option<nat> {
    match FindCode(t, user, code)
    case Some(id) => if user in t.users && t.codes[id].expiresAt > now then Some(id) else None
    case None => None
  }

  /** The exchange: a code expiring at this very instant still passes. */
  ghost function ExchangeFinds(t: Tables, user: Uid, code: string, now: int): Option<nat> {
    match FindCode(t, user, code)
    case Some(id) => if user in t.users && !(t.codes[id].expiresAt < now) then Some(id) else None
    case None => None
  }

  function WithoutCodesOf(t: Tables, user: Uid): Tables {
    t.(codes := map id | id in t.codes && t.codes[id].user != user :: t.codes[id])
  }

  function AfterIssue(t: Tables, user: Uid, code: string, now: int): Tables {
    var t' := WithoutCodesOf(t, user);
    t'.(codes := t'.codes[t.next := CodeRow(user, code, now, now + FIFTEEN_MINUTES)], next := t.next + 1)
  }

  function AfterLink(t: Tables, user: Uid): Tables {
    WithoutCodesOf(t, user).(verified := t.verified + {user})
  }

  /** The reset token is created first and stays even if deleting the code then throws. */
  function AfterExchange(t: Tables, row: nat, user: Uid): Tables {
    t.(resetTokens := t.resetTokens + [user], codes := t.codes - {row})
  }

  // ---------------------------------------------------------------------------
  // The interleaved system
  // ---------------------------------------------------------------------------

  datatype Passed = Passed(row: nat, user: Uid, at: int)

  /**
   `links` are link clicks between guard and service call, `exchanges` exchanges between lookup and
   writes.  History: `last` is the last row issued to each user, `accepted` the rows accepted so far.
   */
  datatype System = System(tables: Tables, links: map<nat, Passed>, exchanges: map<nat, Passed>,
                           last: map<Uid, nat>, accepted: seq<nat>)

  datatype Op =
    | Issue(user: Uid, code: string, now: int)
    | Resend(user: Uid, code: string, now: int)
    | Guard(call: nat, user: Uid, code: string, now: int)
    | Link(call: nat)
    | Look(call: nat, user: Uid, code: string, now: int)
    | Exchange(call: nat)

  function IssueTo(s: System, user: Uid, code: string, now: int): System {
    s.(tables := AfterIssue(s.tables, user, code, now), last := s.last[user := s.tables.next])
  }

  /** The row a step accepts, if it accepts one: a guard that passes, an exchange that completes. */
  ghost function Accepts(s: System, op: Op): Option<nat> {
    match op
    case Guard(call, user, code, now) => if call in s.links then None else GuardFinds(s.tables, user, code, now)
    case Exchange(call) =>
      if call in s.exchanges && s.exchanges[call].row in s.tables.codes then Some(s.exchanges[call].row) else None
    case _ => None
  }

  /** When the accepted code was checked. */
  ghost function CheckedAt(s: System, op: Op): int
    requires Accepts(s, op).Some?
  {
    if op.Guard? then op.now else s.exchanges[op.call].at
  }

  ghost function Log(s: System, row: Option<nat>): seq<nat> {
    if row.Some? then s.accepted + [row.value] else s.accepted
  }

  ghost function Step(s: System, op: Op): System {
    match op
    case Issue(user, code, now) => IssueTo(s, user, code, now)
    case Resend(user, code, now) =>
      if user !in s.tables.users || user in s.tables.verified then s else IssueTo(s, user, code, now)
    case Guard(call, user, code, now) =>
      (match Accepts(s, op)
       case Some(row) => s.(links := s.links[call := Passed(row, user, now)], accepted := Log(s, Some(row)))
       case None => s)
    case Link(call) =>
      if call !in s.links then s
      else s.(links := s.links - {call}, tables := AfterLink(s.tables, s.links[call].user))
    case Look(call, user, code, now) =>
      (match ExchangeFinds(s.tables, user, code, now)
       case Some(row) => if call in s.exchanges then s else s.(exchanges := s.exchanges[call := Passed(row, user, now)])
       case None => s)
    case Exchange(call) =>
      if call !in s.exchanges then s
      else
        var p := s.exchanges[call];
        s.(exchanges := s.exchanges - {call}, tables := AfterExchange(s.tables, p.row, p.user),
           accepted := Log(s, Accepts(s, op)))
  }

  ghost function Run(s: System, ops: seq<Op>): System
    decreases |ops|
  {
    if ops == [] then s else Step(Run(s, ops[..|ops| - 1]), ops[|ops| - 1])
  }

  function Start(users: set<Uid>): System {
    System(Tables(map[], users, {}, [], 0), map[], map[], map[], [])
  }

  // ---------------------------------------------------------------------------
  // Invariants
  // ---------------------------------------------------------------------------

  /** An outstanding code is the last one issued to its user, and lives fifteen minutes. */
  ghost predicate OnlyLastIsOutstanding(s: System) {
    && (forall id :: id in s.tables.codes ==> id < s.tables.next)
    && (forall id :: id in s.tables.codes ==>
          s.tables.codes[id].user in s.last && s.last[s.tables.codes[id].user] == id)
    && (forall id :: id in s.tables.codes ==>
          s.tables.codes[id].expiresAt == s.tables.codes[id].createdAt + FIFTEEN_MINUTES)
  }

  /** A link click in progress refers to an accepted code of its user. */
  ghost predicate LinksAreGood(s: System) {
    && (forall c :: c in s.links ==> s.links[c].row < s.tables.next && s.links[c].row in s.accepted)
    && (forall c :: c in s.links && s.links[c].row in s.tables.codes ==>
          s.tables.codes[s.links[c].row].user == s.links[c].user)
  }

  /** An exchange in progress refers to a code that was good for its user when it was looked up. */
  ghost predicate ExchangesAreGood(s: System) {
    && (forall c :: c in s.exchanges ==> s.exchanges[c].row < s.tables.next)
    && (forall c :: c in s.exchanges && s.exchanges[c].row in s.tables.codes ==>
          s.tables.codes[s.exchanges[c].row].user == s.exchanges[c].user
          && s.exchanges[c].at <= s.tables.codes[s.exchanges[c].row].expiresAt)
  }

  /** An accepted code is still outstanding only while the link click that was accepted is in progress. */
  ghost predicate AcceptedArePending(s: System) {
    forall r :: r in s.accepted && r in s.tables.codes ==> exists c :: c in s.links && s.links[c].row == r
  }

  ghost predicate AcceptedWereIssued(s: System) {
    forall r :: r in s.accepted ==> r < s.tables.next
  }

  ghost predicate Inv(s: System) {
    OnlyLastIsOutstanding(s) && LinksAreGood(s) && ExchangesAreGood(s) && AcceptedWereIssued(s) && AcceptedArePending(s)
  }

  lemma StepKeepsOnlyLast(s: System, op: Op)
    requires OnlyLastIsOutstanding(s)
    ensures OnlyLastIsOutstanding(Step(s, op))
    ensures Step(s, op).tables.next >= s.tables.next
  {
  }

  lemma StepKeepsLinksGood(s: System, op: Op)
    requires OnlyLastIsOutstanding(s) && LinksAreGood(s)
    ensures LinksAreGood(Step(s, op))
  {
  }

  lemma StepKeepsExchangesGood(s: System, op: Op)
    requires OnlyLastIsOutstanding(s) && ExchangesAreGood(s)
    ensures ExchangesAreGood(Step(s, op))
  {
  }

  lemma StepKeepsAcceptedIssued(s: System, op: Op)
    requires OnlyLastIsOutstanding(s) && AcceptedWereIssued(s)
    ensures AcceptedWereIssued(Step(s, op))
  {
  }

  lemma StepKeepsAcceptedPending(s: System, op: Op)
    requires LinksAreGood(s) && AcceptedWereIssued(s) && AcceptedArePending(s)
    ensures AcceptedArePending(Step(s, op))
  {
    var s' := Step(s, op);
    forall r | r in s'.accepted && r in s'.tables.codes
      ensures exists c :: c in s'.links && s'.links[c].row == r
    {
      if r in s.accepted && r in s.tables.codes {
        var c :| c in s.links && s.links[c].row == r;
        assert c in s'.links && s'.links[c].row == r;
      } else {
        assert op.Guard? && s'.links[op.call].row == r;
      }
    }
  }

  lemma {:induction false} Reachable(users: set<Uid>, ops: seq<Op>)
    ensures Inv(Run(Start(users), ops))
    decreases |ops|
  {
    if ops != [] {
      var s, op := Run(Start(users), ops[..|ops| - 1]), ops[|ops| - 1];
      Reachable(users, ops[..|ops| - 1]);
      StepKeepsOnlyLast(s, op);
      StepKeepsLinksGood(s, op);
      StepKeepsExchangesGood(s, op);
      StepKeepsAcceptedIssued(s, op);
      StepKeepsAcceptedPending(s, op);
    }
  }

  // ---------------------------------------------------------------------------
  // Theorems
  // ---------------------------------------------------------------------------

  /** Over every interleaving each user has at most one outstanding code. */
  lemma {:induction false} AtMostOneOutstanding(users: set<Uid>, ops: seq<Op>, i: nat, j: nat)
    requires var t := Run(Start(users), ops).tables; i in t.codes && j in t.codes && t.codes[i].user == t.codes[j].user
    ensures i == j
  {
    Reachable(users, ops);
  }

  /**
   Whatever the interleaving, an accepted code is the last one issued to its user and was checked
   at most fifteen minutes after it was issued; a link needs strictly less.
   */
  lemma {:induction false} AcceptedIsLastAndFresh(users: set<Uid>, ops: seq<Op>, op: Op)
    requires Accepts(Run(Start(users), ops), op).Some?
    ensures var s := Run(Start(users), ops);
            var row := Accepts(s, op).value;
            && row in s.tables.codes
            && s.tables.codes[row].user in s.last && s.last[s.tables.codes[row].user] == row
            && CheckedAt(s, op) <= s.tables.codes[row].createdAt + FIFTEEN_MINUTES
            && (op.Guard? ==> op.now < s.tables.codes[row].createdAt + FIFTEEN_MINUTES)
  {
    Reachable(users, ops);
  }

  /**
   A code is accepted again exactly when a link click with it has passed the guard and not yet
   reached the service; in particular, uses that do not overlap accept each code at most once.
   */
  lemma {:induction false} AcceptedAgainIffLinkInProgress(users: set<Uid>, ops: seq<Op>, op: Op)
    requires Accepts(Run(Start(users), ops), op).Some?
    ensures var s := Run(Start(users), ops);
            var row := Accepts(s, op).value;
            row in s.accepted <==> exists c :: c in s.links && s.links[c].row == row
  {
    Reachable(users, ops);
    AcceptedIsLastAndFresh(users, ops, op);
  }

  /** Two clicks on one link, both through the guard before either reaches the service. */
  lemma DoubleClickAcceptsTwice(u: Uid)
    ensures Run(Start({u}), [Issue(u, "123456", 0), Guard(0, u, "123456", 1), Guard(1, u, "123456", 2)]).accepted
            == [0, 0]
  {
    var ops := [Issue(u, "123456", 0), Guard(0, u, "123456", 1), Guard(1, u, "123456", 2)];
    var s0 := Start({u});
    var s1 := Step(s0, ops[0]);
    assert Run(s0, []) == s0;
    assert ops[..1] == [ops[0]] && ops[..2][..1] == ops[..1] && ops[..1][..0] == [];
    assert Run(s0, ops[..1]) == s1;
    assert Holds(s1.tables, 0, u, "123456");
    var s2 := Step(s1, ops[1]);
    assert s2.accepted == [0];
    assert Run(s0, ops[..2]) == s2;
    assert Holds(s2.tables, 0, u, "123456");
    assert Step(s2, ops[2]).accepted == [0, 0];
    assert ops[..3] == ops && ops[..|ops| - 1] == ops[..2];
  }

  // ---------------------------------------------------------------------------
  // The calls, write by write
  // ---------------------------------------------------------------------------

  class CodeStore {
    var codes: map<nat, CodeRow>
    var users: set<Uid>
    var verified: set<Uid>
    var resetTokens: seq<Uid>
    var next: nat

    constructor (users: set<Uid>)
      ensures Contents() == Start(users).tables
    {
      codes, verified, resetTokens, next := map[], {}, [], 0;
      this.users := users;
    }

    function Contents(): Tables
      reads this
    {
      Tables(codes, users, verified, resetTokens, next)
    }

    method SendCode(user: Uid, code: string, now: int)
      modifies this
      ensures Contents() == AfterIssue(old(Contents()), user, code, now)
    {
      codes := map id | id in codes && codes[id].user != user :: codes[id];
      codes := codes[next := CodeRow(user, code, now, now + FIFTEEN_MINUTES)];
      next := next + 1;
    }

    method ResendVerificationCode(user: Uid, code: string, now: int) returns (ok: bool)
      modifies this
      ensures ok <==> user in old(users) && user !in old(verified)
      ensures Contents() == if ok then AfterIssue(old(Contents()), user, code, now) else old(Contents())
    {
      if user !in users || user in verified {
        return false;
      }
      codes := map id | id in codes && codes[id].user != user :: codes[id];
      SendCode(user, code, now);
      assert codes == AfterIssue(old(Contents()), user, code, now).codes;
      return true;
    }

    method VerifyEmailLink(user: Uid)
      modifies this
      ensures Contents() == AfterLink(old(Contents()), user)
    {
      verified := verified + {user};
      codes := map id | id in codes && codes[id].user != user :: codes[id];
    }

    method FindForExchange(user: Uid, code: string, now: int) returns (row: Option<nat>)
      requires forall i, j :: i in codes && j in codes && codes[i].user == codes[j].user ==> i == j
      ensures row == ExchangeFinds(Contents(), user, code, now)
    {
      row := None;
      if user !in users {
        return;
      }
      if id: nat :| id in codes && codes[id].user == user && codes[id].code == code {
        assert Holds(Contents(), id, user, code);
        if !(codes[id].expiresAt < now) {
          row := Some(id);
        }
      }
    }

    /** Creates the reset token, then deletes the code; `ok` is false when the code was gone. */
    method ExchangeCode(row: nat, user: Uid) returns (ok: bool)
      modifies this
      ensures ok <==> row in old(codes)
      ensures Contents() == AfterExchange(old(Contents()), row, user)
    {
      resetTokens := resetTokens + [user];
      ok := row in codes;
      codes := codes - {row};
    }
  }
}
