/**
 What the tables of one-time codes owe to the calls of a run (module Codes): who is verified, which
 codes are outstanding, who was given a reset token.
 */
module CodeHistory {
  import opened Common
  import opened Histories
  import opened Codes

  /** The state before call `i`. */
  ghost function At(users: set<Uid>, ops: seq<Op>, i: nat): System
    requires i <= |ops|
  {
    Run(Start(users), ops[..i])
  }

  lemma NextAt(users: set<Uid>, ops: seq<Op>, i: nat)
    requires i < |ops|
    ensures At(users, ops, i + 1) == Step(At(users, ops, i), ops[i])
  {
    assert ops[..i + 1][..i] == ops[..i];
  }

  // ---------------------------------------------------------------------------
  // Link clicks and verification
  // ---------------------------------------------------------------------------

  /** A click that the link's guard lets pass: a known user, and his code, not yet expired. */
  ghost predicate PassesGuard(s: System, op: Op, call: nat, user: Uid) {
    && op.Guard? && op.call == call && op.user == user && call !in s.links
    && user in s.tables.users
    && exists id :: id in s.tables.codes && s.tables.codes[id].user == user && s.tables.codes[id].code == op.code
                    && op.now < s.tables.codes[id].expiresAt
  }

  ghost function GuardPassed(users: set<Uid>, ops: seq<Op>, call: nat, user: Uid): nat -> bool {
    (i: nat) => i < |ops| && PassesGuard(At(users, ops, i), ops[i], call, user)
  }

  function ServiceCalled(ops: seq<Op>, call: nat): nat -> bool {
    (i: nat) => i < |ops| && ops[i] == Link(call)
  }

  lemma FoundCode(s: System, user: Uid, code: string)
    requires Inv(s)
    ensures forall id :: id in s.tables.codes && s.tables.codes[id].user == user && s.tables.codes[id].code == code ==>
              FindCode(s.tables, user, code) == Some(id)
    ensures FindCode(s.tables, user, code).Some? ==> Holds(s.tables, FindCode(s.tables, user, code).value, user, code)
  {
    forall id: nat | Holds(s.tables, id, user, code) ensures FindCode(s.tables, user, code) == Some(id) {
      var found := FindCode(s.tables, user, code).value;
      assert Holds(s.tables, found, user, code);
      assert s.last[user] == id == found;
    }
  }

  lemma StepMovesLink(s: System, op: Op, call: nat, user: Uid)
    requires Inv(s)
    ensures var s' := Step(s, op);
            (call in s'.links && s'.links[call].user == user) <==>
            PassesGuard(s, op, call, user) || (call in s.links && s.links[call].user == user && op != Link(call))
  {
    if op.Guard? {
      FoundCode(s, op.user, op.code);
    }
  }

  /** A click is between guard and service call exactly if it passed the guard and the service was not called since. */
  lemma {:induction false} ClickInProgressExactly(users: set<Uid>, ops: seq<Op>, n: nat, call: nat, user: Uid)
    requires n <= |ops|
    ensures var s := At(users, ops, n);
            (call in s.links && s.links[call].user == user)
            <==> Since(n, GuardPassed(users, ops, call, user), ServiceCalled(ops, call))
  {
    if n > 0 {
      ClickInProgressExactly(users, ops, n - 1, call, user);
      Reachable(users, ops[..n - 1]);
      NextAt(users, ops, n - 1);
      StepMovesLink(At(users, ops, n - 1), ops[n - 1], call, user);
      SinceNext(n - 1, GuardPassed(users, ops, call, user), ServiceCalled(ops, call));
    }
  }

  /** Call `j` is the service call of a click that passed the guard before. */
  ghost predicate CompletesClick(users: set<Uid>, ops: seq<Op>, j: nat, user: Uid) {
    j < |ops| && ops[j].Link? && Since(j, GuardPassed(users, ops, ops[j].call, user), ServiceCalled(ops, ops[j].call))
  }

  ghost function ClickCompleted(users: set<Uid>, ops: seq<Op>, user: Uid): nat -> bool {
    (j: nat) => CompletesClick(users, ops, j, user)
  }

  /** A user is verified exactly if a click on his link passed the guard and was then served. */
  lemma {:induction false} VerifiedExactly(users: set<Uid>, ops: seq<Op>, n: nat, user: Uid)
    requires n <= |ops|
    ensures user in At(users, ops, n).tables.verified <==> Once(n, ClickCompleted(users, ops, user))
  {
    if n > 0 {
      var s, op := At(users, ops, n - 1), ops[n - 1];
      VerifiedExactly(users, ops, n - 1, user);
      NextAt(users, ops, n - 1);
      OnceNext(n - 1, ClickCompleted(users, ops, user));
      if op.Link? {
        ClickInProgressExactly(users, ops, n - 1, op.call, user);
      }
    }
  }

  /** A code is resent exactly to known users who have completed no click; nothing changes for the others. */
  lemma {:induction false} ResendExactly(users: set<Uid>, ops: seq<Op>, user: Uid, code: string, now: int)
    ensures var s := Run(Start(users), ops);
            var s' := Step(s, Resend(user, code, now));
            if user in users && !Once(|ops|, ClickCompleted(users, ops, user))
            then s.tables.next in s'.tables.codes
                 && s'.tables.codes[s.tables.next] == CodeRow(user, code, now, now + 15 * 60 * 1000)
            else s' == s
  {
    assert ops[..|ops|] == ops;
    VerifiedExactly(users, ops, |ops|, user);
    UsersStay(users, ops);
  }

  lemma {:induction false} UsersStay(users: set<Uid>, ops: seq<Op>)
    ensures Run(Start(users), ops).tables.users == users
    decreases |ops|
  {
    if ops != [] {
      UsersStay(users, ops[..|ops| - 1]);
    }
  }

  // ---------------------------------------------------------------------------
  // Outstanding codes
  // ---------------------------------------------------------------------------

  /** The call issues `row` under the uid `id`. */
  ghost predicate IssuesRow(s: System, op: Op, id: nat, row: CodeRow) {
    && s.tables.next == id
    && (op.Issue? || (op.Resend? && op.user in s.tables.users && op.user !in s.tables.verified))
    && row == CodeRow(op.user, op.code, op.now, op.now + 15 * 60 * 1000)
  }

  /** The call ends the code `id` of `user`: a newer code, a served click, or the exchange of this code. */
  ghost predicate EndsRow(s: System, op: Op, id: nat, user: Uid) {
    match op
    case Issue(u, _, _) => u == user
    case Resend(u, _, _) => u == user && u in s.tables.users && u !in s.tables.verified
    case Link(call) => call in s.links && s.links[call].user == user
    case Exchange(call) => call in s.exchanges && s.exchanges[call].row == id
    case _ => false
  }

  ghost function RowIssued(users: set<Uid>, ops: seq<Op>, id: nat, row: CodeRow): nat -> bool {
    (i: nat) => i < |ops| && IssuesRow(At(users, ops, i), ops[i], id, row)
  }

  ghost function RowEnded(users: set<Uid>, ops: seq<Op>, id: nat, user: Uid): nat -> bool {
    (i: nat) => i < |ops| && EndsRow(At(users, ops, i), ops[i], id, user)
  }

  lemma StepMovesCode(s: System, op: Op, id: nat, row: CodeRow)
    requires OnlyLastIsOutstanding(s)
    ensures var t' := Step(s, op).tables;
            (id in t'.codes && t'.codes[id] == row) <==>
            IssuesRow(s, op, id, row)
            || (id in s.tables.codes && s.tables.codes[id] == row && !EndsRow(s, op, id, row.user))
  {
  }

  /**
   Over every interleaving: a code is outstanding, for its fifteen minutes, exactly if it was issued
   and since then no newer one was issued to its user, no click of his was served, and it was not exchanged.
   */
  lemma {:induction false} OutstandingExactly(users: set<Uid>, ops: seq<Op>, n: nat, id: nat, row: CodeRow)
    requires n <= |ops|
    ensures var t := At(users, ops, n).tables;
            (id in t.codes && t.codes[id] == row)
            <==> Since(n, RowIssued(users, ops, id, row), RowEnded(users, ops, id, row.user))
  {
    if n > 0 {
      OutstandingExactly(users, ops, n - 1, id, row);
      Reachable(users, ops[..n - 1]);
      NextAt(users, ops, n - 1);
      StepMovesCode(At(users, ops, n - 1), ops[n - 1], id, row);
      SinceNext(n - 1, RowIssued(users, ops, id, row), RowEnded(users, ops, id, row.user));
    }
  }

  // ---------------------------------------------------------------------------
  // Exchanges and reset tokens
  // ---------------------------------------------------------------------------

  /** A lookup that lets the exchange go on: a known user, and his code, not expired before now. */
  ghost predicate FindsCode(s: System, op: Op, call: nat, user: Uid, row: nat) {
    && op.Look? && op.call == call && op.user == user && call !in s.exchanges
    && user in s.tables.users
    && row in s.tables.codes && s.tables.codes[row].user == user && s.tables.codes[row].code == op.code
    && op.now <= s.tables.codes[row].expiresAt
  }

  ghost function CodeFound(users: set<Uid>, ops: seq<Op>, call: nat, user: Uid, row: nat): nat -> bool {
    (i: nat) => i < |ops| && FindsCode(At(users, ops, i), ops[i], call, user, row)
  }

  function ExchangeCalled(ops: seq<Op>, call: nat): nat -> bool {
    (i: nat) => i < |ops| && ops[i] == Exchange(call)
  }

  lemma StepMovesExchange(s: System, op: Op, call: nat, user: Uid, row: nat)
    requires Inv(s)
    ensures var s' := Step(s, op);
            (call in s'.exchanges && s'.exchanges[call].user == user && s'.exchanges[call].row == row) <==>
            FindsCode(s, op, call, user, row)
            || (call in s.exchanges && s.exchanges[call].user == user && s.exchanges[call].row == row
                && op != Exchange(call))
  {
    if op.Look? {
      FoundCode(s, op.user, op.code);
    }
  }

  /** An exchange is between lookup and writes exactly if it found its code and has not written since. */
  lemma {:induction false} ExchangeInProgressExactly(users: set<Uid>, ops: seq<Op>, n: nat, call: nat, user: Uid,
                                                     row: nat)
    requires n <= |ops|
    ensures var s := At(users, ops, n);
            (call in s.exchanges && s.exchanges[call].user == user && s.exchanges[call].row == row)
            <==> Since(n, CodeFound(users, ops, call, user, row), ExchangeCalled(ops, call))
  {
    if n > 0 {
      ExchangeInProgressExactly(users, ops, n - 1, call, user, row);
      Reachable(users, ops[..n - 1]);
      NextAt(users, ops, n - 1);
      StepMovesExchange(At(users, ops, n - 1), ops[n - 1], call, user, row);
      SinceNext(n - 1, CodeFound(users, ops, call, user, row), ExchangeCalled(ops, call));
    }
  }

  /** The users of the exchanges that got to their writes, in the order in which they did. */
  ghost function Exchanged(users: set<Uid>, ops: seq<Op>, n: nat): seq<Uid>
    requires n <= |ops|
  {
    if n == 0 then []
    else
      var s, op := At(users, ops, n - 1), ops[n - 1];
      Exchanged(users, ops, n - 1)
      + if op.Exchange? && op.call in s.exchanges then [s.exchanges[op.call].user] else []
  }

  lemma StepMovesResetTokens(s: System, op: Op)
    ensures Step(s, op).tables.resetTokens == s.tables.resetTokens
            + if op.Exchange? && op.call in s.exchanges then [s.exchanges[op.call].user] else []
  {
  }

  /** Reset tokens are created for exactly these users, once for each of their exchanges. */
  lemma {:induction false} ResetTokensExactly(users: set<Uid>, ops: seq<Op>, n: nat)
    requires n <= |ops|
    ensures At(users, ops, n).tables.resetTokens == Exchanged(users, ops, n)
  {
    if n > 0 {
      ResetTokensExactly(users, ops, n - 1);
      NextAt(users, ops, n - 1);
      StepMovesResetTokens(At(users, ops, n - 1), ops[n - 1]);
    }
  }
}
