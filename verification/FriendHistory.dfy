/**
 What friendships and blocks owe to the calls of a run (module Friends): each row, with its status,
 goes back to a request or an answer, and nothing has undone it since.
 */
module FriendHistory {
  import opened Common
  import opened Histories
  import opened Friends

  /** The tables before call `i`. */
  function At(users: set<Uid>, ops: seq<Op>, i: nat): Tables
    requires i <= |ops|
  {
    Run(Start(users), ops[..i])
  }

  lemma NextAt(users: set<Uid>, ops: seq<Op>, i: nat)
    requires i < |ops|
    ensures At(users, ops, i + 1) == Step(At(users, ops, i), ops[i]).0
  {
    assert ops[..i + 1][..i] == ops[..i];
  }

  predicate Is(t: Tables, a: Uid, b: Uid, st: Status) {
    (a, b) in t.friends && t.friends[(a, b)] == st
  }

  /** A request between two known users who have neither friendship nor request, and no row this way round. */
  predicate MayRequest(t: Tables, a: Uid, b: Uid) {
    && a != b && a in t.users && b in t.users && (a, b) !in t.friends
    && ((b, a) in t.friends ==> t.friends[(b, a)] == Rejected)
  }

  /** The call gives the row from `a` to `b` this status: a request, or the answer of `b` to one. */
  predicate Puts(t: Tables, op: Op, a: Uid, b: Uid, st: Status) {
    match st
    case Pending => op == Request(a, b) && MayRequest(t, a, b)
    case Accepted => op == Answer(b, a, Accepted) && a in t.users && Is(t, a, b, Pending)
    case Rejected => op == Answer(b, a, Rejected) && a in t.users && Is(t, a, b, Pending)
    case Canceled => false
  }

  /** The call takes it away: the answer of `b`, a cancellation by `a`, a removal, or a block. */
  predicate Takes(t: Tables, op: Op, a: Uid, b: Uid) {
    match op
    case Request(_, _) => false
    case Answer(me, other, st) =>
      && Is(t, a, b, Pending) && other in t.users
      && ((me == b && other == a && (st == Accepted || st == Rejected)) || (me == a && other == b && st == Canceled))
    case Remove(x, y) => Is(t, a, b, Accepted) && ((x == a && y == b) || (x == b && y == a))
    case Block(x, y) => y in t.users && (x, y) !in t.blocks && ((x == a && y == b) || (x == b && y == a))
    case Unblock(_, _) => false
  }

  lemma StepMovesRow(t: Tables, op: Op, a: Uid, b: Uid, st: Status)
    requires Inv(t)
    ensures Is(Step(t, op).0, a, b, st) <==> Puts(t, op, a, b, st) || (Is(t, a, b, st) && !Takes(t, op, a, b))
  {
  }

  function RowPut(users: set<Uid>, ops: seq<Op>, a: Uid, b: Uid, st: Status): nat -> bool {
    (i: nat) => i < |ops| && Puts(At(users, ops, i), ops[i], a, b, st)
  }

  function RowTaken(users: set<Uid>, ops: seq<Op>, a: Uid, b: Uid): nat -> bool {
    (i: nat) => i < |ops| && Takes(At(users, ops, i), ops[i], a, b)
  }

  /**
   Over every run: a row is pending, accepted or rejected exactly if it was requested, or answered so
   by its receiver, and since then was not answered, cancelled, removed or cut off by a block.
   */
  lemma {:induction false} RowExactly(users: set<Uid>, ops: seq<Op>, n: nat, a: Uid, b: Uid, st: Status)
    requires n <= |ops|
    ensures Is(At(users, ops, n), a, b, st) <==> Since(n, RowPut(users, ops, a, b, st), RowTaken(users, ops, a, b))
  {
    if n > 0 {
      RowExactly(users, ops, n - 1, a, b, st);
      Reachable(users, ops[..n - 1]);
      NextAt(users, ops, n - 1);
      StepMovesRow(At(users, ops, n - 1), ops[n - 1], a, b, st);
      SinceNext(n - 1, RowPut(users, ops, a, b, st), RowTaken(users, ops, a, b));
    }
  }

  lemma StepKeepsUsers(t: Tables, op: Op)
    ensures Step(t, op).0.users == t.users
  {
  }

  lemma {:induction false} UsersStay(users: set<Uid>, ops: seq<Op>)
    ensures Run(Start(users), ops).users == users
    decreases |ops|
  {
    if ops != [] {
      UsersStay(users, ops[..|ops| - 1]);
      StepKeepsUsers(Run(Start(users), ops[..|ops| - 1]), ops[|ops| - 1]);
    }
  }

  function Blocked(users: set<Uid>, ops: seq<Op>, x: Uid, y: Uid): nat -> bool {
    (i: nat) => i < |ops| && ops[i] == Block(x, y) && y in users
  }

  function Unblocked(ops: seq<Op>, x: Uid, y: Uid): nat -> bool {
    (i: nat) => i < |ops| && ops[i] == Unblock(x, y)
  }

  /** A user has blocked a known other exactly if he did so and has not taken it back. */
  lemma {:induction false} BlockExactly(users: set<Uid>, ops: seq<Op>, n: nat, x: Uid, y: Uid)
    requires n <= |ops|
    ensures (x, y) in At(users, ops, n).blocks <==> Since(n, Blocked(users, ops, x, y), Unblocked(ops, x, y))
  {
    if n > 0 {
      BlockExactly(users, ops, n - 1, x, y);
      UsersStay(users, ops[..n - 1]);
      NextAt(users, ops, n - 1);
      SinceNext(n - 1, Blocked(users, ops, x, y), Unblocked(ops, x, y));
    }
  }

  /** Which calls are carried out. */
  lemma {:induction false} AnswersExactly(users: set<Uid>, ops: seq<Op>, op: Op)
    ensures var t := Run(Start(users), ops);
            Step(t, op).1 == Done <==>
            match op
            case Request(a, b) => MayRequest(t, a, b)
            case Answer(me, other, st) =>
              other in users
              && ((Is(t, other, me, Pending) && (st == Accepted || st == Rejected))
                  || (Is(t, me, other, Pending) && st == Canceled))
            case Remove(x, y) => Is(t, x, y, Accepted) || Is(t, y, x, Accepted)
            case Block(x, y) => y in users && (x, y) !in t.blocks
            case Unblock(x, y) => (x, y) in t.blocks
  {
    Reachable(users, ops);
    UsersStay(users, ops);
  }
}
