/**
 What messages, receipts and members owe to the calls of a run (module Receipts): who was sent a
 message, who has read it, why it has its status, and what the calls answered.
 */
module ReceiptHistory {
  import opened Common
  import opened Histories
  import opened Receipts

  /** The tables before call `i`. */
  function At(ops: seq<Op>, i: nat): Tables
    requires i <= |ops|
  {
    Run(EMPTY, ops[..i])
  }

  lemma NextAt(ops: seq<Op>, i: nat)
    requires i < |ops|
    ensures At(ops, i + 1) == Step(At(ops, i), ops[i]).0
  {
    assert ops[..i + 1][..i] == ops[..i];
  }

  // ---------------------------------------------------------------------------
  // What a call does, told on the tables before it
  // ---------------------------------------------------------------------------

  /** A member of `c` sends `m`, and its file, if it has one, is there. */
  predicate Sends(t: Tables, op: Op, m: Uid, c: Uid, s: Uid) {
    op.SendOp? && op.m == m && op.c == c && op.s == s && op.hasFile && (c, s) in t.members && m !in t.messages
  }

  /** A member of `c` opens the conversation, or sends something to it, whatever becomes of that. */
  predicate LooksAt(t: Tables, op: Op, c: Uid, u: Uid) {
    && (c, u) in t.members
    && ((op.ReadOp? && op.c == c && op.u == u) || (op.SendOp? && op.c == c && op.s == u))
  }

  /** `u` looks at the conversation of a message that he received and has not read. */
  predicate ReadsFor(t: Tables, op: Op, u: Uid, m: Uid) {
    && m in t.messages && t.messages[m].sender != u
    && (m, u) in t.receipts && t.receipts[(m, u)] != Read
    && LooksAt(t, op, t.messages[m].conversation, u)
  }

  predicate ReadsMessage(t: Tables, op: Op, m: Uid) {
    (op.ReadOp? && ReadsFor(t, op, op.u, m)) || (op.SendOp? && ReadsFor(t, op, op.s, m))
  }

  /** The sender deletes the message, which is not deleted yet. */
  predicate Deletes(t: Tables, op: Op, m: Uid) {
    m in t.messages && op == DeleteOp(m, t.messages[m].sender) && t.messages[m].globalStatus != Deleted
  }

  // ---------------------------------------------------------------------------
  // Messages
  // ---------------------------------------------------------------------------

  predicate IsMessage(t: Tables, m: Uid, c: Uid, s: Uid) {
    m in t.messages && t.messages[m].conversation == c && t.messages[m].sender == s
  }

  lemma StepMovesMessage(t: Tables, op: Op, m: Uid, c: Uid, s: Uid)
    ensures IsMessage(Step(t, op).0, m, c, s) <==> IsMessage(t, m, c, s) || Sends(t, op, m, c, s)
  {
  }

  function MessageSent(ops: seq<Op>, m: Uid, c: Uid, s: Uid): nat -> bool {
    (i: nat) => i < |ops| && Sends(At(ops, i), ops[i], m, c, s)
  }

  /** The messages of a conversation are exactly those its members sent. */
  lemma {:induction false} MessageExactly(ops: seq<Op>, n: nat, m: Uid, c: Uid, s: Uid)
    requires n <= |ops|
    ensures IsMessage(At(ops, n), m, c, s) <==> Once(n, MessageSent(ops, m, c, s))
  {
    if n > 0 {
      MessageExactly(ops, n - 1, m, c, s);
      NextAt(ops, n - 1);
      StepMovesMessage(At(ops, n - 1), ops[n - 1], m, c, s);
      OnceNext(n - 1, MessageSent(ops, m, c, s));
    }
  }

  // ---------------------------------------------------------------------------
  // Receipts
  // ---------------------------------------------------------------------------

  /** The call sends `m` while `u` is a member of its conversation, or its sender. */
  predicate Delivers(t: Tables, op: Op, m: Uid, u: Uid) {
    op.SendOp? && Sends(t, op, m, op.c, op.s) && (u == op.s || (op.c, u) in t.members)
  }

  function MessageDelivered(ops: seq<Op>, m: Uid, u: Uid): nat -> bool {
    (i: nat) => i < |ops| && Delivers(At(ops, i), ops[i], m, u)
  }

  function MessageRead(ops: seq<Op>, m: Uid, u: Uid): nat -> bool {
    (i: nat) => i < |ops| && ReadsFor(At(ops, i), ops[i], u, m)
  }

  predicate HasRead(t: Tables, m: Uid, u: Uid) {
    (m, u) in t.receipts && t.receipts[(m, u)] == Read
  }

  lemma ReadMovesReceipt(t: Tables, op: Op, c: Uid, v: Uid, now: int, m: Uid, u: Uid)
    requires (c, v) in t.members && (op == ReadOp(c, v, now) || (op.SendOp? && op.c == c && op.s == v))
    ensures var t' := AfterRead(t, c, v, now);
            && ((m, u) in t'.receipts <==> (m, u) in t.receipts)
            && (HasRead(t', m, u) <==> HasRead(t, m, u) || ReadsFor(t, op, u, m))
  {
  }

  lemma SendMovesReceipt(t: Tables, op: Op, m: Uid, u: Uid)
    requires Inv(t) && op.SendOp? && (op.c, op.s) in t.members
    ensures var t' := Step(t, op).0;
            && ((m, u) in t'.receipts <==> (m, u) in t.receipts || Delivers(t, op, m, u))
            && (HasRead(t', m, u) <==> HasRead(t, m, u) || ReadsFor(t, op, u, m))
  {
    var t1 := AfterRead(t, op.c, op.s, op.now);
    ReadMovesReceipt(t, op, op.c, op.s, op.now, m, u);
    ReadKeepsInv(t, op.c, op.s, op.now);
    if op.hasFile && op.m !in t.messages {
      InsertedReceiptAt(t1, op.c, op.s, op.m, m, u);
    }
  }

  lemma StepMovesReceipt(t: Tables, op: Op, m: Uid, u: Uid)
    requires Inv(t)
    ensures var t' := Step(t, op).0;
            && ((m, u) in t'.receipts <==> (m, u) in t.receipts || Delivers(t, op, m, u))
            && (HasRead(t', m, u) <==> HasRead(t, m, u) || ReadsFor(t, op, u, m))
  {
    match op
    case SendOp(c, s, _, _, _) =>
      if (c, s) in t.members {
        SendMovesReceipt(t, op, m, u);
      }
    case ReadOp(c, v, now) =>
      if (c, v) in t.members {
        ReadMovesReceipt(t, op, c, v, now, m, u);
      }
    case _ =>
  }

  /** Receipts are held by the sender and by those who were members when the message was sent. */
  lemma {:induction false} ReceiptExactly(ops: seq<Op>, n: nat, m: Uid, u: Uid)
    requires n <= |ops|
    ensures (m, u) in At(ops, n).receipts <==> Once(n, MessageDelivered(ops, m, u))
  {
    if n > 0 {
      ReceiptExactly(ops, n - 1, m, u);
      Reachable(ops[..n - 1]);
      NextAt(ops, n - 1);
      StepMovesReceipt(At(ops, n - 1), ops[n - 1], m, u);
      OnceNext(n - 1, MessageDelivered(ops, m, u));
    }
  }

  /** A receipt is READ exactly if its holder has looked at the conversation, as a member, since he received it. */
  lemma {:induction false} ReadExactly(ops: seq<Op>, n: nat, m: Uid, u: Uid)
    requires n <= |ops|
    ensures HasRead(At(ops, n), m, u) <==> Once(n, MessageRead(ops, m, u))
  {
    if n > 0 {
      ReadExactly(ops, n - 1, m, u);
      Reachable(ops[..n - 1]);
      NextAt(ops, n - 1);
      StepMovesReceipt(At(ops, n - 1), ops[n - 1], m, u);
      OnceNext(n - 1, MessageRead(ops, m, u));
    }
  }

  // ---------------------------------------------------------------------------
  // The status of a message
  // ---------------------------------------------------------------------------

  /** What the call makes of the status of `m`, if it makes anything of it. */
  function StatusWritten(t: Tables, op: Op, m: Uid): Option<Status> {
    if op.SendOp? && Sends(t, op, m, op.c, op.s) then Some(Sent)
    else if ReadsMessage(t, op, m) then Some(Read)
    else if Deletes(t, op, m) then Some(Deleted)
    else None
  }

  lemma ReadMovesStatus(t: Tables, op: Op, m: Uid)
    requires m in t.messages && op.ReadOp?
    ensures Step(t, op).0.messages[m].globalStatus ==
            if ReadsMessage(t, op, m) then Read else t.messages[m].globalStatus
  {
  }

  lemma SendMovesStatus(t: Tables, op: Op, m: Uid)
    requires op.SendOp? && m in Step(t, op).0.messages
    ensures Step(t, op).0.messages[m].globalStatus ==
            if Sends(t, op, m, op.c, op.s) then Sent
            else if ReadsMessage(t, op, m) then Read
            else if m in t.messages then t.messages[m].globalStatus else Sent
  {
  }

  lemma StepMovesStatus(t: Tables, op: Op, m: Uid)
    requires m in Step(t, op).0.messages
    ensures StatusWritten(t, op, m).Some? ==> Step(t, op).0.messages[m].globalStatus == StatusWritten(t, op, m).value
    ensures StatusWritten(t, op, m).None? ==>
              m in t.messages && Step(t, op).0.messages[m].globalStatus == t.messages[m].globalStatus
  {
    match op
    case SendOp(_, _, _, _, _) => SendMovesStatus(t, op, m);
    case ReadOp(_, _, _) => ReadMovesStatus(t, op, m);
    case _ =>
  }

  /** The status of `m` before call `i`; a message that is not there yet counts as SENT. */
  function StatusAt(ops: seq<Op>, m: Uid): nat -> Status {
    (i: nat) => if i <= |ops| && m in At(ops, i).messages then At(ops, i).messages[m].globalStatus else Sent
  }

  function StatusWrites(ops: seq<Op>, m: Uid): nat -> Option<Status> {
    (i: nat) => if i < |ops| then StatusWritten(At(ops, i), ops[i], m) else None
  }

  lemma StatusNext(ops: seq<Op>, n: nat, m: Uid)
    requires n < |ops|
    ensures FollowsAt(StatusAt(ops, m), StatusWrites(ops, m), n)
  {
    NextAt(ops, n);
    if m in At(ops, n + 1).messages {
      StepMovesStatus(At(ops, n), ops[n], m);
    }
  }

  /** Over every run the status of a message is the one that the last of these calls gave it. */
  lemma {:induction false} StatusExactly(ops: seq<Op>, n: nat, m: Uid)
    requires n <= |ops|
    ensures LastWriteStands(n, StatusAt(ops, m), StatusWrites(ops, m))
  {
    forall k: nat | k < n ensures FollowsAt(StatusAt(ops, m), StatusWrites(ops, m), k) {
      StatusNext(ops, k, m);
    }
    LastWriter(n, StatusAt(ops, m), StatusWrites(ops, m));
  }

  // ---------------------------------------------------------------------------
  // Members
  // ---------------------------------------------------------------------------

  predicate Joins(t: Tables, op: Op, c: Uid, u: Uid) {
    op == AddMember(c, u) && (c, u) !in t.members
  }

  /** What the call makes of a member's settings, visible and archived, and of his being a member. */
  function SettingsWritten(t: Tables, op: Op, c: Uid, u: Uid): Option<Option<(bool, bool)>> {
    if Joins(t, op, c, u) then Some(Some((true, false)))
    else if op == RemoveMember(c, u) then Some(None)
    else if op.Settings? && op.c == c && op.u == u && (c, u) in t.members then Some(Some((op.isVisible, op.isArchived)))
    else None
  }

  /** And of the instant of his last read. */
  function LastReadWritten(t: Tables, op: Op, c: Uid, u: Uid): Option<Option<int>> {
    if Joins(t, op, c, u) || op == RemoveMember(c, u) then Some(None)
    else if LooksAt(t, op, c, u) then Some(Some(op.now))
    else None
  }

  function SettingsIn(t: Tables, c: Uid, u: Uid): Option<(bool, bool)> {
    if (c, u) in t.members then Some((t.members[(c, u)].isVisible, t.members[(c, u)].isArchived)) else None
  }

  function LastReadIn(t: Tables, c: Uid, u: Uid): Option<int> {
    if (c, u) in t.members then t.members[(c, u)].lastReadAt else None
  }

  lemma StepMovesMember(t: Tables, op: Op, c: Uid, u: Uid)
    ensures SettingsIn(Step(t, op).0, c, u) ==
            if SettingsWritten(t, op, c, u).Some? then SettingsWritten(t, op, c, u).value else SettingsIn(t, c, u)
    ensures LastReadIn(Step(t, op).0, c, u) ==
            if LastReadWritten(t, op, c, u).Some? then LastReadWritten(t, op, c, u).value else LastReadIn(t, c, u)
  {
  }

  function SettingsAt(ops: seq<Op>, c: Uid, u: Uid): nat -> Option<(bool, bool)> {
    (i: nat) => if i <= |ops| then SettingsIn(At(ops, i), c, u) else None
  }

  function SettingsWrites(ops: seq<Op>, c: Uid, u: Uid): nat -> Option<Option<(bool, bool)>> {
    (i: nat) => if i < |ops| then SettingsWritten(At(ops, i), ops[i], c, u) else None
  }

  function LastReadAt(ops: seq<Op>, c: Uid, u: Uid): nat -> Option<int> {
    (i: nat) => if i <= |ops| then LastReadIn(At(ops, i), c, u) else None
  }

  function LastReadWrites(ops: seq<Op>, c: Uid, u: Uid): nat -> Option<Option<int>> {
    (i: nat) => if i < |ops| then LastReadWritten(At(ops, i), ops[i], c, u) else None
  }

  lemma SettingsNext(ops: seq<Op>, n: nat, c: Uid, u: Uid)
    requires n < |ops|
    ensures FollowsAt(SettingsAt(ops, c, u), SettingsWrites(ops, c, u), n)
  {
    NextAt(ops, n);
    StepMovesMember(At(ops, n), ops[n], c, u);
  }

  lemma LastReadNext(ops: seq<Op>, n: nat, c: Uid, u: Uid)
    requires n < |ops|
    ensures FollowsAt(LastReadAt(ops, c, u), LastReadWrites(ops, c, u), n)
  {
    NextAt(ops, n);
    StepMovesMember(At(ops, n), ops[n], c, u);
  }

  /** Who is a member, and with which settings: as the last such call says. */
  lemma {:induction false} SettingsExactly(ops: seq<Op>, n: nat, c: Uid, u: Uid)
    requires n <= |ops|
    ensures LastWriteStands(n, SettingsAt(ops, c, u), SettingsWrites(ops, c, u))
  {
    forall k: nat | k < n ensures FollowsAt(SettingsAt(ops, c, u), SettingsWrites(ops, c, u), k) {
      SettingsNext(ops, k, c, u);
    }
    LastWriter(n, SettingsAt(ops, c, u), SettingsWrites(ops, c, u));
  }

  /** A member's last read is the instant of the last call with which he looked at the conversation. */
  lemma {:induction false} LastReadExactly(ops: seq<Op>, n: nat, c: Uid, u: Uid)
    requires n <= |ops|
    ensures LastWriteStands(n, LastReadAt(ops, c, u), LastReadWrites(ops, c, u))
  {
    forall k: nat | k < n ensures FollowsAt(LastReadAt(ops, c, u), LastReadWrites(ops, c, u), k) {
      LastReadNext(ops, k, c, u);
    }
    LastWriter(n, LastReadAt(ops, c, u), LastReadWrites(ops, c, u));
  }

  // ---------------------------------------------------------------------------
  // Answers
  // ---------------------------------------------------------------------------

  /** Which calls are refused; a send answers with its message, a read with a count and summaries. */
  lemma {:induction false} AnswersExactly(ops: seq<Op>, op: Op)
    ensures var t := Run(EMPTY, ops);
            match Step(t, op).1
            case Created(uid) => op.SendOp? && Sends(t, op, uid, op.c, op.s)
            case Marked(_, _) => op.ReadOp? && (op.c, op.u) in t.members
            case Done =>
              || (op.AddMember? && (op.c, op.u) !in t.members)
              || ((op.RemoveMember? || op.Settings?) && (op.c, op.u) in t.members)
              || (op.DeleteOp? && Deletes(t, op, op.m))
            case Rejected =>
              match op
              case SendOp(c, s, m, _, _) => !Sends(t, op, m, c, s)
              case ReadOp(c, u, _) => (c, u) !in t.members
              case AddMember(c, u) => (c, u) in t.members
              case RemoveMember(c, u) => (c, u) !in t.members
              case Settings(c, u, _, _) => (c, u) !in t.members
              case DeleteOp(m, _) => !Deletes(t, op, m)
  {
  }

  /**
   The summaries of a read: one for each message that was unread for the reader; somebody has read
   each of them now, and everyone has exactly if all receipts but the sender's are READ.
   */
  lemma {:induction false} SummariesExactly(ops: seq<Op>, c: Uid, u: Uid, now: int)
    requires (c, u) in Run(EMPTY, ops).members
    ensures var t := Run(EMPTY, ops);
            var (t', r) := Step(t, ReadOp(c, u, now));
            && r.Marked?
            && (forall m :: m in r.summaries <==> ReadsFor(t, ReadOp(c, u, now), u, m))
            && (forall m :: m in r.summaries ==>
                  && r.summaries[m].hasAnyRead
                  && (r.summaries[m].hasEveryoneRead <==>
                      forall v :: (m, v) in t'.receipts && v != t'.messages[m].sender ==> t'.receipts[(m, v)] == Read))
  {
    var t := Run(EMPTY, ops);
    var (t', r) := Step(t, ReadOp(c, u, now));
    Reachable(ops);
    ReadKeepsInv(t, c, u, now);
    forall m | m in r.summaries
      ensures r.summaries[m].hasAnyRead
      ensures r.summaries[m].hasEveryoneRead <==>
              forall v :: (m, v) in t'.receipts && v != t'.messages[m].sender ==> t'.receipts[(m, v)] == Read
    {
      assert t'.receipts[(m, u)] == Read;
      SummaryMeans(t', m, u);
    }
  }

  lemma SummaryMeans(t: Tables, m: Uid, u: Uid)
    requires m in t.messages && u != t.messages[m].sender && HasRead(t, m, u)
    ensures ServiceSummary(t, m).hasAnyRead
    ensures ServiceSummary(t, m).hasEveryoneRead <==>
            forall v :: (m, v) in t.receipts && v != t.messages[m].sender ==> t.receipts[(m, v)] == Read
  {
    var s := t.messages[m].sender;
    var recipients, read := Holders(t, m) - {s}, Readers(t, m) - {s};
    assert (m, u).1 in read && read <= recipients;
    assert |recipients - read| == |recipients| - |read|;
    forall v ensures v in recipients <==> (m, v) in t.receipts && v != s {
      assert (m, v) in t.receipts ==> (m, v).1 in Holders(t, m);
    }
    forall v ensures v in read <==> HasRead(t, m, v) && v != s {
      assert HasRead(t, m, v) ==> (m, v).1 in Readers(t, m);
    }
    if |read| == |recipients| {
      assert recipients - read == {};
    }
    if forall v :: (m, v) in t.receipts && v != s ==> t.receipts[(m, v)] == Read {
      assert recipients == read;
    }
  }
}
