/**
 Reads of one user that overlap (src/conversations/services/messages.service.ts, `markMessagesAsRead`):
 what the last statement of a read still finds unread, and when the number it reports is the number
 of messages it made read.
 */
module OverlappingReads {
  import opened Common
  import R = Receipts
  import opened ReceiptStatements

  /** The statement ends a read of `u` that has `m` among its targets. */
  predicate Reads(s: State, x: Statement, u: Uid, m: Uid) {
    x.MarkReceipts? && x.call in s.reading && s.reading[x.call].u == u && m in s.reading[x.call].targets
  }

  /** Statement `i` of `xs` ends a read of `u` that has one of `ms` among its targets. */
  predicate Overtakes(s: State, xs: seq<Statement>, i: nat, u: Uid, ms: set<Uid>)
    requires i < |xs|
  {
    var before := Run(s, xs[..i]);
    xs[i].MarkReceipts? && xs[i].call in before.reading
    && before.reading[xs[i].call].u == u && before.reading[xs[i].call].targets * ms != {}
  }

  predicate ReadAt(s: State, xs: seq<Statement>, i: nat, u: Uid, m: Uid) {
    i < |xs| && Reads(Run(s, xs[..i]), xs[i], u, m)
  }

  ghost predicate ReadDuring(s: State, xs: seq<Statement>, u: Uid, m: Uid) {
    exists i: nat :: ReadAt(s, xs, i, u, m)
  }

  lemma ReadAtPrefix(s: State, xs: seq<Statement>, i: nat, u: Uid, m: Uid)
    requires i + 1 < |xs|
    ensures ReadAt(s, xs[..|xs| - 1], i, u, m) == ReadAt(s, xs, i, u, m)
  {
    assert xs[..|xs| - 1][..i] == xs[..i];
  }

  lemma ReadDuringLast(s: State, xs: seq<Statement>, u: Uid, m: Uid)
    requires xs != []
    ensures var n := |xs| - 1; ReadDuring(s, xs, u, m) <==> ReadDuring(s, xs[..n], u, m) || ReadAt(s, xs, n, u, m)
  {
    var n := |xs| - 1;
    if i: nat :| ReadAt(s, xs, i, u, m) && i != n {
      ReadAtPrefix(s, xs, i, u, m);
    }
    if i: nat :| ReadAt(s, xs[..n], i, u, m) {
      ReadAtPrefix(s, xs, i, u, m);
    }
  }

  lemma EndOfReadReads(s: State, call: nat, c: Uid, u: Uid, m: Uid)
    requires call in s.reading && IsRecipient(s.tables, c, u, m)
    ensures IsRecipient(Step(s, MarkReceipts(call)).tables, c, u, m)
    ensures Step(s, MarkReceipts(call)).tables.receipts[(m, u)] == R.Read <==>
            s.tables.receipts[(m, u)] == R.Read || Reads(s, MarkReceipts(call), u, m)
  {
  }

  lemma InsertsReadNothing(s: State, call: nat, k: (Uid, Uid))
    requires call in s.sending && SendingIsGood(s.tables, s.sending[call]) && ReceiptsAreTyped(s.tables)
    requires k in s.tables.receipts
    ensures k in Step(s, InsertReceipts(call)).tables.receipts
    ensures Step(s, InsertReceipts(call)).tables.receipts[k] == s.tables.receipts[k]
    ensures k in Step(s, InsertOwnReceipt(call)).tables.receipts
    ensures Step(s, InsertOwnReceipt(call)).tables.receipts[k] == s.tables.receipts[k]
  {
    var w := s.sending[call];
    if w.Addressed? {
      DeliveredAt(s.tables, w.m, w.others);
    }
  }

  /** Only the end of a read changes a receipt that is there. */
  lemma OthersReadNothing(s: State, x: Statement, k: (Uid, Uid))
    requires AllGood(s) && k in s.tables.receipts && !x.MarkReceipts?
    ensures k in Step(s, x).tables.receipts && Step(s, x).tables.receipts[k] == s.tables.receipts[k]
  {
    match x
    case InsertReceipts(call) =>
      if call in s.sending {
        assert SendingIsGood(s.tables, s.sending[call]);
        InsertsReadNothing(s, call, k);
      }
    case InsertOwnReceipt(call) =>
      if call in s.sending {
        assert SendingIsGood(s.tables, s.sending[call]);
        InsertsReadNothing(s, call, k);
      }
    case Single(op) =>
      if !op.SendOp? && !op.ReadOp? {
        SingleGrows(s.tables, op);
      }
    case _ =>
  }

  /** A received message becomes read by exactly the statements that end a read of its recipient targeting it. */
  lemma StepReadsExactly(s: State, x: Statement, c: Uid, u: Uid, m: Uid)
    requires AllGood(s) && IsRecipient(s.tables, c, u, m)
    ensures IsRecipient(Step(s, x).tables, c, u, m)
    ensures Step(s, x).tables.receipts[(m, u)] == R.Read <==>
            s.tables.receipts[(m, u)] == R.Read || Reads(s, x, u, m)
  {
    if x.MarkReceipts? {
      if x.call in s.reading {
        EndOfReadReads(s, x.call, c, u, m);
      }
    } else {
      StepKeepsGood(s, x);
      OthersReadNothing(s, x, (m, u));
    }
  }

  /** The same over any interleaving. */
  lemma {:induction false} RunReadsExactly(s: State, xs: seq<Statement>, c: Uid, u: Uid, m: Uid)
    requires AllGood(s) && IsRecipient(s.tables, c, u, m)
    ensures IsRecipient(Run(s, xs).tables, c, u, m)
    ensures Run(s, xs).tables.receipts[(m, u)] == R.Read <==>
            s.tables.receipts[(m, u)] == R.Read || ReadDuring(s, xs, u, m)
    decreases |xs|
  {
    if xs != [] {
      var n := |xs| - 1;
      RunReadsExactly(s, xs[..n], c, u, m);
      RunKeepsGood(s, xs[..n]);
      StepReadsExactly(Run(s, xs[..n]), xs[n], c, u, m);
      ReadDuringLast(s, xs, u, m);
    }
  }

  /** The state right after a read has found its targets. */
  function Found(before: seq<Statement>, call: nat, c: Uid, u: Uid): State {
    Step(Run(START, before), FindTargets(call, c, u))
  }

  /**
   Of the messages a read found unread, its last statement still finds unread exactly those that no
   other read of the user has ended on in between.
   */
  lemma {:induction false} StillUnreadExactly(before: seq<Statement>, call: nat, c: Uid, u: Uid, xs: seq<Statement>)
    requires call !in Run(START, before).reading && MarkReceipts(call) !in xs
    ensures var unread := R.UnreadUids(Run(START, before).tables, c, u);
            var s := Run(Found(before, call, c, u), xs);
            && call in s.reading && s.reading[call] == Reading(c, u, unread)
            && (forall m :: m in StillUnread(s, call) <==>
                  m in unread && !ReadDuring(Found(before, call, c, u), xs, u, m))
  {
    var found := Found(before, call, c, u);
    var unread := R.UnreadUids(Run(START, before).tables, c, u);
    Reachable(before);
    StepKeepsGood(Run(START, before), FindTargets(call, c, u));
    CallStaysInFlight(found, xs, call);
    var s := Run(found, xs);
    forall m | m in unread ensures m in StillUnread(s, call) <==> !ReadDuring(found, xs, u, m) {
      RunReadsExactly(found, xs, c, u, m);
    }
  }

  lemma OvertakenOrNot(s: State, xs: seq<Statement>, u: Uid, ms: set<Uid>)
    ensures (forall i: nat :: i < |xs| ==> !Overtakes(s, xs, i, u, ms)) <==>
            (forall m :: m in ms ==> !ReadDuring(s, xs, u, m))
  {
    if i: nat :| i < |xs| && Overtakes(s, xs, i, u, ms) {
      var m :| m in Run(s, xs[..i]).reading[xs[i].call].targets * ms;
      assert ReadAt(s, xs, i, u, m);
    }
    if m :| m in ms && ReadDuring(s, xs, u, m) {
      var i: nat :| ReadAt(s, xs, i, u, m);
      assert m in Run(s, xs[..i]).reading[xs[i].call].targets * ms;
      assert Overtakes(s, xs, i, u, ms);
    }
  }

  /**
   A read reports the number of messages that were unread when it looked, whatever runs until its
   last statement.  That statement lowers the unread count by this number if and only if no other
   read of the same user that shares a target has ended in between.
   */
  lemma {:induction false} ReportedCountExactly(before: seq<Statement>, call: nat, c: Uid, u: Uid, xs: seq<Statement>)
    requires call !in Run(START, before).reading && MarkReceipts(call) !in xs
    ensures var unread := R.UnreadUids(Run(START, before).tables, c, u);
            var s := Run(Found(before, call, c, u), xs);
            && call in s.reading && |Matched(s, call)| == |unread|
            && (R.UnreadMessagesCount(Step(s, MarkReceipts(call)).tables, u, c)
                == R.UnreadMessagesCount(s.tables, u, c) - |Matched(s, call)| <==>
                forall i: nat :: i < |xs| ==> !Overtakes(Found(before, call, c, u), xs, i, u, unread))
  {
    var unread := R.UnreadUids(Run(START, before).tables, c, u);
    var found := Found(before, call, c, u);
    var s := Run(found, xs);
    StillUnreadExactly(before, call, c, u, xs);
    Reachable(before);
    StepKeepsGood(Run(START, before), FindTargets(call, c, u));
    RunKeepsGood(found, xs);
    MatchedCounts(s, call);
    MarkReceiptsClears(s, call, c, u);
    var still := StillUnread(s, call);
    SubsetSize(still, unread);
    OvertakenOrNot(found, xs, u, unread);
  }

  lemma MatchedCounts(s: State, call: nat)
    requires AllGood(s) && call in s.reading
    ensures |Matched(s, call)| == |s.reading[call].targets|
  {
    var r := s.reading[call];
    assert ReadingIsGood(s.tables, r);
    forall m ensures m in r.targets <==> (m, r.u) in Matched(s, call) {
      assert m in r.targets ==> IsRecipient(s.tables, r.c, r.u, m);
    }
    R.PairsCount(r.targets, Matched(s, call), r.u);
  }

  lemma SubsetSize(a: set<Uid>, b: set<Uid>)
    requires a <= b
    ensures |a| == |b| <==> forall m :: m in b ==> m in a
  {
    assert |b - a| == |b| - |a|;
    if |a| == |b| {
      assert b - a == {};
    }
    assert b - a == {} <==> b <= a;
  }

  // ---------------------------------------------------------------------------
  // A double report
  // ---------------------------------------------------------------------------

  /** A two-member conversation in which "a" has sent one message. */
  function OneMessageSent(): State {
    InsertInARow(TwoMembers(), 0, "c", "a", "m")
  }

  function TwoMembers(): State {
    Step(Step(START, Single(R.AddMember("c", "a"))), Single(R.AddMember("c", "b")))
  }

  const SENT: seq<Statement> :=
    [Single(R.AddMember("c", "a")), Single(R.AddMember("c", "b")),
     InsertMessage(0, "c", "a", "m"), FindMembers(0), InsertReceipts(0), InsertOwnReceipt(0)]

  lemma SentRuns()
    ensures Run(START, SENT) == OneMessageSent()
    ensures R.UnreadUids(OneMessageSent().tables, "c", "b") == {"m"}
    ensures OneMessageSent().reading == map[]
  {
    var xs := [Single(R.AddMember("c", "a")), Single(R.AddMember("c", "b"))];
    assert xs == ([] + [xs[0]]) + [xs[1]];
    RunLast(START, [], xs[0]);
    RunLast(START, [] + [xs[0]], xs[1]);
    var ys: seq<Statement> := [InsertMessage(0, "c", "a", "m"), FindMembers(0), InsertReceipts(0), InsertOwnReceipt(0)];
    RunFour(TwoMembers(), ys[0], ys[1], ys[2], ys[3]);
    RunConcat(START, xs, ys);
    assert SENT == xs + ys;
    UninterruptedInsert(TwoMembers(), 0, "c", "a", "m");
    R.InsertAddsOne(TwoMembers().tables, "c", "a", "m", "c", "b");
    assert R.UnreadUids(TwoMembers().tables, "c", "b") == {};
  }

  lemma RunFour(s: State, a: Statement, b: Statement, c: Statement, d: Statement)
    ensures Run(s, [a, b, c, d]) == Step(Step(Step(Step(s, a), b), c), d)
  {
    RunTwo(s, a, b);
    RunTwo(Run(s, [a, b]), c, d);
    RunConcat(s, [a, b], [c, d]);
    assert [a, b] + [c, d] == [a, b, c, d];
  }

  lemma RunTwo(s: State, a: Statement, b: Statement)
    ensures Run(s, [a, b]) == Step(Step(s, a), b)
  {
    RunLast(s, [], a);
    RunLast(s, [a], b);
    assert [] + [a] == [a] && [a] + [b] == [a, b];
  }

  /**
   One unread message, two reads that look at it before either ends: both report it, and the one that
   ends second lowers the unread count by nothing.
   */
  lemma {:induction false} OneMessageReportedTwice()
    ensures var found := Found(SENT + [FindTargets(1, "c", "b")], 2, "c", "b");
            var s := Run(found, [MarkReceipts(1)]);
            && 1 in found.reading && |Matched(found, 1)| == 1
            && R.UnreadMessagesCount(found.tables, "b", "c") == 1
            && 2 in s.reading && |Matched(s, 2)| == 1
            && R.UnreadMessagesCount(Step(s, MarkReceipts(2)).tables, "b", "c")
               == R.UnreadMessagesCount(s.tables, "b", "c") == 0
  {
    var before := SENT + [FindTargets(1, "c", "b")];
    SentRuns();
    RunLast(START, SENT, FindTargets(1, "c", "b"));
    var looked := Run(START, before);
    assert looked.tables == OneMessageSent().tables && looked.reading == map[1 := Reading("c", "b", {"m"})];
    var found := Found(before, 2, "c", "b");
    assert found.tables == looked.tables && 1 in found.reading && found.reading[1] == looked.reading[1];
    Reachable(before);
    StepKeepsGood(looked, FindTargets(2, "c", "b"));
    MatchedCounts(found, 1);
    var xs: seq<Statement> := [MarkReceipts(1)];
    assert xs[..0] == [];
    assert Overtakes(found, xs, 0, "b", {"m"}) by {
      assert "m" in found.reading[1].targets * {"m"};
    }
    ReportedCountExactly(before, 2, "c", "b", xs);
    CountsAfter(found, xs);
  }

  lemma CountsAfter(found: State, xs: seq<Statement>)
    requires AllGood(found) && xs == [MarkReceipts(1)]
    requires 1 in found.reading && found.reading[1] == Reading("c", "b", {"m"})
    requires R.UnreadUids(found.tables, "c", "b") == {"m"}
    ensures R.UnreadMessagesCount(Run(found, xs).tables, "b", "c") == 0
  {
    assert xs[..0] == [];
    MarkReceiptsClears(found, 1, "c", "b");
    assert "m" in R.UnreadUids(found.tables, "c", "b");
    assert StillUnread(found, 1) == {"m"};
  }
}
