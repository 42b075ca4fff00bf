/**
 The statements of sends and reads, interleaved (src/conversations/services/messages.service.ts,
 `markMessagesAsRead`, `createTextMessage`, `createMessageReceipt`).  These calls run several
 statements outside any transaction, so the statements of different calls may come in any order
 between each other, and a call that dies simply never continues.  Here each statement is one step.
 */
module ReceiptStatements {
  import opened Common
  import opened Receipts

  /** A read between finding its target messages and updating its receipts. */
  datatype Reading = Reading(c: Uid, u: Uid, targets: set<Uid>)

  /** How far a send is once its message is inserted. */
  datatype Sending =
    | Inserted(c: Uid, s: Uid, m: Uid)
    | Addressed(s: Uid, m: Uid, others: set<Uid>)
    | Delivering(s: Uid, m: Uid)

  /** The tables, and what the calls in flight remember. */
  datatype State = State(tables: Tables, reading: map<nat, Reading>, sending: map<nat, Sending>)

  const START := State(EMPTY, map[], map[])

  datatype Statement =
    | StampMember(c: Uid, u: Uid, now: int)
    | FindTargets(call: nat, c: Uid, u: Uid)
    | MarkMessages(call: nat)
    | MarkReceipts(call: nat)
    | InsertMessage(call: nat, c: Uid, s: Uid, m: Uid)
    | FindMembers(call: nat)
    | InsertReceipts(call: nat)
    | InsertOwnReceipt(call: nat)
    | Single(op: Op)

  function Stamped(t: Tables, c: Uid, u: Uid, now: int): Tables {
    if (c, u) !in t.members then t
    else t.(members := t.members[(c, u) := t.members[(c, u)].(lastReadAt := Some(now))])
  }

  function WithReadMessages(t: Tables, targets: set<Uid>): Tables {
    t.(messages := map m | m in t.messages ::
                     if m in targets then t.messages[m].(globalStatus := Read) else t.messages[m])
  }

  function WithReadReceipts(t: Tables, targets: set<Uid>, u: Uid): Tables {
    t.(receipts := map k | k in t.receipts :: if k.0 in targets && k.1 == u then Read else t.receipts[k])
  }

  function WithMessage(t: Tables, c: Uid, s: Uid, m: Uid): Tables {
    t.(messages := t.messages[m := Message(c, s, Sent)])
  }

  function WithDelivered(t: Tables, m: Uid, us: set<Uid>): Tables {
    t.(receipts := t.receipts + map k | k in KeysOf(m, us) :: Delivered)
  }

  function WithOwnReceipt(t: Tables, m: Uid, s: Uid): Tables {
    t.(receipts := t.receipts[(m, s) := Sent])
  }

  /** A statement of a call that is not at that point does nothing. */
  function Step(s: State, x: Statement): State {
    match x
    case StampMember(c, u, now) => s.(tables := Stamped(s.tables, c, u, now))
    case FindTargets(call, c, u) =>
      if call in s.reading then s
      else s.(reading := s.reading[call := Reading(c, u, UnreadUids(s.tables, c, u))])
    case MarkMessages(call) =>
      if call !in s.reading then s
      else s.(tables := WithReadMessages(s.tables, s.reading[call].targets))
    case MarkReceipts(call) =>
      if call !in s.reading then s
      else
        var r := s.reading[call];
        s.(tables := WithReadReceipts(s.tables, r.targets, r.u), reading := s.reading - {call})
    case InsertMessage(call, c, u, m) =>
      if call in s.sending || m in s.tables.messages then s
      else s.(tables := WithMessage(s.tables, c, u, m), sending := s.sending[call := Inserted(c, u, m)])
    case FindMembers(call) =>
      if call !in s.sending || !s.sending[call].Inserted? then s
      else
        var w := s.sending[call];
        s.(sending := s.sending[call := Addressed(w.s, w.m, OtherMembers(s.tables.members, w.c, w.s))])
    case InsertReceipts(call) =>
      if call !in s.sending || !s.sending[call].Addressed? then s
      else
        var w := s.sending[call];
        s.(tables := WithDelivered(s.tables, w.m, w.others), sending := s.sending[call := Delivering(w.s, w.m)])
    case InsertOwnReceipt(call) =>
      if call !in s.sending || !s.sending[call].Delivering? then s
      else
        var w := s.sending[call];
        s.(tables := WithOwnReceipt(s.tables, w.m, w.s), sending := s.sending - {call})
    case Single(op) =>
      if op.SendOp? || op.ReadOp? then s else s.(tables := Receipts.Step(s.tables, op).0)
  }

  function Run(s: State, xs: seq<Statement>): State
    decreases |xs|
  {
    if xs == [] then s else Step(Run(s, xs[..|xs| - 1]), xs[|xs| - 1])
  }

  lemma RunLast(s: State, xs: seq<Statement>, x: Statement)
    ensures Run(s, xs + [x]) == Step(Run(s, xs), x)
  {
    assert (xs + [x])[..|xs + [x]| - 1] == xs;
  }

  lemma {:induction false} RunConcat(s: State, xs: seq<Statement>, ys: seq<Statement>)
    ensures Run(s, xs + ys) == Run(Run(s, xs), ys)
    decreases |ys|
  {
    if ys == [] {
      assert xs + ys == xs;
    } else {
      RunConcat(s, xs, ys[..|ys| - 1]);
      assert (xs + ys)[..|xs + ys| - 1] == xs + ys[..|ys| - 1];
    }
  }

  // ---------------------------------------------------------------------------
  // Without interruption: the one-step calls
  // ---------------------------------------------------------------------------

  /** A read before its last statement. */
  function ReadUpToLast(s: State, call: nat, c: Uid, u: Uid, now: int): State {
    Step(Step(Step(s, StampMember(c, u, now)), FindTargets(call, c, u)), MarkMessages(call))
  }

  function ReadInARow(s: State, call: nat, c: Uid, u: Uid, now: int): State {
    Step(ReadUpToLast(s, call, c, u, now), MarkReceipts(call))
  }

  /** The receipts the last statement of a read matches: their number is the `count` it returns. */
  function Matched(s: State, call: nat): set<(Uid, Uid)>
    requires call in s.reading
  {
    set k | k in s.tables.receipts && k.0 in s.reading[call].targets && k.1 == s.reading[call].u
  }

  function InsertInARow(s: State, call: nat, c: Uid, u: Uid, m: Uid): State {
    var addressed := Step(Step(s, InsertMessage(call, c, u, m)), FindMembers(call));
    Step(Step(addressed, InsertReceipts(call)), InsertOwnReceipt(call))
  }

  lemma UpToLast(s: State, call: nat, c: Uid, u: Uid, now: int)
    requires call !in s.reading && (c, u) in s.tables.members
    ensures var target := UnreadUids(s.tables, c, u);
            ReadUpToLast(s, call, c, u, now)
            == s.(tables := WithReadMessages(Stamped(s.tables, c, u, now), target),
                  reading := s.reading[call := Reading(c, u, target)])
  {
    assert UnreadUids(Stamped(s.tables, c, u, now), c, u) == UnreadUids(s.tables, c, u);
  }

  lemma ThreeUpdates(t: Tables, c: Uid, u: Uid, now: int)
    requires (c, u) in t.members
    ensures var target := UnreadUids(t, c, u);
            WithReadReceipts(WithReadMessages(Stamped(t, c, u, now), target), target, u) == AfterRead(t, c, u, now)
  {
  }

  /** What a read answers: how many receipts it matched, and a summary of each of its targets. */
  ghost predicate Answers(r: Response, last: State, call: nat, after: Tables) {
    && r.Marked? && call in last.reading
    && r.count == |Matched(last, call)|
    && r.summaries.Keys == last.reading[call].targets
    && forall m :: m in r.summaries ==> m in after.messages && r.summaries[m] == ServiceSummary(after, m)
  }

  lemma AnswerOfRead(t: Tables, last: State, call: nat, c: Uid, u: Uid, now: int)
    requires (c, u) in t.members && call in last.reading && last.tables.receipts == t.receipts
    requires last.reading[call] == Reading(c, u, UnreadUids(t, c, u))
    ensures Answers(MarkRead(t, c, u, now).1, last, call, AfterRead(t, c, u, now))
  {
    PairsCount(UnreadUids(t, c, u), Matched(last, call), u);
  }

  /** The four statements of a read, run in a row, are the read of the one-step model, with its answer. */
  lemma {:induction false} UninterruptedRead(s: State, call: nat, c: Uid, u: Uid, now: int)
    requires call !in s.reading
    ensures (c, u) !in s.tables.members ==>
              MarkRead(s.tables, c, u, now) == (s.tables, Rejected) && Step(s, StampMember(c, u, now)) == s
    ensures (c, u) in s.tables.members ==>
              var (t, r) := MarkRead(s.tables, c, u, now);
              ReadInARow(s, call, c, u, now) == s.(tables := t) && Answers(r, ReadUpToLast(s, call, c, u, now), call, t)
  {
    if (c, u) in s.tables.members {
      UpToLast(s, call, c, u, now);
      AnswerOfRead(s.tables, ReadUpToLast(s, call, c, u, now), call, c, u, now);
      LastOfRead(s, call, c, u, now);
    }
  }

  lemma LastOfRead(s: State, call: nat, c: Uid, u: Uid, now: int)
    requires call !in s.reading && (c, u) in s.tables.members
    ensures ReadInARow(s, call, c, u, now) == s.(tables := AfterRead(s.tables, c, u, now))
  {
    UpToLast(s, call, c, u, now);
    ThreeUpdates(s.tables, c, u, now);
    assert s.reading[call := Reading(c, u, UnreadUids(s.tables, c, u))] - {call} == s.reading;
  }

  lemma ThreeInserts(t: Tables, c: Uid, u: Uid, m: Uid)
    ensures WithOwnReceipt(WithDelivered(WithMessage(t, c, u, m), m, OtherMembers(t.members, c, u)), m, u)
            == AfterInsert(t, c, u, m)
  {
    ReceiptsInOrder(t.receipts, KeysOf(m, OtherMembers(t.members, c, u)), (m, u));
  }

  lemma UninterruptedInsert(s: State, call: nat, c: Uid, u: Uid, m: Uid)
    requires call !in s.sending && m !in s.tables.messages
    ensures InsertInARow(s, call, c, u, m) == s.(tables := AfterInsert(s.tables, c, u, m))
  {
    var others := OtherMembers(s.tables.members, c, u);
    var s1 := Step(s, InsertMessage(call, c, u, m));
    var s2 := Step(s1, FindMembers(call));
    assert s2.tables == s1.tables && s2.sending[call] == Addressed(u, m, others);
    var s3 := Step(s2, InsertReceipts(call));
    assert s3.tables == WithDelivered(s1.tables, m, others) && s3.sending[call] == Delivering(u, m);
    assert s3.sending - {call} == s.sending;
    ThreeInserts(s.tables, c, u, m);
  }

  /**
   So are the statements of a send.  If the file is missing or the message uid is taken, the read
   that went before stays.
   */
  lemma {:induction false} UninterruptedSend(s: State, call: nat, c: Uid, u: Uid, m: Uid, hasFile: bool, now: int)
    requires call !in s.reading && call !in s.sending
    ensures var read := ReadInARow(s, call, c, u, now);
            var (t, r) := Receipts.Send(s.tables, c, u, m, hasFile, now);
            if (c, u) !in s.tables.members then r == Rejected && Step(s, StampMember(c, u, now)) == s.(tables := t)
            else if !hasFile then r == Rejected && read == s.(tables := t)
            else if m in s.tables.messages
            then r == Rejected && Step(read, InsertMessage(call, c, u, m)) == s.(tables := t)
            else r == Created(m) && InsertInARow(read, call, c, u, m) == s.(tables := t)
  {
    if (c, u) in s.tables.members {
      LastOfRead(s, call, c, u, now);
      if hasFile && m !in s.tables.messages {
        UninterruptedInsert(s.(tables := AfterRead(s.tables, c, u, now)), call, c, u, m);
      }
    }
  }

  // ---------------------------------------------------------------------------
  // Invariants of every interleaving
  // ---------------------------------------------------------------------------

  /** A sender's receipt is SENT if it is there, nobody else's is; receipts belong to messages. */
  ghost predicate ReceiptsAreTyped(t: Tables) {
    forall k :: k in t.receipts ==>
      k.0 in t.messages
      && if k.1 == t.messages[k.0].sender then t.receipts[k] == Sent
         else t.receipts[k] == Delivered || t.receipts[k] == Read
  }

  /** `u` holds the receipt of another user's message in `c`. */
  predicate IsRecipient(t: Tables, c: Uid, u: Uid, m: Uid) {
    m in t.messages && t.messages[m].conversation == c && t.messages[m].sender != u && (m, u) in t.receipts
  }

  /** A read in flight targets messages its user received in the conversation. */
  ghost predicate ReadingIsGood(t: Tables, r: Reading) {
    forall m :: m in r.targets ==> IsRecipient(t, r.c, r.u, m)
  }

  predicate HasNoReceipts(t: Tables, m: Uid) {
    forall k :: k in t.receipts ==> k.0 != m
  }

  /** A send in flight has inserted its message; before it delivers there are no receipts. */
  predicate SendingIsGood(t: Tables, w: Sending) {
    && w.m in t.messages && t.messages[w.m].sender == w.s
    && (!w.Delivering? ==> HasNoReceipts(t, w.m))
    && (w.Addressed? ==> w.s !in w.others)
  }

  ghost predicate CallsAreGood(s: State) {
    && (forall call :: call in s.reading ==> ReadingIsGood(s.tables, s.reading[call]))
    && (forall call :: call in s.sending ==> SendingIsGood(s.tables, s.sending[call]))
    && (forall a, b :: a in s.sending && b in s.sending && a != b ==> s.sending[a].m != s.sending[b].m)
  }

  ghost predicate InFlight(s: State, m: Uid) {
    exists call :: call in s.sending && s.sending[call].m == m
  }

  /** A message lacks its sender's receipt only while its send is in flight. */
  ghost predicate OnlySendsAreIncomplete(s: State) {
    forall m :: m in s.tables.messages && (m, s.tables.messages[m].sender) !in s.tables.receipts ==> InFlight(s, m)
  }

  ghost predicate AllGood(s: State) {
    ReceiptsAreTyped(s.tables) && CallsAreGood(s) && OnlySendsAreIncomplete(s)
  }

  /** Nothing the invariants look at is lost: messages keep sender and conversation, receipts stay, READ stays. */
  ghost predicate Grows(t: Tables, t': Tables) {
    && (forall m :: m in t.messages ==>
          m in t'.messages && t'.messages[m].sender == t.messages[m].sender
          && t'.messages[m].conversation == t.messages[m].conversation)
    && (forall k :: k in t.receipts ==> k in t'.receipts && (t.receipts[k] == Read ==> t'.receipts[k] == Read))
  }

  lemma ReadReceiptsKeepGood(s: State, call: nat)
    requires AllGood(s) && call in s.reading
    ensures AllGood(Step(s, MarkReceipts(call))) && Grows(s.tables, Step(s, MarkReceipts(call)).tables)
  {
    var s', r := Step(s, MarkReceipts(call)), s.reading[call];
    forall k | k in s'.tables.receipts && k.0 in r.targets && k.1 == r.u
      ensures k.1 != s.tables.messages[k.0].sender
    {
      assert IsRecipient(s.tables, r.c, r.u, k.0);
    }
    assert CallsAreGood(s');
    forall m | m in s'.tables.messages && (m, s'.tables.messages[m].sender) !in s'.tables.receipts
      ensures InFlight(s', m)
    {
      assert InFlight(s, m);
    }
  }

  lemma MessageKeepsSending(t: Tables, c: Uid, u: Uid, m: Uid, w: Sending)
    requires ReceiptsAreTyped(t) && m !in t.messages && SendingIsGood(t, w)
    ensures w.m != m && SendingIsGood(WithMessage(t, c, u, m), w)
  {
  }

  lemma InsertMessageKeepsCalls(s: State, call: nat, c: Uid, u: Uid, m: Uid)
    requires ReceiptsAreTyped(s.tables) && CallsAreGood(s) && call !in s.sending && m !in s.tables.messages
    ensures CallsAreGood(Step(s, InsertMessage(call, c, u, m)))
  {
    var s' := Step(s, InsertMessage(call, c, u, m));
    assert HasNoReceipts(s'.tables, m);
    forall other | other in s.sending ensures s.sending[other].m != m && SendingIsGood(s'.tables, s.sending[other]) {
      MessageKeepsSending(s.tables, c, u, m, s.sending[other]);
    }
    forall other | other in s.reading ensures ReadingIsGood(s'.tables, s.reading[other]) {
      assert ReadingIsGood(s.tables, s.reading[other]);
    }
  }

  lemma InsertMessageKeepsGood(s: State, call: nat, c: Uid, u: Uid, m: Uid)
    requires AllGood(s) && call !in s.sending && m !in s.tables.messages
    ensures AllGood(Step(s, InsertMessage(call, c, u, m)))
    ensures Grows(s.tables, Step(s, InsertMessage(call, c, u, m)).tables)
  {
    var s' := Step(s, InsertMessage(call, c, u, m));
    InsertMessageKeepsCalls(s, call, c, u, m);
    assert s'.sending[call].m == m;
    forall x | x in s'.tables.messages && (x, s'.tables.messages[x].sender) !in s'.tables.receipts
      ensures InFlight(s', x)
    {
      if x != m {
        var other :| other in s.sending && s.sending[other].m == x;
        assert other in s'.sending && s'.sending[other].m == x;
      }
    }
  }

  /** A send that only advances keeps its message in flight. */
  lemma AdvanceKeepsInFlight(s: State, call: nat, w: Sending, m: Uid)
    requires call in s.sending && w.m == s.sending[call].m && InFlight(s, m)
    ensures InFlight(s.(sending := s.sending[call := w]), m)
  {
    var s' := s.(sending := s.sending[call := w]);
    var other :| other in s.sending && s.sending[other].m == m;
    assert other in s'.sending && s'.sending[other].m == m;
  }

  lemma FindMembersKeepsGood(s: State, call: nat)
    requires AllGood(s) && call in s.sending && s.sending[call].Inserted?
    ensures AllGood(Step(s, FindMembers(call)))
  {
    var s' := Step(s, FindMembers(call));
    forall m | m in s'.tables.messages && (m, s'.tables.messages[m].sender) !in s'.tables.receipts
      ensures InFlight(s', m)
    {
      AdvanceKeepsInFlight(s, call, s'.sending[call], m);
    }
  }

  lemma DeliveredAt(t: Tables, m: Uid, us: set<Uid>)
    requires HasNoReceipts(t, m)
    ensures forall k :: k in WithDelivered(t, m, us).receipts <==> k in t.receipts || (k.0 == m && k.1 in us)
    ensures forall k :: k in t.receipts ==> WithDelivered(t, m, us).receipts[k] == t.receipts[k]
    ensures forall u :: u in us ==> WithDelivered(t, m, us).receipts[(m, u)] == Delivered
  {
    forall k ensures k in KeysOf(m, us) <==> k.0 == m && k.1 in us {
    }
  }

  lemma InsertReceiptsKeepsGood(s: State, call: nat)
    requires AllGood(s) && call in s.sending && s.sending[call].Addressed?
    ensures AllGood(Step(s, InsertReceipts(call))) && Grows(s.tables, Step(s, InsertReceipts(call)).tables)
  {
    var s', w := Step(s, InsertReceipts(call)), s.sending[call];
    var t' := s'.tables;
    assert SendingIsGood(s.tables, w);
    DeliveredAt(s.tables, w.m, w.others);
    forall k | k in t'.receipts && k !in s.tables.receipts ensures t'.receipts[k] == Delivered {
      assert k == (w.m, k.1);
    }
    assert ReceiptsAreTyped(t');
    forall other | other in s'.sending ensures SendingIsGood(t', s'.sending[other]) {
      assert SendingIsGood(s.tables, s.sending[other]);
      assert other != call ==> s.sending[other].m != w.m;
    }
    forall m | m in t'.messages && (m, t'.messages[m].sender) !in t'.receipts ensures InFlight(s', m) {
      AdvanceKeepsInFlight(s, call, s'.sending[call], m);
      assert s.(sending := s'.sending).sending == s'.sending;
    }
  }

  lemma OwnReceiptKeepsSending(t: Tables, m: Uid, u: Uid, w: Sending)
    requires SendingIsGood(t, w) && w.m != m
    ensures SendingIsGood(WithOwnReceipt(t, m, u), w)
  {
  }

  lemma OwnReceiptKeepsCalls(s: State, call: nat)
    requires CallsAreGood(s) && call in s.sending && s.sending[call].Delivering?
    ensures CallsAreGood(Step(s, InsertOwnReceipt(call)))
  {
    var s', w := Step(s, InsertOwnReceipt(call)), s.sending[call];
    forall other | other in s'.sending ensures SendingIsGood(s'.tables, s'.sending[other]) {
      OwnReceiptKeepsSending(s.tables, w.m, w.s, s.sending[other]);
    }
    forall other | other in s'.reading ensures ReadingIsGood(s'.tables, s'.reading[other]) {
      assert ReadingIsGood(s.tables, s.reading[other]);
    }
  }

  lemma InsertOwnKeepsGood(s: State, call: nat)
    requires AllGood(s) && call in s.sending && s.sending[call].Delivering?
    ensures AllGood(Step(s, InsertOwnReceipt(call))) && Grows(s.tables, Step(s, InsertOwnReceipt(call)).tables)
  {
    var s', w := Step(s, InsertOwnReceipt(call)), s.sending[call];
    assert SendingIsGood(s.tables, w);
    OwnReceiptKeepsCalls(s, call);
    forall m | m in s'.tables.messages && (m, s'.tables.messages[m].sender) !in s'.tables.receipts
      ensures InFlight(s', m)
    {
      var other :| other in s.sending && s.sending[other].m == m;
      assert other in s'.sending && s'.sending[other].m == m;
    }
  }

  /** Statements that touch no receipt and no sender keep the invariants. */
  lemma SameReceiptsKeepGood(s: State, t': Tables)
    requires AllGood(s) && Grows(s.tables, t')
    requires t'.receipts == s.tables.receipts && t'.messages.Keys == s.tables.messages.Keys
    ensures AllGood(s.(tables := t'))
  {
    var s' := s.(tables := t');
    forall m | m in t'.messages && (m, t'.messages[m].sender) !in t'.receipts ensures InFlight(s', m) {
      assert InFlight(s, m);
    }
    assert CallsAreGood(s');
  }

  /** Membership, settings and deletion leave receipts, senders and conversations alone. */
  lemma SingleGrows(t: Tables, op: Op)
    requires !op.SendOp? && !op.ReadOp?
    ensures var t' := Receipts.Step(t, op).0;
            Grows(t, t') && t'.receipts == t.receipts && t'.messages.Keys == t.messages.Keys
  {
  }

  lemma SingleKeepsGood(s: State, op: Op)
    requires AllGood(s) && !op.SendOp? && !op.ReadOp?
    ensures AllGood(Step(s, Single(op))) && Grows(s.tables, Step(s, Single(op)).tables)
  {
    SingleGrows(s.tables, op);
    SameReceiptsKeepGood(s, Receipts.Step(s.tables, op).0);
  }

  lemma FindTargetsKeepsGood(s: State, call: nat, c: Uid, u: Uid)
    requires AllGood(s) && call !in s.reading
    ensures AllGood(Step(s, FindTargets(call, c, u)))
  {
    var s' := Step(s, FindTargets(call, c, u));
    assert ReadingIsGood(s'.tables, s'.reading[call]);
    forall m | m in s'.tables.messages && (m, s'.tables.messages[m].sender) !in s'.tables.receipts
      ensures InFlight(s', m)
    {
      assert InFlight(s, m);
    }
  }

  lemma StepKeepsGood(s: State, x: Statement)
    requires AllGood(s)
    ensures AllGood(Step(s, x)) && Grows(s.tables, Step(s, x).tables)
  {
    if Step(s, x) != s {
      match x
      case StampMember(c, u, now) => SameReceiptsKeepGood(s, Stamped(s.tables, c, u, now));
      case FindTargets(call, c, u) => FindTargetsKeepsGood(s, call, c, u);
      case MarkMessages(call) => SameReceiptsKeepGood(s, WithReadMessages(s.tables, s.reading[call].targets));
      case MarkReceipts(call) => ReadReceiptsKeepGood(s, call);
      case InsertMessage(call, c, u, m) => InsertMessageKeepsGood(s, call, c, u, m);
      case FindMembers(call) => FindMembersKeepsGood(s, call);
      case InsertReceipts(call) => InsertReceiptsKeepsGood(s, call);
      case InsertOwnReceipt(call) => InsertOwnKeepsGood(s, call);
      case Single(op) => SingleKeepsGood(s, op);
    }
  }

  lemma GrowsIsTransitive(a: Tables, b: Tables, c: Tables)
    requires Grows(a, b) && Grows(b, c)
    ensures Grows(a, c)
  {
  }

  lemma {:induction false} RunKeepsGood(s: State, xs: seq<Statement>)
    requires AllGood(s)
    ensures AllGood(Run(s, xs)) && Grows(s.tables, Run(s, xs).tables)
    decreases |xs|
  {
    if xs != [] {
      var before := Run(s, xs[..|xs| - 1]);
      RunKeepsGood(s, xs[..|xs| - 1]);
      StepKeepsGood(before, xs[|xs| - 1]);
      GrowsIsTransitive(s.tables, before.tables, Run(s, xs).tables);
    }
  }

  /** In every state of every interleaving receipts are typed and only sends in flight are incomplete. */
  lemma {:induction false} Reachable(xs: seq<Statement>)
    ensures AllGood(Run(START, xs))
  {
    RunKeepsGood(START, xs);
  }

  // ---------------------------------------------------------------------------
  // What survives the interleaving
  // ---------------------------------------------------------------------------

  /** At every moment of every interleaving the list count and the unread count are the same number. */
  lemma {:induction false} CountsAgreeAtEveryMoment(xs: seq<Statement>, c: Uid, u: Uid)
    ensures var t := Run(START, xs).tables; |ListUnreadUids(t, c, u)| == UnreadMessagesCount(t, u, c)
  {
    Reachable(xs);
    var t := Run(START, xs).tables;
    assert ListUnreadUids(t, c, u) == UnreadUids(t, c, u);
  }

  /** And the badge is lit exactly when that number is positive for a conversation the user lists. */
  lemma {:induction false} BadgeAgreesAtEveryMoment(xs: seq<Statement>, u: Uid)
    ensures var t := Run(START, xs).tables;
            HasUnreadMessages(t, u) <==> exists c :: Listed(t, c, u) && UnreadMessagesCount(t, u, c) > 0
  {
    Reachable(xs);
    var t := Run(START, xs).tables;
    if HasUnreadMessages(t, u) {
      var m :| m in BadgeUids(t, u);
      assert m in UnreadUids(t, t.messages[m].conversation, u);
      assert UnreadMessagesCount(t, u, t.messages[m].conversation) > 0;
    }
    if c :| Listed(t, c, u) && UnreadMessagesCount(t, u, c) > 0 {
      var m :| m in UnreadUids(t, c, u);
      assert m in BadgeUids(t, u);
    }
  }

  /** The two "everyone read" formulas compare as in the one-step model for each message whose send is over. */
  lemma {:induction false} EveryoneReadOnceSent(xs: seq<Statement>, m: Uid)
    requires m in Run(START, xs).tables.messages && !InFlight(Run(START, xs), m)
    ensures var t := Run(START, xs).tables;
            && MapperSummary(t, m).hasAnyRead == ServiceSummary(t, m).hasAnyRead
            && (MapperSummary(t, m).hasEveryoneRead == ServiceSummary(t, m).hasEveryoneRead
                <==> Holders(t, m) != {t.messages[m].sender})
  {
    Reachable(xs);
    SummariesCompare(Run(START, xs).tables, m);
  }

  /** No interleaving takes a receipt away, turns READ back, or moves a message. */
  lemma {:induction false} GrowsOverRuns(xs: seq<Statement>, ys: seq<Statement>)
    ensures Grows(Run(START, xs).tables, Run(START, xs + ys).tables)
  {
    Reachable(xs);
    RunConcat(START, xs, ys);
    RunKeepsGood(Run(START, xs), ys);
  }

  lemma {:induction false} CallStaysInFlight(s: State, ys: seq<Statement>, call: nat)
    requires call in s.reading && MarkReceipts(call) !in ys
    ensures call in Run(s, ys).reading && Run(s, ys).reading[call] == s.reading[call]
    decreases |ys|
  {
    if ys != [] {
      CallStaysInFlight(s, ys[..|ys| - 1], call);
      assert ys[|ys| - 1] in ys;
    }
  }

  /**
   What a read promises: every message that was unread for its user when the read looked is read
   from the moment it has updated its receipts, whatever ran in between and whatever follows.
   */
  lemma {:induction false} ReadKeepsItsPromise(before: seq<Statement>, call: nat, c: Uid, u: Uid,
                                               between: seq<Statement>, after: seq<Statement>, m: Uid)
    requires call !in Run(START, before).reading && m in UnreadUids(Run(START, before).tables, c, u)
    requires MarkReceipts(call) !in between
    ensures var t := Run(START, before + [FindTargets(call, c, u)] + between + [MarkReceipts(call)] + after).tables;
            (m, u) in t.receipts && t.receipts[(m, u)] == Read
  {
    var found := before + [FindTargets(call, c, u)];
    assert found[..|found| - 1] == before;
    var middle := found + between;
    RunConcat(START, found, between);
    CallStaysInFlight(Run(START, found), between, call);
    var done := middle + [MarkReceipts(call)];
    assert done[..|done| - 1] == middle;
    Reachable(middle);
    var s := Run(START, middle);
    assert m in s.reading[call].targets;
    assert IsRecipient(s.tables, c, u, m);
    GrowsOverRuns(done, after);
  }

  /** The targets of a read in flight that its user has not read through another call yet. */
  function StillUnread(s: State, call: nat): set<Uid>
    requires call in s.reading
  {
    var r := s.reading[call];
    set m | m in r.targets && (m, r.u) in s.tables.receipts && s.tables.receipts[(m, r.u)] != Read
  }

  /** Right after a read has marked its messages, each of them is READ, and no other message has changed. */
  lemma {:induction false} TargetsAreMarked(xs: seq<Statement>, call: nat, m: Uid)
    requires call in Run(START, xs).reading && m in Run(START, xs).tables.messages
    ensures var s := Run(START, xs);
            var t' := Step(s, MarkMessages(call)).tables;
            m in t'.messages && t'.messages[m].globalStatus
            == if m in s.reading[call].targets then Read else s.tables.messages[m].globalStatus
    ensures forall x :: x in Run(START, xs).reading[call].targets ==> x in Run(START, xs).tables.messages
  {
    Reachable(xs);
    var s := Run(START, xs);
    assert ReadingIsGood(s.tables, s.reading[call]);
    forall x | x in s.reading[call].targets ensures x in s.tables.messages {
      assert IsRecipient(s.tables, s.reading[call].c, s.reading[call].u, x);
    }
  }

  // ---------------------------------------------------------------------------
  // How one statement moves the unread counts
  // ---------------------------------------------------------------------------

  /** How many messages of `u` in `c` the statement turns READ. */
  function Cleared(s: State, x: Statement, c: Uid, u: Uid): nat {
    if x.MarkReceipts? && x.call in s.reading && s.reading[x.call].c == c && s.reading[x.call].u == u
    then |StillUnread(s, x.call)| else 0
  }

  /** Whether the statement delivers a message of `c` to `u`. */
  predicate Delivers(s: State, x: Statement, c: Uid, u: Uid) {
    && x.InsertReceipts? && x.call in s.sending && s.sending[x.call].Addressed?
    && u in s.sending[x.call].others
    && s.sending[x.call].m in s.tables.messages && s.tables.messages[s.sending[x.call].m].conversation == c
  }

  lemma MarkReceiptsClears(s: State, call: nat, c: Uid, u: Uid)
    requires AllGood(s) && call in s.reading
    ensures var x := MarkReceipts(call);
            UnreadMessagesCount(Step(s, x).tables, u, c) == UnreadMessagesCount(s.tables, u, c) - Cleared(s, x, c, u)
  {
    var t', r, still := Step(s, MarkReceipts(call)).tables, s.reading[call], StillUnread(s, call);
    assert ReadingIsGood(s.tables, r);
    if r.c == c && r.u == u {
      forall m ensures m in still ==> m in UnreadUids(s.tables, c, u) {
        assert m in still ==> IsRecipient(s.tables, r.c, r.u, m);
      }
      assert still <= UnreadUids(s.tables, c, u);
      assert UnreadUids(t', c, u) == UnreadUids(s.tables, c, u) - still;
    } else {
      forall m ensures m in UnreadUids(t', c, u) <==> m in UnreadUids(s.tables, c, u) {
        assert m in r.targets ==> IsRecipient(s.tables, r.c, r.u, m);
      }
      assert UnreadUids(t', c, u) == UnreadUids(s.tables, c, u);
    }
  }

  lemma DeliveredAdds(t: Tables, m: Uid, us: set<Uid>, c: Uid, u: Uid)
    requires m in t.messages && HasNoReceipts(t, m) && t.messages[m].sender !in us
    ensures UnreadUids(WithDelivered(t, m, us), c, u)
            == UnreadUids(t, c, u) + if u in us && t.messages[m].conversation == c then {m} else {}
  {
    DeliveredAt(t, m, us);
  }

  lemma InsertReceiptsAdds(s: State, call: nat, c: Uid, u: Uid)
    requires call in s.sending && s.sending[call].Addressed? && SendingIsGood(s.tables, s.sending[call])
    ensures var x := InsertReceipts(call);
            UnreadMessagesCount(Step(s, x).tables, u, c)
            == UnreadMessagesCount(s.tables, u, c) + if Delivers(s, x, c, u) then 1 else 0
  {
    var w := s.sending[call];
    DeliveredAdds(s.tables, w.m, w.others, c, u);
    assert w.m !in UnreadUids(s.tables, c, u);
  }

  lemma OwnReceiptKeepsUnread(t: Tables, m: Uid, c: Uid, u: Uid)
    requires m in t.messages
    ensures UnreadUids(WithOwnReceipt(t, m, t.messages[m].sender), c, u) == UnreadUids(t, c, u)
  {
  }

  lemma NewMessageKeepsUnread(t: Tables, c0: Uid, s: Uid, m: Uid, c: Uid, u: Uid)
    requires ReceiptsAreTyped(t) && m !in t.messages
    ensures UnreadUids(WithMessage(t, c0, s, m), c, u) == UnreadUids(t, c, u)
  {
    assert (m, u) !in t.receipts;
  }

  lemma SameReceiptsKeepUnread(t: Tables, t': Tables, c: Uid, u: Uid)
    requires Grows(t, t') && t'.receipts == t.receipts && t'.messages.Keys == t.messages.Keys
    ensures UnreadUids(t', c, u) == UnreadUids(t, c, u)
  {
  }

  lemma SingleKeepsUnread(t: Tables, op: Op, c: Uid, u: Uid)
    requires !op.SendOp? && !op.ReadOp?
    ensures UnreadUids(Receipts.Step(t, op).0, c, u) == UnreadUids(t, c, u)
  {
    SingleGrows(t, op);
    SameReceiptsKeepUnread(t, Receipts.Step(t, op).0, c, u);
  }

  lemma OtherStatementsKeepCounts(s: State, x: Statement, c: Uid, u: Uid)
    requires AllGood(s) && Step(s, x).tables != s.tables && !x.MarkReceipts? && !x.InsertReceipts?
    ensures UnreadUids(Step(s, x).tables, c, u) == UnreadUids(s.tables, c, u)
  {
    match x
    case InsertOwnReceipt(call) =>
      assert SendingIsGood(s.tables, s.sending[call]);
      OwnReceiptKeepsUnread(s.tables, s.sending[call].m, c, u);
    case InsertMessage(_, c0, u0, m) => NewMessageKeepsUnread(s.tables, c0, u0, m, c, u);
    case StampMember(c0, u0, now) => SameReceiptsKeepUnread(s.tables, Stamped(s.tables, c0, u0, now), c, u);
    case MarkMessages(call) =>
      SameReceiptsKeepUnread(s.tables, WithReadMessages(s.tables, s.reading[call].targets), c, u);
    case Single(op) => SingleKeepsUnread(s.tables, op, c, u);
    case _ =>
  }

  /** Over every interleaving only these two statements move a count, and by exactly these amounts. */
  lemma {:induction false} CountsMoveExactly(xs: seq<Statement>, x: Statement, c: Uid, u: Uid)
    ensures var s := Run(START, xs);
            UnreadMessagesCount(Step(s, x).tables, u, c)
            == UnreadMessagesCount(s.tables, u, c) - Cleared(s, x, c, u) + if Delivers(s, x, c, u) then 1 else 0
  {
    Reachable(xs);
    var s := Run(START, xs);
    if Step(s, x).tables != s.tables {
      match x
      case MarkReceipts(call) => MarkReceiptsClears(s, call, c, u);
      case InsertReceipts(call) =>
        assert SendingIsGood(s.tables, s.sending[call]);
        InsertReceiptsAdds(s, call, c, u);
      case _ => OtherStatementsKeepCounts(s, x, c, u);
    }
  }
}
