/**
 Messages, their receipts and the members of their conversations
 (src/conversations/services/messages.service.ts, conversations.service.ts,
 src/notifications/notifications.service.ts, message.mapper.ts).

 `Tables` is the content of the three tables.  The functions `MarkRead`, `Send`, ... say what one
 service call does to it; the class `ConversationStore` performs the same calls write by write.
 */
module Receipts {
  import opened Common

  datatype Status = Sent | Delivered | Read | Deleted

  datatype Message = Message(conversation: Uid, sender: Uid, globalStatus: Status)

  datatype Member = Member(isVisible: bool, isArchived: bool, lastReadAt: Option<int>)

  /** Receipts are keyed by (message, user), members by (conversation, user). */
  datatype Tables = Tables(
    messages: map<Uid, Message>,
    receipts: map<(Uid, Uid), Status>,
    members: map<(Uid, Uid), Member>)

  const EMPTY := Tables(map[], map[], map[])

  /** What the read summary says of one message. */
  datatype Summary = Summary(hasAnyRead: bool, hasEveryoneRead: bool)

  datatype Response =
    | Rejected
    | Done
    | Created(uid: Uid)
    | Marked(count: nat, summaries: map<Uid, Summary>)

  // ---------------------------------------------------------------------------
  // Queries
  // ---------------------------------------------------------------------------

  /** The messages whose receipt `getUnreadMessagesCount` counts and `markMessagesAsRead` targets. */
  function UnreadUids(t: Tables, c: Uid, u: Uid): set<Uid> {
    set m | m in t.messages && t.messages[m].conversation == c && t.messages[m].sender != u
            && (m, u) in t.receipts && t.receipts[(m, u)] != Read
  }

  function UnreadMessagesCount(t: Tables, u: Uid, c: Uid): nat {
    |UnreadUids(t, c, u)|
  }

  /** The `_count` the conversation list carries: no look at the sender, but SENT is excluded. */
  function ListUnreadUids(t: Tables, c: Uid, u: Uid): set<Uid> {
    set m | m in t.messages && t.messages[m].conversation == c
            && (m, u) in t.receipts && t.receipts[(m, u)] !in {Read, Sent}
  }

  /** The receipts `hasUnreadMessages` counts. */
  function BadgeUids(t: Tables, u: Uid): set<Uid> {
    set m | m in t.messages && t.messages[m].sender != u
            && (m, u) in t.receipts && t.receipts[(m, u)] !in {Read, Sent}
            && Listed(t, t.messages[m].conversation, u)
  }

  predicate HasUnreadMessages(t: Tables, u: Uid) {
    |BadgeUids(t, u)| > 0
  }

  /** `u` is a member of `c` who neither hid nor archived it. */
  predicate Listed(t: Tables, c: Uid, u: Uid) {
    (c, u) in t.members && t.members[(c, u)].isVisible && !t.members[(c, u)].isArchived
  }

  function OtherMembers(members: map<(Uid, Uid), Member>, c: Uid, s: Uid): set<Uid> {
    set k | k in members && k.0 == c && k.1 != s :: k.1
  }

  /** The receipt keys of one message for a set of users. */
  function KeysOf(m: Uid, us: set<Uid>): set<(Uid, Uid)> {
    set u | u in us :: (m, u)
  }

  /** All users holding a receipt of `m`, and those among them whose receipt is READ. */
  function Holders(t: Tables, m: Uid): set<Uid> {
    set k | k in t.receipts && k.0 == m :: k.1
  }

  function Readers(t: Tables, m: Uid): set<Uid> {
    set k | k in t.receipts && k.0 == m && t.receipts[k] == Read :: k.1
  }

  /** `calculateGlobalStatus` of the mapper, which only counts. */
  function MapperSummary(t: Tables, m: Uid): Summary {
    if |Holders(t, m)| == 0 then Summary(false, false)
    else Summary(|Readers(t, m)| > 0, |Holders(t, m)| - 1 == |Readers(t, m)|)
  }

  /** The summary `markMessagesAsRead` computes, which filters the sender out first. */
  function ServiceSummary(t: Tables, m: Uid): Summary
    requires m in t.messages
  {
    var recipients := Holders(t, m) - {t.messages[m].sender};
    var read := Readers(t, m) - {t.messages[m].sender};
    Summary(|read| > 0, |recipients| > 0 && |read| == |recipients|)
  }

  // ---------------------------------------------------------------------------
  // What each call does to the tables
  // ---------------------------------------------------------------------------

  function AfterRead(t: Tables, c: Uid, u: Uid, now: int): Tables
    requires (c, u) in t.members
  {
    var target := UnreadUids(t, c, u);
    Tables(
      map m | m in t.messages :: if m in target then t.messages[m].(globalStatus := Read) else t.messages[m],
      map k | k in t.receipts :: if k.0 in target && k.1 == u then Read else t.receipts[k],
      t.members[(c, u) := t.members[(c, u)].(lastReadAt := Some(now))])
  }

  function MarkRead(t: Tables, c: Uid, u: Uid, now: int): (Tables, Response) {
    if (c, u) !in t.members then (t, Rejected)
    else
      var target := UnreadUids(t, c, u);
      var t' := AfterRead(t, c, u, now);
      (t', Marked(|target|, map m | m in target :: ServiceSummary(t', m)))
  }

  /** The new message, a DELIVERED receipt for every other member and the sender's SENT one. */
  function AfterInsert(t: Tables, c: Uid, s: Uid, m: Uid): Tables {
    t.(messages := t.messages[m := Message(c, s, Sent)],
       receipts := t.receipts + (map k | k in KeysOf(m, OtherMembers(t.members, c, s)) :: Delivered)[(m, s) := Sent])
  }

  /**
   A text message, or a media message whose file is there (`hasFile`).  The sender's own unread
   messages are marked first, so that effect stays when the rest is rejected: a media message
   without a file, or a message uid that is taken.
   */
  function Send(t: Tables, c: Uid, s: Uid, m: Uid, hasFile: bool, now: int): (Tables, Response) {
    if (c, s) !in t.members then (t, Rejected)
    else
      var t' := AfterRead(t, c, s, now);
      if !hasFile || m in t'.messages then (t', Rejected)
      else (AfterInsert(t', c, s, m), Created(m))
  }

  function Delete(t: Tables, m: Uid, u: Uid): (Tables, Response) {
    if m !in t.messages || t.messages[m].sender != u || t.messages[m].globalStatus == Deleted then (t, Rejected)
    else (t.(messages := t.messages[m := t.messages[m].(globalStatus := Deleted)]), Done)
  }

  datatype Op =
    | AddMember(c: Uid, u: Uid)
    | RemoveMember(c: Uid, u: Uid)
    | Settings(c: Uid, u: Uid, isVisible: bool, isArchived: bool)
    | SendOp(c: Uid, s: Uid, m: Uid, hasFile: bool, now: int)
    | ReadOp(c: Uid, u: Uid, now: int)
    | DeleteOp(m: Uid, u: Uid)

  function Step(t: Tables, op: Op): (Tables, Response) {
    match op
    case AddMember(c, u) =>
      if (c, u) in t.members then (t, Rejected)
      else (t.(members := t.members[(c, u) := Member(true, false, None)]), Done)
    case RemoveMember(c, u) =>
      if (c, u) !in t.members then (t, Rejected)
      else (t.(members := t.members - {(c, u)}), Done)
    case Settings(c, u, visible, archived) =>
      if (c, u) !in t.members then (t, Rejected)
      else (t.(members := t.members[(c, u) := t.members[(c, u)].(isVisible := visible, isArchived := archived)]), Done)
    case SendOp(c, s, m, hasFile, now) => Send(t, c, s, m, hasFile, now)
    case ReadOp(c, u, now) => MarkRead(t, c, u, now)
    case DeleteOp(m, u) => Delete(t, m, u)
  }

  /** The tables after a sequence of calls. */
  function Run(t: Tables, ops: seq<Op>): Tables
    decreases |ops|
  {
    if ops == [] then t else Step(Run(t, ops[..|ops| - 1]), ops[|ops| - 1]).0
  }

  // ---------------------------------------------------------------------------
  // The calls, write by write
  // ---------------------------------------------------------------------------

  class ConversationStore {
    var messages: map<Uid, Message>
    var receipts: map<(Uid, Uid), Status>
    var members: map<(Uid, Uid), Member>

    constructor ()
      ensures Contents() == EMPTY
    {
      messages, receipts, members := map[], map[], map[];
    }

    function Contents(): Tables
      reads this
    {
      Tables(messages, receipts, members)
    }

    method MarkMessagesAsRead(c: Uid, u: Uid, now: int) returns (r: Response)
      modifies this
      ensures (Contents(), r) == MarkRead(old(Contents()), c, u, now)
    {
      if (c, u) !in members {
        return Rejected;
      }
      members := members[(c, u) := members[(c, u)].(lastReadAt := Some(now))];
      var target := UnreadUids(Contents(), c, u);
      assert target == UnreadUids(old(Contents()), c, u);
      messages := map m | m in messages :: if m in target then messages[m].(globalStatus := Read) else messages[m];
      var touched := set k | k in receipts && k.0 in target && k.1 == u;
      PairsCount(target, touched, u);
      receipts := map k | k in receipts :: if k in touched then Read else receipts[k];
      assert receipts == AfterRead(old(Contents()), c, u, now).receipts;
      r := Marked(|touched|, map m | m in target :: ServiceSummary(Contents(), m));
    }

    method CreateTextMessage(s: Uid, c: Uid, m: Uid, now: int) returns (r: Response)
      modifies this
      ensures (Contents(), r) == Send(old(Contents()), c, s, m, true, now)
    {
      r := MarkMessagesAsRead(c, s, now);
      if r == Rejected {
        return;
      }
      r := CreateWithReceipts(c, s, m);
    }

    method CreateMediaMessage(s: Uid, c: Uid, m: Uid, hasFile: bool, now: int) returns (r: Response)
      modifies this
      ensures (Contents(), r) == Send(old(Contents()), c, s, m, hasFile, now)
    {
      r := MarkMessagesAsRead(c, s, now);
      if r == Rejected {
        return;
      }
      if !hasFile {
        return Rejected;
      }
      r := CreateWithReceipts(c, s, m);
    }

    /** The writes both kinds of message share: the row, the other members' receipts, the sender's. */
    method CreateWithReceipts(c: Uid, s: Uid, m: Uid) returns (r: Response)
      modifies this
      ensures (Contents(), r) ==
              if m in old(messages) then (old(Contents()), Rejected)
              else (AfterInsert(old(Contents()), c, s, m), Created(m))
    {
      if m in messages {
        return Rejected;
      }
      messages := messages[m := Message(c, s, Sent)];
      var others := OtherMembers(members, c, s);
      receipts := receipts + map k | k in KeysOf(m, others) :: Delivered;
      receipts := receipts[(m, s) := Sent];
      r := Created(m);
      ReceiptsInOrder(old(receipts), KeysOf(m, others), (m, s));
    }

    method DeleteMessage(m: Uid, u: Uid) returns (r: Response)
      modifies this
      ensures (Contents(), r) == Delete(old(Contents()), m, u)
    {
      if m !in messages {
        return Rejected;
      }
      if messages[m].sender != u {
        return Rejected;
      }
      if messages[m].globalStatus == Deleted {
        return Rejected;
      }
      messages := messages[m := messages[m].(globalStatus := Deleted)];
      r := Done;
    }
  }

  /** Inserting the others' receipts and then the sender's is inserting them together. */
  lemma ReceiptsInOrder(receipts: map<(Uid, Uid), Status>, keys: set<(Uid, Uid)>, own: (Uid, Uid))
    ensures (receipts + map k | k in keys :: Delivered)[own := Sent]
            == receipts + (map k | k in keys :: Delivered)[own := Sent]
  {
  }

  /** One receipt per message of a single user: as many pairs as messages. */
  lemma {:induction false} PairsCount(ms: set<Uid>, pairs: set<(Uid, Uid)>, u: Uid)
    requires forall m :: m in ms <==> (m, u) in pairs
    requires forall k :: k in pairs ==> k.1 == u
    ensures |pairs| == |ms|
  {
    if ms == {} {
      assert forall k :: k in pairs ==> k == (k.0, u);
      assert pairs == {};
    } else {
      var m :| m in ms;
      PairsCount(ms - {m}, pairs - {(m, u)}, u);
    }
  }

  // ---------------------------------------------------------------------------
  // The invariant of every reachable state
  // ---------------------------------------------------------------------------

  /** Receipts belong to messages; the sender's one is SENT and exists; nobody else's ever is. */
  ghost predicate Inv(t: Tables) {
    && (forall k :: k in t.receipts ==> k.0 in t.messages)
    && (forall m :: m in t.messages ==> (m, t.messages[m].sender) in t.receipts)
    && (forall k :: k in t.receipts ==>
          if k.1 == t.messages[k.0].sender then t.receipts[k] == Sent
          else t.receipts[k] == Delivered || t.receipts[k] == Read)
  }

  /** The receipts after an insert, key by key. */
  lemma InsertedReceiptAt(t: Tables, c: Uid, s: Uid, m: Uid, x: Uid, u: Uid)
    requires m !in t.messages && ((x, u) in t.receipts ==> x in t.messages)
    ensures var r := AfterInsert(t, c, s, m).receipts;
            if x == m then
              && ((x, u) in r <==> u == s || (c, u) in t.members)
              && ((x, u) in r ==> r[(x, u)] == if u == s then Sent else Delivered)
            else ((x, u) in r <==> (x, u) in t.receipts) && ((x, u) in r ==> r[(x, u)] == t.receipts[(x, u)])
  {
    if x == m && u != s && (c, u) in t.members {
      assert u in OtherMembers(t.members, c, s);
    }
  }

  lemma InsertKeepsInv(t: Tables, c: Uid, s: Uid, m: Uid)
    requires Inv(t) && m !in t.messages
    ensures Inv(AfterInsert(t, c, s, m))
  {
    var t' := AfterInsert(t, c, s, m);
    forall k | k in t'.receipts
      ensures k.0 in t'.messages
      ensures if k.1 == t'.messages[k.0].sender then t'.receipts[k] == Sent
              else t'.receipts[k] == Delivered || t'.receipts[k] == Read
    {
      InsertedReceiptAt(t, c, s, m, k.0, k.1);
    }
    forall x | x in t'.messages ensures (x, t'.messages[x].sender) in t'.receipts {
      InsertedReceiptAt(t, c, s, m, x, t'.messages[x].sender);
    }
  }

  lemma ReadKeepsInv(t: Tables, c: Uid, u: Uid, now: int)
    requires Inv(t) && (c, u) in t.members
    ensures Inv(AfterRead(t, c, u, now))
  {
  }

  lemma SendKeepsInv(t: Tables, c: Uid, s: Uid, m: Uid, hasFile: bool, now: int)
    requires Inv(t)
    ensures Inv(Send(t, c, s, m, hasFile, now).0)
  {
    if (c, s) in t.members {
      ReadKeepsInv(t, c, s, now);
      var t' := AfterRead(t, c, s, now);
      if hasFile && m !in t'.messages {
        InsertKeepsInv(t', c, s, m);
      }
    }
  }

  lemma StepKeepsInv(t: Tables, op: Op)
    requires Inv(t)
    ensures Inv(Step(t, op).0)
  {
    match op
    case SendOp(c, s, m, hasFile, now) => SendKeepsInv(t, c, s, m, hasFile, now);
    case ReadOp(c, u, now) =>
      if (c, u) in t.members {
        ReadKeepsInv(t, c, u, now);
      }
    case _ =>
  }

  /** In every reachable state each message has its sender's receipt, SENT, and nobody else's is. */
  lemma {:induction false} Reachable(ops: seq<Op>)
    ensures Inv(Run(EMPTY, ops))
  {
    if ops != [] {
      Reachable(ops[..|ops| - 1]);
      StepKeepsInv(Run(EMPTY, ops[..|ops| - 1]), ops[|ops| - 1]);
    }
  }

  // ---------------------------------------------------------------------------
  // Refinement: an abstract machine of counters
  // ---------------------------------------------------------------------------

  /** Who is in which conversation, which message uids are taken, and one counter per pair. */
  datatype Counters = Counters(members: set<(Uid, Uid)>, used: set<Uid>, unread: map<(Uid, Uid), nat>) {
    function Get(c: Uid, u: Uid): nat {
      if (c, u) in unread then unread[(c, u)] else 0
    }

    function Zero(c: Uid, u: Uid): Counters {
      this.(unread := unread[(c, u) := 0])
    }

    /** One more unread message for every member of `c` but `s`. */
    function Bump(c: Uid, s: Uid): Counters {
      this.(unread := map p | p in unread.Keys + members ::
                        Get(p.0, p.1) + if p in members && p.0 == c && p.1 != s then 1 else 0)
    }

    function Next(op: Op): Counters {
      match op
      case AddMember(c, u) => this.(members := members + {(c, u)})
      case RemoveMember(c, u) => this.(members := members - {(c, u)})
      case Settings(_, _, _, _) => this
      case DeleteOp(_, _) => this
      case ReadOp(c, u, _) => if (c, u) in members then Zero(c, u) else this
      case SendOp(c, s, m, hasFile, _) =>
        if (c, s) !in members then this
        else if !hasFile || m in used then Zero(c, s)
        else Zero(c, s).Bump(c, s).(used := used + {m})
    }

    function After(ops: seq<Op>): Counters
      decreases |ops|
    {
      if ops == [] then this else After(ops[..|ops| - 1]).Next(ops[|ops| - 1])
    }
  }

  const NO_COUNTERS := Counters({}, {}, map[])

  ghost predicate Refines(t: Tables, k: Counters) {
    && k.members == t.members.Keys
    && k.used == t.messages.Keys
    && forall c, u :: UnreadMessagesCount(t, u, c) == k.Get(c, u)
  }

  lemma ReadClearsOne(t: Tables, c: Uid, u: Uid, now: int, c': Uid, u': Uid)
    requires (c, u) in t.members
    ensures UnreadUids(AfterRead(t, c, u, now), c', u') == if (c', u') == (c, u) then {} else UnreadUids(t, c', u')
  {
  }

  lemma InsertAddsOne(t: Tables, c: Uid, s: Uid, m: Uid, c': Uid, u': Uid)
    requires Inv(t) && m !in t.messages
    ensures UnreadUids(AfterInsert(t, c, s, m), c', u') ==
            UnreadUids(t, c', u') + if c' == c && u' != s && (c, u') in t.members then {m} else {}
  {
    var t' := AfterInsert(t, c, s, m);
    forall x ensures x in UnreadUids(t', c', u') <==>
                     x in UnreadUids(t, c', u') || (x == m && c' == c && u' != s && (c, u') in t.members)
    {
      InsertedReceiptAt(t, c, s, m, x, u');
    }
  }

  lemma ReadRefines(t: Tables, k: Counters, c: Uid, u: Uid, now: int)
    requires Refines(t, k) && (c, u) in t.members
    ensures Refines(AfterRead(t, c, u, now), k.Zero(c, u))
  {
    var t' := AfterRead(t, c, u, now);
    assert t'.messages.Keys == t.messages.Keys;
    assert t'.members.Keys == t.members.Keys;
    forall c', u' ensures UnreadMessagesCount(t', u', c') == k.Zero(c, u).Get(c', u') {
      ReadClearsOne(t, c, u, now, c', u');
      assert UnreadMessagesCount(t, u', c') == k.Get(c', u');
    }
  }

  lemma InsertCounts(t: Tables, k: Counters, c: Uid, s: Uid, m: Uid, c': Uid, u': Uid)
    requires Inv(t) && k.members == t.members.Keys && m !in t.messages
    requires UnreadMessagesCount(t, u', c') == k.Get(c', u')
    ensures UnreadMessagesCount(AfterInsert(t, c, s, m), u', c') == k.Bump(c, s).Get(c', u')
  {
    InsertAddsOne(t, c, s, m, c', u');
    assert m !in UnreadUids(t, c', u');
    var p := (c', u');
    if p in k.unread.Keys + k.members {
      assert k.Bump(c, s).unread[p] == k.Get(c', u') + if p in k.members && c' == c && u' != s then 1 else 0;
    }
  }

  lemma InsertRefines(t: Tables, k: Counters, c: Uid, s: Uid, m: Uid)
    requires Inv(t) && Refines(t, k) && m !in t.messages
    ensures Refines(AfterInsert(t, c, s, m), k.Bump(c, s).(used := k.used + {m}))
  {
    var t', k' := AfterInsert(t, c, s, m), k.Bump(c, s).(used := k.used + {m});
    forall c', u' ensures UnreadMessagesCount(t', u', c') == k'.Get(c', u') {
      InsertCounts(t, k, c, s, m, c', u');
    }
  }

  lemma {:induction false} SendRefines(t: Tables, k: Counters, op: Op)
    requires Inv(t) && Refines(t, k) && op.SendOp?
    ensures Refines(Step(t, op).0, k.Next(op))
  {
    if (op.c, op.s) in t.members {
      ReadRefines(t, k, op.c, op.s, op.now);
      ReadKeepsInv(t, op.c, op.s, op.now);
      if op.hasFile && op.m !in t.messages {
        InsertRefines(AfterRead(t, op.c, op.s, op.now), k.Zero(op.c, op.s), op.c, op.s, op.m);
      }
    }
  }

  lemma SameReceiptsSameCounts(t: Tables, t': Tables)
    requires t'.receipts == t.receipts && t'.messages.Keys == t.messages.Keys
    requires forall m :: m in t.messages ==>
               && t'.messages[m].conversation == t.messages[m].conversation
               && t'.messages[m].sender == t.messages[m].sender
    ensures forall c, u :: UnreadMessagesCount(t', u, c) == UnreadMessagesCount(t, u, c)
  {
    forall c, u ensures UnreadMessagesCount(t', u, c) == UnreadMessagesCount(t, u, c) {
      assert UnreadUids(t', c, u) == UnreadUids(t, c, u);
    }
  }

  /** One call refines one step of the counters, and a read returns the counter it clears. */
  lemma {:induction false} StepRefines(t: Tables, k: Counters, op: Op)
    requires Inv(t) && Refines(t, k)
    ensures Refines(Step(t, op).0, k.Next(op))
    ensures op.ReadOp? && (op.c, op.u) in k.members ==>
              Step(t, op).1.Marked? && Step(t, op).1.count == k.Get(op.c, op.u)
  {
    var t' := Step(t, op).0;
    match op
    case AddMember(_, _) => SameReceiptsSameCounts(t, t');
    case RemoveMember(_, _) => SameReceiptsSameCounts(t, t');
    case Settings(_, _, _, _) => SameReceiptsSameCounts(t, t');
    case DeleteOp(_, _) => SameReceiptsSameCounts(t, t');
    case ReadOp(c, u, now) =>
      if (c, u) in t.members {
        ReadRefines(t, k, c, u, now);
        assert UnreadMessagesCount(t, u, c) == k.Get(c, u);
      }
    case SendOp(c, s, m, hasFile, now) => SendRefines(t, k, op);
  }

  /** The receipt tables refine the counter machine over every run. */
  lemma {:induction false} RunRefines(ops: seq<Op>)
    ensures Refines(Run(EMPTY, ops), NO_COUNTERS.After(ops))
  {
    if ops == [] {
      forall c, u ensures UnreadMessagesCount(EMPTY, u, c) == 0 {
        assert UnreadUids(EMPTY, c, u) == {};
      }
    } else {
      var before := ops[..|ops| - 1];
      RunRefines(before);
      Reachable(before);
      StepRefines(Run(EMPTY, before), NO_COUNTERS.After(before), ops[|ops| - 1]);
    }
  }

  /** On every reachable state the unread count of a conversation is the abstract counter. */
  lemma {:induction false} UnreadCountIsCounter(ops: seq<Op>, c: Uid, u: Uid)
    ensures UnreadMessagesCount(Run(EMPTY, ops), u, c) == NO_COUNTERS.After(ops).Get(c, u)
  {
    RunRefines(ops);
  }

  /** So is the count the conversation list shows, although it never looks at the sender. */
  lemma {:induction false} ListCountIsCounter(ops: seq<Op>, c: Uid, u: Uid)
    ensures |ListUnreadUids(Run(EMPTY, ops), c, u)| == NO_COUNTERS.After(ops).Get(c, u)
  {
    UnreadCountIsCounter(ops, c, u);
    Reachable(ops);
    assert ListUnreadUids(Run(EMPTY, ops), c, u) == UnreadUids(Run(EMPTY, ops), c, u);
  }

  /** And the badge is lit exactly when some conversation the user still lists has a positive counter. */
  lemma {:induction false} BadgeIsCounters(ops: seq<Op>, u: Uid)
    ensures HasUnreadMessages(Run(EMPTY, ops), u) <==>
            exists c :: Listed(Run(EMPTY, ops), c, u) && NO_COUNTERS.After(ops).Get(c, u) > 0
  {
    var t := Run(EMPTY, ops);
    Reachable(ops);
    if HasUnreadMessages(t, u) {
      var m :| m in BadgeUids(t, u);
      var c := t.messages[m].conversation;
      assert m in UnreadUids(t, c, u);
      UnreadCountIsCounter(ops, c, u);
    }
    if c :| Listed(t, c, u) && NO_COUNTERS.After(ops).Get(c, u) > 0 {
      UnreadCountIsCounter(ops, c, u);
      var m :| m in UnreadUids(t, c, u);
      assert m in BadgeUids(t, u);
    }
  }

  /** The number a read returns is the unread count the tables showed before it, on every run. */
  lemma {:induction false} ReadReturnsUnreadCount(ops: seq<Op>, c: Uid, u: Uid, now: int)
    requires (c, u) in Run(EMPTY, ops).members
    ensures var (t', r) := MarkRead(Run(EMPTY, ops), c, u, now);
            && r.Marked? && r.count == NO_COUNTERS.After(ops).Get(c, u)
            && UnreadMessagesCount(t', u, c) == 0 && t'.members[(c, u)].lastReadAt == Some(now)
            && (forall c', u' :: (c', u') != (c, u) ==>
                  UnreadMessagesCount(t', u', c') == UnreadMessagesCount(Run(EMPTY, ops), u', c'))
  {
    var t := Run(EMPTY, ops);
    RunRefines(ops);
    Reachable(ops);
    StepRefines(t, NO_COUNTERS.After(ops), ReadOp(c, u, now));
    forall c', u' | (c', u') != (c, u)
      ensures UnreadMessagesCount(AfterRead(t, c, u, now), u', c') == UnreadMessagesCount(t, u', c')
    {
      ReadClearsOne(t, c, u, now, c', u');
    }
    ReadClearsOne(t, c, u, now, c, u);
  }

  lemma StepKeepsMessage(t: Tables, op: Op, m: Uid)
    requires m in t.messages
    ensures m in Step(t, op).0.messages && Step(t, op).0.messages[m].conversation == t.messages[m].conversation
    ensures Step(t, op).0.messages[m].sender == t.messages[m].sender
  {
  }

  /** No call ever removes a message or moves it to another conversation: deleting only sets its status. */
  lemma {:induction false} MessagesAreNeverRemoved(t: Tables, ops: seq<Op>)
    ensures forall m :: m in t.messages ==>
              m in Run(t, ops).messages && Run(t, ops).messages[m].conversation == t.messages[m].conversation
    decreases |ops|
  {
    if ops != [] {
      var before := Run(t, ops[..|ops| - 1]);
      MessagesAreNeverRemoved(t, ops[..|ops| - 1]);
      forall m | m in t.messages
        ensures m in Run(t, ops).messages && Run(t, ops).messages[m].conversation == t.messages[m].conversation
      {
        StepKeepsMessage(before, ops[|ops| - 1], m);
      }
    }
  }

  lemma StepDeletes(t: Tables, op: Op, m: Uid)
    requires m in Step(t, op).0.messages && Step(t, op).0.messages[m].globalStatus == Deleted
    requires !(m in t.messages && t.messages[m].globalStatus == Deleted)
    ensures op == DeleteOp(m, Step(t, op).0.messages[m].sender)
  {
  }

  /** A message is DELETED only because its sender deleted it. */
  lemma {:induction false} DeletedBySender(ops: seq<Op>, m: Uid)
    requires m in Run(EMPTY, ops).messages && Run(EMPTY, ops).messages[m].globalStatus == Deleted
    ensures exists i :: 0 <= i < |ops| && ops[i] == DeleteOp(m, Run(EMPTY, ops).messages[m].sender)
    decreases |ops|
  {
    var n := |ops| - 1;
    var t := Run(EMPTY, ops[..n]);
    if m in t.messages && t.messages[m].globalStatus == Deleted {
      DeletedBySender(ops[..n], m);
      StepKeepsMessage(t, ops[n], m);
      var i :| 0 <= i < n && ops[..n][i] == DeleteOp(m, t.messages[m].sender);
      assert ops[i] == ops[..n][i];
    } else {
      StepDeletes(t, ops[n], m);
    }
  }

  // ---------------------------------------------------------------------------
  // "Everyone read": two formulas
  // ---------------------------------------------------------------------------

  /** Where a message has its sender's receipt and it is not READ, the formulas differ only without recipients. */
  lemma {:induction false} SummariesCompare(t: Tables, m: Uid)
    requires m in t.messages && (m, t.messages[m].sender) in t.receipts
    requires t.receipts[(m, t.messages[m].sender)] != Read
    ensures MapperSummary(t, m).hasAnyRead == ServiceSummary(t, m).hasAnyRead
    ensures MapperSummary(t, m).hasEveryoneRead == ServiceSummary(t, m).hasEveryoneRead
            <==> Holders(t, m) != {t.messages[m].sender}
  {
    var s := t.messages[m].sender;
    assert s in Holders(t, m) && s !in Readers(t, m);
    assert Readers(t, m) - {s} == Readers(t, m);
    assert |Holders(t, m) - {s}| == |Holders(t, m)| - 1;
    if Holders(t, m) == {s} {
      assert Readers(t, m) <= Holders(t, m) - {s};
      assert Readers(t, m) == {};
    } else {
      var other :| other in Holders(t, m) && other != s;
      assert other in Holders(t, m) - {s};
    }
  }

  /**
   On every reachable state the mapper's count (`length - 1 === reads`) and the service's filter
   always agree on "anyone", and agree on "everyone" exactly for messages that have a recipient.
   */
  lemma {:induction false} EveryoneReadFormulasAgree(ops: seq<Op>, m: Uid)
    requires m in Run(EMPTY, ops).messages
    ensures var t := Run(EMPTY, ops);
            && MapperSummary(t, m).hasAnyRead == ServiceSummary(t, m).hasAnyRead
            && (MapperSummary(t, m).hasEveryoneRead == ServiceSummary(t, m).hasEveryoneRead
                <==> Holders(t, m) != {t.messages[m].sender})
  {
    Reachable(ops);
    var t := Run(EMPTY, ops);
    assert (m, t.messages[m].sender) in t.receipts;
    SummariesCompare(t, m);
  }

  /** One member, one message of his: the mapper says that everyone read it, the service that not everyone did. */
  lemma {:induction false} AloneInChat()
    ensures var t := Run(EMPTY, [AddMember("c", "a"), SendOp("c", "a", "m", true, 0)]);
            && "m" in t.messages && Holders(t, "m") == {t.messages["m"].sender}
            && MapperSummary(t, "m").hasEveryoneRead && !ServiceSummary(t, "m").hasEveryoneRead
  {
    var ops := [AddMember("c", "a"), SendOp("c", "a", "m", true, 0)];
    var t1 := Step(EMPTY, ops[0]).0;
    assert ops[..1][..0] == [] && Run(EMPTY, ops[..1]) == t1;
    var t2 := AfterRead(t1, "c", "a", 0);
    var t := Run(EMPTY, ops);
    assert t == AfterInsert(t2, "c", "a", "m");
    assert OtherMembers(t2.members, "c", "a") == {};
    assert t.receipts == map[("m", "a") := Sent];
    assert Holders(t, "m") == {"a"} && Readers(t, "m") == {};
  }

  // ---------------------------------------------------------------------------
  // What globalStatus still says
  // ---------------------------------------------------------------------------

  /** A message that is not DELETED is READ if somebody has read it, and SENT otherwise. */
  ghost predicate GlobalStatusIsTrue(t: Tables) {
    forall m :: m in t.messages ==>
      t.messages[m].globalStatus == Deleted || t.messages[m].globalStatus == if Readers(t, m) == {} then Sent else Read
  }

  lemma ReadKeepsGlobalStatusTrue(t: Tables, c: Uid, u: Uid, now: int)
    requires (c, u) in t.members && GlobalStatusIsTrue(t)
    ensures GlobalStatusIsTrue(AfterRead(t, c, u, now))
  {
    var t', target := AfterRead(t, c, u, now), UnreadUids(t, c, u);
    forall m | m in t.messages
      ensures t'.messages[m].globalStatus == Deleted
              || t'.messages[m].globalStatus == if Readers(t', m) == {} then Sent else Read
    {
      if m in target {
        assert t'.receipts[(m, u)] == Read;
        assert u in Readers(t', m);
      } else {
        assert Readers(t', m) == Readers(t, m);
      }
    }
  }

  lemma InsertAddsNoReader(t: Tables, c: Uid, s: Uid, m: Uid, x: Uid)
    requires Inv(t) && m !in t.messages
    ensures Readers(AfterInsert(t, c, s, m), x) == if x == m then {} else Readers(t, x)
  {
    var t' := AfterInsert(t, c, s, m);
    forall u ensures u in Readers(t', x) <==> x != m && u in Readers(t, x) {
      InsertedReceiptAt(t, c, s, m, x, u);
      assert u in Readers(t', x) <==> (x, u) in t'.receipts && t'.receipts[(x, u)] == Read;
      assert u in Readers(t, x) <==> (x, u) in t.receipts && t.receipts[(x, u)] == Read;
    }
  }

  lemma InsertKeepsGlobalStatusTrue(t: Tables, c: Uid, s: Uid, m: Uid)
    requires Inv(t) && GlobalStatusIsTrue(t) && m !in t.messages
    ensures GlobalStatusIsTrue(AfterInsert(t, c, s, m))
  {
    var t' := AfterInsert(t, c, s, m);
    forall x | x in t'.messages ensures Readers(t', x) == if x == m then {} else Readers(t, x) {
      InsertAddsNoReader(t, c, s, m, x);
    }
  }

  lemma SendKeepsGlobalStatusTrue(t: Tables, c: Uid, s: Uid, m: Uid, hasFile: bool, now: int)
    requires Inv(t) && GlobalStatusIsTrue(t)
    ensures GlobalStatusIsTrue(Send(t, c, s, m, hasFile, now).0)
  {
    if (c, s) in t.members {
      ReadKeepsGlobalStatusTrue(t, c, s, now);
      ReadKeepsInv(t, c, s, now);
      if hasFile && m !in t.messages {
        InsertKeepsGlobalStatusTrue(AfterRead(t, c, s, now), c, s, m);
      }
    }
  }

  lemma SameReceiptsSameReaders(t: Tables, t': Tables)
    requires t'.receipts == t.receipts
    ensures forall m :: Readers(t', m) == Readers(t, m)
  {
  }

  lemma StepKeepsGlobalStatusTrue(t: Tables, op: Op)
    requires Inv(t) && GlobalStatusIsTrue(t)
    ensures GlobalStatusIsTrue(Step(t, op).0)
  {
    match op
    case ReadOp(c, u, now) =>
      if (c, u) in t.members {
        ReadKeepsGlobalStatusTrue(t, c, u, now);
      }
    case SendOp(c, s, m, hasFile, now) => SendKeepsGlobalStatusTrue(t, c, s, m, hasFile, now);
    case _ => SameReceiptsSameReaders(t, Step(t, op).0);
  }

  /** On every reachable state globalStatus is what the receipts say, unless the message is deleted. */
  lemma {:induction false} GlobalStatusNeverLies(ops: seq<Op>)
    ensures GlobalStatusIsTrue(Run(EMPTY, ops))
    decreases |ops|
  {
    if ops != [] {
      GlobalStatusNeverLies(ops[..|ops| - 1]);
      Reachable(ops[..|ops| - 1]);
      StepKeepsGlobalStatusTrue(Run(EMPTY, ops[..|ops| - 1]), ops[|ops| - 1]);
    }
  }

  lemma StepKeepsReceipt(t: Tables, op: Op, k: (Uid, Uid))
    requires Inv(t) && k in t.receipts
    ensures k in Step(t, op).0.receipts
    ensures t.receipts[k] == Read ==> Step(t, op).0.receipts[k] == Read
  {
    assert k.0 in t.messages;
    match op
    case SendOp(c, s, m, hasFile, now) =>
      if (c, s) in t.members {
        var t' := AfterRead(t, c, s, now);
        assert k in t'.receipts;
        if hasFile && m !in t.messages {
          assert k !in KeysOf(m, OtherMembers(t'.members, c, s)) && k != (m, s);
        }
      }
    case _ =>
  }

  /** A receipt is never withdrawn, and READ never reverts, whatever calls follow. */
  lemma {:induction false} ReadNeverReverts(t: Tables, ops: seq<Op>, k: (Uid, Uid))
    requires Inv(t) && k in t.receipts
    ensures k in Run(t, ops).receipts
    ensures t.receipts[k] == Read ==> Run(t, ops).receipts[k] == Read
    ensures Inv(Run(t, ops))
    decreases |ops|
  {
    if ops != [] {
      var before := ops[..|ops| - 1];
      ReadNeverReverts(t, before, k);
      StepKeepsInv(Run(t, before), ops[|ops| - 1]);
      StepKeepsReceipt(Run(t, before), ops[|ops| - 1], k);
    }
  }
}
