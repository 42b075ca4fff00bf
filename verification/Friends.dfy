/**
 The friendship state machine (src/friends/friends.service.ts, src/moderation/moderation.service.ts,
 src/users/mappers/user.mapper.ts).  A row (a, b) is a request from a to b; an unordered pair of
 users can have a row in either direction.
 */
module Friends {
  import opened Common

  datatype Status = Pending | Accepted | Rejected | Canceled

  /** `blocks` holds (blocker, blocked). */
  datatype Tables = Tables(users: set<Uid>, friends: map<(Uid, Uid), Status>, blocks: set<(Uid, Uid)>)

  datatype Outcome = Done | Refused

  // ---------------------------------------------------------------------------
  // Steps
  // ---------------------------------------------------------------------------

  predicate Has(t: Tables, a: Uid, b: Uid, st: Status) {
    (a, b) in t.friends && t.friends[(a, b)] == st
  }

  /** A row between the two, in either direction, that is not over. */
  predicate Active(t: Tables, a: Uid, b: Uid) {
    Has(t, a, b, Pending) || Has(t, b, a, Pending) || Has(t, a, b, Accepted) || Has(t, b, a, Accepted)
  }

  /** `findFirst` over both directions; when both rows qualify the database may answer either. */
  function FindRow(t: Tables, a: Uid, b: Uid, st: Status): Option<(Uid, Uid)> {
    if Has(t, a, b, st) then Some((a, b)) else if Has(t, b, a, st) then Some((b, a)) else None
  }

  /** `checkUpdateAuthorization`: senders cancel, receivers accept or reject, nobody sets PENDING. */
  predicate MayUpdate(isSender: bool, isReceiver: bool, st: Status) {
    st != Pending && isSender != isReceiver && (isSender ==> st == Canceled) && (isReceiver ==> st != Canceled)
  }

  datatype Op =
    | Request(sender: Uid, receiver: Uid)
    | Answer(me: Uid, other: Uid, status: Status)
    | Remove(me: Uid, other: Uid)
    | Block(blocker: Uid, blocked: Uid)
    | Unblock(blocker: Uid, blocked: Uid)

  function Step(t: Tables, op: Op): (Tables, Outcome) {
    match op
    case Request(a, b) =>
      // the last test is the primary key: a rejected request cannot be sent again the same way round
      if a == b || a !in t.users || b !in t.users || Active(t, a, b) || (a, b) in t.friends then (t, Refused)
      else (t.(friends := t.friends[(a, b) := Pending]), Done)
    case Answer(me, other, st) =>
      var row := FindRow(t, me, other, Pending);
      if other !in t.users || row.None? || !MayUpdate(row.value.0 == me, row.value.1 == me, st) then (t, Refused)
      else if st == Canceled then (t.(friends := t.friends - {row.value}), Done)
      else (t.(friends := t.friends[row.value := st]), Done)
    case Remove(me, other) =>
      var row := FindRow(t, me, other, Accepted);
      if row.None? then (t, Refused) else (t.(friends := t.friends - {row.value}), Done)
    case Block(a, b) =>
      if b !in t.users || (a, b) in t.blocks then (t, Refused)
      else (t.(blocks := t.blocks + {(a, b)}, friends := t.friends - {(a, b), (b, a)}), Done)
    case Unblock(a, b) =>
      if (a, b) !in t.blocks then (t, Refused) else (t.(blocks := t.blocks - {(a, b)}), Done)
  }

  function Run(t: Tables, ops: seq<Op>): Tables
    decreases |ops|
  {
    if ops == [] then t else Step(Run(t, ops[..|ops| - 1]), ops[|ops| - 1]).0
  }

  function Start(users: set<Uid>): Tables {
    Tables(users, map[], {})
  }

  // ---------------------------------------------------------------------------
  // The services, write by write
  // ---------------------------------------------------------------------------

  class FriendStore {
    const users: set<Uid>
    var friends: map<(Uid, Uid), Status>
    var blocks: set<(Uid, Uid)>

    constructor (users: set<Uid>)
      ensures Contents() == Start(users)
    {
      this.users := users;
      friends, blocks := map[], {};
    }

    function Contents(): Tables
      reads this
    {
      Tables(users, friends, blocks)
    }

    method Create(sender: Uid, receiver: Uid) returns (r: Outcome)
      modifies this
      ensures (Contents(), r) == Step(old(Contents()), Request(sender, receiver))
    {
      if sender == receiver {
        return Refused;
      }
      if sender !in users || receiver !in users {
        return Refused;
      }
      if Active(Contents(), sender, receiver) {
        return Refused;
      }
      if (sender, receiver) in friends {
        return Refused;
      }
      friends := friends[(sender, receiver) := Pending];
      return Done;
    }

    /** The row is updated first; a cancelled one is then deleted. */
    method Update(me: Uid, other: Uid, status: Status) returns (r: Outcome)
      modifies this
      ensures (Contents(), r) == Step(old(Contents()), Answer(me, other, status))
    {
      var isSender, isReceiver := false, false;
      if other !in users {
        return Refused;
      }
      var row := FindRow(Contents(), me, other, Pending);
      if row.None? {
        return Refused;
      }
      if row.value.0 == me {
        isSender := true;
      }
      if row.value.1 == me {
        isReceiver := true;
      }
      if !MayUpdate(isSender, isReceiver, status) {
        return Refused;
      }
      friends := friends[row.value := status];
      if status == Canceled {
        friends := friends - {row.value};
        assert friends == old(friends) - {row.value};
      }
      return Done;
    }

    method RemoveFriend(me: Uid, other: Uid) returns (r: Outcome)
      modifies this
      ensures (Contents(), r) == Step(old(Contents()), Remove(me, other))
    {
      var row := FindRow(Contents(), me, other, Accepted);
      if row.None? {
        return Refused;
      }
      friends := friends - {row.value};
      return Done;
    }

    method BlockUser(blocker: Uid, blocked: Uid) returns (r: Outcome)
      modifies this
      ensures (Contents(), r) == Step(old(Contents()), Block(blocker, blocked))
    {
      if blocked !in users {
        return Refused;
      }
      if (blocker, blocked) in blocks {
        return Refused;
      }
      blocks := blocks + {(blocker, blocked)};
      friends := friends - {(blocker, blocked), (blocked, blocker)};
      return Done;
    }

    method UnblockUser(blocker: Uid, blocked: Uid) returns (r: Outcome)
      modifies this
      ensures (Contents(), r) == Step(old(Contents()), Unblock(blocker, blocked))
    {
      if (blocker, blocked) !in blocks {
        return Refused;
      }
      blocks := blocks - {(blocker, blocked)};
      return Done;
    }
  }

  // ---------------------------------------------------------------------------
  // Invariants of every run
  // ---------------------------------------------------------------------------

  predicate IsActive(st: Status) {
    st == Pending || st == Accepted
  }

  /** No self rows, no CANCELED row, and at most one PENDING or ACCEPTED row per unordered pair. */
  ghost predicate Inv(t: Tables) {
    && (forall k :: k in t.friends ==> k.0 != k.1)
    && (forall k :: k in t.friends ==> t.friends[k] != Canceled)
    && (forall k :: k in t.friends && (k.1, k.0) in t.friends ==>
          !(IsActive(t.friends[k]) && IsActive(t.friends[(k.1, k.0)])))
  }

  lemma StepKeepsInv(t: Tables, op: Op)
    requires Inv(t)
    ensures Inv(Step(t, op).0)
  {
  }

  /** Over every run of request, answer, remove and block. */
  lemma {:induction false} Reachable(users: set<Uid>, ops: seq<Op>)
    ensures Inv(Run(Start(users), ops))
    decreases |ops|
  {
    if ops != [] {
      Reachable(users, ops[..|ops| - 1]);
      StepKeepsInv(Run(Start(users), ops[..|ops| - 1]), ops[|ops| - 1]);
    }
  }

  /** Because of this, `findFirst` never has two rows to choose from. */
  lemma {:induction false} FindRowIsUnique(users: set<Uid>, ops: seq<Op>, a: Uid, b: Uid, st: Status)
    requires IsActive(st)
    ensures var t := Run(Start(users), ops);
            && !(Has(t, a, b, st) && Has(t, b, a, st))
            && FindRow(t, a, b, st) == FindRow(t, b, a, st)
  {
    Reachable(users, ops);
  }

  // ---------------------------------------------------------------------------
  // Where rows come from
  // ---------------------------------------------------------------------------

  /** Call `i` of the run is `op`, and it is carried out. */
  predicate Happened(t: Tables, ops: seq<Op>, i: nat, op: Op) {
    i < |ops| && ops[i] == op && Step(Run(t, ops[..i]), op).1 == Done
  }

  lemma HappenedBefore(t: Tables, ops: seq<Op>, i: nat, op: Op)
    requires i + 1 < |ops|
    ensures Happened(t, ops[..|ops| - 1], i, op) == Happened(t, ops, i, op)
  {
    assert ops[..|ops| - 1][..i] == ops[..i];
  }

  /** A removal or a block between the two, in either direction. */
  predicate Severs(op: Op, a: Uid, b: Uid) {
    match op
    case Remove(x, y) => {x, y} == {a, b}
    case Block(x, y) => {x, y} == {a, b}
    case _ => false
  }

  /** Call `i` was the request from `a` to `b`, and nothing has severed the two since. */
  ghost predicate RequestedAt(t: Tables, ops: seq<Op>, i: nat, a: Uid, b: Uid) {
    && Happened(t, ops, i, Request(a, b))
    && forall k: nat, op :: i < k && Happened(t, ops, k, op) ==> !Severs(op, a, b)
  }

  lemma RequestStands(t: Tables, ops: seq<Op>, i: nat, a: Uid, b: Uid)
    requires ops != [] && RequestedAt(t, ops[..|ops| - 1], i, a, b)
    requires !(Severs(ops[|ops| - 1], a, b) && Step(Run(t, ops[..|ops| - 1]), ops[|ops| - 1]).1 == Done)
    ensures RequestedAt(t, ops, i, a, b)
  {
    HappenedBefore(t, ops, i, Request(a, b));
    forall k: nat, op | i < k && Happened(t, ops, k, op) ensures !Severs(op, a, b) {
      if k + 1 < |ops| {
        HappenedBefore(t, ops, k, op);
        assert Happened(t, ops[..|ops| - 1], k, op);
      }
    }
  }

  /** A pending row was requested by its first user, and the two were not severed since. */
  lemma {:induction false} PendingWasRequested(users: set<Uid>, ops: seq<Op>, a: Uid, b: Uid)
    requires Has(Run(Start(users), ops), a, b, Pending)
    ensures exists i: nat :: RequestedAt(Start(users), ops, i, a, b)
    decreases |ops|
  {
    var n := |ops| - 1;
    if Has(Run(Start(users), ops[..n]), a, b, Pending) {
      PendingWasRequested(users, ops[..n], a, b);
      var i: nat :| RequestedAt(Start(users), ops[..n], i, a, b);
      Reachable(users, ops[..n]);
      RequestStands(Start(users), ops, i, a, b);
    } else {
      assert RequestedAt(Start(users), ops, n, a, b);
    }
  }

  /**
   Every accepted row was requested by its first user and later accepted by its second, and since
   that request the two were neither removed from each other nor blocked.
   */
  lemma {:induction false} AcceptedWasRequestedAndAccepted(users: set<Uid>, ops: seq<Op>, a: Uid, b: Uid)
    requires Has(Run(Start(users), ops), a, b, Accepted)
    ensures exists i: nat, j: nat :: i < j && RequestedAt(Start(users), ops, i, a, b)
                                     && Happened(Start(users), ops, j, Answer(b, a, Accepted))
    decreases |ops|
  {
    var n := |ops| - 1;
    var t := Run(Start(users), ops[..n]);
    Reachable(users, ops[..n]);
    if Has(t, a, b, Accepted) {
      AcceptedWasRequestedAndAccepted(users, ops[..n], a, b);
      var i: nat, j: nat :| i < j && RequestedAt(Start(users), ops[..n], i, a, b)
                            && Happened(Start(users), ops[..n], j, Answer(b, a, Accepted));
      RequestStands(Start(users), ops, i, a, b);
      HappenedBefore(Start(users), ops, j, Answer(b, a, Accepted));
    } else {
      assert Has(t, a, b, Pending);
      assert Happened(Start(users), ops, n, Answer(b, a, Accepted));
      PendingWasRequested(users, ops[..n], a, b);
      var i: nat :| RequestedAt(Start(users), ops[..n], i, a, b);
      RequestStands(Start(users), ops, i, a, b);
    }
  }

  // ---------------------------------------------------------------------------
  // Friends in spite of a block
  // ---------------------------------------------------------------------------

  predicate Between(x: Uid, y: Uid, a: Uid, b: Uid) {
    (x == a && y == b) || (x == b && y == a)
  }

  predicate Requests(op: Op, a: Uid, b: Uid) {
    op.Request? && Between(op.sender, op.receiver, a, b)
  }

  /** Carried out, the call ends whatever stands between `a` and `b`. */
  predicate Ends(op: Op, a: Uid, b: Uid) {
    match op
    case Remove(x, y) => Between(x, y, a, b)
    case Block(x, y) => Between(x, y, a, b)
    case Answer(x, y, st) => Between(x, y, a, b) && st != Accepted
    case _ => false
  }

  lemma StepMovesActive(t: Tables, op: Op, a: Uid, b: Uid)
    requires Inv(t)
    ensures Active(Step(t, op).0, a, b) <==>
            (Active(t, a, b) && !(Ends(op, a, b) && Step(t, op).1 == Done))
            || (Requests(op, a, b) && Step(t, op).1 == Done)
  {
  }

  lemma StepMovesBlock(t: Tables, op: Op, x: Uid, y: Uid)
    ensures (x, y) in Step(t, op).0.blocks <==>
            ((x, y) in t.blocks && op != Unblock(x, y)) || (op == Block(x, y) && Step(t, op).1 == Done)
  {
  }

  /** A request or friendship between the two, and `x` blocking `y`. */
  predicate ActiveAndBlocked(t: Tables, a: Uid, b: Uid, x: Uid, y: Uid) {
    Active(t, a, b) && (x, y) in t.blocks
  }

  /** Call `i` was a request between the two that went through although the block stood. */
  predicate RequestedUnderBlock(t: Tables, ops: seq<Op>, i: nat, a: Uid, b: Uid, x: Uid, y: Uid) {
    i < |ops| && Requests(ops[i], a, b) && Step(Run(t, ops[..i]), ops[i]).1 == Done && (x, y) in Run(t, ops[..i]).blocks
  }

  /** Call `i` ended what stood between the two, or the block. */
  predicate Undone(t: Tables, ops: seq<Op>, i: nat, a: Uid, b: Uid, x: Uid, y: Uid) {
    i < |ops| && Step(Run(t, ops[..i]), ops[i]).1 == Done && (Ends(ops[i], a, b) || ops[i] == Unblock(x, y))
  }

  ghost predicate StandsSince(t: Tables, ops: seq<Op>, i: nat, a: Uid, b: Uid, x: Uid, y: Uid) {
    RequestedUnderBlock(t, ops, i, a, b, x, y) && forall k: nat :: i < k ==> !Undone(t, ops, k, a, b, x, y)
  }

  lemma PrefixSame(t: Tables, ops: seq<Op>, i: nat, a: Uid, b: Uid, x: Uid, y: Uid)
    requires i + 1 < |ops|
    ensures RequestedUnderBlock(t, ops[..|ops| - 1], i, a, b, x, y) == RequestedUnderBlock(t, ops, i, a, b, x, y)
    ensures Undone(t, ops[..|ops| - 1], i, a, b, x, y) == Undone(t, ops, i, a, b, x, y)
  {
    assert ops[..|ops| - 1][..i] == ops[..i];
  }

  lemma StandsPrefix(t: Tables, ops: seq<Op>, i: nat, a: Uid, b: Uid, x: Uid, y: Uid)
    requires i + 1 < |ops|
    ensures var n := |ops| - 1;
            StandsSince(t, ops, i, a, b, x, y) <==>
            StandsSince(t, ops[..n], i, a, b, x, y) && !Undone(t, ops, n, a, b, x, y)
  {
    var n := |ops| - 1;
    PrefixSame(t, ops, i, a, b, x, y);
    forall k: nat | i < k
      ensures Undone(t, ops, k, a, b, x, y) <==>
              Undone(t, ops[..n], k, a, b, x, y) || (k == n && Undone(t, ops, n, a, b, x, y))
    {
      if k < n {
        PrefixSame(t, ops, k, a, b, x, y);
      }
    }
  }

  /**
   Neither a request nor its acceptance looks at blocks.  Over every run, a request or friendship
   stands beside a block between the same two users exactly if it was requested while the block
   already stood, and neither has been undone since.
   */
  lemma {:induction false} BlockedFriendsExactly(users: set<Uid>, ops: seq<Op>, a: Uid, b: Uid, x: Uid, y: Uid)
    requires Between(x, y, a, b)
    ensures ActiveAndBlocked(Run(Start(users), ops), a, b, x, y) <==>
            exists i: nat :: StandsSince(Start(users), ops, i, a, b, x, y)
    decreases |ops|
  {
    if ops != [] {
      var n := |ops| - 1;
      var t := Run(Start(users), ops[..n]);
      BlockedFriendsExactly(users, ops[..n], a, b, x, y);
      Reachable(users, ops[..n]);
      StepMovesActive(t, ops[n], a, b);
      StepMovesBlock(t, ops[n], x, y);
      StandsOneMore(Start(users), ops, a, b, x, y);
    }
  }

  lemma StandsOneMore(t: Tables, ops: seq<Op>, a: Uid, b: Uid, x: Uid, y: Uid)
    requires ops != []
    ensures var n := |ops| - 1;
            (exists i: nat :: StandsSince(t, ops, i, a, b, x, y)) <==>
              ((exists i: nat :: StandsSince(t, ops[..n], i, a, b, x, y)) && !Undone(t, ops, n, a, b, x, y))
              || RequestedUnderBlock(t, ops, n, a, b, x, y)
  {
    var n := |ops| - 1;
    if i: nat :| StandsSince(t, ops, i, a, b, x, y) && i < n {
      StandsPrefix(t, ops, i, a, b, x, y);
    }
    if i: nat :| StandsSince(t, ops[..n], i, a, b, x, y) {
      StandsPrefix(t, ops, i, a, b, x, y);
    }
    if RequestedUnderBlock(t, ops, n, a, b, x, y) {
      assert StandsSince(t, ops, n, a, b, x, y);
    }
  }

  /** "a" blocks "b", "b" asks, "a" accepts. */
  lemma {:induction false} FriendsWhileBlocked()
    ensures var t := Run(Start({"a", "b"}), [Block("a", "b"), Request("b", "a"), Answer("a", "b", Accepted)]);
            Has(t, "b", "a", Accepted) && ("a", "b") in t.blocks
  {
    var ops := [Block("a", "b"), Request("b", "a"), Answer("a", "b", Accepted)];
    var t1 := Step(Start({"a", "b"}), ops[0]).0;
    var t2 := Step(t1, ops[1]).0;
    assert ops[..2][..1] == ops[..1] && ops[..1][..0] == [];
    assert Run(Start({"a", "b"}), ops[..1]) == t1;
    assert Run(Start({"a", "b"}), ops[..2]) == t2;
    assert t2.friends == map[("b", "a") := Pending];
  }

  // ---------------------------------------------------------------------------
  // The friend counter
  // ---------------------------------------------------------------------------

  function SentAccepted(t: Tables, u: Uid): set<(Uid, Uid)> {
    set k | k in t.friends && k.0 == u && t.friends[k] == Accepted
  }

  function ReceivedAccepted(t: Tables, u: Uid): set<(Uid, Uid)> {
    set k | k in t.friends && k.1 == u && t.friends[k] == Accepted
  }

  /** The users `u` is friends with. */
  function FriendsOf(t: Tables, u: Uid): set<Uid> {
    (set k | k in SentAccepted(t, u) :: k.1) + (set k | k in ReceivedAccepted(t, u) :: k.0)
  }

  /** An injective image has as many elements. */
  lemma {:induction false} ImageSize(keys: set<(Uid, Uid)>, image: set<Uid>, f: ((Uid, Uid)) -> Uid)
    requires image == set k | k in keys :: f(k)
    requires forall k, l :: k in keys && l in keys && f(k) == f(l) ==> k == l
    ensures |image| == |keys|
  {
    if keys == {} {
      assert image == {};
    } else {
      var k :| k in keys;
      assert image - {f(k)} == set l | l in keys - {k} :: f(l);
      ImageSize(keys - {k}, image - {f(k)}, f);
    }
  }

  lemma SentAndReceivedApart(t: Tables, u: Uid)
    requires Inv(t)
    ensures (set k | k in SentAccepted(t, u) :: k.1) !! (set k | k in ReceivedAccepted(t, u) :: k.0)
  {
    forall k, l | k in SentAccepted(t, u) && l in ReceivedAccepted(t, u) ensures k.1 != l.0 {
      assert k == (u, k.1) && l == (l.0, u);
    }
  }

  /** `friendsCount`, the sum of sent and received accepted rows, is the number of distinct friends. */
  lemma {:induction false} FriendsCountIsDistinctFriends(users: set<Uid>, ops: seq<Op>, u: Uid)
    ensures var t := Run(Start(users), ops);
            |SentAccepted(t, u)| + |ReceivedAccepted(t, u)| == |FriendsOf(t, u)|
  {
    var t := Run(Start(users), ops);
    Reachable(users, ops);
    var to := set k | k in SentAccepted(t, u) :: k.1;
    var from := set k | k in ReceivedAccepted(t, u) :: k.0;
    ImageSize(SentAccepted(t, u), to, (k: (Uid, Uid)) => k.1);
    ImageSize(ReceivedAccepted(t, u), from, (k: (Uid, Uid)) => k.0);
    SentAndReceivedApart(t, u);
    assert FriendsOf(t, u) == to + from;
  }
}
