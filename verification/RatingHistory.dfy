/**
 What ratings and rating statuses owe to the calls of a run (module Ratings).
 */
module RatingHistory {
  import opened Common
  import opened Histories
  import opened Ratings

  /** The tables before call `i`. */
  function At(t: Tables, ops: seq<Op>, i: nat): Tables
    requires i <= |ops|
  {
    Run(t, ops[..i])
  }

  lemma NextAt(t: Tables, ops: seq<Op>, i: nat)
    requires i < |ops|
    ensures At(t, ops, i + 1) == Step(At(t, ops, i), ops[i])
  {
    assert ops[..i + 1][..i] == ops[..i];
  }

  /** A batch that goes through: the session has not ended, and all are different players of it. */
  predicate GoesThrough(t: Tables, op: Op) {
    && op.CreateMany? && !op.ended && (op.s, op.evaluator) in t.players
    && (forall i :: 0 <= i < |op.list| ==>
          (op.s, op.list[i].evaluated) in t.players && op.list[i].evaluated != op.evaluator)
    && (forall i, j :: 0 <= i < j < |op.list| ==> op.list[i].evaluated != op.list[j].evaluated)
  }

  /** A status a player may be given: never away from VALIDATED, nor from REFUSED to PENDING. */
  predicate MaySet(t: Tables, s: Uid, user: Uid, st: Status) {
    && (s, user) in t.players
    && (t.players[(s, user)] == Some(Validated) ==> st == Validated)
    && (t.players[(s, user)] == Some(Refused) ==> st != Pending)
  }

  /** The status the call gives to the player. */
  function StatusGiven(t: Tables, op: Op, s: Uid, user: Uid): Option<Status> {
    match op
    case Update(s1, u, st) => if s1 == s && u == user && MaySet(t, s, user, st) then Some(st) else None
    case CreateMany(s1, evaluator, _, _) =>
      if s1 == s && evaluator == user && GoesThrough(t, op) then Some(Validated) else None
  }

  /** The uids of a batch, the evaluator's last: all different, all players. */
  lemma BatchExactly(t: Tables, op: Op)
    requires op.CreateMany?
    ensures var uids := EvaluatedOf(op.list) + [op.evaluator];
            !op.ended && Distinct(uids) && (forall u :: u in uids ==> (op.s, u) in t.players) <==> GoesThrough(t, op)
  {
    var rated := EvaluatedOf(op.list);
    var uids := rated + [op.evaluator];
    assert forall i :: 0 <= i < |rated| ==> uids[i] == rated[i] == op.list[i].evaluated;
    assert uids[|rated|] == op.evaluator;
    if GoesThrough(t, op) {
      forall u | u in uids ensures (op.s, u) in t.players {
        var i :| 0 <= i < |uids| && uids[i] == u;
      }
    }
    if Distinct(uids) && forall u :: u in uids ==> (op.s, u) in t.players {
      forall i | 0 <= i < |uids| ensures (op.s, uids[i]) in t.players {
        assert uids[i] in uids;
      }
    }
  }

  lemma AcceptedExactly(t: Tables, op: Op)
    ensures Accepts(t, op) <==>
            match op
            case Update(s, u, st) => MaySet(t, s, u, st)
            case CreateMany(_, _, _, _) => GoesThrough(t, op)
  {
    if op.CreateMany? {
      CheckMeansDistinctPlayers(t, op.s, EvaluatedOf(op.list) + [op.evaluator]);
      BatchExactly(t, op);
    }
  }

  /** Which calls are accepted. */
  lemma {:induction false} AnswersExactly(t: Tables, ops: seq<Op>, op: Op)
    ensures Accepts(Run(t, ops), op) <==>
            match op
            case Update(s, u, st) => MaySet(Run(t, ops), s, u, st)
            case CreateMany(_, _, _, _) => GoesThrough(Run(t, ops), op)
  {
    AcceptedExactly(Run(t, ops), op);
  }

  function StatusIn(t: Tables, s: Uid, user: Uid): Option<Option<Status>> {
    if (s, user) in t.players then Some(t.players[(s, user)]) else None
  }

  lemma StepMovesStatus(t: Tables, op: Op, s: Uid, user: Uid)
    ensures StatusIn(Step(t, op), s, user) ==
            if StatusGiven(t, op, s, user).Some? then Some(StatusGiven(t, op, s, user)) else StatusIn(t, s, user)
  {
    AcceptedExactly(t, op);
  }

  function StatusAt(t: Tables, ops: seq<Op>, s: Uid, user: Uid): nat -> Option<Option<Status>> {
    (i: nat) => if i <= |ops| then StatusIn(At(t, ops, i), s, user) else None
  }

  function StatusWrites(t: Tables, ops: seq<Op>, s: Uid, user: Uid): nat -> Option<Option<Option<Status>>> {
    (i: nat) =>
      if i < |ops| && StatusGiven(At(t, ops, i), ops[i], s, user).Some?
      then Some(Some(StatusGiven(At(t, ops, i), ops[i], s, user))) else None
  }

  lemma StatusNext(t: Tables, ops: seq<Op>, i: nat, s: Uid, user: Uid)
    requires i < |ops|
    ensures FollowsAt(StatusAt(t, ops, s, user), StatusWrites(t, ops, s, user), i)
  {
    NextAt(t, ops, i);
    StepMovesStatus(At(t, ops, i), ops[i], s, user);
  }

  /** A player's status is the one he was last given: by an update, or VALIDATED by rating the others. */
  lemma {:induction false} StatusExactly(t: Tables, ops: seq<Op>, n: nat, s: Uid, user: Uid)
    requires n <= |ops|
    ensures LastWriteStands(n, StatusAt(t, ops, s, user), StatusWrites(t, ops, s, user))
  {
    forall i: nat | i < n ensures FollowsAt(StatusAt(t, ops, s, user), StatusWrites(t, ops, s, user), i) {
      StatusNext(t, ops, i, s, user);
    }
    LastWriter(n, StatusAt(t, ops, s, user), StatusWrites(t, ops, s, user));
  }

  /** The call is a batch that goes through in which `e` gives `u` this note for the first time. */
  predicate Rates(t: Tables, op: Op, s: Uid, e: Uid, u: Uid, note: int) {
    && op.CreateMany? && op.s == s && op.evaluator == e && GoesThrough(t, op) && (s, e, u) !in t.ratings
    && Rating(u, note) in op.list
  }

  predicate IsRated(t: Tables, s: Uid, e: Uid, u: Uid, note: int) {
    (s, e, u) in t.ratings && t.ratings[(s, e, u)] == note
  }

  lemma StepMovesRating(t: Tables, op: Op, s: Uid, e: Uid, u: Uid, note: int)
    ensures IsRated(Step(t, op), s, e, u, note) <==> IsRated(t, s, e, u, note) || Rates(t, op, s, e, u, note)
  {
    AcceptedExactly(t, op);
    if op.CreateMany? && GoesThrough(t, op) {
      InsertedRatings(t.ratings, op.s, op.evaluator, op.list);
      if (s, e, u) in Step(t, op).ratings && (s, e, u) !in t.ratings {
        var i :| 0 <= i < |op.list| && EvaluatedOf(op.list)[i] == u;
        assert op.list[i] == Rating(u, op.list[i].note);
      }
      if Rating(u, note) in op.list && op.s == s && op.evaluator == e {
        var i :| 0 <= i < |op.list| && op.list[i] == Rating(u, note);
        assert (s, e, op.list[i].evaluated) in Step(t, op).ratings;
      }
    }
  }

  function Rated(t: Tables, ops: seq<Op>, s: Uid, e: Uid, u: Uid, note: int): nat -> bool {
    (i: nat) => i < |ops| && Rates(At(t, ops, i), ops[i], s, e, u, note)
  }

  /** A rating in the table was there at the start or is the first note the evaluator gave. */
  lemma {:induction false} RatingExactly(t: Tables, ops: seq<Op>, n: nat, s: Uid, e: Uid, u: Uid, note: int)
    requires n <= |ops|
    ensures IsRated(At(t, ops, n), s, e, u, note) <==>
            IsRated(t, s, e, u, note) || Once(n, Rated(t, ops, s, e, u, note))
  {
    if n > 0 {
      RatingExactly(t, ops, n - 1, s, e, u, note);
      NextAt(t, ops, n - 1);
      StepMovesRating(At(t, ops, n - 1), ops[n - 1], s, e, u, note);
      OnceNext(n - 1, Rated(t, ops, s, e, u, note));
    } else {
      assert ops[..0] == [];
    }
  }
}
