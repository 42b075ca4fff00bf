/**
 Ratings (src/ratings/ratings.service.ts) and the rating status of players
 (src/sessions/services/session-players.service.ts, `checkIfUsersArePlayers`, `updateRatingStatus`).
 */
module Ratings {
  import opened Common

  datatype Status = Pending | Refused | Validated

  /** Ratings are keyed by (session, evaluator, evaluated), players by (session, user). */
  datatype Tables = Tables(ratings: map<(Uid, Uid, Uid), int>, players: map<(Uid, Uid), Option<Status>>)

  datatype Rating = Rating(evaluated: Uid, note: int)

  predicate Distinct(q: seq<Uid>) {
    forall i, j :: 0 <= i < j < |q| ==> q[i] != q[j]
  }

  function Elements(q: seq<Uid>): set<Uid> {
    set u | u in q
  }

  /** The player rows `userUid IN uids` finds. */
  function FoundPlayers(t: Tables, s: Uid, uids: seq<Uid>): set<(Uid, Uid)> {
    set k | k in t.players && k.0 == s && k.1 in uids
  }

  /** `checkIfUsersArePlayers`: as many rows as uids asked for. */
  predicate CheckIfUsersArePlayers(t: Tables, s: Uid, uids: seq<Uid>) {
    |FoundPlayers(t, s, uids)| == |uids|
  }

  lemma {:induction false} ElementsSize(q: seq<Uid>)
    ensures |Elements(q)| <= |q|
    ensures |Elements(q)| == |q| <==> Distinct(q)
  {
    if q != [] {
      var rest := q[1..];
      ElementsSize(rest);
      assert Elements(q) == {q[0]} + Elements(rest);
      assert Distinct(q) <==> Distinct(rest) && q[0] !in rest by {
        assert forall i :: 0 <= i < |rest| ==> rest[i] == q[i + 1];
        assert Distinct(rest) && q[0] !in rest ==> Distinct(q);
      }
    }
  }

  lemma {:induction false} FoundSize(t: Tables, s: Uid, us: set<Uid>, keys: set<(Uid, Uid)>)
    requires keys == set k | k in t.players && k.0 == s && k.1 in us
    ensures |keys| <= |us|
    ensures |keys| == |us| <==> forall u :: u in us ==> (s, u) in t.players
  {
    if us == {} {
      assert keys == {};
    } else {
      var u :| u in us;
      var rest := keys - {(s, u)};
      assert rest == set k | k in t.players && k.0 == s && k.1 in us - {u};
      FoundSize(t, s, us - {u}, rest);
    }
  }

  /** The check holds exactly for duplicate-free lists of players of the session. */
  lemma {:induction false} CheckMeansDistinctPlayers(t: Tables, s: Uid, uids: seq<Uid>)
    ensures CheckIfUsersArePlayers(t, s, uids) <==> Distinct(uids) && forall u :: u in uids ==> (s, u) in t.players
  {
    ElementsSize(uids);
    assert FoundPlayers(t, s, uids) == set k | k in t.players && k.0 == s && k.1 in Elements(uids);
    FoundSize(t, s, Elements(uids), FoundPlayers(t, s, uids));
  }

  // ---------------------------------------------------------------------------
  // Steps
  // ---------------------------------------------------------------------------

  /** No way back from VALIDATED, nor from REFUSED to PENDING. */
  predicate MayUpdate(from: Option<Status>, to: Status) {
    from == Some(to) || !(from == Some(Validated) || (from == Some(Refused) && to == Pending))
  }

  function EvaluatedOf(list: seq<Rating>): seq<Uid> {
    seq(|list|, i requires 0 <= i < |list| => list[i].evaluated)
  }

  /** INSERT with skipDuplicates: a rating that is already there stays as it is. */
  function InsertRatings(r: map<(Uid, Uid, Uid), int>, s: Uid, evaluator: Uid, list: seq<Rating>)
      : map<(Uid, Uid, Uid), int>
    decreases |list|
  {
    if list == [] then r
    else
      var n := |list| - 1;
      var r' := InsertRatings(r, s, evaluator, list[..n]);
      var key := (s, evaluator, list[n].evaluated);
      if key in r' then r' else r'[key := list[n].note]
  }

  datatype Op =
    | Update(s: Uid, user: Uid, status: Status)
    | CreateMany(s: Uid, evaluator: Uid, list: seq<Rating>, ended: bool)

  predicate Accepts(t: Tables, op: Op) {
    match op
    case Update(s, u, st) => (s, u) in t.players && MayUpdate(t.players[(s, u)], st)
    case CreateMany(s, evaluator, list, ended) =>
      !ended && CheckIfUsersArePlayers(t, s, EvaluatedOf(list) + [evaluator])
  }

  lemma AcceptedBatchHasEvaluator(t: Tables, op: Op)
    requires op.CreateMany? && Accepts(t, op)
    ensures (op.s, op.evaluator) in t.players
  {
    var uids := EvaluatedOf(op.list) + [op.evaluator];
    CheckMeansDistinctPlayers(t, op.s, uids);
    assert uids[|uids| - 1] == op.evaluator;
  }

  function Step(t: Tables, op: Op): Tables {
    if !Accepts(t, op) then t
    else match op
      case Update(s, u, st) => t.(players := t.players[(s, u) := Some(st)])
      case CreateMany(s, evaluator, list, _) =>
        Tables(InsertRatings(t.ratings, s, evaluator, list), t.players[(s, evaluator) := Some(Validated)])
  }

  function Run(t: Tables, ops: seq<Op>): Tables
    decreases |ops|
  {
    if ops == [] then t else Step(Run(t, ops[..|ops| - 1]), ops[|ops| - 1])
  }

  /** An accepted batch never rates the evaluator and rates each of some players of the session once. */
  lemma {:induction false} AcceptedBatchIsSound(t: Tables, op: Op)
    requires op.CreateMany? && Accepts(t, op)
    ensures Distinct(EvaluatedOf(op.list)) && op.evaluator !in EvaluatedOf(op.list)
    ensures forall u :: u in EvaluatedOf(op.list) ==> (op.s, u) in t.players
    ensures forall i :: 0 <= i < |op.list| ==>
              var key := (op.s, op.evaluator, op.list[i].evaluated);
              key in Step(t, op).ratings
              && Step(t, op).ratings[key] == if key in t.ratings then t.ratings[key] else op.list[i].note
    ensures forall key :: key in Step(t, op).ratings ==>
              key in t.ratings || (key.0 == op.s && key.1 == op.evaluator && key.2 in EvaluatedOf(op.list))
  {
    var rated := EvaluatedOf(op.list);
    var uids := rated + [op.evaluator];
    CheckMeansDistinctPlayers(t, op.s, uids);
    forall i, j | 0 <= i < j < |rated| ensures rated[i] != rated[j] {
      assert uids[i] == rated[i] && uids[j] == rated[j];
    }
    forall i | 0 <= i < |rated| ensures rated[i] != op.evaluator {
      assert uids[i] == rated[i] && uids[|rated|] == op.evaluator;
    }
    forall u | u in rated ensures (op.s, u) in t.players {
      assert u in uids;
    }
    forall i, j | 0 <= i < j < |op.list| ensures op.list[i].evaluated != op.list[j].evaluated {
      assert rated[i] != rated[j];
    }
    InsertedRatings(t.ratings, op.s, op.evaluator, op.list);
  }

  lemma {:induction false} InsertedRatings(r: map<(Uid, Uid, Uid), int>, s: Uid, evaluator: Uid, list: seq<Rating>)
    requires forall i, j :: 0 <= i < j < |list| ==> list[i].evaluated != list[j].evaluated
    ensures forall i :: 0 <= i < |list| ==>
              var key := (s, evaluator, list[i].evaluated);
              key in InsertRatings(r, s, evaluator, list)
              && InsertRatings(r, s, evaluator, list)[key] == if key in r then r[key] else list[i].note
    ensures forall key :: key in InsertRatings(r, s, evaluator, list) ==>
              key in r || (key.0 == s && key.1 == evaluator && key.2 in EvaluatedOf(list))
    ensures forall key :: key in r ==>
              key in InsertRatings(r, s, evaluator, list) && InsertRatings(r, s, evaluator, list)[key] == r[key]
    decreases |list|
  {
    if list != [] {
      var n := |list| - 1;
      InsertedRatings(r, s, evaluator, list[..n]);
      assert EvaluatedOf(list) == EvaluatedOf(list[..n]) + [list[n].evaluated];
      forall u | u in EvaluatedOf(list[..n]) ensures u != list[n].evaluated {
        var i :| 0 <= i < n && EvaluatedOf(list[..n])[i] == u;
        assert list[i].evaluated == u;
      }
    }
  }

  function Rank(st: Option<Status>): nat {
    match st
    case None => 0
    case Some(Pending) => 1
    case Some(Refused) => 2
    case Some(Validated) => 3
  }

  /** Over every run a player's rating status only moves forward, and VALIDATED is final. */
  lemma {:induction false} StatusMovesForward(t: Tables, ops: seq<Op>, k: (Uid, Uid))
    requires k in t.players
    ensures k in Run(t, ops).players
    ensures Rank(Run(t, ops).players[k]) >= Rank(t.players[k])
    ensures t.players[k] == Some(Validated) ==> Run(t, ops).players[k] == Some(Validated)
    decreases |ops|
  {
    if ops != [] {
      StatusMovesForward(t, ops[..|ops| - 1], k);
    }
  }

  // ---------------------------------------------------------------------------
  // The services, write by write
  // ---------------------------------------------------------------------------

  class RatingStore {
    var ratings: map<(Uid, Uid, Uid), int>
    var players: map<(Uid, Uid), Option<Status>>

    constructor (players: map<(Uid, Uid), Option<Status>>)
      ensures Contents() == Tables(map[], players)
    {
      ratings := map[];
      this.players := players;
    }

    function Contents(): Tables
      reads this
    {
      Tables(ratings, players)
    }

    method UpdateRatingStatus(user: Uid, s: Uid, status: Status) returns (ok: bool)
      modifies this
      ensures ok <==> Accepts(old(Contents()), Update(s, user, status))
      ensures Contents() == Step(old(Contents()), Update(s, user, status))
    {
      if (s, user) !in players {
        return false;
      }
      if players[(s, user)] == Some(status) {
        assert players == players[(s, user) := Some(status)];
        return true;
      }
      if (players[(s, user)] == Some(Validated) && status == Pending)
         || (players[(s, user)] == Some(Validated) && status == Refused)
         || (players[(s, user)] == Some(Refused) && status == Pending) {
        return false;
      }
      players := players[(s, user) := Some(status)];
      return true;
    }

    method CreateRatings(list: seq<Rating>, evaluator: Uid, s: Uid, ended: bool) returns (ok: bool)
      modifies this
      ensures ok <==> Accepts(old(Contents()), CreateMany(s, evaluator, list, ended))
      ensures Contents() == Step(old(Contents()), CreateMany(s, evaluator, list, ended))
    {
      var userUids := EvaluatedOf(list);
      userUids := userUids + [evaluator];
      if ended {
        return false;
      }
      if !CheckIfUsersArePlayers(Contents(), s, userUids) {
        return false;
      }
      AcceptedBatchHasEvaluator(Contents(), CreateMany(s, evaluator, list, ended));
      ratings := InsertRatings(ratings, s, evaluator, list);
      ok := UpdateRatingStatus(evaluator, s, Validated);
    }
  }
}
