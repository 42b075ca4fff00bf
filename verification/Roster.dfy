/**
 Teams, players and the session chat (src/sessions/services/session-players.service.ts,
 sessions.service.ts, session-teams.service.ts, session-team.mapper.ts,
 src/conversations/services/conversations.service.ts).  Each call is one step; a call whose writes
 are not in a transaction can still stop half-way, and that is modelled.

 Joining looks at friendships and blocks, so those tables (module Friends) are part of the state and
 their calls are steps of every run.
 */
module Roster {
  import opened Common
  import F = Friends

  datatype GameMode = OneVOne | TwoVTwo | ThreeVThree | FourVFour | FiveVFive | SixVSix | SevenVSeven
                    | EightVEight | TenVTen | ElevenVEleven

  datatype Session = Session(creator: Uid, maxPlayersPerTeam: nat, isPrivate: bool, start: int)

  /** Players are keyed by (session, user) and give the team; `chat` holds the members of the sessions' chats. */
  datatype Tables = Tables(sessions: map<Uid, Session>, teams: map<Uid, Uid>,
                           players: map<(Uid, Uid), Uid>, chat: set<(Uid, Uid)>, social: F.Tables)

  function Start(users: set<Uid>): Tables {
    Tables(map[], map[], map[], {}, F.Start(users))
  }

  /** `Broken` is an error thrown after a write that stays. */
  datatype Outcome = Done | Refused | Broken

  function MaxPlayersPerTeam(mode: GameMode): (n: nat)
    ensures 1 <= n <= 11
  {
    match mode
    case OneVOne => 1
    case TwoVTwo => 2
    case ThreeVThree => 3
    case FourVFour => 4
    case FiveVFive => 5
    case SixVSix => 6
    case SevenVSeven => 7
    case EightVEight => 8
    case TenVTen => 10
    case ElevenVEleven => 11
  }

  // ---------------------------------------------------------------------------
  // Queries
  // ---------------------------------------------------------------------------

  function PlayersOf(t: Tables, s: Uid): set<Uid> {
    set k | k in t.players && k.0 == s :: k.1
  }

  function TeamPlayers(t: Tables, team: Uid): set<(Uid, Uid)> {
    set k | k in t.players && t.players[k] == team
  }

  function TeamCount(t: Tables, team: Uid): nat {
    |TeamPlayers(t, team)|
  }

  predicate TeamOf(t: Tables, team: Uid, s: Uid) {
    team in t.teams && t.teams[team] == s
  }

  /** An accepted request between the two, whoever sent it. */
  predicate AreFriends(f: F.Tables, a: Uid, b: Uid) {
    F.Has(f, a, b, F.Accepted) || F.Has(f, b, a, F.Accepted)
  }

  /** One of the two has blocked the other. */
  predicate AreBlocked(f: F.Tables, a: Uid, b: Uid) {
    (a, b) in f.blocks || (b, a) in f.blocks
  }

  /** `verifyPlayerEligibilityBeforeJoin`. */
  predicate Eligible(t: Tables, s: Uid, team: Uid, user: Uid) {
    && s in t.sessions
    && (t.sessions[s].isPrivate ==> AreFriends(t.social, user, t.sessions[s].creator))
    && TeamOf(t, team, s)
    && TeamCount(t, team) < t.sessions[s].maxPlayersPerTeam
    && (s, user) !in t.players
    && !exists p :: p in PlayersOf(t, s) && AreBlocked(t.social, p, user)
  }

  // ---------------------------------------------------------------------------
  // Steps
  // ---------------------------------------------------------------------------

  datatype Op =
    | Create(s: Uid, creator: Uid, teamA: Uid, teamB: Uid, sameNames: bool, bListedFirst: bool,
             mode: GameMode, isPrivate: bool, start: int)
    | Join(s: Uid, team: Uid, user: Uid)
    | Leave(s: Uid, user: Uid, now: int)
    | Switch(s: Uid, user: Uid, team: Uid)
    | Social(op: F.Op)

  /** The creator is put on the first team that bears team A's name. */
  function CreatorTeam(op: Op): Uid
    requires op.Create?
  {
    if op.sameNames && op.bListedFirst then op.teamB else op.teamA
  }

  function Step(t: Tables, op: Op): (Tables, Outcome) {
    match op
    case Create(s, creator, teamA, teamB, _, _, mode, isPrivate, start) =>
      if s in t.sessions || teamA in t.teams || teamB in t.teams || teamA == teamB then (t, Refused)
      else (Tables(t.sessions[s := Session(creator, MaxPlayersPerTeam(mode), isPrivate, start)],
                   t.teams[teamA := s][teamB := s], t.players[(s, creator) := CreatorTeam(op)],
                   t.chat + {(s, creator)}, t.social), Done)
    case Join(s, team, user) =>
      if !Eligible(t, s, team, user) then (t, Refused)
      else
        var t' := t.(players := t.players[(s, user) := team]);
        if user == t.sessions[s].creator then (t', Done)
        else if (s, user) in t.chat then (t', Broken)
        else (t'.(chat := t.chat + {(s, user)}), Done)
    case Leave(s, user, now) =>
      if s !in t.sessions || t.sessions[s].start < now || (s, user) !in t.players then (t, Refused)
      else
        var t' := t.(players := t.players - {(s, user)});
        if (s, user) !in t.chat then (t', Broken) else (t'.(chat := t.chat - {(s, user)}), Done)
    case Switch(s, user, team) =>
      if !TeamOf(t, team, s) || (s, user) !in t.players || t.players[(s, user)] == team then (t, Refused)
      else (t.(players := t.players[(s, user) := team]), Done)
    case Social(f) =>
      var (social, outcome) := F.Step(t.social, f);
      (t.(social := social), if outcome == F.Done then Done else Refused)
  }

  function Run(t: Tables, ops: seq<Op>): Tables
    decreases |ops|
  {
    if ops == [] then t else Step(Run(t, ops[..|ops| - 1]), ops[|ops| - 1]).0
  }

  // ---------------------------------------------------------------------------
  // The services, write by write
  // ---------------------------------------------------------------------------

  class RosterStore {
    var sessions: map<Uid, Session>
    var teams: map<Uid, Uid>
    var players: map<(Uid, Uid), Uid>
    var chat: set<(Uid, Uid)>
    const friends: F.FriendStore

    constructor (friends: F.FriendStore)
      ensures this.friends == friends
      ensures Contents() == Tables(map[], map[], map[], {}, friends.Contents())
    {
      sessions, teams, players, chat := map[], map[], map[], {};
      this.friends := friends;
    }

    function Contents(): Tables
      reads this, friends
    {
      Tables(sessions, teams, players, chat, friends.Contents())
    }

    /** One transaction: nothing is written if a uid is taken. */
    method CreateSession(s: Uid, creator: Uid, teamA: Uid, teamB: Uid, sameNames: bool, bListedFirst: bool,
                         mode: GameMode, isPrivate: bool, start: int) returns (r: Outcome)
      modifies this
      ensures (Contents(), r) ==
              Step(old(Contents()), Create(s, creator, teamA, teamB, sameNames, bListedFirst, mode, isPrivate, start))
    {
      if s in sessions || teamA in teams || teamB in teams || teamA == teamB {
        return Refused;
      }
      sessions := sessions[s := Session(creator, MaxPlayersPerTeam(mode), isPrivate, start)];
      teams := teams[teamA := s];
      teams := teams[teamB := s];
      players := players[(s, creator) := if sameNames && bListedFirst then teamB else teamA];
      chat := chat + {(s, creator)};
      return Done;
    }

    /** The lookups, each an error if it fails, in the order they are made. */
    method VerifyPlayerEligibility(s: Uid, team: Uid, user: Uid) returns (ok: bool)
      requires s in sessions
      ensures ok == Eligible(Contents(), s, team, user)
    {
      if sessions[s].isPrivate {
        var row := F.FindRow(friends.Contents(), user, sessions[s].creator, F.Accepted);
        if row.None? {
          return false;
        }
      }
      if team !in teams || teams[team] != s {
        return false;
      }
      if TeamCount(Contents(), team) >= sessions[s].maxPlayersPerTeam {
        return false;
      }
      if (s, user) in players {
        return false;
      }
      var existingPlayers := PlayersOf(Contents(), s);
      if existingPlayers != {} {
        return !exists p :: p in existingPlayers && AreBlocked(friends.Contents(), p, user);
      }
      return true;
    }

    /** An unknown session is an error before this call, where the session is looked up. */
    method JoinSession(s: Uid, team: Uid, user: Uid) returns (r: Outcome)
      modifies this
      ensures (Contents(), r) == Step(old(Contents()), Join(s, team, user))
    {
      if s !in sessions {
        return Refused;
      }
      var ok := VerifyPlayerEligibility(s, team, user);
      if !ok {
        return Refused;
      }
      players := players[(s, user) := team];
      if sessions[s].creator != user {
        if (s, user) in chat {
          return Broken;
        }
        chat := chat + {(s, user)};
      }
      return Done;
    }

    method LeaveSession(s: Uid, user: Uid, now: int) returns (r: Outcome)
      modifies this
      ensures (Contents(), r) == Step(old(Contents()), Leave(s, user, now))
    {
      if s !in sessions || sessions[s].start < now {
        return Refused;
      }
      if (s, user) !in players {
        return Refused;
      }
      players := players - {(s, user)};
      if (s, user) !in chat {
        return Broken;
      }
      chat := chat - {(s, user)};
      return Done;
    }

    method SwitchPlayerToAnotherTeam(s: Uid, user: Uid, team: Uid) returns (r: Outcome)
      modifies this
      ensures (Contents(), r) == Step(old(Contents()), Switch(s, user, team))
    {
      if !TeamOf(Contents(), team, s) || (s, user) !in players || players[(s, user)] == team {
        return Refused;
      }
      players := players[(s, user) := team];
      return Done;
    }
  }

  // ---------------------------------------------------------------------------
  // Players, teams and chat over every run
  // ---------------------------------------------------------------------------

  /** A player's team belongs to the player's session. */
  ghost predicate TeamsBelong(t: Tables) {
    forall k :: k in t.players ==> k.0 in t.sessions && TeamOf(t, t.players[k], k.0)
  }

  ghost predicate TeamsHaveSessions(t: Tables) {
    forall team :: team in t.teams ==> t.teams[team] in t.sessions
  }

  /** Members of the chat play; only the creator may play outside the chat. */
  ghost predicate ChatInStep(t: Tables) {
    && (forall k :: k in t.chat ==> k in t.players)
    && (forall k :: k in t.players && k !in t.chat ==> k.0 in t.sessions && k.1 == t.sessions[k.0].creator)
  }

  ghost predicate Inv(t: Tables) {
    TeamsBelong(t) && TeamsHaveSessions(t) && ChatInStep(t)
  }

  lemma StepKeepsTeamsBelong(t: Tables, op: Op)
    requires TeamsBelong(t)
    ensures TeamsBelong(Step(t, op).0)
  {
    var t' := Step(t, op).0;
    if Step(t, op).1 != Refused {
      forall k | k in t'.players ensures k.0 in t'.sessions && TeamOf(t', t'.players[k], k.0) {
        if k in t.players && t'.players[k] == t.players[k] {
          assert TeamOf(t, t.players[k], k.0);
        }
      }
    }
  }

  lemma StepKeepsTeamsHaveSessions(t: Tables, op: Op)
    requires TeamsHaveSessions(t)
    ensures TeamsHaveSessions(Step(t, op).0)
  {
  }

  lemma StepKeepsChatInStep(t: Tables, op: Op)
    requires ChatInStep(t)
    ensures ChatInStep(Step(t, op).0)
  {
  }

  /** Over every run of create, join, switch and leave. */
  lemma {:induction false} Reachable(users: set<Uid>, ops: seq<Op>)
    ensures Inv(Run(Start(users), ops))
    decreases |ops|
  {
    if ops != [] {
      Reachable(users, ops[..|ops| - 1]);
      StepKeepsTeamsBelong(Run(Start(users), ops[..|ops| - 1]), ops[|ops| - 1]);
      StepKeepsTeamsHaveSessions(Run(Start(users), ops[..|ops| - 1]), ops[|ops| - 1]);
      StepKeepsChatInStep(Run(Start(users), ops[..|ops| - 1]), ops[|ops| - 1]);
    }
  }

  /** The step takes `user`'s place in session `s` away. */
  predicate Leaves(t: Tables, op: Op, s: Uid, user: Uid) {
    op.Leave? && op.s == s && op.user == user && Step(t, op).1 != Refused
  }

  predicate HasLeft(t: Tables, ops: seq<Op>, s: Uid, user: Uid)
    decreases |ops|
  {
    ops != [] && (HasLeft(t, ops[..|ops| - 1], s, user) || Leaves(Run(t, ops[..|ops| - 1]), ops[|ops| - 1], s, user))
  }

  lemma StepMovesCreator(t: Tables, op: Op, s: Uid)
    requires Inv(t)
    ensures s !in t.sessions ==> forall u :: !Leaves(t, op, s, u)
    ensures s in t.sessions ==> s in Step(t, op).0.sessions && Step(t, op).0.sessions[s] == t.sessions[s]
    ensures s in t.sessions ==>
              var creator := t.sessions[s].creator;
              ((s, creator) in Step(t, op).0.chat <==> (s, creator) in t.chat && !Leaves(t, op, s, creator))
    ensures s !in t.sessions && s in Step(t, op).0.sessions ==>
              (s, Step(t, op).0.sessions[s].creator) in Step(t, op).0.chat
  {
  }

  /** The creator is in a session's chat exactly as long as he has never left: rejoining does not bring him back. */
  lemma {:induction false} CreatorInChatIffNeverLeft(users: set<Uid>, ops: seq<Op>, s: Uid)
    ensures s !in Run(Start(users), ops).sessions ==> forall u :: !HasLeft(Start(users), ops, s, u)
    ensures s in Run(Start(users), ops).sessions ==>
              var creator := Run(Start(users), ops).sessions[s].creator;
              ((s, creator) in Run(Start(users), ops).chat <==> !HasLeft(Start(users), ops, s, creator))
    decreases |ops|
  {
    if ops != [] {
      CreatorInChatIffNeverLeft(users, ops[..|ops| - 1], s);
      Reachable(users, ops[..|ops| - 1]);
      StepMovesCreator(Run(Start(users), ops[..|ops| - 1]), ops[|ops| - 1], s);
    }
  }

  /** A join never breaks off; a leave does exactly for a creator who had left the session before. */
  lemma {:induction false} WhoBreaksOff(users: set<Uid>, ops: seq<Op>, op: Op)
    ensures Step(Run(Start(users), ops), op).1 == Broken <==>
            && op.Leave? && Step(Run(Start(users), ops), op).1 != Refused
            && op.user == Run(Start(users), ops).sessions[op.s].creator && HasLeft(Start(users), ops, op.s, op.user)
  {
    Reachable(users, ops);
    if op.Leave? {
      CreatorInChatIffNeverLeft(users, ops, op.s);
    }
  }

  lemma RunPrefix(t: Tables, ops: seq<Op>, i: nat)
    requires i < |ops|
    ensures Run(t, ops[..i + 1]) == Step(Run(t, ops[..i]), ops[i]).0
  {
    assert ops[..i + 1][..i] == ops[..i];
  }

  lemma RunThree(t: Tables, a: Op, b: Op, c: Op)
    ensures Run(t, [a, b, c]) == Step(Step(Step(t, a).0, b).0, c).0
  {
    var ops := [a, b, c];
    RunPrefix(t, ops, 0);
    RunPrefix(t, ops, 1);
    RunPrefix(t, ops, 2);
    assert ops[..3] == ops;
  }

  /** He creates a session, leaves, rejoins and leaves again: the second leave throws when he is already gone. */
  lemma {:induction false} RejoinedCreatorBreaksOff()
    ensures var ops := [Create("s", "a", "A", "B", false, false, OneVOne, false, 10), Leave("s", "a", 0),
                        Join("s", "A", "a")];
            var t := Run(Start({"a"}), ops);
            ("s", "a") in t.players && Step(t, Leave("s", "a", 0)) == (t.(players := t.players - {("s", "a")}), Broken)
  {
    var create := Create("s", "a", "A", "B", false, false, OneVOne, false, 10);
    var t1 := Step(Start({"a"}), create).0;
    var t2 := Step(t1, Leave("s", "a", 0)).0;
    assert t2.players == map[] && t2.chat == {};
    assert PlayersOf(t2, "s") == {} && TeamPlayers(t2, "A") == {};
    assert Eligible(t2, "s", "A", "a");
    RunThree(Start({"a"}), create, Leave("s", "a", 0), Join("s", "A", "a"));
  }

  // ---------------------------------------------------------------------------
  // Who plays
  // ---------------------------------------------------------------------------

  /** The calls of the run that go to friendships and blocks. */
  function SocialOps(ops: seq<Op>): seq<F.Op>
    decreases |ops|
  {
    if ops == [] then []
    else SocialOps(ops[..|ops| - 1]) + if ops[|ops| - 1].Social? then [ops[|ops| - 1].op] else []
  }

  /** Sessions never touch friendships and blocks, so all that Friends proves holds here. */
  lemma {:induction false} SocialIsFriendsRun(users: set<Uid>, ops: seq<Op>)
    ensures Run(Start(users), ops).social == F.Run(F.Start(users), SocialOps(ops))
    decreases |ops|
  {
    if ops != [] {
      var n := |ops| - 1;
      SocialIsFriendsRun(users, ops[..n]);
      if ops[n].Social? {
        assert SocialOps(ops)[..|SocialOps(ops)| - 1] == SocialOps(ops[..n]);
      } else {
        assert SocialOps(ops) == SocialOps(ops[..n]);
      }
    }
  }

  /** Call `i` brought `user` into session `s`, and this is what the tables showed when it was made. */
  ghost predicate CameInAt(users: set<Uid>, ops: seq<Op>, i: nat, s: Uid, user: Uid) {
    && i < |ops| && ops[i].Join? && ops[i].s == s && ops[i].user == user
    && var t := Run(Start(users), ops[..i]);
       && s in t.sessions && TeamOf(t, ops[i].team, s)
       && TeamCount(t, ops[i].team) < t.sessions[s].maxPlayersPerTeam
       && (s, user) !in t.players
       && (t.sessions[s].isPrivate ==> AreFriends(t.social, user, t.sessions[s].creator))
       && (forall p :: (s, p) in t.players ==> !AreBlocked(t.social, p, user))
  }

  predicate LeavesAt(users: set<Uid>, ops: seq<Op>, k: nat, s: Uid, user: Uid) {
    k < |ops| && Leaves(Run(Start(users), ops[..k]), ops[k], s, user)
  }

  /** Call `i` brought him in, and he has not left since. */
  ghost predicate InSince(users: set<Uid>, ops: seq<Op>, i: nat, s: Uid, user: Uid) {
    CameInAt(users, ops, i, s, user) && forall k: nat :: i < k ==> !LeavesAt(users, ops, k, s, user)
  }

  lemma PrefixSame(users: set<Uid>, ops: seq<Op>, i: nat, s: Uid, user: Uid)
    requires i + 1 < |ops|
    ensures CameInAt(users, ops[..|ops| - 1], i, s, user) == CameInAt(users, ops, i, s, user)
    ensures LeavesAt(users, ops[..|ops| - 1], i, s, user) == LeavesAt(users, ops, i, s, user)
  {
    assert ops[..|ops| - 1][..i] == ops[..i];
  }

  lemma InSincePrefix(users: set<Uid>, ops: seq<Op>, i: nat, s: Uid, user: Uid)
    requires i + 1 < |ops|
    ensures var n := |ops| - 1;
            InSince(users, ops, i, s, user) <==>
            InSince(users, ops[..n], i, s, user) && !LeavesAt(users, ops, n, s, user)
  {
    PrefixSame(users, ops, i, s, user);
    var n := |ops| - 1;
    forall k: nat | i < k
      ensures LeavesAt(users, ops, k, s, user) <==>
              LeavesAt(users, ops[..n], k, s, user) || (k == n && LeavesAt(users, ops, n, s, user))
    {
      if k < n {
        PrefixSame(users, ops, k, s, user);
      }
    }
  }

  lemma InSinceOneMore(users: set<Uid>, ops: seq<Op>, s: Uid, user: Uid)
    requires ops != []
    ensures var n := |ops| - 1;
            (exists i: nat :: InSince(users, ops, i, s, user)) <==>
              (exists i: nat :: InSince(users, ops[..n], i, s, user)
                                && !LeavesAt(users, ops, n, s, user))
              || CameInAt(users, ops, n, s, user)
  {
    var n := |ops| - 1;
    if i: nat :| InSince(users, ops, i, s, user) && i < n {
      InSincePrefix(users, ops, i, s, user);
    }
    if i: nat :| InSince(users, ops[..n], i, s, user) && !LeavesAt(users, ops, n, s, user) {
      InSincePrefix(users, ops, i, s, user);
    }
    if CameInAt(users, ops, n, s, user) {
      assert InSince(users, ops, n, s, user);
    }
  }

  /** How one step changes whether somebody else than the creator plays. */
  lemma StepMovesPlayer(t: Tables, op: Op, s: Uid, user: Uid)
    requires Inv(t)
    requires var t' := Step(t, op).0; s in t'.sessions ==> user != t'.sessions[s].creator
    ensures (s, user) in Step(t, op).0.players <==>
            ((s, user) in t.players && !Leaves(t, op, s, user))
            || (op.Join? && op.s == s && op.user == user && Eligible(t, s, op.team, user))
  {
  }

  lemma EligibleExactly(t: Tables, s: Uid, team: Uid, user: Uid)
    ensures Eligible(t, s, team, user) <==>
            && s in t.sessions && TeamOf(t, team, s) && TeamCount(t, team) < t.sessions[s].maxPlayersPerTeam
            && (s, user) !in t.players
            && (t.sessions[s].isPrivate ==> AreFriends(t.social, user, t.sessions[s].creator))
            && (forall p :: (s, p) in t.players ==> !AreBlocked(t.social, p, user))
  {
    forall p ensures p in PlayersOf(t, s) <==> (s, p) in t.players {
      assert (s, p) in t.players ==> (s, p).1 in PlayersOf(t, s);
    }
  }

  /**
   Over every run, somebody who is not its creator plays in a session exactly if some join brought
   him in and he has not left since; and at that join the tables showed room in the team, no block
   between him and any player, and for a private session an accepted friendship with its creator.
   */
  lemma {:induction false} PlayersWereAllowed(users: set<Uid>, ops: seq<Op>, s: Uid, user: Uid)
    requires var t := Run(Start(users), ops); s in t.sessions ==> user != t.sessions[s].creator
    ensures (s, user) in Run(Start(users), ops).players <==>
            exists i: nat :: InSince(users, ops, i, s, user)
    decreases |ops|
  {
    if ops != [] {
      var n := |ops| - 1;
      var t := Run(Start(users), ops[..n]);
      Reachable(users, ops[..n]);
      StepMovesCreator(t, ops[n], s);
      StepMovesPlayer(t, ops[n], s, user);
      PlayersWereAllowed(users, ops[..n], s, user);
      InSinceOneMore(users, ops, s, user);
      if ops[n].Join? {
        EligibleExactly(t, s, ops[n].team, user);
      }
    }
  }

  /** Hence every player of a private session had sent the creator a request he accepted, or the other way round. */
  lemma {:induction false} PrivatePlayersWereAccepted(users: set<Uid>, ops: seq<Op>, s: Uid, user: Uid)
    requires var t := Run(Start(users), ops);
             s in t.sessions && t.sessions[s].isPrivate && user != t.sessions[s].creator && (s, user) in t.players
    ensures var creator := Run(Start(users), ops).sessions[s].creator;
            exists i: nat, j: nat ::
              && CameInAt(users, ops, i, s, user)
              && (F.Happened(F.Start(users), SocialOps(ops[..i]), j, F.Answer(creator, user, F.Accepted))
                  || F.Happened(F.Start(users), SocialOps(ops[..i]), j, F.Answer(user, creator, F.Accepted)))
  {
    PlayersWereAllowed(users, ops, s, user);
    var i: nat :| InSince(users, ops, i, s, user);
    SessionsStay(users, ops, i, s);
    var t := Run(Start(users), ops[..i]);
    var creator := t.sessions[s].creator;
    SocialIsFriendsRun(users, ops[..i]);
    if F.Has(t.social, user, creator, F.Accepted) {
      F.AcceptedWasRequestedAndAccepted(users, SocialOps(ops[..i]), user, creator);
      var j: nat :| F.Happened(F.Start(users), SocialOps(ops[..i]), j, F.Answer(creator, user, F.Accepted));
    } else {
      F.AcceptedWasRequestedAndAccepted(users, SocialOps(ops[..i]), creator, user);
      var j: nat :| F.Happened(F.Start(users), SocialOps(ops[..i]), j, F.Answer(user, creator, F.Accepted));
    }
  }

  /** Sessions are never removed or changed. */
  lemma {:induction false} SessionsStay(users: set<Uid>, ops: seq<Op>, i: nat, s: Uid)
    requires i <= |ops| && s in Run(Start(users), ops[..i]).sessions
    ensures s in Run(Start(users), ops).sessions
    ensures Run(Start(users), ops).sessions[s] == Run(Start(users), ops[..i]).sessions[s]
    decreases |ops|
  {
    if i < |ops| {
      var n := |ops| - 1;
      assert ops[..n][..i] == ops[..i];
      SessionsStay(users, ops[..n], i, s);
      Reachable(users, ops[..n]);
      StepMovesCreator(Run(Start(users), ops[..n]), ops[n], s);
    } else {
      assert ops[..i] == ops;
    }
  }

  /** The creator of a private session is no friend of his own: once he has left he never gets back in. */
  lemma {:induction false} PrivateCreatorCannotRejoin(users: set<Uid>, ops: seq<Op>, s: Uid, team: Uid)
    requires s in Run(Start(users), ops).sessions && Run(Start(users), ops).sessions[s].isPrivate
    ensures var t := Run(Start(users), ops);
            Step(t, Join(s, team, t.sessions[s].creator)) == (t, Refused)
  {
    SocialIsFriendsRun(users, ops);
    F.Reachable(users, SocialOps(ops));
  }

  // ---------------------------------------------------------------------------
  // Conservation by switching
  // ---------------------------------------------------------------------------

  /** An accepted switch moves one player: the two teams change by one, nothing else does. */
  lemma {:induction false} SwitchConserves(t: Tables, s: Uid, user: Uid, team: Uid)
    requires Step(t, Switch(s, user, team)).1 == Done
    ensures var t' := Step(t, Switch(s, user, team)).0;
            var from := t.players[(s, user)];
            && (forall x :: PlayersOf(t', x) == PlayersOf(t, x))
            && TeamCount(t', from) == TeamCount(t, from) - 1
            && TeamCount(t', team) == TeamCount(t, team) + 1
            && (forall x :: x != from && x != team ==> TeamCount(t', x) == TeamCount(t, x))
  {
    var t' := Step(t, Switch(s, user, team)).0;
    var from := t.players[(s, user)];
    assert t'.players.Keys == t.players.Keys;
    assert TeamPlayers(t', from) == TeamPlayers(t, from) - {(s, user)};
    assert TeamPlayers(t', team) == TeamPlayers(t, team) + {(s, user)};
    forall x | x != from && x != team ensures TeamCount(t', x) == TeamCount(t, x) {
      assert TeamPlayers(t', x) == TeamPlayers(t, x);
    }
  }

  // ---------------------------------------------------------------------------
  // Capacity
  // ---------------------------------------------------------------------------

  ghost predicate WithinCapacity(t: Tables) {
    forall team :: team in t.teams && t.teams[team] in t.sessions ==>
      TeamCount(t, team) <= t.sessions[t.teams[team]].maxPlayersPerTeam
  }

  lemma JoinCounts(t: Tables, k: (Uid, Uid), team: Uid, x: Uid)
    requires k !in t.players
    ensures TeamCount(t.(players := t.players[k := team]), x) == TeamCount(t, x) + if x == team then 1 else 0
  {
    var t' := t.(players := t.players[k := team]);
    assert TeamPlayers(t', x) == TeamPlayers(t, x) + if x == team then {k} else {};
  }

  lemma LeaveCounts(t: Tables, k: (Uid, Uid), x: Uid)
    ensures TeamCount(t.(players := t.players - {k}), x) <= TeamCount(t, x)
  {
    assert TeamPlayers(t.(players := t.players - {k}), x) == TeamPlayers(t, x) - {k};
  }

  lemma StepKeepsCapacity(t: Tables, op: Op)
    requires Inv(t) && WithinCapacity(t) && !op.Switch?
    ensures WithinCapacity(Step(t, op).0)
  {
    var t' := Step(t, op).0;
    if Step(t, op).1 != Refused {
      forall team | team in t'.teams && t'.teams[team] in t'.sessions
        ensures TeamCount(t', team) <= t'.sessions[t'.teams[team]].maxPlayersPerTeam
      {
        assert TeamPlayers(t', team) == TeamPlayers(t.(players := t'.players), team);
        match op {
          case Create(s, creator, _, _, _, _, _, _, _) =>
            JoinCounts(t, (s, creator), CreatorTeam(op), team);
            if team !in t.teams {
              assert TeamPlayers(t, team) == {};
            }
          case Join(s, to, user) => JoinCounts(t, (s, user), to, team);
          case Leave(s, user, _) => LeaveCounts(t, (s, user), team);
          case Social(_) =>
        }
      }
    }
  }

  /** Over every run of create, join and leave, no team exceeds its capacity. */
  lemma {:induction false} CapacityIsRespected(users: set<Uid>, ops: seq<Op>)
    requires forall i :: 0 <= i < |ops| ==> !ops[i].Switch?
    ensures WithinCapacity(Run(Start(users), ops))
    decreases |ops|
  {
    if ops != [] {
      CapacityIsRespected(users, ops[..|ops| - 1]);
      Reachable(users, ops[..|ops| - 1]);
      StepKeepsCapacity(Run(Start(users), ops[..|ops| - 1]), ops[|ops| - 1]);
    }
  }

  /** Switching does not check capacity: it keeps every team within it exactly when the target has room. */
  lemma {:induction false} SwitchKeepsCapacityExactly(t: Tables, s: Uid, user: Uid, team: Uid)
    requires Inv(t) && WithinCapacity(t) && Step(t, Switch(s, user, team)).1 == Done
    ensures WithinCapacity(Step(t, Switch(s, user, team)).0) <==> TeamCount(t, team) < t.sessions[s].maxPlayersPerTeam
  {
    var t' := Step(t, Switch(s, user, team)).0;
    SwitchConserves(t, s, user, team);
    var from := t.players[(s, user)];
    if TeamCount(t, team) < t.sessions[s].maxPlayersPerTeam {
      forall x | x in t'.teams && t'.teams[x] in t'.sessions
        ensures TeamCount(t', x) <= t'.sessions[t'.teams[x]].maxPlayersPerTeam
      {
        assert x == from || x == team || TeamCount(t', x) == TeamCount(t, x);
      }
    }
  }

  /** If the call is a switch that is carried out, its target team had room. */
  predicate FindsRoom(t: Tables, op: Op) {
    op.Switch? && Step(t, op).1 == Done ==>
      op.s in t.sessions && TeamCount(t, op.team) < t.sessions[op.s].maxPlayersPerTeam
  }

  lemma {:induction false} RoomKeepsCapacity(users: set<Uid>, ops: seq<Op>, i: nat)
    requires i <= |ops| && forall k: nat :: k < i ==> FindsRoom(Run(Start(users), ops[..k]), ops[k])
    ensures WithinCapacity(Run(Start(users), ops[..i]))
  {
    if i > 0 {
      var t, op := Run(Start(users), ops[..i - 1]), ops[i - 1];
      RoomKeepsCapacity(users, ops, i - 1);
      Reachable(users, ops[..i - 1]);
      RunPrefix(Start(users), ops, i - 1);
      if !op.Switch? {
        StepKeepsCapacity(t, op);
      } else if Step(t, op).1 == Done {
        SwitchKeepsCapacityExactly(t, op.s, op.user, op.team);
      }
    }
  }

  /** Over every run: no team was ever over capacity if and only if every switch carried out found room. */
  lemma {:induction false} CapacityOverRunsExactly(users: set<Uid>, ops: seq<Op>)
    ensures (forall i: nat :: i <= |ops| ==> WithinCapacity(Run(Start(users), ops[..i]))) <==>
            (forall i: nat :: i < |ops| ==> FindsRoom(Run(Start(users), ops[..i]), ops[i]))
  {
    if forall i: nat :: i < |ops| ==> FindsRoom(Run(Start(users), ops[..i]), ops[i]) {
      forall i: nat | i <= |ops| ensures WithinCapacity(Run(Start(users), ops[..i])) {
        RoomKeepsCapacity(users, ops, i);
      }
    }
    if forall i: nat :: i <= |ops| ==> WithinCapacity(Run(Start(users), ops[..i])) {
      forall i: nat | i < |ops| ensures FindsRoom(Run(Start(users), ops[..i]), ops[i]) {
        var t, op := Run(Start(users), ops[..i]), ops[i];
        Reachable(users, ops[..i]);
        RunPrefix(Start(users), ops, i);
        assert WithinCapacity(Run(Start(users), ops[..i + 1]));
        if op.Switch? && Step(t, op).1 == Done {
          SwitchKeepsCapacityExactly(t, op.s, op.user, op.team);
        }
      }
    }
  }

  /** One against one, and both on team A. */
  lemma {:induction false} SwitchOverfillsTeam()
    ensures var ops := [Create("s", "a", "A", "B", false, false, OneVOne, false, 10), Join("s", "B", "b"),
                        Switch("s", "b", "A")];
            var t := Run(Start({"a", "b"}), ops);
            "s" in t.sessions && TeamOf(t, "A", "s") && TeamCount(t, "A") == 2 > t.sessions["s"].maxPlayersPerTeam
  {
    var create := Create("s", "a", "A", "B", false, false, OneVOne, false, 10);
    var t1 := Step(Start({"a", "b"}), create).0;
    assert TeamPlayers(t1, "B") == {};
    assert Eligible(t1, "s", "B", "b");
    var t2 := Step(t1, Join("s", "B", "b")).0;
    var t3 := Step(t2, Switch("s", "b", "A")).0;
    RunThree(Start({"a", "b"}), create, Join("s", "B", "b"), Switch("s", "b", "A"));
    assert TeamPlayers(t3, "A") == {("s", "a"), ("s", "b")};
  }

  // ---------------------------------------------------------------------------
  // Remaining spots: one count for the session, one per team
  // ---------------------------------------------------------------------------

  function Max0(n: int): nat {
    if n < 0 then 0 else n
  }

  function Total(counts: seq<nat>): nat {
    if counts == [] then 0 else counts[0] + Total(counts[1..])
  }

  /** `remainingPlayers` of the session: all spots less all players, at least 0. */
  function SessionRemaining(max: nat, counts: seq<nat>): nat {
    Max0(max * |counts| - Total(counts))
  }

  /** The sum of `remainingPlayers` over the team cards, each at least 0. */
  function TeamsRemaining(max: nat, counts: seq<nat>): nat {
    if counts == [] then 0 else Max0(max - counts[0]) + TeamsRemaining(max, counts[1..])
  }

  function Surplus(max: nat, counts: seq<nat>): nat {
    if counts == [] then 0 else Max0(counts[0] - max) + Surplus(max, counts[1..])
  }

  lemma Distribute(max: nat, n: nat)
    ensures max * (n + 1) == max + max * n
  {
  }

  /** Free spots minus surplus players is spots minus players. */
  lemma {:induction false} SpotsBalance(max: nat, counts: seq<nat>)
    ensures max * |counts| - Total(counts) == TeamsRemaining(max, counts) - Surplus(max, counts)
    ensures TeamsRemaining(max, counts) == 0 <==> forall i :: 0 <= i < |counts| ==> counts[i] >= max
    ensures Surplus(max, counts) == 0 <==> forall i :: 0 <= i < |counts| ==> counts[i] <= max
  {
    if counts != [] {
      var rest := counts[1..];
      SpotsBalance(max, rest);
      Distribute(max, |rest|);
      assert forall i :: 0 <= i < |rest| ==> rest[i] == counts[i + 1];
    }
  }

  /**
   The session never shows more free spots than its team cards together, and shows the same number
   exactly when no team is over capacity or none is under it.
   */
  lemma {:induction false} RemainingDisplaysAgreeExactly(max: nat, counts: seq<nat>)
    ensures SessionRemaining(max, counts) <= TeamsRemaining(max, counts)
    ensures SessionRemaining(max, counts) == TeamsRemaining(max, counts) <==>
            (forall i :: 0 <= i < |counts| ==> counts[i] <= max) || (forall i :: 0 <= i < |counts| ==> counts[i] >= max)
  {
    SpotsBalance(max, counts);
  }

  /** Hence on every state reached by create, join and leave the two displays of a session agree. */
  lemma {:induction false} DisplaysAgreeOverRuns(users: set<Uid>, ops: seq<Op>, s: Uid, teams: seq<Uid>)
    requires forall i :: 0 <= i < |ops| ==> !ops[i].Switch?
    requires s in Run(Start(users), ops).sessions
    requires forall team :: team in teams ==> TeamOf(Run(Start(users), ops), team, s)
    ensures var t := Run(Start(users), ops);
            var counts := seq(|teams|, i requires 0 <= i < |teams| => TeamCount(t, teams[i]));
            SessionRemaining(t.sessions[s].maxPlayersPerTeam, counts)
            == TeamsRemaining(t.sessions[s].maxPlayersPerTeam, counts)
  {
    var t := Run(Start(users), ops);
    var max := t.sessions[s].maxPlayersPerTeam;
    var counts := seq(|teams|, i requires 0 <= i < |teams| => TeamCount(t, teams[i]));
    CapacityIsRespected(users, ops);
    forall i | 0 <= i < |counts| ensures counts[i] <= max {
      assert teams[i] in teams;
    }
    RemainingDisplaysAgreeExactly(max, counts);
  }
}
