/**
 What sessions, teams, players and chats owe to the calls of a run (module Roster): every session is
 the one somebody asked for, and every player is on the team that the last call about him put him on.
 */
module RosterHistory {
  import opened Common
  import opened Histories
  import F = Friends
  import opened Roster

  /** The tables before call `i`. */
  function At(users: set<Uid>, ops: seq<Op>, i: nat): Tables
    requires i <= |ops|
  {
    Run(Start(users), ops[..i])
  }

  lemma NextAt(users: set<Uid>, ops: seq<Op>, i: nat)
    requires i < |ops|
    ensures At(users, ops, i + 1) == Step(At(users, ops, i), ops[i]).0
  {
    RunPrefix(Start(users), ops, i);
  }

  // ---------------------------------------------------------------------------
  // Sessions and teams
  // ---------------------------------------------------------------------------

  /** The players each mode of play allows on a team. */
  predicate Capacity(mode: GameMode, n: nat) {
    && (mode == OneVOne ==> n == 1) && (mode == TwoVTwo ==> n == 2) && (mode == ThreeVThree ==> n == 3)
    && (mode == FourVFour ==> n == 4) && (mode == FiveVFive ==> n == 5) && (mode == SixVSix ==> n == 6)
    && (mode == SevenVSeven ==> n == 7) && (mode == EightVEight ==> n == 8) && (mode == TenVTen ==> n == 10)
    && (mode == ElevenVEleven ==> n == 11)
  }

  /** A creation that goes through. */
  predicate Creates(t: Tables, op: Op, s: Uid) {
    op.Create? && op.s == s && s !in t.sessions && op.teamA !in t.teams && op.teamB !in t.teams && op.teamA != op.teamB
  }

  /** It asks for this session. */
  predicate AsksFor(t: Tables, op: Op, s: Uid, row: Session) {
    && Creates(t, op, s)
    && row.creator == op.creator && row.isPrivate == op.isPrivate && row.start == op.start
    && Capacity(op.mode, row.maxPlayersPerTeam)
  }

  function Asked(users: set<Uid>, ops: seq<Op>, s: Uid, row: Session): nat -> bool {
    (i: nat) => i < |ops| && AsksFor(At(users, ops, i), ops[i], s, row)
  }

  lemma StepMovesSession(t: Tables, op: Op, s: Uid, row: Session)
    ensures var t' := Step(t, op).0;
            (s in t'.sessions && t'.sessions[s] == row) <==>
            AsksFor(t, op, s, row) || (s in t.sessions && t.sessions[s] == row)
  {
  }

  /** Every session has the creator, visibility, start and capacity that its creator asked for. */
  lemma {:induction false} SessionExactly(users: set<Uid>, ops: seq<Op>, n: nat, s: Uid, row: Session)
    requires n <= |ops|
    ensures var t := At(users, ops, n);
            (s in t.sessions && t.sessions[s] == row) <==> Once(n, Asked(users, ops, s, row))
  {
    if n > 0 {
      SessionExactly(users, ops, n - 1, s, row);
      NextAt(users, ops, n - 1);
      StepMovesSession(At(users, ops, n - 1), ops[n - 1], s, row);
      OnceNext(n - 1, Asked(users, ops, s, row));
    }
  }

  predicate MakesTeam(t: Tables, op: Op, s: Uid, team: Uid) {
    Creates(t, op, s) && (team == op.teamA || team == op.teamB)
  }

  function TeamMade(users: set<Uid>, ops: seq<Op>, s: Uid, team: Uid): nat -> bool {
    (i: nat) => i < |ops| && MakesTeam(At(users, ops, i), ops[i], s, team)
  }

  lemma StepMovesTeam(t: Tables, op: Op, s: Uid, team: Uid)
    ensures TeamOf(Step(t, op).0, team, s) <==> MakesTeam(t, op, s, team) || TeamOf(t, team, s)
  {
  }

  /** The teams of a session are the two it was created with. */
  lemma {:induction false} TeamExactly(users: set<Uid>, ops: seq<Op>, n: nat, s: Uid, team: Uid)
    requires n <= |ops|
    ensures TeamOf(At(users, ops, n), team, s) <==> Once(n, TeamMade(users, ops, s, team))
  {
    if n > 0 {
      TeamExactly(users, ops, n - 1, s, team);
      NextAt(users, ops, n - 1);
      StepMovesTeam(At(users, ops, n - 1), ops[n - 1], s, team);
      OnceNext(n - 1, TeamMade(users, ops, s, team));
    }
  }

  // ---------------------------------------------------------------------------
  // Players
  // ---------------------------------------------------------------------------

  predicate Plays(t: Tables, s: Uid, user: Uid) {
    (s, user) in t.players
  }

  /** He may join: room, not yet a player, no block with a player, and a friend if the session is private. */
  predicate MayJoin(t: Tables, s: Uid, team: Uid, user: Uid) {
    && s in t.sessions && team in t.teams && t.teams[team] == s
    && |set k | k in t.players && t.players[k] == team| < t.sessions[s].maxPlayersPerTeam
    && !Plays(t, s, user)
    && (t.sessions[s].isPrivate ==>
          var creator := t.sessions[s].creator;
          F.Has(t.social, user, creator, F.Accepted) || F.Has(t.social, creator, user, F.Accepted))
    && (forall k :: k in t.players && k.0 == s ==> (k.1, user) !in t.social.blocks && (user, k.1) !in t.social.blocks)
  }

  /** He may leave: he plays, and the session has not begun. */
  predicate MayLeave(t: Tables, s: Uid, user: Uid, now: int) {
    s in t.sessions && now <= t.sessions[s].start && Plays(t, s, user)
  }

  /** He may switch to that team: it is another one of his session. */
  predicate MaySwitch(t: Tables, s: Uid, user: Uid, team: Uid) {
    Plays(t, s, user) && team in t.teams && t.teams[team] == s && t.players[(s, user)] != team
  }

  /** The call puts him on the team: the creator on the first with team A's name, others by joining or switching. */
  predicate PutsOn(t: Tables, op: Op, s: Uid, user: Uid, team: Uid) {
    match op
    case Create(_, creator, teamA, teamB, sameNames, bListedFirst, _, _, _) =>
      Creates(t, op, s) && user == creator && team == if sameNames && bListedFirst then teamB else teamA
    case Join(s1, team1, user1) => s1 == s && user1 == user && team1 == team && MayJoin(t, s, team, user)
    case Switch(s1, user1, team1) => s1 == s && user1 == user && team1 == team && MaySwitch(t, s, user, team)
    case _ => false
  }

  /** The call takes him off the team he is on. */
  predicate TakesOff(t: Tables, op: Op, s: Uid, user: Uid) {
    match op
    case Leave(s1, user1, now) => s1 == s && user1 == user && MayLeave(t, s, user, now)
    case Switch(s1, user1, team) => s1 == s && user1 == user && MaySwitch(t, s, user, team)
    case _ => false
  }

  function PutOn(users: set<Uid>, ops: seq<Op>, s: Uid, user: Uid, team: Uid): nat -> bool {
    (i: nat) => i < |ops| && PutsOn(At(users, ops, i), ops[i], s, user, team)
  }

  function TakenOff(users: set<Uid>, ops: seq<Op>, s: Uid, user: Uid): nat -> bool {
    (i: nat) => i < |ops| && TakesOff(At(users, ops, i), ops[i], s, user)
  }

  predicate IsOn(t: Tables, s: Uid, user: Uid, team: Uid) {
    (s, user) in t.players && t.players[(s, user)] == team
  }

  lemma MayJoinIfEligible(t: Tables, s: Uid, team: Uid, user: Uid)
    ensures MayJoin(t, s, team, user) <==> Eligible(t, s, team, user)
  {
    EligibleExactly(t, s, team, user);
  }

  lemma StepMovesPlayerTeam(t: Tables, op: Op, s: Uid, user: Uid, team: Uid)
    requires Inv(t)
    ensures IsOn(Step(t, op).0, s, user, team) <==>
            PutsOn(t, op, s, user, team) || (IsOn(t, s, user, team) && !TakesOff(t, op, s, user))
  {
    if op.Join? {
      MayJoinIfEligible(t, op.s, op.team, op.user);
    }
  }

  /** Over every run: a user is on a team exactly if a call put him there and none has taken him off since. */
  lemma {:induction false} PlayerExactly(users: set<Uid>, ops: seq<Op>, n: nat, s: Uid, user: Uid, team: Uid)
    requires n <= |ops|
    ensures IsOn(At(users, ops, n), s, user, team)
            <==> Since(n, PutOn(users, ops, s, user, team), TakenOff(users, ops, s, user))
  {
    if n > 0 {
      PlayerExactly(users, ops, n - 1, s, user, team);
      Reachable(users, ops[..n - 1]);
      NextAt(users, ops, n - 1);
      StepMovesPlayerTeam(At(users, ops, n - 1), ops[n - 1], s, user, team);
      SinceNext(n - 1, PutOn(users, ops, s, user, team), TakenOff(users, ops, s, user));
    }
  }

  // ---------------------------------------------------------------------------
  // The chat
  // ---------------------------------------------------------------------------

  /** The call adds him to the chat: he creates the session, or joins one that is not his. */
  predicate EntersChat(t: Tables, op: Op, s: Uid, user: Uid) {
    || (Creates(t, op, s) && op.creator == user)
    || (op.Join? && op.s == s && op.user == user && MayJoin(t, s, op.team, user) && t.sessions[s].creator != user)
  }

  predicate LeavesChat(t: Tables, op: Op, s: Uid, user: Uid) {
    op.Leave? && op.s == s && op.user == user && MayLeave(t, s, user, op.now)
  }

  function ChatEntered(users: set<Uid>, ops: seq<Op>, s: Uid, user: Uid): nat -> bool {
    (i: nat) => i < |ops| && EntersChat(At(users, ops, i), ops[i], s, user)
  }

  function ChatLeft(users: set<Uid>, ops: seq<Op>, s: Uid, user: Uid): nat -> bool {
    (i: nat) => i < |ops| && LeavesChat(At(users, ops, i), ops[i], s, user)
  }

  lemma StepMovesChat(t: Tables, op: Op, s: Uid, user: Uid)
    requires Inv(t)
    ensures (s, user) in Step(t, op).0.chat <==>
            EntersChat(t, op, s, user) || ((s, user) in t.chat && !LeavesChat(t, op, s, user))
  {
    if op.Join? {
      MayJoinIfEligible(t, op.s, op.team, op.user);
    }
  }

  lemma {:induction false} ChatExactly(users: set<Uid>, ops: seq<Op>, n: nat, s: Uid, user: Uid)
    requires n <= |ops|
    ensures (s, user) in At(users, ops, n).chat
            <==> Since(n, ChatEntered(users, ops, s, user), ChatLeft(users, ops, s, user))
  {
    if n > 0 {
      ChatExactly(users, ops, n - 1, s, user);
      Reachable(users, ops[..n - 1]);
      NextAt(users, ops, n - 1);
      StepMovesChat(At(users, ops, n - 1), ops[n - 1], s, user);
      SinceNext(n - 1, ChatEntered(users, ops, s, user), ChatLeft(users, ops, s, user));
    }
  }

  // ---------------------------------------------------------------------------
  // Answers, and what a private session means
  // ---------------------------------------------------------------------------

  /** Which calls are refused. */
  lemma {:induction false} AnswersExactly(users: set<Uid>, ops: seq<Op>, op: Op)
    ensures var t := Run(Start(users), ops);
            Step(t, op).1 != Refused <==>
            match op
            case Create(s, _, _, _, _, _, _, _, _) => Creates(t, op, s)
            case Join(s, team, user) => MayJoin(t, s, team, user)
            case Leave(s, user, now) => MayLeave(t, s, user, now)
            case Switch(s, user, team) => MaySwitch(t, s, user, team)
            case Social(f) => F.Step(t.social, f).1 == F.Done
  {
    if op.Join? {
      MayJoinIfEligible(Run(Start(users), ops), op.s, op.team, op.user);
    }
  }

  /** A session is not there before the call that creates it, and keeps its row after that. */
  lemma CreatedOnce(users: set<Uid>, ops: seq<Op>, c: nat, s: Uid)
    requires c < |ops| && Creates(At(users, ops, c), ops[c], s)
    ensures forall i: nat :: i <= c ==> s !in Run(Start(users), ops[..i]).sessions
    ensures var t := Run(Start(users), ops);
            s in t.sessions && t.sessions[s].creator == ops[c].creator && t.sessions[s].isPrivate == ops[c].isPrivate
  {
    forall i: nat | i <= c ensures s !in Run(Start(users), ops[..i]).sessions {
      assert ops[..c][..i] == ops[..i];
      if s in Run(Start(users), ops[..i]).sessions {
        SessionsStay(users, ops[..c], i, s);
      }
    }
    NextAt(users, ops, c);
    SessionsStay(users, ops, c + 1, s);
  }

  /** Among the friendship calls of `ops` one of the two accepts the other. */
  ghost predicate AcceptedIn(users: set<Uid>, ops: seq<Op>, a: Uid, b: Uid) {
    exists j: nat ::
      || F.Happened(F.Start(users), SocialOps(ops), j, F.Answer(a, b, F.Accepted))
      || F.Happened(F.Start(users), SocialOps(ops), j, F.Answer(b, a, F.Accepted))
  }

  /**
   If call `c` created a private session, then whoever else plays in it has joined after one of the
   two, he and the creator, had accepted the other's request.
   */
  lemma {:induction false} PrivateMeansAccepted(users: set<Uid>, ops: seq<Op>, c: nat, s: Uid, user: Uid)
    requires c < |ops| && Creates(At(users, ops, c), ops[c], s) && ops[c].isPrivate && user != ops[c].creator
    requires Plays(Run(Start(users), ops), s, user)
    ensures exists i: nat ::
              && c < i < |ops| && ops[i].Join? && ops[i].s == s && ops[i].user == user
              && AcceptedIn(users, ops[..i], ops[c].creator, user)
  {
    CreatedOnce(users, ops, c, s);
    PrivatePlayersWereAccepted(users, ops, s, user);
    var creator := ops[c].creator;
    var i: nat, j: nat :|
      && CameInAt(users, ops, i, s, user)
      && (F.Happened(F.Start(users), SocialOps(ops[..i]), j, F.Answer(creator, user, F.Accepted))
          || F.Happened(F.Start(users), SocialOps(ops[..i]), j, F.Answer(user, creator, F.Accepted)));
    assert AcceptedIn(users, ops[..i], creator, user);
  }
}
