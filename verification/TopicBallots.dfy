/** The ballots of a match: only topics that can be voted for are ever tallied. */
module TopicBallots {
  import opened MatchTypes
  import opened Wrappers
  import opened OrderedMap
  import opened MatchSpec
  import opened MatchRuns
  import Basics
  import Codec
  import MatchInvariants
  import Rounds
  import TopicVoting

  function Candidates(m: Machine): seq<string> {
    if m.st.candidateTopics.Some? then m.st.candidateTopics.value else []
  }

  /** Every ballot names a candidate. */
  ghost predicate BallotsValid(m: Machine) {
    forall p :: p in Ballots(m) ==> Ballots(m)[p] in Candidates(m)
  }

  lemma SameBallots(m: Machine, after: Machine)
    requires BallotsValid(m)
    requires after.st.candidateTopics == m.st.candidateTopics && after.st.topicVotes == m.st.topicVotes
    ensures BallotsValid(after)
  {
    assert Ballots(after) == Ballots(m) && Candidates(after) == Candidates(m);
  }

  lemma StepKeepsBallots(m: Machine, op: Op, src: Source, clock: Clock)
    requires MatchInvariants.Inv(m) && BallotsValid(m)
    ensures BallotsValid(Step(m, op, src, clock))
  {
    if op.ReloadOp? {
      ReloadKeepsBallots(m, src, clock);
    } else if op.VoteOp? || op.InitVotingOp? {
      VotingKeepsBallots(m, op, src, clock);
    } else {
      hide Step;
      OthersKeepBallots(m, op, src, clock);
      SameBallots(m, Step(m, op, src, clock));
    }
  }

  lemma ReloadKeepsBallots(m: Machine, src: Source, clock: Clock)
    requires MatchInvariants.Inv(m) && BallotsValid(m)
    ensures BallotsValid(Step(m, ReloadOp, src, clock))
  {
    hide Reload, MatchInvariants.Inv, MatchInvariants.Backwards, Codec.Deserialize, Codec.EraseAnswer;
    assert Step(m, ReloadOp, src, clock) == Reload(m);
    hide Step;
    MatchInvariants.FailoverLosesOnlyTheKey(m);
    SameBallots(m, Reload(m));
  }

  lemma VotingKeepsBallots(m: Machine, op: Op, src: Source, clock: Clock)
    requires BallotsValid(m) && (op.VoteOp? || op.InitVotingOp?)
    ensures BallotsValid(Step(m, op, src, clock))
  {
    hide CandidatesFor;
  }

  lemma OthersKeepBallots(m: Machine, op: Op, src: Source, clock: Clock)
    requires !op.ReloadOp? && !op.VoteOp? && !op.InitVotingOp?
    ensures var after := Step(m, op, src, clock).st;
            after.candidateTopics == m.st.candidateTopics && after.topicVotes == m.st.topicVotes
  {
    hide EvaluatePlayers, Rounds.Survivors, Rounds.EliminationsForRound, DetermineWinner, Promote;
    hide TopicVoting.Resolve, CardsToOffer, CheckAnswer, NewAnswer, Put;
  }

  lemma {:induction false} RunKeepsBallots(matchId: string, roomId: string, players: seq<PlayerInfo>, calls: seq<Call>, src: Source)
    requires Basics.Distinct(Ids(players))
    ensures BallotsValid(Run(Create(matchId, roomId, players), calls, src))
  {
    hide Step, MatchInvariants.Inv;
    if calls != [] {
      var n := |calls| - 1;
      hide BallotsValid;
      RunKeepsBallots(matchId, roomId, players, calls[..n], src);
      MatchInvariants.EveryRunSurvivesFailover(matchId, roomId, players, calls[..n], src);
      StepKeepsBallots(Run(Create(matchId, roomId, players), calls[..n], src), calls[n].op, src, calls[n].clock);
    }
  }

  /** The counts of the listed topics, summed. */
  function Total(counts: map<string, nat>, topics: seq<string>): nat
    requires forall t :: t in topics ==> t in counts
  {
    if topics == [] then 0 else counts[topics[0]] + Total(counts, topics[1..])
  }

  lemma {:induction false} TotalIsVotes(votes: map<string, string>, candidates: seq<string>, topics: seq<string>)
    requires forall t :: t in topics ==> t in candidates
    ensures Total(TopicVoting.Tally(votes, candidates), topics) == TopicVoting.TotalVotes(votes, topics)
  {
    if topics != [] { TotalIsVotes(votes, candidates, topics[1..]); }
  }

  /** Over every run, failovers included, the tallies sum to the number of players who have voted:
      no ballot is lost and none counts twice.  `topics` lists the tallied topics, each once. */
  lemma TalliesSumToVoters(matchId: string, roomId: string, players: seq<PlayerInfo>, calls: seq<Call>, src: Source, topics: seq<string>)
    requires Basics.Distinct(Ids(players)) && Basics.Distinct(topics)
    requires var m := Run(Create(matchId, roomId, players), calls, src);
             forall t :: t in topics <==> t in TopicVoting.Tally(Ballots(m), Candidates(m))
    ensures var m := Run(Create(matchId, roomId, players), calls, src);
            Total(TopicVoting.Tally(Ballots(m), Candidates(m)), topics) == |Ballots(m)|
  {
    hide Run, Create;
    RunKeepsBallots(matchId, roomId, players, calls, src);
    var m := Run(Create(matchId, roomId, players), calls, src);
    var votes := Ballots(m);
    TotalIsVotes(votes, Candidates(m), topics);
    TopicVoting.TalliesCountVoters(votes, topics);
    assert TopicVoting.VotersOf(votes, topics) == votes.Keys;
  }

  // ---- whose vote counts ----

  /** The vote is taken: voting is open, the player active and the topic a candidate. */
  predicate VoteTaken(m: Machine, p: string, topic: string, now: int) {
    && m.st.status == TopicVoting && (m.st.phaseEndsAt.Some? ==> now < m.st.phaseEndsAt.value)
    && p in m.st.players.m && m.st.players.m[p].status == Active
    && topic in Candidates(m)
  }

  /** A vote that is taken becomes the player's ballot and touches no other, and is logged if it changes the
      ballot; any other vote is an error and changes nothing. */
  lemma VoteTakesEffect(m: Machine, p: string, topic: string, eventId: Option<string>, clock: Clock)
    ensures var o := VoteBanTopic(m, p, topic, eventId, clock);
            && (o.result.Ok? <==> VoteTaken(m, p, topic, clock(0)))
            && (o.result.Err? ==> o.m == m)
            && (o.result.Ok? ==>
                  && Ballots(o.m) == Ballots(m)[p := topic] && Candidates(o.m) == Candidates(m)
                  && (o.m.log == m.log <==> p in Ballots(m) && Ballots(m)[p] == topic))
  {
    var o := VoteBanTopic(m, p, topic, eventId, clock);
    assert |o.m.log| == |m.log| || |o.m.log| == |m.log| + 1;
    if p in Ballots(m) && Ballots(m)[p] == topic { assert Ballots(m)[p := topic] == Ballots(m); }
  }

  function NextVote(m: Machine, c: Call, p: string, before: Option<string>): Option<string> {
    if c.op.InitVotingOp? then None
    else if c.op.VoteOp? && c.op.playerId == p && VoteTaken(m, p, c.op.topic, c.clock(0)) then Some(c.op.topic)
    else before
  }

  /** The last vote of a player that was taken since a ballot was last opened. */
  function LastVote(m0: Machine, calls: seq<Call>, src: Source, p: string): Option<string> {
    if calls == [] then None
    else
      var n := |calls| - 1;
      NextVote(Run(m0, calls[..n], src), calls[n], p, LastVote(m0, calls[..n], src, p))
  }

  function BallotOf(m: Machine, p: string): Option<string> {
    if p in Ballots(m) then Some(Ballots(m)[p]) else None
  }

  lemma OpenedBallotIsEmpty(m: Machine, c: Option<seq<string>>, ms: Option<int>, src: Source, clock: Clock)
    ensures Ballots(InitTopicVoting(m, c, ms, src, clock).m) == map[]
  {
    hide CandidatesFor;
  }

  lemma ReloadKeepsVote(m: Machine, p: string)
    requires MatchInvariants.Inv(m)
    ensures BallotOf(Reload(m), p) == BallotOf(m, p)
  {
    hide Reload, MatchInvariants.Inv, MatchInvariants.Backwards, Codec.Deserialize;
    MatchInvariants.FailoverLosesOnlyTheKey(m);
  }

  lemma VoteKeepsVote(m: Machine, q: string, topic: string, e: Option<string>, clock: Clock, p: string)
    ensures BallotOf(VoteBanTopic(m, q, topic, e, clock).m, p)
            == if q == p && VoteTaken(m, p, topic, clock(0)) then Some(topic) else BallotOf(m, p)
  {
    hide VoteBanTopic, VoteTaken;
    VoteTakesEffect(m, q, topic, e, clock);
  }

  lemma VotingSteps(m: Machine, op: Op, src: Source, clock: Clock)
    ensures op.VoteOp? ==> Step(m, op, src, clock) == VoteBanTopic(m, op.playerId, op.topic, op.eventId, clock).m
    ensures op.InitVotingOp? ==> Step(m, op, src, clock) == InitTopicVoting(m, op.candidates, op.votingMs, src, clock).m
    ensures op.ReloadOp? ==> Step(m, op, src, clock) == Reload(m)
  {
    hide VoteBanTopic, InitTopicVoting, Reload;
  }

  lemma StepKeepsVote(m: Machine, c: Call, src: Source, p: string)
    requires MatchInvariants.Inv(m)
    ensures BallotOf(Step(m, c.op, src, c.clock), p) == NextVote(m, c, p, BallotOf(m, p))
  {
    hide Step, VoteBanTopic, InitTopicVoting, Reload, VoteTaken, MatchInvariants.Inv;
    VotingSteps(m, c.op, src, c.clock);
    if c.op.VoteOp? {
      VoteKeepsVote(m, c.op.playerId, c.op.topic, c.op.eventId, c.clock, p);
    } else if c.op.InitVotingOp? {
      OpenedBallotIsEmpty(m, c.op.candidates, c.op.votingMs, src, c.clock);
    } else if c.op.ReloadOp? {
      ReloadKeepsVote(m, p);
    } else {
      OthersKeepBallots(m, c.op, src, c.clock);
    }
  }

  /** Over every run, failovers included: a player's ballot is the last vote of theirs that was taken since
      the ballot was opened. */
  lemma {:induction false} BallotsAreLastVotes(matchId: string, roomId: string, players: seq<PlayerInfo>, calls: seq<Call>, src: Source, p: string)
    requires Basics.Distinct(Ids(players))
    ensures var m0 := Create(matchId, roomId, players);
            BallotOf(Run(m0, calls, src), p) == LastVote(m0, calls, src, p)
  {
    hide Step, NextVote, MatchInvariants.Inv;
    var m0 := Create(matchId, roomId, players);
    if calls != [] {
      hide BallotOf, Create;
      var n := |calls| - 1;
      BallotsAreLastVotes(matchId, roomId, players, calls[..n], src, p);
      MatchInvariants.EveryRunSurvivesFailover(matchId, roomId, players, calls[..n], src);
      StepKeepsVote(Run(m0, calls[..n], src), calls[n], src, p);
    }
  }

  // ---- what closing the vote stores ----

  /** What is stored when voting closes: banned and active topics make up the candidates, as many are banned
      as asked for or there are, no active topic has more of the stored ballots than a banned one, and the
      logged counts are the ballots of each candidate. */
  lemma StoredBansAreTopVoted(m: Machine, bannedCount: nat, src: Source, clock: Clock, b: string, a: string)
    ensures var after := ResolveTopicVoting(m, bannedCount, src, clock);
            && after.st.bannedTopics.Some? && after.st.activeTopics.Some?
            && var banned, active := after.st.bannedTopics.value, after.st.activeTopics.value;
               && multiset(banned) + multiset(active) == multiset(Candidates(m))
               && |banned| == Basics.Min(bannedCount, |Candidates(m)|)
               && (b in banned && a in active ==>
                     |TopicVoting.VotersFor(Ballots(m), b)| >= |TopicVoting.VotersFor(Ballots(m), a)|)
               && |after.log| == |m.log| + 1 && after.log[..|m.log|] == m.log
               && after.log[|m.log|].event
                    == TopicVotingFinished(banned, active, map t | t in Candidates(m) :: |TopicVoting.VotersFor(Ballots(m), t)|)
    ensures var after := ResolveTopicVoting(m, bannedCount, src, clock);
            Ballots(after) == Ballots(m) && Candidates(after) == Candidates(m)
  {
    var rolls := src.rolls(m.st.id, "topic-ban-tiebreak");
    TopicVoting.BansPartitionCandidates(Candidates(m), Ballots(m), rolls, bannedCount);
    var r := TopicVoting.Resolve(Candidates(m), Ballots(m), rolls, bannedCount);
    if b in r.banned && a in r.active {
      TopicVoting.BansAreTopVoted(Candidates(m), Ballots(m), rolls, bannedCount, b, a);
    }
    assert r.voteCounts == map t | t in Candidates(m) :: |TopicVoting.VotersFor(Ballots(m), t)|;
    hide TopicVoting.Resolve;
  }

  /** A ballot that opens takes votes for exactly its duration: from every active player, for every
      candidate, until that time after the start. */
  lemma VotingStaysOpen(m: Machine, c: Option<seq<string>>, ms: Option<int>, src: Source, clock: Clock, p: string, topic: string, now: int)
    requires InitTopicVoting(m, c, ms, src, clock).result.Ok?
    ensures var o := InitTopicVoting(m, c, ms, src, clock);
            var duration := if ms.Some? then ms.value else 10000;
            && m.st.status == Created && o.m.st.startedAt == Some(clock(1))
            && Candidates(o.m) == o.result.value && Ballots(o.m) == map[]
            && (c.Some? && c.value != [] ==> o.result.value == c.value)
            && (VoteTaken(o.m, p, topic, now) <==>
                  now < clock(1) + duration && topic in o.result.value
                  && p in m.st.players.m && m.st.players.m[p].status == Active)
  {
    hide TopicVoting.SelectCandidates;
  }
}
