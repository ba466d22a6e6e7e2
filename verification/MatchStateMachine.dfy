/** The match state machine as the server holds it: fields updated in place by each call
    (packages/game-core/src/match-state-machine.ts). */
module MatchMachine {
  import opened MatchTypes
  import opened Wrappers
  import opened OrderedMap
  import opened Rehydrate
  import opened MatchSpec
  import opened Basics
  import MatchRuns
  import CardEngine
  import Cards
  import ClassEngine
  import Codec
  import Mulberry
  import Rounds
  import Text
  import TieBreak
  import TopicVoting

  lemma {:induction false} FilterAppend(ids: seq<string>, x: string, keep: string -> bool)
    ensures Rounds.Filter(ids + [x], keep) == Rounds.Filter(ids, keep) + (if keep(x) then [x] else [])
  {
    if ids == [] {
      assert ids + [x] == [x];
    } else {
      FilterAppend(ids[1..], x, keep);
      var all := ids + [x];
      assert all[0] == ids[0] && all[1..] == ids[1..] + [x];
      var head, rest := if keep(ids[0]) then [ids[0]] else [], Rounds.Filter(ids[1..], keep);
      var tail := if keep(x) then [x] else [];
      assert head + (rest + tail) == (head + rest) + tail;
    }
  }

  lemma EvaluateNone(players: OMap<PlayerInfo>, r: Round)
    ensures EvaluatePlayers(players, r, []) == players && Rounds.Survivors(r, []) == []
  {
  }

  lemma EvaluateOneMore(players: OMap<PlayerInfo>, r: Round, ids: seq<string>, id: string)
    ensures Rounds.Survivors(r, ids + [id]) == Rounds.Survivors(r, ids) + (if Rounds.Survives(r, id) then [id] else [])
    ensures var done := EvaluatePlayers(players, r, ids);
            EvaluatePlayers(players, r, ids + [id]) ==
              if id in done.m then Put(done, id, Evaluated(done.m[id], r, id)) else done
  {
    hide Evaluated;
    FilterAppend(ids, id, x => Rounds.Survives(r, x));
    assert (ids + [id])[..|ids|] == ids;
  }

  lemma EliminatedMeaning(r: Round, ids: seq<string>, id: string)
    requires id in ids
    ensures id in Rounds.EliminationsForRound(r, ids) <==> !Rounds.Survives(r, id)
  {
  }

  /** `resolveBannedTopics` makes its own generator. */
  method ResolveBallot(candidates: seq<string>, votes: map<string, string>, seed: Mulberry.Word, bannedCount: nat)
    returns (result: TopicVoting.VotingResult)
    ensures result == TopicVoting.Resolve(candidates, votes, Mulberry.RollsOf(seed), bannedCount)
  {
    hide TopicVoting.Resolve, Mulberry.RollsOf;
    var rng := new Mulberry.Generator(seed);
    result := TopicVoting.ResolveBannedTopics(candidates, votes, rng, bannedCount);
  }

  class MatchStateMachine {
    const src: Source
    var state: MatchState
    var currentRound: Option<Round>
    var eventLog: seq<Entry>
    var eventSeqCounter: int
    var playerClasses: map<string, ClassId>
    var playerHands: map<string, seq<CardId>>
    var activeEffects: map<string, seq<ActiveEffect>>
    var playerPlayedCards: map<string, set<CardId>>
    var playerPickedCards: map<string, set<CardId>>
    var aoeCountByRound: map<int, nat>
    var secondChancePlayers: set<string>

    constructor (matchId: string, roomId: string, players: seq<PlayerInfo>, src: Source)
      ensures Model() == Create(matchId, roomId, players) && this.src == src
    {
      this.src := src;
      state := Create(matchId, roomId, players).st;
      currentRound := None;
      eventLog := [];
      eventSeqCounter := 0;
      playerClasses, playerHands, activeEffects := map[], map[], map[];
      playerPlayedCards, playerPickedCards := map[], map[];
      aoeCountByRound, secondChancePlayers := map[], {};
    }

    function Kept(): Mirrors
      reads this
    {
      Mirrors(playerClasses, playerHands, activeEffects, playerPlayedCards, playerPickedCards, aoeCountByRound, secondChancePlayers)
    }

    function Model(): Machine
      reads this
    {
      Machine(state, currentRound, eventLog, eventSeqCounter, Kept())
    }

    method LogEvent(e: Event, at: int) returns (seqNo: int)
      modifies this`eventLog, this`eventSeqCounter
      ensures Model() == Log(old(Model()), e, at)
      ensures seqNo == eventSeqCounter
    {
      eventSeqCounter := eventSeqCounter + 1;
      seqNo := eventSeqCounter;
      eventLog := eventLog + [Entry(e, at, seqNo)];
    }

    // ---- transitions and rounds ----

    method DoTransition(to: MatchStatus, clock: Clock) returns (r: Result<(), MatchError>)
      modifies this
      ensures Transition(old(Model()), to, clock) == Outcome(Model(), r)
    {
      if !CanTransition(state.status, to) {
        return Err(InvalidTransition);
      }
      var _ := LogEvent(StateTransition(state.status, to), clock(0));
      state := state.(status := to);
      match to {
        case TopicVoting =>
          state := state.(startedAt := Some(clock(1)));
          state := state.(phaseEndsAt := Some(clock(2) + TOPIC_VOTING_DURATION_MS), roundResultStartedAt := None);
        case Countdown =>
          state := state.(startedAt := Some(clock(1)));
          state := state.(phaseEndsAt := Some(clock(2) + COUNTDOWN_DURATION_MS), roundResultStartedAt := None);
        case RoundResult =>
          var now := clock(1);
          state := state.(roundResultStartedAt := Some(now), phaseEndsAt := Some(now + RESULT_DISPLAY_MS));
        case Finished =>
          state := state.(endedAt := Some(clock(1)), phaseEndsAt := None, roundResultStartedAt := None);
        case RoundEvaluating =>
          state := state.(phaseEndsAt := None, roundResultStartedAt := None);
        case RoundActive =>
          state := state.(phaseEndsAt := None, roundResultStartedAt := None);
          currentRound := None;
        case Created =>
      }
      r := Ok(());
    }

    method BeginRound(question: Question, correctAnswer: string, roundDurationMs: Option<int>, clock: Clock)
      returns (r: Result<Round, MatchError>)
      modifies this
      ensures StartRound(old(Model()), question, correctAnswer, roundDurationMs, clock) == Outcome(Model(), r)
    {
      hide Log, WithDifficulty;
      if state.status != RoundActive {
        return Err(CannotStartRound);
      }
      state := state.(currentRoundNo := state.currentRoundNo + 1);
      state := state.(totalRounds := Max(state.totalRounds, state.currentRoundNo));
      var now := clock(0);
      var endsAt := now + (if roundDurationMs.Some? then roundDurationMs.value else ROUND_DURATION_MS);
      var clientQuestion := WithDifficulty(question);
      secondChancePlayers := {};
      var round := Round(state.id, state.currentRoundNo, clientQuestion, now, endsAt, Empty(), Open,
                         Available(state.surviving), Some(correctAnswer));
      currentRound := Some(round);
      state := state.(phaseEndsAt := Some(endsAt), roundResultStartedAt := None);
      assert Model() == old(Model()).(st := state, round := Some(round), mirrors := old(Kept()).(secondChance := {}));
      var _ := LogEvent(RoundStarted(state.currentRoundNo, clientQuestion, endsAt), clock(1));
      r := Ok(round);
    }

    method Submit(playerId: string, answer: string, serverTimestamp: int, submissionId: Option<string>, clock: Clock)
      returns (r: Result<AnswerState, MatchError>)
      modifies this
      ensures SubmitAnswer(old(Model()), playerId, answer, serverTimestamp, submissionId, clock) == Outcome(Model(), r)
    {
      hide Rounds.IsAnswerMatch;
      hide Text.OfInt;
      if currentRound.None? {
        return Err(RoundNotActive);
      }
      var round := currentRound.value;
      var existing := Get(round.answers, playerId);
      var isSecondChanceRetry := false;
      if existing.Some? {
        if submissionId.Some? && submissionId.value != "" && existing.value.submissionId == submissionId.value {
          return Ok(existing.value);
        }
        if playerId in secondChancePlayers {
          isSecondChanceRetry := true;
        } else {
          return Err(AlreadyAnswered);
        }
      }
      if round.status != Open {
        return Err(RoundNotActive);
      }
      if serverTimestamp > round.endsAt {
        return Err(AnswerSubmissionClosed);
      }
      if playerId !in state.players.m || state.players.m[playerId].status != Active {
        return Err(PlayerNotInRoom);
      }
      if isSecondChanceRetry {
        secondChancePlayers := secondChancePlayers - {playerId};
        var _ := LogEvent(SecondChanceConsumed(playerId, round.roundNo), clock(0));
      }
      var a := NewAnswer(round, playerId, answer, serverTimestamp, submissionId);
      currentRound := Some(round.(answers := Put(round.answers, playerId, a)));
      var _ := LogEvent(AnswerSubmitted(playerId, a.isCorrect, a.responseTimeMs), clock(1));
      r := Ok(a);
    }

    /** The loop of evaluateRound. */
    method EvaluateStarters(round: Round, starting: seq<string>, eliminatedIds: seq<string>)
      returns (players: OMap<PlayerInfo>, survivingIds: seq<string>)
      requires eliminatedIds == Rounds.EliminationsForRound(round, starting)
      ensures players == EvaluatePlayers(state.players, round, starting)
      ensures survivingIds == Rounds.Survivors(round, starting)
    {
      hide EvaluatePlayers;
      hide Rounds.Survivors;
      hide Rounds.EliminationsForRound;
      players, survivingIds := state.players, [];
      EvaluateNone(state.players, round);
      for i := 0 to |starting|
        invariant players == EvaluatePlayers(state.players, round, starting[..i])
        invariant survivingIds == Rounds.Survivors(round, starting[..i])
      {
        var id := starting[i];
        assert starting[..i + 1] == starting[..i] + [id];
        EvaluateOneMore(state.players, round, starting[..i], id);
        EliminatedMeaning(round, starting, id);
        if id in eliminatedIds {
          if id in players.m {
            players := Put(players, id, players.m[id].(status := Eliminated));
          }
        } else {
          survivingIds := survivingIds + [id];
          if id in players.m {
            var ms := round.answers.m[id].responseTimeMs;
            var p := players.m[id];
            p := p.(correctAnswers := p.correctAnswers + 1);
            p := p.(totalResponseTimeMs := p.totalResponseTimeMs + ms);
            p := p.(score := p.score + Rounds.RoundPoints(ms));
            players := Put(players, id, p);
          }
        }
      }
      assert starting[..|starting|] == starting;
    }

    method Evaluate(clock: Clock) returns (r: Result<Evaluation, MatchError>)
      modifies this
      ensures EvaluateRound(old(Model()), clock) == Outcome(Model(), r)
    {
      hide EvaluatePlayers;
      hide Rounds.Survivors;
      hide Rounds.EliminationsForRound;
      if currentRound.None? {
        return Err(NoActiveRound);
      }
      ghost var round0 := currentRound.value;
      currentRound := Some(currentRound.value.(status := Evaluating));
      var round := currentRound.value;
      var starting := if round.startingPlayers.Available? then round.startingPlayers.ids else state.surviving;
      StatusIrrelevant(round0, round, state.players, starting);
      var eliminatedIds := Rounds.EliminationsForRound(round, starting);
      var players, survivingIds := EvaluateStarters(round, starting, eliminatedIds);
      state := state.(players := players, surviving := survivingIds, eliminated := state.eliminated + eliminatedIds);
      currentRound := Some(round.(status := Completed));
      var _ := LogEvent(RoundEvaluated(round.roundNo, round.correctAnswer, |survivingIds|, |eliminatedIds|, eliminatedIds), clock(0));
      r := Ok(Evaluation(survivingIds, eliminatedIds, round.correctAnswer));
    }

    // ---- end of match ----

    method BreakTie(ids: seq<string>, clock: Clock) returns (winner: Option<string>)
      requires src.Coherent()
      modifies this`eventLog, this`eventSeqCounter
      ensures ids == [] ==> winner == None && Model() == old(Model())
      ensures ids != [] ==>
                && winner == TieBreak.Winner(ids, state.players.m, src.hashRolls(state.id))
                && Model() == Log(old(Model()), Event.TieBreak(winner, ids), clock(0))
    {
      if ids == [] { return None; }
      var rng := new Mulberry.Generator(src.hashSeed(state.id));
      hide Mulberry.RollsOf;
      winner := TieBreak.ResolveTieBreak(ids, state.players.m, rng);
      var _ := LogEvent(Event.TieBreak(winner, ids), clock(0));
    }

    method Finish(clock: Clock)
      requires src.Coherent()
      modifies this
      ensures Model() == FinishMatch(old(Model()), src, clock)
    {
      hide TieBreak.Winner;
      hide Source.Coherent;
      var winner: Option<string>;
      if |state.surviving| == 1 {
        winner := Some(state.surviving[0]);
      } else if |state.surviving| == 0 {
        winner := BreakTie(state.eliminated, clock);
      } else {
        winner := BreakTie(state.surviving, clock);
      }
      if winner.Some? && winner.value in state.players.m {
        state := state.(players := Put(state.players, winner.value, state.players.m[winner.value].(status := Winner)));
      }
      state := state.(winnerId := winner);
      state := state.(endedAt := Some(clock(1)));
      var _ := LogEvent(MatchFinished(winner, state.totalRounds), clock(2));
    }

    // ---- presence ----

    method Disconnect(playerId: string, clock: Clock)
      modifies this
      ensures Model() == DisconnectPlayer(old(Model()), playerId, clock)
    {
      hide Log, Put;
      if playerId in state.players.m {
        var player := state.players.m[playerId].(isOnline := false);
        PutTwice(state.players, playerId, player, player.(status := Disconnected));
        state := state.(players := Put(state.players, playerId, player));
        if player.status != Eliminated && player.status != Winner {
          if player.status != Disconnected {
            state := state.(players := Put(state.players, playerId, player.(status := Disconnected)));
            assert Model() == old(Model()).(st := state);
            var _ := LogEvent(PlayerDisconnected(playerId), clock(0));
          }
        }
      }
    }

    method Reconnect(playerId: string, clock: Clock)
      modifies this
      ensures Model() == ReconnectPlayer(old(Model()), playerId, clock)
    {
      if playerId in state.players.m {
        var player := state.players.m[playerId];
        var toActive := player.status == Disconnected;
        if toActive || !player.isOnline {
          player := player.(isOnline := true);
          if toActive {
            player := player.(status := Active);
          }
          state := state.(players := Put(state.players, playerId, player));
          var _ := LogEvent(PlayerReconnected(playerId), clock(0));
        }
      }
    }

    // ---- topic voting ----

    method BeginTopicVoting(candidateTopics: Option<seq<string>>, durationMs: Option<int>, clock: Clock)
      returns (r: Result<seq<string>, MatchError>)
      modifies this
      ensures InitTopicVoting(old(Model()), candidateTopics, durationMs, src, clock) == Outcome(Model(), r)
    {
      hide CandidatesFor;
      hide Transition;
      var candidates := CandidatesFor(state.id, candidateTopics, src);
      state := state.(candidateTopics := Some(candidates), topicVotes := Some(map[]),
                      bannedTopics := Some([]), activeTopics := Some([]));
      var duration := if durationMs.Some? then durationMs.value else TOPIC_VOTING_DURATION_MS;
      var t := DoTransition(TopicVoting, clock);
      if t.Err? {
        return Err(t.error);
      }
      var endsAt := (if state.startedAt.Some? then state.startedAt.value else clock(3)) + duration;
      state := state.(phaseEndsAt := Some(endsAt));
      var _ := LogEvent(TopicVotingStarted(candidates, duration, Some(endsAt)), clock(4));
      r := Ok(candidates);
    }

    method Vote(playerId: string, topic: string, eventId: Option<string>, clock: Clock) returns (r: Result<bool, MatchError>)
      modifies this
      ensures VoteBanTopic(old(Model()), playerId, topic, eventId, clock) == Outcome(Model(), r)
    {
      if state.status != TopicVoting || (state.phaseEndsAt.Some? && clock(0) >= state.phaseEndsAt.value) {
        return Err(TopicVotingClosed);
      }
      if playerId !in state.players.m || state.players.m[playerId].status != Active {
        return Err(PlayerNotInRoom);
      }
      if state.candidateTopics.None? || topic !in state.candidateTopics.value {
        return Err(InvalidTopic);
      }
      var votes := if state.topicVotes.Some? then state.topicVotes.value else map[];
      if playerId in votes && votes[playerId] == topic {
        return Ok(true);
      }
      state := state.(topicVotes := Some(votes[playerId := topic]));
      var _ := LogEvent(TopicVoteSubmitted(playerId, topic, Truthy(eventId)), clock(1));
      r := Ok(true);
    }

    method CloseTopicVoting(bannedCount: nat, clock: Clock) returns (result: TopicVoting.VotingResult)
      requires src.Coherent()
      modifies this
      ensures Model() == ResolveTopicVoting(old(Model()), bannedCount, src, clock)
    {
      hide TopicVoting.Resolve, Mulberry.RollsOf, Log;
      var candidates := if state.candidateTopics.Some? then state.candidateTopics.value else [];
      var votes := if state.topicVotes.Some? then state.topicVotes.value else map[];
      result := ResolveBallot(candidates, votes, src.seed(state.id, "topic-ban-tiebreak"), bannedCount);
      state := state.(bannedTopics := Some(result.banned), activeTopics := Some(result.active));
      assert Model() == old(Model()).(st := state);
      var _ := LogEvent(TopicVotingFinished(result.banned, result.active, result.voteCounts), clock(0));
    }

    // ---- classes and cards ----

    method AssignClasses(ids: seq<string>, seedUsed: string, clock: Clock) returns (assignments: seq<Assignment>)
      requires src.Coherent()
      modifies this
      ensures Model() == ClassAssignment(old(Model()), ids, seedUsed, src, clock)
    {
      hide ClassEngine.Assign;
      hide Mulberry.RollsOf;
      var rng := new Mulberry.Generator(src.seed(seedUsed, "class"));
      assignments := ClassEngine.AssignClasses(ids, rng);
      var _ := LogEvent(ClassAssigned(assignments, seedUsed), clock(0));
      label Logged:
      for i := 0 to |assignments|
        invariant Model() == old@Logged(Model()).(mirrors := old@Logged(Kept()).(classes := AddClasses(old@Logged(playerClasses), assignments[..i])))
        modifies this`playerClasses
      {
        playerClasses := playerClasses[assignments[i].playerId := assignments[i].classId];
        assert assignments[..i + 1][..i] == assignments[..i];
      }
      assert assignments[..|assignments|] == assignments;
    }

    method Offer(playerId: string, roundNo: int, seedUsed: string, clock: Clock) returns (r: Result<seq<CardId>, MatchError>)
      modifies this
      ensures PickOffer(old(Model()), playerId, roundNo, seedUsed, src, clock) == Outcome(Model(), r)
    {
      hide CardEngine.SampleOffer;
      hide Cards.ClassPool;
      if playerId !in playerClasses {
        return Err(PlayerNotInRoom);
      }
      var classId := playerClasses[playerId];
      var excluded := GetOr(playerPickedCards, playerId, {}) + GetOr(playerPlayedCards, playerId, {});
      var pool := NotExcluded(Cards.ClassPool(classId), excluded);
      var rng := new Mulberry.Generator(src.seed(seedUsed, Label(classId)));
      var cards, _ := CardEngine.SampleOfferLoop(pool, rng);
      if |cards| != 3 {
        return Err(OfferInvariant);
      }
      var _ := LogEvent(CardOffer(roundNo, playerId, cards, seedUsed), clock(0));
      playerHands := playerHands[playerId := cards];
      playerPickedCards := playerPickedCards - {playerId};
      r := Ok(cards);
    }

    method Pick(playerId: string, cardId: CardId, offerSeqNo: int, metadata: Metadata, clock: Clock) returns (r: Result<(), MatchError>)
      modifies this
      ensures PickCard(old(Model()), playerId, cardId, offerSeqNo, metadata, clock) == Outcome(Model(), r)
    {
      if playerId !in playerHands || cardId !in playerHands[playerId] {
        return Err(CardNotInHand);
      }
      var hand := playerHands[playerId];
      var roundNo := if currentRound.Some? then currentRound.value.roundNo else 0;
      var stamp := Metadata(Truthy(metadata.eventId), Truthy(metadata.commandId));
      var _ := LogEvent(CardPicked(roundNo, playerId, cardId, offerSeqNo, stamp), clock(0));
      playerHands := playerHands[playerId := Remove(hand, cardId)];
      playerPickedCards := playerPickedCards[playerId := GetOr(playerPickedCards, playerId, {}) + {cardId}];
      r := Ok(());
    }

    /** The bookkeeping of a resolved card, live and on replay. */
    method RecordResolution(
      seqNo: int, playedBy: string, cardId: CardId, targets: seq<string>, roundNo: int,
      temporary: bool, effect: Effect, expiresAt: int)
      modifies this
      ensures Model() == old(Model()).(
        mirrors := Resolved(old(Kept()), seqNo, playedBy, cardId, targets, roundNo, temporary, effect, expiresAt))
    {
      hide GetOr, Discard;
      if temporary {
        var list := GetOr(activeEffects, playedBy, []);
        activeEffects := activeEffects[playedBy := list + [ActiveEffect(seqNo, effect, expiresAt, effect.DurationMs())]];
      }
      if |targets| > 1 {
        aoeCountByRound := aoeCountByRound[roundNo := GetOr(aoeCountByRound, roundNo, 0) + 1];
      }
      playerPlayedCards := playerPlayedCards[playedBy := GetOr(playerPlayedCards, playedBy, {}) + {cardId}];
      playerPickedCards := Discard(playerPickedCards, playedBy, cardId);
    }

    method PlayCardNow(
      playerId: string, cardId: CardId, offerSeqNo: int, effect: Effect, targets: seq<string>,
      serverNow: int, metadata: Metadata, clock: Clock) returns (r: Result<Played, MatchError>)
      modifies this
      ensures PlayCard(old(Model()), playerId, cardId, offerSeqNo, effect, targets, serverNow, metadata, clock) == Outcome(Model(), r)
    {
      if state.status != RoundActive || currentRound.None? || currentRound.value.status != Open {
        return Err(RoundNotActive);
      }
      var isTemporary := effect.Temporary();
      var expiresAt := serverNow + effect.DurationMs();
      var expires := if isTemporary then Some(expiresAt) else None;
      var remaining := if isTemporary then Some(expiresAt - serverNow) else None;
      var roundNo := currentRound.value.roundNo;
      var targetRoundNo := if effect.Shield? then effect.expiresAtRound else roundNo;
      var seqNo := eventSeqCounter + 1;
      var allocatedSeqNo := LogEvent(
        CardResolved(seqNo, state.id, roundNo, targetRoundNo, cardId, offerSeqNo, playerId, targets, effect, isTemporary,
                     serverNow, expires, remaining, Metadata(Truthy(metadata.eventId), Truthy(metadata.commandId))),
        clock(0));
      assert allocatedSeqNo == seqNo;
      RecordResolution(seqNo, playerId, cardId, targets, roundNo, isTemporary, effect, expiresAt);
      if effect.SecondChance? {
        secondChancePlayers := secondChancePlayers + {playerId};
        var _ := LogEvent(SecondChanceGranted(playerId, roundNo), clock(1));
      }
      r := Ok(Played(seqNo, expires, remaining));
    }

    // ---- recovery ----

    method Attach(correctAnswer: string)
      modifies this`currentRound
      ensures Model() == AttachCorrectAnswer(old(Model()), correctAnswer)
    {
      if currentRound.None? { return; }
      if currentRound.value.status != Open { return; }
      currentRound := Some(currentRound.value.(correctAnswer := Some(correctAnswer)));
    }

    method RehydrateEvent(e: Entry)
      modifies this
      ensures Model() == old(Model()).(mirrors := ReplayEvent(old(Kept()), e))
    {
      hide GetOr, Discard, Remove, AddClasses, Resolved;
      match e.event {
        case RoundStarted(_, _, _) => secondChancePlayers := {};
        case SecondChanceGranted(p, _) =>
          if p != "" { secondChancePlayers := secondChancePlayers + {p}; }
        case SecondChanceConsumed(p, _) =>
          if p != "" { secondChancePlayers := secondChancePlayers - {p}; }
        case ClassAssigned(assignments, _) =>
          playerClasses := AddClasses(playerClasses, assignments);
        case CardOffer(_, p, cards, _) =>
          if |cards| == 3 {
            playerHands := playerHands[p := cards];
            playerPickedCards := playerPickedCards - {p};
          }
        case CardPicked(_, p, c, _, _) =>
          playerHands := playerHands[p := Remove(GetOr(playerHands, p, []), c)];
          playerPickedCards := playerPickedCards[p := GetOr(playerPickedCards, p, {}) + {c}];
        case CardResolved(_, _, roundNo, _, c, _, p, targets, effect, temporary, _, expires, _, _) =>
          RecordResolution(e.seqNo, p, c, targets, roundNo, temporary, effect, if expires.Some? then expires.value else 0);
        case _ =>
      }
    }

    method RehydrateCardState()
      modifies this
      ensures Model() == old(Model()).(mirrors := Replay(old(eventLog)))
    {
      playerClasses, playerHands, activeEffects := map[], map[], map[];
      playerPlayedCards, playerPickedCards := map[], map[];
      aoeCountByRound, secondChancePlayers := map[], {};
      var log := eventLog;
      for i := 0 to |log|
        invariant Model() == old(Model()).(mirrors := Replay(log[..i]))
      {
        ReplayAppend(log[..i], log[i]);
        assert log[..i + 1] == log[..i] + [log[i]];
        RehydrateEvent(log[i]);
      }
      assert log[..|log|] == log;
    }

    /** `serialize` */
    function Save(): Codec.Blob
      reads this
    {
      Codec.Serialize(state, currentRound, eventLog)
    }
  }

  /** `MatchStateMachine.deserialize` */
  method Deserialize(blob: Codec.Blob, src: Source) returns (r: Result<MatchStateMachine, Codec.CodecError>)
    ensures r.Ok? <==> Codec.Deserialize(blob).Ok?
    ensures r.Ok? ==> fresh(r.value) && r.value.src == src && r.value.Model() == MatchRuns.Load(Codec.Deserialize(blob).value)
    ensures r.Err? ==> Codec.Deserialize(blob) == Err(r.error)
  {
    hide Codec.Deserialize;
    var decoded := Codec.Deserialize(blob);
    if decoded.Err? {
      return Err(decoded.error);
    }
    var d := decoded.value;
    var instance := new MatchStateMachine("", "", [], src);
    instance.state := d.st;
    instance.currentRound := d.round;
    instance.eventLog := d.log;
    var counter := 0;
    for i := 0 to |d.log|
      invariant counter == MatchRuns.MaxSeqNo(d.log[..i])
    {
      assert d.log[..i + 1][..i] == d.log[..i];
      counter := Max(d.log[i].seqNo, counter);
    }
    assert d.log[..|d.log|] == d.log;
    instance.eventSeqCounter := counter;
    instance.RehydrateCardState();
    r := Ok(instance);
  }

  /** Evaluation reads a round's answers, not its status. */
  lemma {:induction false} StatusIrrelevant(a: Round, b: Round, players: OMap<PlayerInfo>, ids: seq<string>)
    requires b == a.(status := Evaluating)
    ensures EvaluatePlayers(players, a, ids) == EvaluatePlayers(players, b, ids)
    ensures Rounds.Survivors(a, ids) == Rounds.Survivors(b, ids)
    ensures Rounds.EliminationsForRound(a, ids) == Rounds.EliminationsForRound(b, ids)
    decreases |ids|
  {
    hide Rounds.RoundPoints;
    if ids != [] {
      StatusIrrelevant(a, b, players, ids[..|ids| - 1]);
      StatusIrrelevant(a, b, players, ids[1..]);
    }
  }
}
