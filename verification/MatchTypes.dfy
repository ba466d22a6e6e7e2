/** The values a match is made of (packages/shared/src/state.ts, packages/shared/src/cards.ts). */
module MatchTypes {
  import opened Wrappers
  import opened OrderedMap

  const ROUND_DURATION_MS := 15000
  const COUNTDOWN_DURATION_MS := 5000
  const RESULT_DISPLAY_MS := 3000
  const TOPIC_VOTING_DURATION_MS := 10000
  const TOPIC_VOTING_BANNED_COUNT := 2
  const AOE_CAP_PER_ROUND := 2

  datatype MatchStatus =
    Created | TopicVoting | Countdown | RoundActive | RoundEvaluating | RoundResult | Finished

  datatype PlayerStatus = Active | Eliminated | Disconnected | Winner

  datatype PlayerInfo = PlayerInfo(
    id: string, name: string, status: PlayerStatus, score: int,
    totalResponseTimeMs: int, correctAnswers: int, isOnline: bool)

  datatype MatchState = MatchState(
    id: string, roomId: string, status: MatchStatus, currentRoundNo: int, totalRounds: int,
    players: OMap<PlayerInfo>, surviving: seq<string>, eliminated: seq<string>,
    winnerId: Option<string>, startedAt: Option<int>, endedAt: Option<int>,
    phaseEndsAt: Option<int>, roundResultStartedAt: Option<int>,
    candidateTopics: Option<seq<string>>, topicVotes: Option<map<string, string>>,
    bannedTopics: Option<seq<string>>, activeTopics: Option<seq<string>>)

  datatype Question = Question(id: string, content: string, options: seq<string>, difficulty: Option<string>)

  datatype AnswerState = AnswerState(
    playerId: string, answer: string, submissionId: string,
    isCorrect: bool, responseTimeMs: int, submittedAt: int)

  datatype RoundStatus = Pending | Open | Evaluating | Completed

  datatype StartingPlayers = Unavailable | Available(ids: seq<string>)

  datatype Round = Round(
    matchId: string, roundNo: int, question: Question, startedAt: int, endsAt: int,
    answers: OMap<AnswerState>, status: RoundStatus, startingPlayers: StartingPlayers,
    correctAnswer: Option<string>)

  datatype ClassId = Attack | Defense

  /** "CB-n" is an attack card, "TN-n" a defence card. */
  datatype CardId = CB(n: nat) | TN(n: nat)

  datatype Effect =
    | TimerModify(deltaMs: int, targetCount: nat)
    | OptionDisable(indexes: seq<nat>, count: nat, availableAtResolution: nat, durationMs: int)
    | OptionFake(indexes: seq<nat>, durationMs: int)
    | OptionLock(durationMs: int)
    | HintReveal(partial: string)
    | DelayRender(delayMs: int, targetCount: nat)
    | VisualOverlay(flag: string, durationMs: int)
    | SemanticFlip(durationMs: int)
    | QuestionReplay(extraMs: int)
    | Shield(expiresAtRound: int)
    | ScoreMult(factor: real)
    | HandDestroy(count: nat, availableAtResolution: nat, destroyed: seq<CardId>)
    | SecondChance
  {
    /** The kinds that carry a countdown. */
    predicate Temporary() {
      OptionDisable? || OptionFake? || OptionLock? || VisualOverlay? || SemanticFlip?
    }

    function DurationMs(): int {
      if Temporary() then durationMs else 0
    }
  }

  datatype Assignment = Assignment(playerId: string, classId: ClassId)

  datatype Metadata = Metadata(eventId: Option<string>, commandId: Option<string>)

  datatype Event =
    | StateTransition(from: MatchStatus, to: MatchStatus)
    | RoundStarted(roundNo: int, question: Question, endsAt: int)
    | AnswerSubmitted(playerId: string, isCorrect: bool, responseTimeMs: int)
    | SecondChanceGranted(playerId: string, roundNo: int)
    | SecondChanceConsumed(playerId: string, roundNo: int)
    | RoundEvaluated(roundNo: int, correctAnswer: Option<string>, survivingCount: nat, eliminatedCount: nat, eliminatedIds: seq<string>)
    | TieBreak(winnerId: Option<string>, tiedPlayerIds: seq<string>)
    | MatchFinished(winnerId: Option<string>, totalRounds: int)
    | PlayerDisconnected(playerId: string)
    | PlayerReconnected(playerId: string)
    | TopicVotingStarted(candidates: seq<string>, durationMs: int, votingEndsAt: Option<int>)
    | TopicVoteSubmitted(playerId: string, topic: string, eventId: Option<string>)
    | TopicVotingFinished(banned: seq<string>, active: seq<string>, voteCounts: map<string, nat>)
    | ClassAssigned(assignments: seq<Assignment>, seedUsed: string)
    | CardOffer(roundNo: int, playerId: string, offered: seq<CardId>, seedUsed: string)
    | CardPicked(roundNo: int, playerId: string, cardId: CardId, offerSeqNo: int, metadata: Metadata)
    | CardResolved(
        payloadSeqNo: int, matchId: string, roundNo: int, targetRoundNo: int, cardId: CardId, offerSeqNo: int,
        playedBy: string, targets: seq<string>, effect: Effect, temporary: bool,
        serverTimestamp: int, expiresAtServer: Option<int>, remainingMs: Option<int>, metadata: Metadata)

  datatype Entry = Entry(event: Event, timestamp: int, seqNo: int)

  datatype ActiveEffect = ActiveEffect(
    sourceSeqNo: int, effect: Effect, expiresAtServer: int, persistedDurationMs: int)

  /** The maps and sets kept beside the log for fast lookup. */
  datatype Mirrors = Mirrors(
    classes: map<string, ClassId>,
    hands: map<string, seq<CardId>>,
    effects: map<string, seq<ActiveEffect>>,
    played: map<string, set<CardId>>,
    picked: map<string, set<CardId>>,
    aoe: map<int, nat>,
    secondChance: set<string>)

  const NoMirrors := Mirrors(map[], map[], map[], map[], map[], map[], {})

  datatype Machine = Machine(
    st: MatchState, round: Option<Round>, log: seq<Entry>, counter: int, mirrors: Mirrors)

  datatype MatchError =
    | InvalidTransition | CannotStartRound | RoundNotActive | AlreadyAnswered | AnswerSubmissionClosed
    | PlayerNotInRoom | NoActiveRound | TopicVotingClosed | InvalidTopic | CardNotInHand
    | OfferInvariant | InvalidPayload | CardNotFound | AoeCapExhausted | NoEligibleTarget

  /** The k-th reading of the wall clock inside one call. */
  type Clock = nat -> int
}
