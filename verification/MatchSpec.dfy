/** What each public operation of the match state machine does to its state
    (packages/game-core/src/match-state-machine.ts). */
module MatchSpec {
  import opened MatchTypes
  import opened Wrappers
  import opened OrderedMap
  import opened Rehydrate
  import opened Basics
  import CardEngine
  import Cards
  import ClassEngine
  import Mulberry
  import Rounds
  import Text
  import TieBreak
  import TopicVoting

  /** The seeded generators of packages/game-core/src/prng.ts: `deriveSubstream` by parent seed and
      label, `hashStringToSeed` by string, and the draws each seed gives. */
  datatype Source = Source(
    seed: (string, string) -> Mulberry.Word,
    rolls: (string, string) -> Mulberry.Rolls,
    hashSeed: string -> Mulberry.Word,
    hashRolls: string -> Mulberry.Rolls)
  {
    ghost predicate Coherent() {
      && (forall p, l :: rolls(p, l) == Mulberry.RollsOf(seed(p, l)))
      && (forall s :: hashRolls(s) == Mulberry.RollsOf(hashSeed(s)))
    }
  }

  /** The state after a call, which a throwing call may have changed too, and what it returned. */
  datatype Outcome<+T> = Outcome(m: Machine, result: Result<T, MatchError>)

  function Create(matchId: string, roomId: string, players: seq<PlayerInfo>): Machine {
    Machine(
      MatchState(matchId, roomId, Created, 0, 0, PlayerMap(players), Ids(players), [], None, Some(0), None, None, None,
                 None, None, None, None),
      None, [], 0, NoMirrors)
  }

  function PlayerMap(players: seq<PlayerInfo>): OMap<PlayerInfo> {
    if players == [] then Empty()
    else
      var n := |players| - 1;
      Put(PlayerMap(players[..n]), players[n].id, players[n])
  }

  function Ids(players: seq<PlayerInfo>): (r: seq<string>)
    ensures |r| == |players|
    ensures forall i :: 0 <= i < |r| ==> r[i] == players[i].id
  {
    seq(|players|, i requires 0 <= i < |players| => players[i].id)
  }

  /** `logEvent` */
  function Log(m: Machine, e: Event, at: int): Machine {
    m.(log := m.log + [Entry(e, at, m.counter + 1)], counter := m.counter + 1)
  }

  // ---- transitions ----

  predicate CanTransition(from: MatchStatus, to: MatchStatus) {
    match from
    case Created => to == Countdown || to == TopicVoting
    case TopicVoting => to == Countdown || to == Finished
    case Countdown => to == RoundActive || to == Finished
    case RoundActive => to == RoundEvaluating || to == Finished
    case RoundEvaluating => to == RoundResult || to == Finished
    case RoundResult => to == RoundActive || to == Finished
    case Finished => false
  }

  function Enter(st: MatchState, to: MatchStatus, clock: Clock): MatchState {
    var s := st.(status := to, phaseEndsAt := None, roundResultStartedAt := None);
    match to
    case TopicVoting => s.(startedAt := Some(clock(1)), phaseEndsAt := Some(clock(2) + TOPIC_VOTING_DURATION_MS))
    case Countdown => s.(startedAt := Some(clock(1)), phaseEndsAt := Some(clock(2) + COUNTDOWN_DURATION_MS))
    case RoundResult => s.(roundResultStartedAt := Some(clock(1)), phaseEndsAt := Some(clock(1) + RESULT_DISPLAY_MS))
    case Finished => s.(endedAt := Some(clock(1)))
    case RoundEvaluating => s
    case RoundActive => s
    case Created => st.(status := to)
  }

  function Transition(m: Machine, to: MatchStatus, clock: Clock): Outcome<()> {
    if !CanTransition(m.st.status, to) then Outcome(m, Err(InvalidTransition))
    else
      var logged := Log(m, StateTransition(m.st.status, to), clock(0));
      Outcome(
        logged.(st := Enter(m.st, to, clock), round := if to == RoundActive then None else m.round),
        Ok(()))
  }

  // ---- rounds ----

  function NewRound(m: Machine, q: Question, correctAnswer: string, durationMs: int, now: int): Round {
    Round(m.st.id, m.st.currentRoundNo + 1, q, now, now + durationMs, Empty(), Open,
          Available(m.st.surviving), Some(correctAnswer))
  }

  function WithDifficulty(q: Question): Question {
    if q.difficulty.None? then q.(difficulty := Some("MEDIUM")) else q
  }

  function StartRound(m: Machine, question: Question, correctAnswer: string, duration: Option<int>, clock: Clock): Outcome<Round> {
    if m.st.status != RoundActive then Outcome(m, Err(CannotStartRound))
    else
      var ms := if duration.Some? then duration.value else ROUND_DURATION_MS;
      var q := WithDifficulty(question);
      var r := NewRound(m, q, correctAnswer, ms, clock(0));
      var started := m.(
        st := m.st.(currentRoundNo := r.roundNo, totalRounds := Max(m.st.totalRounds, r.roundNo),
                    phaseEndsAt := Some(r.endsAt), roundResultStartedAt := None),
        round := Some(r),
        mirrors := m.mirrors.(secondChance := {}));
      Outcome(Log(started, RoundStarted(r.roundNo, q, r.endsAt), clock(1)), Ok(r))
  }

  /** Checks of submitAnswer, in order, up to the point where the answer is accepted. */
  function CheckAnswer(m: Machine, playerId: string, serverTimestamp: int, submissionId: Option<string>): Result<Option<AnswerState>, MatchError> {
    if m.round.None? then Err(RoundNotActive)
    else
      var r := m.round.value;
      var existing := Get(r.answers, playerId);
      if existing.Some? && submissionId.Some? && submissionId.value != "" && existing.value.submissionId == submissionId.value then
        Ok(existing)
      else if existing.Some? && playerId !in m.mirrors.secondChance then Err(AlreadyAnswered)
      else if r.status != Open then Err(RoundNotActive)
      else if serverTimestamp > r.endsAt then Err(AnswerSubmissionClosed)
      else if playerId !in m.st.players.m || m.st.players.m[playerId].status != Active then Err(PlayerNotInRoom)
      else Ok(None)
  }

  function NewAnswer(r: Round, playerId: string, answer: string, serverTimestamp: int, submissionId: Option<string>): AnswerState {
    AnswerState(
      playerId, answer,
      if submissionId.Some? then submissionId.value else "legacy-" + playerId + "-" + Text.OfInt(serverTimestamp),
      Rounds.IsAnswerMatch(answer, r.correctAnswer, r.question.options),
      Max(0, serverTimestamp - r.startedAt), serverTimestamp)
  }

  function ConsumeSecondChance(m: Machine, r: Round, playerId: string, at: int): Machine {
    if playerId in r.answers.m then
      Log(m.(mirrors := m.mirrors.(secondChance := m.mirrors.secondChance - {playerId})),
          SecondChanceConsumed(playerId, r.roundNo), at)
    else m
  }

  function SubmitAnswer(m: Machine, playerId: string, answer: string, serverTimestamp: int, submissionId: Option<string>, clock: Clock): Outcome<AnswerState> {
    match CheckAnswer(m, playerId, serverTimestamp, submissionId)
    case Err(e) => Outcome(m, Err(e))
    case Ok(Some(existing)) => Outcome(m, Ok(existing))
    case Ok(None) =>
      var r := m.round.value;
      var a := NewAnswer(r, playerId, answer, serverTimestamp, submissionId);
      var consumed := ConsumeSecondChance(m, r, playerId, clock(0));
      var stored := consumed.(round := Some(r.(answers := Put(r.answers, playerId, a))));
      Outcome(Log(stored, AnswerSubmitted(playerId, a.isCorrect, a.responseTimeMs), clock(1)), Ok(a))
  }

  /** One player's record after a round is evaluated. */
  function Evaluated(p: PlayerInfo, r: Round, playerId: string): PlayerInfo {
    if Rounds.Survives(r, playerId) then
      var ms := r.answers.m[playerId].responseTimeMs;
      p.(correctAnswers := p.correctAnswers + 1,
         totalResponseTimeMs := p.totalResponseTimeMs + ms,
         score := p.score + Rounds.RoundPoints(ms))
    else p.(status := Eliminated)
  }

  /** The loop of evaluateRound over the players who started the round. */
  function EvaluatePlayers(players: OMap<PlayerInfo>, r: Round, ids: seq<string>): OMap<PlayerInfo> {
    if ids == [] then players
    else
      var n := |ids| - 1;
      var done := EvaluatePlayers(players, r, ids[..n]);
      if ids[n] in done.m then Put(done, ids[n], Evaluated(done.m[ids[n]], r, ids[n])) else done
  }

  datatype Evaluation = Evaluation(surviving: seq<string>, eliminated: seq<string>, correctAnswer: Option<string>)

  function Starters(m: Machine, r: Round): seq<string> {
    if r.startingPlayers.Available? then r.startingPlayers.ids else m.st.surviving
  }

  function EvaluateRound(m: Machine, clock: Clock): Outcome<Evaluation> {
    if m.round.None? then Outcome(m, Err(NoActiveRound))
    else
      var r := m.round.value;
      var ids := Starters(m, r);
      var e := Evaluation(Rounds.Survivors(r, ids), Rounds.EliminationsForRound(r, ids), r.correctAnswer);
      var evaluated := m.(
        st := m.st.(players := EvaluatePlayers(m.st.players, r, ids), surviving := e.surviving,
                    eliminated := m.st.eliminated + e.eliminated),
        round := Some(r.(status := Completed)));
      Outcome(
        Log(evaluated, RoundEvaluated(r.roundNo, r.correctAnswer, |e.surviving|, |e.eliminated|, e.eliminated), clock(0)),
        Ok(e))
  }

  // ---- end of match ----

  /** The list determineWinner breaks ties in, when there is more than one candidate or none. */
  function Tied(m: Machine): seq<string> {
    if |m.st.surviving| == 0 then m.st.eliminated else m.st.surviving
  }

  function DetermineWinner(m: Machine, src: Source): Option<string> {
    if |m.st.surviving| == 1 then Some(m.st.surviving[0])
    else if Tied(m) == [] then None
    else TieBreak.Winner(Tied(m), m.st.players.m, src.hashRolls(m.st.id))
  }

  function LogTieBreak(m: Machine, winner: Option<string>, at: int): Machine {
    if |m.st.surviving| == 1 || Tied(m) == [] then m else Log(m, Event.TieBreak(winner, Tied(m)), at)
  }

  function Promote(players: OMap<PlayerInfo>, winner: Option<string>): OMap<PlayerInfo> {
    if winner.Some? && winner.value in players.m then
      Put(players, winner.value, players.m[winner.value].(status := Winner))
    else players
  }

  function FinishMatch(m: Machine, src: Source, clock: Clock): Machine {
    var winner := DetermineWinner(m, src);
    var tied := LogTieBreak(m, winner, clock(0));
    var finished := tied.(st := m.st.(players := Promote(m.st.players, winner), winnerId := winner, endedAt := Some(clock(1))));
    Log(finished, MatchFinished(winner, m.st.totalRounds), clock(2))
  }

  // ---- presence ----

  function DisconnectPlayer(m: Machine, playerId: string, clock: Clock): Machine {
    if playerId !in m.st.players.m then m
    else
      var p := m.st.players.m[playerId];
      if p.status == Active then
        Log(m.(st := m.st.(players := Put(m.st.players, playerId, p.(isOnline := false, status := Disconnected)))),
            PlayerDisconnected(playerId), clock(0))
      else m.(st := m.st.(players := Put(m.st.players, playerId, p.(isOnline := false))))
  }

  function ReconnectPlayer(m: Machine, playerId: string, clock: Clock): Machine {
    if playerId !in m.st.players.m then m
    else
      var p := m.st.players.m[playerId];
      if p.status == Disconnected || !p.isOnline then
        var back := p.(isOnline := true, status := if p.status == Disconnected then Active else p.status);
        Log(m.(st := m.st.(players := Put(m.st.players, playerId, back))), PlayerReconnected(playerId), clock(0))
      else m
  }

  // ---- topic voting ----

  /** The candidates and empty ballots are written before the transition is tried, so a call in the
      wrong phase throws and still replaces them. */
  function OpenBallot(m: Machine, candidates: seq<string>): Machine {
    m.(st := m.st.(candidateTopics := Some(candidates), topicVotes := Some(map[]),
                   bannedTopics := Some([]), activeTopics := Some([])))
  }

  function CandidatesFor(matchId: string, candidateTopics: Option<seq<string>>, src: Source): seq<string> {
    if candidateTopics.Some? && candidateTopics.value != [] then candidateTopics.value
    else TopicVoting.SelectCandidates(TopicVoting.CANDIDATE_POOL, TopicVoting.CANDIDATE_COUNT, src.rolls(matchId, "topic-candidates"))
  }

  function InitTopicVoting(m: Machine, candidateTopics: Option<seq<string>>, durationMs: Option<int>, src: Source, clock: Clock): Outcome<seq<string>> {
    var candidates := CandidatesFor(m.st.id, candidateTopics, src);
    var duration := if durationMs.Some? then durationMs.value else TOPIC_VOTING_DURATION_MS;
    var t := Transition(OpenBallot(m, candidates), TopicVoting, clock);
    if t.result.Err? then Outcome(t.m, Err(t.result.error))
    else
      var endsAt := (if t.m.st.startedAt.Some? then t.m.st.startedAt.value else clock(3)) + duration;
      var ballot := t.m.(st := t.m.st.(phaseEndsAt := Some(endsAt)));
      Outcome(Log(ballot, TopicVotingStarted(candidates, duration, Some(endsAt)), clock(4)), Ok(candidates))
  }

  function Truthy(s: Option<string>): Option<string> {
    if s.Some? && s.value == "" then None else s
  }

  function Ballots(m: Machine): map<string, string> {
    if m.st.topicVotes.Some? then m.st.topicVotes.value else map[]
  }

  function CheckVote(m: Machine, playerId: string, topic: string, now: int): Result<(), MatchError> {
    if m.st.status != TopicVoting || (m.st.phaseEndsAt.Some? && now >= m.st.phaseEndsAt.value) then Err(TopicVotingClosed)
    else if playerId !in m.st.players.m || m.st.players.m[playerId].status != Active then Err(PlayerNotInRoom)
    else if m.st.candidateTopics.None? || topic !in m.st.candidateTopics.value then Err(InvalidTopic)
    else Ok(())
  }

  function VoteBanTopic(m: Machine, playerId: string, topic: string, eventId: Option<string>, clock: Clock): Outcome<bool> {
    match CheckVote(m, playerId, topic, clock(0))
    case Err(e) => Outcome(m, Err(e))
    case Ok(_) =>
      var votes := Ballots(m);
      if playerId in votes && votes[playerId] == topic then Outcome(m, Ok(true))
      else
        var voted := m.(st := m.st.(topicVotes := Some(votes[playerId := topic])));
        Outcome(Log(voted, TopicVoteSubmitted(playerId, topic, Truthy(eventId)), clock(1)), Ok(true))
  }

  function ResolveTopicVoting(m: Machine, bannedCount: nat, src: Source, clock: Clock): Machine {
    var candidates := if m.st.candidateTopics.Some? then m.st.candidateTopics.value else [];
    var r := TopicVoting.Resolve(candidates, Ballots(m), src.rolls(m.st.id, "topic-ban-tiebreak"), bannedCount);
    var resolved := m.(st := m.st.(bannedTopics := Some(r.banned), activeTopics := Some(r.active)));
    Log(resolved, TopicVotingFinished(r.banned, r.active, r.voteCounts), clock(0))
  }

  // ---- classes and cards ----

  function ClassAssignment(m: Machine, ids: seq<string>, seedUsed: string, src: Source, clock: Clock): Machine {
    var assignments := ClassEngine.Assign(ids, src.rolls(seedUsed, "class"));
    var logged := Log(m, ClassAssigned(assignments, seedUsed), clock(0));
    logged.(mirrors := m.mirrors.(classes := AddClasses(m.mirrors.classes, assignments)))
  }

  function Label(c: ClassId): string {
    if c == Attack then "card|ATTACK" else "card|DEFENSE"
  }

  function NotExcluded(pool: seq<CardId>, excluded: set<CardId>): (r: seq<CardId>)
    ensures forall x :: x in r <==> x in pool && x !in excluded
  {
    if pool == [] then []
    else (if pool[0] in excluded then [] else [pool[0]]) + NotExcluded(pool[1..], excluded)
  }

  function CardsToOffer(m: Machine, playerId: string, classId: ClassId, seedUsed: string, src: Source): seq<CardId> {
    var excluded := GetOr(m.mirrors.picked, playerId, {}) + GetOr(m.mirrors.played, playerId, {});
    CardEngine.SampleOffer(src.seed(seedUsed, Label(classId)), NotExcluded(Cards.ClassPool(classId), excluded)).cards
  }

  function PickOffer(m: Machine, playerId: string, roundNo: int, seedUsed: string, src: Source, clock: Clock): Outcome<seq<CardId>> {
    if playerId !in m.mirrors.classes then Outcome(m, Err(PlayerNotInRoom))
    else
      var cards := CardsToOffer(m, playerId, m.mirrors.classes[playerId], seedUsed, src);
      if |cards| != 3 then Outcome(m, Err(OfferInvariant))
      else
        var logged := Log(m, CardOffer(roundNo, playerId, cards, seedUsed), clock(0));
        Outcome(logged.(mirrors := Offered(m.mirrors, playerId, cards)), Ok(cards))
  }

  function Hand(m: Machine, playerId: string): seq<CardId> {
    GetOr(m.mirrors.hands, playerId, [])
  }

  function PickCard(m: Machine, playerId: string, cardId: CardId, offerSeqNo: int, metadata: Metadata, clock: Clock): Outcome<()> {
    if cardId !in Hand(m, playerId) then Outcome(m, Err(CardNotInHand))
    else
      var roundNo := if m.round.Some? then m.round.value.roundNo else 0;
      var stamp := Metadata(Truthy(metadata.eventId), Truthy(metadata.commandId));
      var logged := Log(m, CardPicked(roundNo, playerId, cardId, offerSeqNo, stamp), clock(0));
      Outcome(logged.(mirrors := Picked(m.mirrors, playerId, cardId)), Ok(()))
  }

  datatype Played = Played(seqNo: int, expiresAtServer: Option<int>, remainingMs: Option<int>)

  predicate RoundIsOpen(m: Machine) {
    m.st.status == RoundActive && m.round.Some? && m.round.value.status == Open
  }

  function GrantSecondChance(m: Machine, playerId: string, effect: Effect, roundNo: int, at: int): Machine {
    if effect.SecondChance? then
      Log(m.(mirrors := m.mirrors.(secondChance := m.mirrors.secondChance + {playerId})), SecondChanceGranted(playerId, roundNo), at)
    else m
  }

  function ResolvedEvent(m: Machine, playerId: string, cardId: CardId, offerSeqNo: int, effect: Effect, targets: seq<string>, serverNow: int, metadata: Metadata): Event
    requires m.round.Some?
  {
    var roundNo := m.round.value.roundNo;
    var expires := if effect.Temporary() then Some(serverNow + effect.DurationMs()) else None;
    CardResolved(
      m.counter + 1, m.st.id, roundNo, if effect.Shield? then effect.expiresAtRound else roundNo,
      cardId, offerSeqNo, playerId, targets, effect, effect.Temporary(), serverNow, expires,
      if effect.Temporary() then Some(effect.DurationMs()) else None,
      Metadata(Truthy(metadata.eventId), Truthy(metadata.commandId)))
  }

  function PlayCard(m: Machine, playerId: string, cardId: CardId, offerSeqNo: int, effect: Effect, targets: seq<string>, serverNow: int, metadata: Metadata, clock: Clock): Outcome<Played> {
    if !RoundIsOpen(m) then Outcome(m, Err(RoundNotActive))
    else
      var roundNo := m.round.value.roundNo;
      var seqNo := m.counter + 1;
      var e := ResolvedEvent(m, playerId, cardId, offerSeqNo, effect, targets, serverNow, metadata);
      var expires := serverNow + effect.DurationMs();
      var logged := Log(m, e, clock(0)).(
        mirrors := Resolved(m.mirrors, seqNo, playerId, cardId, targets, roundNo, effect.Temporary(), effect, expires));
      Outcome(
        GrantSecondChance(logged, playerId, effect, roundNo, clock(1)),
        Ok(Played(seqNo, e.expiresAtServer, e.remainingMs)))
  }

  // ---- recovery ----

  function AttachCorrectAnswer(m: Machine, correctAnswer: string): Machine {
    if m.round.Some? && m.round.value.status == Open then
      m.(round := Some(m.round.value.(correctAnswer := Some(correctAnswer))))
    else m
  }
}
