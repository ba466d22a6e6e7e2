/** Runs of the match state machine: any sequence of public calls, with reloads through the codec
    anywhere in between. */
module MatchRuns {
  import opened MatchTypes
  import opened Wrappers
  import opened Rehydrate
  import opened MatchSpec
  import opened Basics
  import Codec

  datatype Op =
    | TransitionOp(to: MatchStatus)
    | StartRoundOp(question: Question, correctAnswer: string, roundMs: Option<int>)
    | SubmitOp(playerId: string, answer: string, serverTimestamp: int, submissionId: Option<string>)
    | EvaluateOp
    | FinishOp
    | DisconnectOp(playerId: string)
    | ReconnectOp(playerId: string)
    | InitVotingOp(candidates: Option<seq<string>>, votingMs: Option<int>)
    | VoteOp(playerId: string, topic: string, eventId: Option<string>)
    | ResolveVotingOp(bannedCount: nat)
    | ClassesOp(ids: seq<string>, seedUsed: string)
    | OfferOp(playerId: string, roundNo: int, seedUsed: string)
    | PickOp(playerId: string, cardId: CardId, offerSeqNo: int, metadata: Metadata)
    | PlayOp(playerId: string, cardId: CardId, offerSeqNo: int, effect: Effect, targets: seq<string>,
             serverNow: int, metadata: Metadata)
    | AttachOp(correctAnswer: string)
    | ReloadOp

  function MaxSeqNo(log: seq<Entry>): int {
    if log == [] then 0 else Max(log[|log| - 1].seqNo, MaxSeqNo(log[..|log| - 1]))
  }

  /** `MatchStateMachine.deserialize` on a decoded blob. */
  function Load(d: Codec.Decoded): Machine {
    Machine(d.st, d.round, d.log, MaxSeqNo(d.log), Replay(d.log))
  }

  function Save(m: Machine): Codec.Blob {
    Codec.Serialize(m.st, m.round, m.log)
  }

  /** Failover: the new owner loads what the old one saved; a rejected blob leaves the match as it was. */
  function Reload(m: Machine): Machine {
    match Codec.Deserialize(Save(m))
    case Ok(d) => Load(d)
    case Err(_) => m
  }

  function Step(m: Machine, op: Op, src: Source, clock: Clock): Machine {
    match op
    case TransitionOp(to) => Transition(m, to, clock).m
    case StartRoundOp(q, a, ms) => StartRound(m, q, a, ms, clock).m
    case SubmitOp(p, a, ts, sub) => SubmitAnswer(m, p, a, ts, sub, clock).m
    case EvaluateOp => EvaluateRound(m, clock).m
    case FinishOp => FinishMatch(m, src, clock)
    case DisconnectOp(p) => DisconnectPlayer(m, p, clock)
    case ReconnectOp(p) => ReconnectPlayer(m, p, clock)
    case InitVotingOp(c, ms) => InitTopicVoting(m, c, ms, src, clock).m
    case VoteOp(p, t, e) => VoteBanTopic(m, p, t, e, clock).m
    case ResolveVotingOp(n) => ResolveTopicVoting(m, n, src, clock)
    case ClassesOp(ids, seed) => ClassAssignment(m, ids, seed, src, clock)
    case OfferOp(p, n, seed) => PickOffer(m, p, n, seed, src, clock).m
    case PickOp(p, c, o, md) => PickCard(m, p, c, o, md, clock).m
    case PlayOp(p, c, o, e, ts, now, md) => PlayCard(m, p, c, o, e, ts, now, md, clock).m
    case AttachOp(a) => AttachCorrectAnswer(m, a)
    case ReloadOp => Reload(m)
  }

  datatype Call = Call(op: Op, clock: Clock)

  function Run(m: Machine, calls: seq<Call>, src: Source): Machine {
    if calls == [] then m
    else
      var n := |calls| - 1;
      Step(Run(m, calls[..n], src), calls[n].op, src, calls[n].clock)
  }
}
