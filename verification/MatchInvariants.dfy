/** What every call keeps: a dense log, mirrors equal to a replay of the log, and the timing the codec
    demands.  Hence no reachable match is lost in a failover. */
module MatchInvariants {
  import opened MatchTypes
  import opened Wrappers
  import opened OrderedMap
  import opened Rehydrate
  import opened MatchSpec
  import opened MatchRuns
  import Basics
  import Codec
  import Rounds
  import TopicVoting

  // ---- the log ----

  ghost predicate Dense(log: seq<Entry>) {
    forall i :: 0 <= i < |log| ==> log[i].seqNo == i + 1
  }

  ghost predicate LogInv(m: Machine) {
    Dense(m.log) && m.counter == |m.log|
  }

  lemma {:induction false} DenseMax(log: seq<Entry>)
    requires Dense(log)
    ensures MaxSeqNo(log) == |log|
  {
    if log != [] {
      DenseMax(log[..|log| - 1]);
    }
  }

  // ---- the mirrors ----

  /** The mirrors without a second chance of the empty player id. */
  function Named(mi: Mirrors): Mirrors {
    mi.(secondChance := mi.secondChance - {""})
  }

  /** Live mirrors are the replay of the log, up to a second chance of the empty player id. */
  ghost predicate Mirrored(m: Machine) {
    Named(m.mirrors) == Replay(m.log)
  }

  /** Live mirrors are exactly the replay of the log. */
  ghost predicate Exact(m: Machine) {
    m.mirrors == Replay(m.log)
  }

  lemma ExactIff(m: Machine)
    requires Mirrored(m)
    ensures Exact(m) <==> "" !in m.mirrors.secondChance
  {
    NamelessNeverReplayed(m.log);
    assert "" !in m.mirrors.secondChance ==> m.mirrors.secondChance - {""} == m.mirrors.secondChance;
  }

  lemma {:induction false} NamelessNeverReplayed(log: seq<Entry>)
    ensures "" !in Replay(log).secondChance
  {
    if log != [] {
      NamelessNeverReplayed(log[..|log| - 1]);
      NamelessNotGranted(Replay(log[..|log| - 1]), log[|log| - 1]);
    }
  }

  lemma NamelessNotGranted(mi: Mirrors, entry: Entry)
    requires "" !in mi.secondChance
    ensures "" !in ReplayEvent(mi, entry).secondChance
  {
    hide AddClasses, Offered, Picked, Resolved;
    match entry.event
    case SecondChanceGranted(p, _) => assert ReplayEvent(mi, entry).secondChance <= mi.secondChance + {p};
    case _ => assert ReplayEvent(mi, entry).secondChance <= mi.secondChance;
  }

  /** Logging an event keeps the mirrors in step when they change as the replay of the event does. */
  lemma LoggedMirrored(m: Machine, mi: Mirrors, e: Event, at: int)
    requires Mirrored(m) && Named(mi) == ReplayEvent(Named(m.mirrors), Entry(e, at, m.counter + 1))
    ensures Mirrored(Log(m.(mirrors := mi), e, at))
  {
    hide ReplayEvent, Named, Replay;
    ReplayAppend(m.log, Entry(e, at, m.counter + 1));
  }

  /** An event the replay ignores leaves the mirrors in step. */
  lemma LogKeepsMirrors(m: Machine, e: Event, at: int)
    requires Mirrored(m) && ReplayEvent(Named(m.mirrors), Entry(e, at, m.counter + 1)) == Named(m.mirrors)
    ensures Mirrored(Log(m, e, at))
  {
    hide Mirrored, ReplayEvent, Named;
    LoggedMirrored(m, m.mirrors, e, at);
  }

  lemma StartRoundMirrored(m: Machine, q: Question, a: string, ms: Option<int>, clock: Clock)
    requires Mirrored(m)
    ensures Mirrored(StartRound(m, q, a, ms, clock).m)
  {
    hide Mirrored, Replay;
    if m.st.status == RoundActive {
      var o := StartRound(m, q, a, ms, clock);
      var r := o.result.value;
      LoggedMirrored(m, m.mirrors.(secondChance := {}), RoundStarted(r.roundNo, r.question, r.endsAt), clock(1));
      SameMirrors(Log(m.(mirrors := m.mirrors.(secondChance := {})), RoundStarted(r.roundNo, r.question, r.endsAt), clock(1)), o.m);
    }
  }

  lemma SameMirrors(m: Machine, after: Machine)
    requires Mirrored(m) && after.mirrors == m.mirrors && after.log == m.log
    ensures Mirrored(after)
  {
  }

  lemma AcceptedMeans(m: Machine, who: string, ts: int, sub: Option<string>)
    requires CheckAnswer(m, who, ts, sub) == Ok(None)
    ensures m.round.Some? && (who in m.round.value.answers.m ==> who in m.mirrors.secondChance)
  {
  }

  lemma ConsumeMirrored(m: Machine, r: Round, p: string, at: int)
    requires Mirrored(m)
    ensures Mirrored(ConsumeSecondChance(m, r, p, at))
    ensures ConsumeSecondChance(m, r, p, at).counter == m.counter + if p in r.answers.m then 1 else 0
  {
    hide Mirrored, Replay, ReplayEvent, Named;
    if p in r.answers.m {
      var mi := m.mirrors.(secondChance := m.mirrors.secondChance - {p});
      ConsumedNamed(m.mirrors, p, Entry(SecondChanceConsumed(p, r.roundNo), at, m.counter + 1));
      LoggedMirrored(m, mi, SecondChanceConsumed(p, r.roundNo), at);
    }
  }

  lemma ConsumedNamed(mi: Mirrors, p: string, e: Entry)
    requires e.event.SecondChanceConsumed? && e.event.playerId == p
    ensures ReplayEvent(Named(mi), e) == Named(mi.(secondChance := mi.secondChance - {p}))
  {
    assert mi.secondChance - {""} - {p} == mi.secondChance - {p} - {""};
    if p == "" { assert mi.secondChance - {p} - {""} == mi.secondChance - {""}; }
  }

  lemma SubmitMirrored(m: Machine, p: string, answer: string, ts: int, sub: Option<string>, clock: Clock)
    requires Mirrored(m)
    ensures Mirrored(SubmitAnswer(m, p, answer, ts, sub, clock).m)
  {
    hide CheckAnswer, NewAnswer, Put, Mirrored, ConsumeSecondChance, Replay;
    if CheckAnswer(m, p, ts, sub) == Ok(None) {
      AcceptedMeans(m, p, ts, sub);
      var r := m.round.value;
      var a := NewAnswer(r, p, answer, ts, sub);
      var consumed := ConsumeSecondChance(m, r, p, clock(0));
      ConsumeMirrored(m, r, p, clock(0));
      var stored := consumed.(round := Some(r.(answers := Put(r.answers, p, a))));
      SameMirrors(consumed, stored);
      LogKeepsMirrors(stored, AnswerSubmitted(p, a.isCorrect, a.responseTimeMs), clock(1));
    }
  }

  lemma FinishMirrored(m: Machine, src: Source, clock: Clock)
    requires Mirrored(m)
    ensures Mirrored(FinishMatch(m, src, clock))
  {
    hide DetermineWinner, Promote, Mirrored, Replay;
    var winner := DetermineWinner(m, src);
    var tied := LogTieBreak(m, winner, clock(0));
    if |m.st.surviving| != 1 && Tied(m) != [] {
      LogKeepsMirrors(m, Event.TieBreak(winner, Tied(m)), clock(0));
    }
    var finished := tied.(st := FinishMatch(m, src, clock).st);
    SameMirrors(tied, finished);
    LogKeepsMirrors(finished, MatchFinished(winner, m.st.totalRounds), clock(2));
  }

  lemma TransitionMirrored(m: Machine, to: MatchStatus, clock: Clock)
    requires Mirrored(m)
    ensures Mirrored(Transition(m, to, clock).m)
  {
    hide Mirrored, Replay, Enter;
    LogKeepsMirrors(m, StateTransition(m.st.status, to), clock(0));
    if CanTransition(m.st.status, to) {
      SameMirrors(Log(m, StateTransition(m.st.status, to), clock(0)), Transition(m, to, clock).m);
    }
  }

  lemma VotingMirrored(m: Machine, c: Option<seq<string>>, ms: Option<int>, src: Source, clock: Clock)
    requires Mirrored(m)
    ensures Mirrored(InitTopicVoting(m, c, ms, src, clock).m)
  {
    hide Mirrored, Replay, CandidatesFor, Transition;
    var o := InitTopicVoting(m, c, ms, src, clock);
    var open := OpenBallot(m, CandidatesFor(m.st.id, c, src));
    var t := Transition(open, TopicVoting, clock);
    SameMirrors(m, open);
    TransitionMirrored(open, TopicVoting, clock);
    if t.result.Ok? {
      var ballot := t.m.(st := o.m.st);
      SameMirrors(t.m, ballot);
      LogKeepsMirrors(ballot, o.m.log[|t.m.log|].event, clock(4));
    }
  }

  lemma ClassesMirrored(m: Machine, ids: seq<string>, seedUsed: string, src: Source, clock: Clock)
    requires Mirrored(m)
    ensures Mirrored(ClassAssignment(m, ids, seedUsed, src, clock))
  {
    hide Mirrored, Replay, AddClasses;
    var after := ClassAssignment(m, ids, seedUsed, src, clock);
    LoggedMirrored(m, after.mirrors, after.log[|m.log|].event, clock(0));
  }

  lemma OfferMirrored(m: Machine, playerId: string, roundNo: int, seedUsed: string, src: Source, clock: Clock)
    requires Mirrored(m)
    ensures Mirrored(PickOffer(m, playerId, roundNo, seedUsed, src, clock).m)
  {
    hide Mirrored, Replay, CardsToOffer;
    var after := PickOffer(m, playerId, roundNo, seedUsed, src, clock).m;
    if |after.log| > |m.log| {
      LoggedMirrored(m, after.mirrors, after.log[|m.log|].event, clock(0));
    }
  }

  lemma PickMirrored(m: Machine, playerId: string, cardId: CardId, offerSeqNo: int, metadata: Metadata, clock: Clock)
    requires Mirrored(m)
    ensures Mirrored(PickCard(m, playerId, cardId, offerSeqNo, metadata, clock).m)
  {
    hide Mirrored, Replay, Remove;
    var after := PickCard(m, playerId, cardId, offerSeqNo, metadata, clock).m;
    if |after.log| > |m.log| {
      LoggedMirrored(m, after.mirrors, after.log[|m.log|].event, clock(0));
    }
  }

  /** A second chance played by the empty player id is the one case where live state and log part. */
  predicate GrantsNameless(op: Op) {
    op.PlayOp? && op.playerId == "" && op.effect.SecondChance?
  }

  lemma GrantedNamed(mi: Mirrors, p: string, e: Entry)
    requires e.event.SecondChanceGranted? && e.event.playerId == p
    ensures ReplayEvent(Named(mi), e) == Named(mi.(secondChance := mi.secondChance + {p}))
  {
    if p == "" {
      assert mi.secondChance + {p} - {""} == mi.secondChance - {""};
    } else {
      assert mi.secondChance - {""} + {p} == mi.secondChance + {p} - {""};
    }
  }

  lemma GrantMirrored(m: Machine, p: string, effect: Effect, roundNo: int, at: int)
    requires Mirrored(m)
    ensures Mirrored(GrantSecondChance(m, p, effect, roundNo, at))
  {
    hide Mirrored, Replay, ReplayEvent, Named;
    GrantedNamed(m.mirrors, p, Entry(SecondChanceGranted(p, roundNo), at, m.counter + 1));
    LoggedMirrored(m, m.mirrors.(secondChance := m.mirrors.secondChance + {p}), SecondChanceGranted(p, roundNo), at);
  }

  /** Replaying a resolved card changes the mirrors as resolving it does. */
  lemma ResolvedNamed(m: Machine, p: string, c: CardId, o: int, e: Effect, ts: seq<string>, now: int, md: Metadata, at: int)
    requires m.round.Some?
    ensures var event := ResolvedEvent(m, p, c, o, e, ts, now, md);
            var mi := Resolved(m.mirrors, m.counter + 1, p, c, ts, m.round.value.roundNo, e.Temporary(), e, now + e.DurationMs());
            Named(mi) == ReplayEvent(Named(m.mirrors), Entry(event, at, m.counter + 1))
  {
    hide Discard, GetOr;
  }

  lemma PlayMirrored(m: Machine, p: string, c: CardId, o: int, e: Effect, ts: seq<string>, now: int, md: Metadata, clock: Clock)
    requires Mirrored(m)
    ensures Mirrored(PlayCard(m, p, c, o, e, ts, now, md, clock).m)
  {
    hide Mirrored, Replay, ReplayEvent, Named, Resolved, GrantSecondChance, ResolvedEvent;
    if RoundIsOpen(m) {
      var roundNo := m.round.value.roundNo;
      var event := ResolvedEvent(m, p, c, o, e, ts, now, md);
      var mi := Resolved(m.mirrors, m.counter + 1, p, c, ts, roundNo, e.Temporary(), e, now + e.DurationMs());
      ResolvedNamed(m, p, c, o, e, ts, now, md, clock(0));
      LoggedMirrored(m, mi, event, clock(0));
      GrantMirrored(Log(m.(mirrors := mi), event, clock(0)), p, e, roundNo, clock(1));
    }
  }

  lemma StepMirrored(m: Machine, op: Op, src: Source, clock: Clock)
    requires Mirrored(m) && !op.ReloadOp?
    ensures Mirrored(Step(m, op, src, clock))
  {
    hide Mirrored, Transition, StartRound, SubmitAnswer, FinishMatch, InitTopicVoting, EvaluateRound;
    hide DisconnectPlayer, ReconnectPlayer;
    if op.ClassesOp? || op.OfferOp? || op.PickOp? || op.PlayOp? {
      CardStepMirrored(m, op, src, clock);
    } else {
      match op
      case TransitionOp(to) => TransitionMirrored(m, to, clock);
      case StartRoundOp(q, a, ms) => StartRoundMirrored(m, q, a, ms, clock);
      case SubmitOp(p, a, ts, sub) => SubmitMirrored(m, p, a, ts, sub, clock);
      case FinishOp => FinishMirrored(m, src, clock);
      case InitVotingOp(c, ms) => VotingMirrored(m, c, ms, src, clock);
      case EvaluateOp => EvaluateMirrored(m, clock);
      case DisconnectOp(p) => PresenceMirrored(m, p, clock);
      case ReconnectOp(p) => PresenceMirrored(m, p, clock);
      case _ => PlainMirrored(m, op, src, clock);
    }
  }

  lemma CardStepMirrored(m: Machine, op: Op, src: Source, clock: Clock)
    requires Mirrored(m) && (op.ClassesOp? || op.OfferOp? || op.PickOp? || op.PlayOp?)
    ensures Mirrored(Step(m, op, src, clock))
  {
    hide Mirrored, ClassAssignment, PickOffer, PickCard, PlayCard;
    match op
    case ClassesOp(ids, seed) => ClassesMirrored(m, ids, seed, src, clock);
    case OfferOp(p, n, seed) => OfferMirrored(m, p, n, seed, src, clock);
    case PickOp(p, c, o, md) => PickMirrored(m, p, c, o, md, clock);
    case PlayOp(p, c, o, e, ts, now, md) => PlayMirrored(m, p, c, o, e, ts, now, md, clock);
  }

  predicate Ignored(e: Event) {
    !e.RoundStarted? && !e.SecondChanceGranted? && !e.SecondChanceConsumed? && !e.ClassAssigned?
    && !e.CardOffer? && !e.CardPicked? && !e.CardResolved?
  }

  /** Same mirrors and at most one new event, one that the replay ignores. */
  lemma OneMoreMirrored(m: Machine, after: Machine)
    requires Mirrored(m) && after.mirrors == m.mirrors
    requires after.log == m.log || (exists e :: after.log == m.log + [e] && Ignored(e.event))
    ensures Mirrored(after)
  {
    hide Replay, Named;
    if after.log != m.log {
      var e :| after.log == m.log + [e] && Ignored(e.event);
      ReplayAppend(m.log, e);
    }
  }

  lemma PresenceMirrored(m: Machine, p: string, clock: Clock)
    requires Mirrored(m)
    ensures Mirrored(DisconnectPlayer(m, p, clock)) && Mirrored(ReconnectPlayer(m, p, clock))
  {
    hide Mirrored, Replay, Put;
    var off, on := DisconnectPlayer(m, p, clock), ReconnectPlayer(m, p, clock);
    OneMoreMirrored(m, off);
    OneMoreMirrored(m, on);
  }

  lemma EvaluateMirrored(m: Machine, clock: Clock)
    requires Mirrored(m)
    ensures Mirrored(EvaluateRound(m, clock).m)
  {
    hide EvaluatePlayers, Rounds.Survivors, Rounds.EliminationsForRound, Replay, Mirrored;
    OneMoreMirrored(m, EvaluateRound(m, clock).m);
  }

  lemma PlainMirrored(m: Machine, op: Op, src: Source, clock: Clock)
    requires Mirrored(m)
    requires op.VoteOp? || op.ResolveVotingOp? || op.AttachOp?
    ensures Mirrored(Step(m, op, src, clock))
  {
    hide TopicVoting.Resolve, CheckVote, Replay, Mirrored;
    OneMoreMirrored(m, Step(m, op, src, clock));
  }

  /** Which operation gives the empty id a second chance it does not have. */
  lemma NamelessHeld(m: Machine, op: Op, src: Source, clock: Clock)
    requires "" !in m.mirrors.secondChance && !op.ReloadOp?
    ensures "" in Step(m, op, src, clock).mirrors.secondChance <==> GrantsNameless(op) && RoundIsOpen(m)
  {
    hide EvaluatePlayers, Rounds.Survivors, Rounds.EliminationsForRound, DetermineWinner, Promote;
    hide TopicVoting.Resolve, CandidatesFor, CardsToOffer, CheckAnswer, NewAnswer, CheckVote, Put, AddClasses;
  }

  lemma ReloadIsExact(m: Machine, src: Source, clock: Clock)
    requires Exact(m)
    ensures Exact(Step(m, ReloadOp, src, clock))
  {
    hide Replay, Codec.Deserialize, Save;
  }

  /** From mirrors that equal the replay of the log, every operation leads to such mirrors again, except
      one: a second chance granted to the empty id while a round is open, which the replay drops. */
  lemma StepKeepsMirrors(m: Machine, op: Op, src: Source, clock: Clock)
    requires Exact(m)
    ensures Exact(Step(m, op, src, clock)) <==> !(GrantsNameless(op) && RoundIsOpen(m))
  {
    hide Step, Replay;
    if op.ReloadOp? {
      ReloadIsExact(m, src, clock);
    } else {
      NamelessNeverReplayed(m.log);
      assert m.mirrors.secondChance - {""} == m.mirrors.secondChance;
      NamelessHeld(m, op, src, clock);
      StepMirrored(m, op, src, clock);
      ExactIff(Step(m, op, src, clock));
    }
  }

  /** What the exception looks like: live, the empty id holds a second chance that no replay gives back. */
  lemma NamelessGrantDiverges(m: Machine, c: CardId, o: int, ts: seq<string>, now: int, md: Metadata, clock: Clock)
    requires RoundIsOpen(m)
    ensures var after := PlayCard(m, "", c, o, SecondChance, ts, now, md, clock).m;
            "" in after.mirrors.secondChance && "" !in Replay(after.log).secondChance
  {
    NamelessNeverReplayed(PlayCard(m, "", c, o, SecondChance, ts, now, md, clock).m.log);
  }

  // ---- the log only grows ----

  ghost predicate Grows(m: Machine, after: Machine) {
    LogInv(after) && m.log <= after.log
  }

  lemma RoundStepGrows(m: Machine, op: Op, src: Source, clock: Clock)
    requires LogInv(m) && (op.SubmitOp? || op.EvaluateOp? || op.FinishOp? || op.StartRoundOp? || op.TransitionOp?)
    ensures Grows(m, Step(m, op, src, clock))
  {
    hide EvaluatePlayers, Rounds.Survivors, Rounds.EliminationsForRound, DetermineWinner, Promote;
    hide CheckAnswer, NewAnswer, Put, Enter, NewRound;
  }

  lemma PlayStepGrows(m: Machine, op: Op, src: Source, clock: Clock)
    requires LogInv(m) && op.PlayOp?
    ensures Grows(m, Step(m, op, src, clock))
  {
    hide Resolved;
  }

  lemma VotingStepGrows(m: Machine, op: Op, src: Source, clock: Clock)
    requires LogInv(m) && (op.InitVotingOp? || op.VoteOp? || op.ResolveVotingOp?)
    ensures Grows(m, Step(m, op, src, clock))
  {
    hide TopicVoting.Resolve, CandidatesFor, CheckVote, Enter;
  }

  lemma OtherStepGrows(m: Machine, op: Op, src: Source, clock: Clock)
    requires LogInv(m)
    requires op.DisconnectOp? || op.ReconnectOp? || op.ClassesOp? || op.OfferOp? || op.PickOp? || op.AttachOp?
    ensures Grows(m, Step(m, op, src, clock))
  {
    hide CardsToOffer, Put, AddClasses, Offered, Picked;
  }

  lemma StepGrowsLog(m: Machine, op: Op, src: Source, clock: Clock)
    requires LogInv(m) && !op.ReloadOp?
    ensures Grows(m, Step(m, op, src, clock))
  {
    hide Step, LogInv, Grows;
    if op.SubmitOp? || op.EvaluateOp? || op.FinishOp? || op.StartRoundOp? || op.TransitionOp? {
      RoundStepGrows(m, op, src, clock);
    } else if op.PlayOp? {
      PlayStepGrows(m, op, src, clock);
    } else if op.InitVotingOp? || op.VoteOp? || op.ResolveVotingOp? {
      VotingStepGrows(m, op, src, clock);
    } else {
      OtherStepGrows(m, op, src, clock);
    }
  }

  // ---- the timing ----

  predicate TimingInv(m: Machine) {
    && Codec.TimingReady(m.st, m.round)
    && (m.round.Some? ==> Codec.RoundReady(m.round.value))
    && Basics.Distinct(m.st.surviving)
  }

  /** Fields the timing depends on. */
  predicate SameTiming(a: Machine, b: Machine) {
    && a.st.status == b.st.status && a.st.phaseEndsAt == b.st.phaseEndsAt
    && a.st.roundResultStartedAt == b.st.roundResultStartedAt
    && a.st.surviving == b.st.surviving && a.round == b.round
  }

  lemma {:induction false} FilterDistinct(ids: seq<string>, keep: string -> bool)
    requires Basics.Distinct(ids)
    ensures Basics.Distinct(Rounds.Filter(ids, keep))
  {
    if ids != [] {
      FilterDistinct(ids[1..], keep);
      assert ids[0] !in ids[1..];
    }
  }

  lemma EvaluateKeepsTiming(m: Machine, clock: Clock)
    requires TimingInv(m)
    ensures TimingInv(EvaluateRound(m, clock).m)
  {
    hide EvaluatePlayers;
    if m.round.Some? {
      var r := m.round.value;
      FilterDistinct(Starters(m, r), id => Rounds.Survives(r, id));
    }
  }

  lemma SubmitKeepsTiming(m: Machine, p: string, answer: string, ts: int, sub: Option<string>, clock: Clock)
    requires TimingInv(m)
    ensures TimingInv(SubmitAnswer(m, p, answer, ts, sub, clock).m)
  {
    hide NewAnswer;
    if CheckAnswer(m, p, ts, sub) == Ok(None) {
      AnswerIsKeyed(m.round.value, p, answer, ts, sub);
    }
  }

  lemma AnswerIsKeyed(r: Round, p: string, answer: string, ts: int, sub: Option<string>)
    ensures NewAnswer(r, p, answer, ts, sub).playerId == p
  {
  }

  lemma TransitionKeepsTiming(m: Machine, to: MatchStatus, clock: Clock)
    requires TimingInv(m)
    ensures TimingInv(Transition(m, to, clock).m)
  {
    hide Basics.Distinct, Codec.RoundReady;
  }

  lemma StartRoundKeepsTiming(m: Machine, q: Question, correctAnswer: string, ms: Option<int>, clock: Clock)
    requires TimingInv(m)
    ensures TimingInv(StartRound(m, q, correctAnswer, ms, clock).m)
  {
  }

  lemma VotingKeepsTiming(m: Machine, c: Option<seq<string>>, ms: Option<int>, src: Source, clock: Clock)
    requires TimingInv(m)
    ensures TimingInv(InitTopicVoting(m, c, ms, src, clock).m)
  {
    hide CandidatesFor, Basics.Distinct, Codec.RoundReady;
  }

  lemma OtherKeepsTiming(m: Machine, op: Op, src: Source, clock: Clock)
    requires op.FinishOp? || op.DisconnectOp? || op.ReconnectOp? || op.VoteOp? || op.ResolveVotingOp?
             || op.ClassesOp? || op.OfferOp? || op.PickOp? || op.PlayOp?
    ensures SameTiming(m, Step(m, op, src, clock))
  {
    hide TopicVoting.Resolve;
    hide CardsToOffer;
    hide DetermineWinner;
    hide Promote;
    hide CheckVote;
    hide Put;
  }

  lemma StepKeepsTiming(m: Machine, op: Op, src: Source, clock: Clock)
    requires TimingInv(m) && !op.ReloadOp?
    ensures TimingInv(Step(m, op, src, clock))
  {
    match op
    case EvaluateOp => EvaluateKeepsTiming(m, clock);
    case SubmitOp(p, a, ts, sub) => SubmitKeepsTiming(m, p, a, ts, sub, clock);
    case AttachOp(_) =>
    case TransitionOp(to) => TransitionKeepsTiming(m, to, clock);
    case StartRoundOp(q, a, ms) => StartRoundKeepsTiming(m, q, a, ms, clock);
    case InitVotingOp(c, ms) => VotingKeepsTiming(m, c, ms, src, clock);
    case _ => OtherKeepsTiming(m, op, src, clock);
  }

  // ---- failover ----

  ghost predicate Inv(m: Machine) {
    LogInv(m) && Mirrored(m) && TimingInv(m)
  }

  predicate Backwards(m: Machine) {
    m.round.Some? && m.round.value.endsAt < m.round.value.startedAt
  }

  /** What a failover keeps of a match. */
  function Recovered(m: Machine): Machine {
    m.(round := Codec.EraseAnswer(m.round), mirrors := Named(m.mirrors))
  }

  /** A failover loses nothing but the answer key of the round in flight and a second chance of the
      empty player id, and is refused only for a round whose duration was negative. */
  lemma FailoverLosesOnlyTheKey(m: Machine)
    requires Inv(m)
    ensures Codec.Deserialize(Save(m)).Ok? <==> !Backwards(m)
    ensures Reload(m) == if Backwards(m) then m else Recovered(m)
  {
    hide Codec.Deserialize;
    hide Codec.Serialize;
    Codec.RejectedIffBackwards(m.st, m.round, m.log);
    Codec.RoundTripIffReady(m.st, m.round, m.log);
    DenseMax(m.log);
  }

  /** Attaching the key again makes the recovered match the one that was saved, while the round is open. */
  lemma AttachRestores(m: Machine)
    requires Inv(m) && !Backwards(m)
    requires m.round.Some? ==> m.round.value.status == Open && m.round.value.correctAnswer.Some?
    ensures m.round.Some? ==>
              AttachCorrectAnswer(Reload(m), m.round.value.correctAnswer.value) == m.(mirrors := Named(m.mirrors))
    ensures m.round.None? ==> Reload(m) == m.(mirrors := Named(m.mirrors))
    ensures m.(mirrors := Named(m.mirrors)) == m <==> "" !in m.mirrors.secondChance
  {
    hide Reload;
    FailoverLosesOnlyTheKey(m);
    assert "" !in m.mirrors.secondChance ==> m.mirrors.secondChance - {""} == m.mirrors.secondChance;
  }

  lemma StepKeepsInv(m: Machine, op: Op, src: Source, clock: Clock)
    requires Inv(m)
    ensures Inv(Step(m, op, src, clock)) && Grows(m, Step(m, op, src, clock))
  {
    hide Step;
    if op.ReloadOp? {
      ReloadKeepsInv(m, src, clock);
    } else {
      StepMirrored(m, op, src, clock);
      StepGrowsLog(m, op, src, clock);
      StepKeepsTiming(m, op, src, clock);
    }
  }

  lemma PlayKeepsInv(m: Machine, op: Op, clock: Clock)
    requires Inv(m) && op.PlayOp?
    ensures Inv(PlayCard(m, op.playerId, op.cardId, op.offerSeqNo, op.effect, op.targets, op.serverNow, op.metadata, clock).m)
  {
    PlayMirrored(m, op.playerId, op.cardId, op.offerSeqNo, op.effect, op.targets, op.serverNow, op.metadata, clock);
  }

  lemma EraseKeepsTiming(m: Machine)
    requires TimingInv(m)
    ensures TimingInv(Recovered(m))
  {
  }

  lemma ErasingKeepsInv(m: Machine)
    requires Inv(m)
    ensures Grows(m, m)
    ensures Inv(Recovered(m)) && Grows(m, Recovered(m))
  {
    EraseKeepsTiming(m);
    hide TimingInv, Replay, Codec.EraseAnswer;
    assert Named(Named(m.mirrors)) == Named(m.mirrors);
  }

  lemma ReloadKeepsInv(m: Machine, src: Source, clock: Clock)
    requires Inv(m)
    ensures Inv(Step(m, ReloadOp, src, clock)) && Grows(m, Step(m, ReloadOp, src, clock))
  {
    hide Reload, Inv, Grows, Save, Backwards, Codec.EraseAnswer, Codec.Deserialize;
    assert Step(m, ReloadOp, src, clock) == Reload(m);
    hide Step;
    FailoverLosesOnlyTheKey(m);
    ErasingKeepsInv(m);
  }

  // ---- runs ----

  lemma CreateInv(matchId: string, roomId: string, players: seq<PlayerInfo>)
    requires Basics.Distinct(Ids(players))
    ensures Inv(Create(matchId, roomId, players))
  {
  }

  /** Over every run the log is dense, the mirrors equal the replay of the log exactly when the empty
      player id holds no second chance, and a failover at any moment loses only that chance and the
      answer key, unless the open round was given a negative duration. */
  lemma {:induction false} EveryRunSurvivesFailover(matchId: string, roomId: string, players: seq<PlayerInfo>, calls: seq<Call>, src: Source)
    requires Basics.Distinct(Ids(players))
    ensures var m := Run(Create(matchId, roomId, players), calls, src);
            && Inv(m)
            && Named(m.mirrors) == Replay(m.log)
            && (m.mirrors == Replay(m.log) <==> "" !in m.mirrors.secondChance)
            && (Codec.Deserialize(Save(m)).Ok? <==> !Backwards(m))
            && (!Backwards(m) ==> Reload(m) == Recovered(m))
  {
    hide Step;
    hide Reload;
    hide Codec.Deserialize;
    var m0 := Create(matchId, roomId, players);
    CreateInv(matchId, roomId, players);
    if calls != [] {
      var n := |calls| - 1;
      EveryRunSurvivesFailover(matchId, roomId, players, calls[..n], src);
      StepKeepsInv(Run(m0, calls[..n], src), calls[n].op, src, calls[n].clock);
    }
    FailoverLosesOnlyTheKey(Run(m0, calls, src));
    ExactIff(Run(m0, calls, src));
  }

  lemma StartedSpan(m: Machine, q: Question, a: string, ms: Option<int>, clock: Clock)
    requires m.st.status == RoundActive
    ensures var after := StartRound(m, q, a, ms, clock).m;
            after.round.Some?
            && after.round.value.endsAt - after.round.value.startedAt == if ms.Some? then ms.value else ROUND_DURATION_MS
  {
  }

  /** The refusal is real: a match saved just after a round was started is readable exactly when the
      round was not given a negative duration. */
  lemma StartedRoundIsReadable(m: Machine, q: Question, a: string, ms: Option<int>, src: Source, clock: Clock)
    requires Inv(m) && m.st.status == RoundActive
    ensures Codec.Deserialize(Save(StartRound(m, q, a, ms, clock).m)).Ok? <==> (ms.Some? ==> ms.value >= 0)
  {
    var op := StartRoundOp(q, a, ms);
    assert Step(m, op, src, clock) == StartRound(m, q, a, ms, clock).m;
    hide Step, StartRound, Inv, Codec.Deserialize, Save;
    StepKeepsInv(m, op, src, clock);
    StartedSpan(m, q, a, ms, clock);
    FailoverLosesOnlyTheKey(StartRound(m, q, a, ms, clock).m);
  }

  predicate ForwardRounds(op: Op) {
    op.StartRoundOp? && op.roundMs.Some? ==> op.roundMs.value >= 0
  }

  lemma ForwardStep(m: Machine, op: Op, src: Source, clock: Clock)
    requires Inv(m) && !Backwards(m) && ForwardRounds(op)
    ensures !Backwards(Step(m, op, src, clock))
  {
    match op
    case ReloadOp =>
      hide Reload;
      FailoverLosesOnlyTheKey(m);
    case TransitionOp(_) =>
    case StartRoundOp(_, _, _) =>
    case SubmitOp(p, a, ts, sub) =>
      hide CheckAnswer;
      hide NewAnswer;
    case EvaluateOp =>
      hide EvaluatePlayers;
    case AttachOp(_) =>
    case InitVotingOp(_, _) =>
      hide CandidatesFor;
    case _ =>
      hide Step;
      OtherKeepsTiming(m, op, src, clock);
  }

  /** With rounds of non-negative length no reachable match is ever refused. */
  lemma {:induction false} NoReachableMatchIsRefused(matchId: string, roomId: string, players: seq<PlayerInfo>, calls: seq<Call>, src: Source)
    requires Basics.Distinct(Ids(players))
    requires forall i :: 0 <= i < |calls| ==> ForwardRounds(calls[i].op)
    ensures Codec.Deserialize(Save(Run(Create(matchId, roomId, players), calls, src))).Ok?
    ensures !Backwards(Run(Create(matchId, roomId, players), calls, src))
  {
    hide Step;
    hide Codec.Deserialize;
    EveryRunSurvivesFailover(matchId, roomId, players, calls, src);
    if calls != [] {
      var n := |calls| - 1;
      NoReachableMatchIsRefused(matchId, roomId, players, calls[..n], src);
      EveryRunSurvivesFailover(matchId, roomId, players, calls[..n], src);
      ForwardStep(Run(Create(matchId, roomId, players), calls[..n], src), calls[n].op, src, calls[n].clock);
    }
  }
}
