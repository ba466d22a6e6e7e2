/** The phases a match goes through and the numbers of its rounds (transition and startRound of
    packages/game-core/src/match-state-machine.ts, over whole runs). */
module Phases {
  import opened MatchTypes
  import opened Wrappers
  import opened OrderedMap
  import opened MatchSpec
  import opened MatchRuns
  import Basics
  import Codec
  import MatchInvariants
  import Rounds
  import TopicVoting

  // ---- the phases ----

  /** Before play, play, after it. */
  function Stage(s: MatchStatus): nat {
    match s
    case Created => 0
    case TopicVoting => 1
    case Countdown => 2
    case Finished => 4
    case _ => 3
  }

  /** The phases of play follow each other in a circle. */
  function NextPhase(s: MatchStatus): MatchStatus
    requires Stage(s) == 3
  {
    match s
    case RoundActive => RoundEvaluating
    case RoundEvaluating => RoundResult
    case RoundResult => RoundActive
  }

  /** Play is entered at a round from the countdown and goes round in its circle; anything that has left
      the lobby can finish; before play a stage can be skipped; and nothing ever goes back. */
  lemma TransitionMeaning(a: MatchStatus, b: MatchStatus)
    ensures CanTransition(a, b) <==>
              if b == Finished then 0 < Stage(a) < 4
              else if Stage(a) == 3 then b == NextPhase(a)
              else if Stage(b) == 3 then a == Countdown && b == RoundActive
              else Stage(a) < Stage(b)
  {
  }

  /** A result leads to another round: three transitions take a round to the next, whatever the clock. */
  lemma RoundsRepeat(m: Machine, c1: Clock, c2: Clock, c3: Clock)
    requires m.st.status == RoundActive
    ensures var evaluating := Transition(m, RoundEvaluating, c1);
            var result := Transition(evaluating.m, RoundResult, c2);
            var again := Transition(result.m, RoundActive, c3);
            && evaluating.result.Ok? && result.result.Ok? && again.result.Ok?
            && again.m.st.status == RoundActive && again.m.round.None?
            && result.m.st.phaseEndsAt == Some(c2(1) + RESULT_DISPLAY_MS)
  {
  }

  /** The deadline a transition sets: five seconds of countdown, ten of voting, three of result, counted
      from the clock at the transition; no other phase has one until a round is started in it. */
  lemma TransitionSetsDeadline(m: Machine, to: MatchStatus, clock: Clock)
    requires CanTransition(m.st.status, to)
    ensures var st := Transition(m, to, clock).m.st;
            && st.status == to
            && (to == Countdown ==> st.startedAt == Some(clock(1)) && st.phaseEndsAt == Some(clock(2) + 5000))
            && (to == TopicVoting ==> st.startedAt == Some(clock(1)) && st.phaseEndsAt == Some(clock(2) + 10000))
            && (to == RoundResult ==> st.roundResultStartedAt == Some(clock(1)) && st.phaseEndsAt == Some(clock(1) + 3000))
            && (to == Finished ==> st.endedAt == Some(clock(1)))
            && (to in {RoundActive, RoundEvaluating, Finished} ==> st.phaseEndsAt == None)
            && (to != RoundResult ==> st.roundResultStartedAt == None)
            && Transition(m, to, clock).m.round == if to == RoundActive then None else m.round
  {
  }

  lemma OtherStepKeepsPhase(m: Machine, op: Op, src: Source, clock: Clock)
    requires !op.TransitionOp? && !op.InitVotingOp? && !op.ReloadOp?
    ensures Step(m, op, src, clock).st.status == m.st.status
  {
    hide EvaluatePlayers, Rounds.Survivors, Rounds.EliminationsForRound, DetermineWinner, Promote;
    hide TopicVoting.Resolve, CardsToOffer, CheckAnswer, NewAnswer, CheckVote, Put;
  }

  /** Every operation leaves the phase or takes a transition of the table; and a transition is taken
      exactly where the table has it. */
  lemma StepTakesTransition(m: Machine, op: Op, src: Source, clock: Clock)
    requires MatchInvariants.Inv(m)
    ensures var after := Step(m, op, src, clock);
            after.st.status == m.st.status || CanTransition(m.st.status, after.st.status)
    ensures op.TransitionOp? ==>
              (Step(m, op, src, clock).st.status == op.to <==> op.to == m.st.status || CanTransition(m.st.status, op.to))
  {
    match op
    case TransitionOp(_) =>
    case InitVotingOp(_, _) =>
      hide CandidatesFor;
    case ReloadOp =>
      hide Reload, MatchInvariants.Inv, MatchInvariants.Backwards, Codec.Deserialize;
      MatchInvariants.FailoverLosesOnlyTheKey(m);
    case _ =>
      hide Step;
      OtherStepKeepsPhase(m, op, src, clock);
  }

  lemma StageGrows(a: MatchStatus, b: MatchStatus)
    requires a == b || CanTransition(a, b)
    ensures Stage(a) <= Stage(b) && (a == Finished ==> b == Finished)
  {
  }

  lemma StepKeepsStage(m: Machine, op: Op, src: Source, clock: Clock)
    requires MatchInvariants.Inv(m)
    ensures var after := Step(m, op, src, clock);
            Stage(m.st.status) <= Stage(after.st.status) && (m.st.status == Finished ==> after.st.status == Finished)
  {
    hide Step, Stage, MatchInvariants.Inv;
    StepTakesTransition(m, op, src, clock);
    StageGrows(m.st.status, Step(m, op, src, clock).st.status);
  }

  /** Over every run no stage is gone back to, and a finished match stays finished. */
  lemma {:induction false} StagesNeverGoBack(matchId: string, roomId: string, players: seq<PlayerInfo>, calls: seq<Call>, src: Source, i: nat)
    requires Basics.Distinct(Ids(players)) && i <= |calls|
    ensures var before, after := Run(Create(matchId, roomId, players), calls[..i], src), Run(Create(matchId, roomId, players), calls, src);
            && Stage(before.st.status) <= Stage(after.st.status)
            && (before.st.status == Finished ==> after.st.status == Finished)
  {
    hide Step, Create, MatchInvariants.Inv, Stage, MatchRuns.Reload, MatchRuns.Save;
    if i < |calls| {
      var n := |calls| - 1;
      var m := Run(Create(matchId, roomId, players), calls[..n], src);
      assert calls[..n][..i] == calls[..i];
      StagesNeverGoBack(matchId, roomId, players, calls[..n], src, i);
      MatchInvariants.EveryRunSurvivesFailover(matchId, roomId, players, calls[..n], src);
      StepKeepsStage(m, calls[n].op, src, calls[n].clock);
    } else {
      assert calls[..i] == calls;
    }
  }

  // ---- round numbers ----

  /** Rounds started, by the log. */
  function Started(log: seq<Entry>): nat {
    if log == [] then 0
    else Started(log[..|log| - 1]) + (if log[|log| - 1].event.RoundStarted? then 1 else 0)
  }

  /** Each started round has the number of rounds started up to it. */
  ghost predicate InTurn(log: seq<Entry>) {
    forall i :: 0 <= i < |log| && log[i].event.RoundStarted? ==> log[i].event.roundNo == Started(log[..i]) + 1
  }

  ghost predicate Numbered(m: Machine) {
    && InTurn(m.log)
    && m.st.currentRoundNo == m.st.totalRounds == Started(m.log)
    && (m.round.Some? ==> m.round.value.roundNo == m.st.currentRoundNo)
  }

  lemma StartedAppend(log: seq<Entry>, e: Entry)
    requires InTurn(log) && (e.event.RoundStarted? ==> e.event.roundNo == Started(log) + 1)
    ensures InTurn(log + [e]) && Started(log + [e]) == Started(log) + (if e.event.RoundStarted? then 1 else 0)
  {
    var all := log + [e];
    assert all[..|log|] == log;
    forall i | 0 <= i < |log| ensures all[..i] == log[..i] && all[i] == log[i] {
    }
  }

  lemma StartIsNumbered(m: Machine, q: Question, a: string, ms: Option<int>, clock: Clock)
    requires Numbered(m)
    ensures Numbered(StartRound(m, q, a, ms, clock).m)
  {
    hide InTurn, Started, WithDifficulty;
    if m.st.status == RoundActive {
      var r := StartRound(m, q, a, ms, clock).result.value;
      StartedAppend(m.log, Entry(RoundStarted(r.roundNo, r.question, r.endsAt), clock(1), m.counter + 1));
    }
  }

  lemma {:induction false} NoneStarted(log: seq<Entry>, after: seq<Entry>)
    requires InTurn(log) && log <= after && forall i :: |log| <= i < |after| ==> !after[i].event.RoundStarted?
    ensures InTurn(after) && Started(after) == Started(log)
    decreases |after|
  {
    if |log| < |after| {
      var n := |after| - 1;
      NoneStarted(log, after[..n]);
      StartedAppend(after[..n], after[n]);
      assert after == after[..n] + [after[n]];
    } else {
      assert log == after;
    }
  }

  lemma SubmitKeepsNumbers(m: Machine, p: string, answer: string, ts: int, sub: Option<string>, clock: Clock)
    ensures KeepsNumbers(m, SubmitAnswer(m, p, answer, ts, sub, clock).m)
  {
    hide CheckAnswer, NewAnswer, Put;
    if CheckAnswer(m, p, ts, sub) == Ok(None) { MatchInvariants.AcceptedMeans(m, p, ts, sub); }
  }

  lemma RoundStepKeepsNumbers(m: Machine, op: Op, src: Source, clock: Clock)
    requires op.TransitionOp? || op.EvaluateOp? || op.FinishOp?
    ensures KeepsNumbers(m, Step(m, op, src, clock))
  {
    hide EvaluatePlayers, Rounds.Survivors, Rounds.EliminationsForRound, DetermineWinner, Promote;
  }

  lemma VotingStepKeepsNumbers(m: Machine, op: Op, src: Source, clock: Clock)
    requires op.InitVotingOp? || op.VoteOp? || op.ResolveVotingOp?
    ensures KeepsNumbers(m, Step(m, op, src, clock))
  {
    hide TopicVoting.Resolve, CandidatesFor, CheckVote;
  }

  lemma CardStepKeepsNumbers(m: Machine, op: Op, src: Source, clock: Clock)
    requires op.DisconnectOp? || op.ReconnectOp? || op.ClassesOp? || op.OfferOp? || op.PickOp? || op.PlayOp? || op.AttachOp?
    ensures KeepsNumbers(m, Step(m, op, src, clock))
  {
    hide CardsToOffer, Put, Rehydrate.AddClasses, Rehydrate.Resolved;
  }

  predicate KeepsNumbers(m: Machine, after: Machine) {
    && after.st.currentRoundNo == m.st.currentRoundNo && after.st.totalRounds == m.st.totalRounds
    && (after.round.Some? ==> m.round.Some? && after.round.value.roundNo == m.round.value.roundNo)
    && forall i :: |m.log| <= i < |after.log| ==> !after.log[i].event.RoundStarted?
  }

  lemma StepKeepsNumbers(m: Machine, op: Op, src: Source, clock: Clock)
    requires !op.StartRoundOp? && !op.ReloadOp?
    ensures KeepsNumbers(m, Step(m, op, src, clock))
  {
    if op.SubmitOp? {
      hide SubmitAnswer, KeepsNumbers;
      SubmitKeepsNumbers(m, op.playerId, op.answer, op.serverTimestamp, op.submissionId, clock);
    } else {
      hide Step, KeepsNumbers;
      if op.TransitionOp? || op.EvaluateOp? || op.FinishOp? {
        RoundStepKeepsNumbers(m, op, src, clock);
      } else if op.InitVotingOp? || op.VoteOp? || op.ResolveVotingOp? {
        VotingStepKeepsNumbers(m, op, src, clock);
      } else {
        CardStepKeepsNumbers(m, op, src, clock);
      }
    }
  }

  lemma ReloadIsNumbered(m: Machine)
    requires MatchInvariants.Inv(m) && Numbered(m)
    ensures Numbered(Reload(m))
  {
    hide Reload, MatchInvariants.Inv, MatchInvariants.Backwards, Codec.Deserialize;
    MatchInvariants.FailoverLosesOnlyTheKey(m);
  }

  lemma QuietStepKeepsNumbered(m: Machine, op: Op, src: Source, clock: Clock)
    requires MatchInvariants.LogInv(m) && Numbered(m) && !op.StartRoundOp? && !op.ReloadOp?
    ensures Numbered(Step(m, op, src, clock))
  {
    hide Step, InTurn, Started;
    StepKeepsNumbers(m, op, src, clock);
    MatchInvariants.StepGrowsLog(m, op, src, clock);
    NoneStarted(m.log, Step(m, op, src, clock).log);
  }

  lemma NumberingSteps(m: Machine, op: Op, src: Source, clock: Clock)
    ensures op.StartRoundOp? ==> Step(m, op, src, clock) == StartRound(m, op.question, op.correctAnswer, op.roundMs, clock).m
    ensures op.ReloadOp? ==> Step(m, op, src, clock) == Reload(m)
  {
    hide StartRound, Reload;
  }

  lemma StepKeepsNumbered(m: Machine, op: Op, src: Source, clock: Clock)
    requires MatchInvariants.Inv(m) && Numbered(m)
    ensures Numbered(Step(m, op, src, clock))
  {
    hide Step, StartRound, Reload, Numbered;
    NumberingSteps(m, op, src, clock);
    if op.StartRoundOp? {
      StartIsNumbered(m, op.question, op.correctAnswer, op.roundMs, clock);
    } else if op.ReloadOp? {
      ReloadIsNumbered(m);
    } else {
      QuietStepKeepsNumbered(m, op, src, clock);
    }
  }

  /** Over every run, failovers included: the rounds started are numbered 1, 2, 3, … in the log, and the
      current round number and the total are how many there were. */
  lemma {:induction false} RoundsAreNumberedInTurn(matchId: string, roomId: string, players: seq<PlayerInfo>, calls: seq<Call>, src: Source)
    requires Basics.Distinct(Ids(players))
    ensures Numbered(Run(Create(matchId, roomId, players), calls, src))
  {
    hide Step, MatchInvariants.Inv;
    if calls != [] {
      hide Create, Numbered;
      var n := |calls| - 1;
      RoundsAreNumberedInTurn(matchId, roomId, players, calls[..n], src);
      MatchInvariants.EveryRunSurvivesFailover(matchId, roomId, players, calls[..n], src);
      StepKeepsNumbered(Run(Create(matchId, roomId, players), calls[..n], src), calls[n].op, src, calls[n].clock);
    }
  }
}
