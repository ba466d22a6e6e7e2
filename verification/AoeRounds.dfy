/** No card is ever logged for a round that has not started, so the area-effect tracker may start every
    new round at zero. */
module AoeRounds {
  import opened MatchTypes
  import opened Wrappers
  import opened OrderedMap
  import opened Rehydrate
  import opened MatchSpec
  import opened MatchRuns
  import Basics
  import AoeCap
  import CardLimits
  import Codec
  import MatchInvariants
  import Rounds
  import TopicVoting

  ghost predicate NoneLater(log: seq<Entry>, roundNo: int) {
    forall i :: 0 <= i < |log| && log[i].event.CardResolved? ==> log[i].event.roundNo <= roundNo
  }

  ghost predicate RoundsPast(m: Machine) {
    NoneLater(m.log, m.st.currentRoundNo) && (m.round.Some? ==> m.round.value.roundNo <= m.st.currentRoundNo)
  }

  lemma StartKeepsPast(m: Machine, q: Question, a: string, ms: Option<int>, clock: Clock)
    requires RoundsPast(m)
    ensures RoundsPast(StartRound(m, q, a, ms, clock).m)
  {
  }

  lemma PlayKeepsPast(m: Machine, p: string, c: CardId, o: int, e: Effect, ts: seq<string>, now: int, md: Metadata, clock: Clock)
    requires RoundsPast(m)
    ensures RoundsPast(PlayCard(m, p, c, o, e, ts, now, md, clock).m)
  {
    hide Resolved;
  }

  lemma ReloadKeepsPast(m: Machine, src: Source, clock: Clock)
    requires MatchInvariants.Inv(m) && RoundsPast(m)
    ensures RoundsPast(Step(m, ReloadOp, src, clock))
  {
    hide Reload, MatchInvariants.Inv, MatchInvariants.Backwards, Codec.Deserialize;
    assert Step(m, ReloadOp, src, clock) == Reload(m);
    hide Step;
    MatchInvariants.FailoverLosesOnlyTheKey(m);
  }

  /** The other operations leave the round numbers alone. */
  lemma OthersKeepRounds(m: Machine, op: Op, src: Source, clock: Clock)
    requires !op.StartRoundOp? && !op.PlayOp? && !op.ReloadOp?
    ensures var after := Step(m, op, src, clock);
            && after.st.currentRoundNo == m.st.currentRoundNo
            && (after.round.Some? ==> m.round.Some? && after.round.value.roundNo == m.round.value.roundNo)
  {
    hide EvaluatePlayers, Rounds.Survivors, Rounds.EliminationsForRound, DetermineWinner, Promote;
    hide TopicVoting.Resolve, CandidatesFor, CardsToOffer, NewAnswer, CheckVote, Put;
  }

  lemma QuietKeepsPast(m: Machine, after: Machine)
    requires RoundsPast(m) && m.log <= after.log && after.st.currentRoundNo == m.st.currentRoundNo
    requires after.round.Some? ==> m.round.Some? && after.round.value.roundNo == m.round.value.roundNo
    requires forall i :: |m.log| <= i < |after.log| ==> !after.log[i].event.CardResolved?
    ensures RoundsPast(after)
  {
    assert forall i :: 0 <= i < |m.log| ==> after.log[i] == m.log[i];
  }

  lemma StepKeepsPast(m: Machine, op: Op, src: Source, clock: Clock)
    requires MatchInvariants.Inv(m) && RoundsPast(m)
    ensures RoundsPast(Step(m, op, src, clock))
  {
    hide RoundsPast;
    if op.StartRoundOp? {
      StartKeepsPast(m, op.question, op.correctAnswer, op.roundMs, clock);
    } else if op.PlayOp? {
      PlayKeepsPast(m, op.playerId, op.cardId, op.offerSeqNo, op.effect, op.targets, op.serverNow, op.metadata, clock);
    } else if op.ReloadOp? {
      ReloadKeepsPast(m, src, clock);
    } else {
      hide Step;
      OthersKeepRounds(m, op, src, clock);
      CardLimits.QuietStep(m, op, src, clock);
      MatchInvariants.StepGrowsLog(m, op, src, clock);
      QuietKeepsPast(m, Step(m, op, src, clock));
    }
  }

  lemma {:induction false} RunKeepsPast(matchId: string, roomId: string, players: seq<PlayerInfo>, calls: seq<Call>, src: Source)
    requires Basics.Distinct(Ids(players))
    ensures RoundsPast(Run(Create(matchId, roomId, players), calls, src))
  {
    hide Step, MatchInvariants.Inv;
    if calls != [] {
      var n := |calls| - 1;
      RunKeepsPast(matchId, roomId, players, calls[..n], src);
      MatchInvariants.EveryRunSurvivesFailover(matchId, roomId, players, calls[..n], src);
      StepKeepsPast(Run(Create(matchId, roomId, players), calls[..n], src), calls[n].op, src, calls[n].clock);
    }
  }

  /** At every reachable state the log holds no area effect of any later round: what a tracker that
      moves on to a later round demands. */
  lemma LaterRoundsAreEmpty(matchId: string, roomId: string, players: seq<PlayerInfo>, calls: seq<Call>, src: Source, next: int)
    requires Basics.Distinct(Ids(players))
    ensures var m := Run(Create(matchId, roomId, players), calls, src);
            m.st.currentRoundNo < next ==>
              && (forall i :: 0 <= i < |m.log| ==> !AoeCap.CountsAsAoe(m.log[i].event, matchId, next))
              && AoeCap.AoeResolved(m.log, matchId, next) == 0
  {
    hide Run, Create;
    RunKeepsPast(matchId, roomId, players, calls, src);
    var m := Run(Create(matchId, roomId, players), calls, src);
    if m.st.currentRoundNo < next { AoeCap.NoneCounted(m.log, matchId, next); }
  }
}
