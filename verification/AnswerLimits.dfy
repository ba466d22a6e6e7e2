/** How many answers a player can place in one round. */
module AnswerLimits {
  import opened MatchTypes
  import opened Wrappers
  import opened OrderedMap
  import opened MatchSpec
  import opened MatchRuns
  import Basics
  import MatchInvariants
  import Codec
  import TopicVoting

  // ---- counts since the round started, by the log ----

  function Answers(log: seq<Entry>, p: string): nat {
    if log == [] then 0
    else
      var before := Answers(log[..|log| - 1], p);
      match log[|log| - 1].event
      case RoundStarted(_, _, _) => 0
      case AnswerSubmitted(q, _, _) => if q == p then before + 1 else before
      case _ => before
  }

  function Granted(log: seq<Entry>, p: string): nat {
    if log == [] then 0
    else
      var before := Granted(log[..|log| - 1], p);
      match log[|log| - 1].event
      case RoundStarted(_, _, _) => 0
      case SecondChanceGranted(q, _) => if q == p then before + 1 else before
      case _ => before
  }

  function Consumed(log: seq<Entry>, p: string): nat {
    if log == [] then 0
    else
      var before := Consumed(log[..|log| - 1], p);
      match log[|log| - 1].event
      case RoundStarted(_, _, _) => 0
      case SecondChanceConsumed(q, _) => if q == p then before + 1 else before
      case _ => before
  }

  datatype Counts = Counts(answers: nat, granted: nat, consumed: nat)

  function CountsOf(log: seq<Entry>, p: string): Counts {
    Counts(Answers(log, p), Granted(log, p), Consumed(log, p))
  }

  function Counted(c: Counts, e: Event, p: string): Counts {
    match e
    case RoundStarted(_, _, _) => Counts(0, 0, 0)
    case AnswerSubmitted(q, _, _) => if q == p then c.(answers := c.answers + 1) else c
    case SecondChanceGranted(q, _) => if q == p then c.(granted := c.granted + 1) else c
    case SecondChanceConsumed(q, _) => if q == p then c.(consumed := c.consumed + 1) else c
    case _ => c
  }

  lemma CountsAppend(log: seq<Entry>, e: Entry, p: string)
    ensures CountsOf(log + [e], p) == Counted(CountsOf(log, p), e.event, p)
  {
    assert (log + [e])[..|log|] == log;
  }

  // ---- the invariant ----

  predicate AnswerInv(m: Machine, p: string) {
    var c := CountsOf(m.log, p);
    && c.answers <= 1 + c.consumed
    && c.consumed + (if p in m.mirrors.secondChance then 1 else 0) <= c.granted
    && (m.round.Some? && p !in m.round.value.answers.m ==> c.answers == 0)
  }

  lemma StartKeeps(m: Machine, q: Question, a: string, ms: Option<int>, clock: Clock, p: string)
    requires AnswerInv(m, p)
    ensures AnswerInv(StartRound(m, q, a, ms, clock).m, p)
  {
    if m.st.status == RoundActive {
      var r := StartRound(m, q, a, ms, clock).result.value;
      CountsAppend(m.log, Entry(RoundStarted(r.roundNo, r.question, r.endsAt), clock(1), m.counter + 1), p);
    }
  }

  lemma SubmitKeeps(m: Machine, who: string, answer: string, ts: int, sub: Option<string>, clock: Clock, p: string)
    requires AnswerInv(m, p)
    ensures AnswerInv(SubmitAnswer(m, who, answer, ts, sub, clock).m, p)
  {
    hide NewAnswer, CountsOf, CheckAnswer, Put;
    if CheckAnswer(m, who, ts, sub) == Ok(None) {
      MatchInvariants.AcceptedMeans(m, who, ts, sub);
      var r := m.round.value;
      var a := NewAnswer(r, who, answer, ts, sub);
      var consumed := ConsumeSecondChance(m, r, who, clock(0));
      if who in r.answers.m {
        CountsAppend(m.log, Entry(SecondChanceConsumed(who, r.roundNo), clock(0), m.counter + 1), p);
      }
      CountsAppend(consumed.log, Entry(AnswerSubmitted(who, a.isCorrect, a.responseTimeMs), clock(1), consumed.counter + 1), p);
    }
  }

  lemma PlayKeeps(m: Machine, who: string, c: CardId, o: int, e: Effect, ts: seq<string>, now: int, md: Metadata, clock: Clock, p: string)
    requires AnswerInv(m, p)
    ensures AnswerInv(PlayCard(m, who, c, o, e, ts, now, md, clock).m, p)
  {
    hide CountsOf;
    if RoundIsOpen(m) {
      var event := ResolvedEvent(m, who, c, o, e, ts, now, md);
      var entry := Entry(event, clock(0), m.counter + 1);
      CountsAppend(m.log, entry, p);
      CountsAppend(m.log + [entry], Entry(SecondChanceGranted(who, m.round.value.roundNo), clock(1), m.counter + 2), p);
    }
  }

  /** Events the counts do not look at. */
  predicate Neutral(e: Event) {
    !e.RoundStarted? && !e.AnswerSubmitted? && !e.SecondChanceGranted? && !e.SecondChanceConsumed?
  }

  lemma {:induction false} NeutralSuffix(log: seq<Entry>, after: seq<Entry>, p: string)
    requires log <= after && forall i :: |log| <= i < |after| ==> Neutral(after[i].event)
    ensures CountsOf(after, p) == CountsOf(log, p)
    decreases |after|
  {
    if |log| < |after| {
      var n := |after| - 1;
      NeutralSuffix(log, after[..n], p);
      assert after == after[..n] + [after[n]];
      CountsAppend(after[..n], after[n], p);
    } else {
      assert log == after;
    }
  }

  predicate IsNeutral(op: Op) {
    !op.StartRoundOp? && !op.SubmitOp? && !op.PlayOp? && !op.ReloadOp?
  }

  lemma NeutralStep(m: Machine, op: Op, src: Source, clock: Clock)
    requires IsNeutral(op)
    ensures var after := Step(m, op, src, clock);
            forall i :: |m.log| <= i < |after.log| ==> Neutral(after.log[i].event)
  {
    hide TopicVoting.Resolve;
    hide CandidatesFor;
    hide CardsToOffer;
    hide DetermineWinner;
    hide Promote;
    hide EvaluatePlayers;
    hide CheckVote;
    hide Put;
  }

  lemma NeutralStepKeepsRound(m: Machine, op: Op, src: Source, clock: Clock)
    requires IsNeutral(op)
    ensures var after := Step(m, op, src, clock);
            && after.mirrors.secondChance == m.mirrors.secondChance
            && (after.round.Some? ==> m.round.Some? && after.round.value.answers == m.round.value.answers)
  {
    hide TopicVoting.Resolve;
    hide CandidatesFor;
    hide CardsToOffer;
    hide DetermineWinner;
    hide Promote;
    hide EvaluatePlayers;
    hide CheckVote;
    hide Put;
  }

  lemma StepKeepsAnswers(m: Machine, op: Op, src: Source, clock: Clock, p: string)
    requires MatchInvariants.Inv(m) && AnswerInv(m, p)
    ensures AnswerInv(Step(m, op, src, clock), p)
  {
    match op
    case StartRoundOp(q, a, ms) => StartKeeps(m, q, a, ms, clock, p);
    case SubmitOp(who, a, ts, sub) => SubmitKeeps(m, who, a, ts, sub, clock, p);
    case PlayOp(who, c, o, e, ts, now, md) => PlayKeeps(m, who, c, o, e, ts, now, md, clock, p);
    case ReloadOp => ReloadKeeps(m, p);
    case _ =>
      hide Step, CountsOf, AnswerInv;
      QuietStepKeeps(m, op, src, clock, p);
  }

  lemma ReloadKeeps(m: Machine, p: string)
    requires MatchInvariants.Inv(m) && AnswerInv(m, p)
    ensures AnswerInv(Reload(m), p)
  {
    hide Reload, CountsOf, MatchInvariants.Inv, Codec.Deserialize, MatchInvariants.Backwards;
    MatchInvariants.FailoverLosesOnlyTheKey(m);
  }

  lemma QuietStepKeeps(m: Machine, op: Op, src: Source, clock: Clock, p: string)
    requires MatchInvariants.Inv(m) && AnswerInv(m, p) && IsNeutral(op)
    ensures AnswerInv(Step(m, op, src, clock), p)
  {
    hide Step, CountsOf;
    NeutralStep(m, op, src, clock);
    NeutralStepKeepsRound(m, op, src, clock);
    MatchInvariants.StepGrowsLog(m, op, src, clock);
    NeutralSuffix(m.log, Step(m, op, src, clock).log, p);
  }

  /** Over every run, failovers included, the answers accepted from a player in a round are at most one
      more than the second chances granted in it. */
  lemma {:induction false} AnswersAreLimited(matchId: string, roomId: string, players: seq<PlayerInfo>, calls: seq<Call>, src: Source, p: string)
    requires Basics.Distinct(Ids(players))
    ensures var m := Run(Create(matchId, roomId, players), calls, src);
            AnswerInv(m, p) && Answers(m.log, p) <= 1 + Granted(m.log, p)
  {
    hide Step;
    if calls != [] {
      var n := |calls| - 1;
      AnswersAreLimited(matchId, roomId, players, calls[..n], src, p);
      MatchInvariants.EveryRunSurvivesFailover(matchId, roomId, players, calls[..n], src);
      StepKeepsAnswers(Run(Create(matchId, roomId, players), calls[..n], src), calls[n].op, src, calls[n].clock, p);
    }
  }
}
