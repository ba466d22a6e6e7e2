/** Falling back to an earlier save.  When a save is refused, the server drops its machine and the next
    access loads the last blob that was saved (evictStateMachine and getStateMachine of
    apps/api/src/modules/match/match.service.ts): calls made since are undone. */
module Rollbacks {
  import opened MatchTypes
  import opened MatchSpec
  import opened MatchRuns
  import Basics
  import AnswerLimits
  import AoeCap
  import AoeRounds
  import CardLimits
  import Codec
  import DeltaReplay
  import MatchInvariants
  import Rehydrate
  import Roster
  import TopicBallots

  /** Do makes a call; RollBack loads what was saved after the first `saved` turns. */
  datatype Turn<+C> = Do(call: C) | RollBack(saved: nat)

  function Fold<C>(m0: Machine, cs: seq<C>, step: (Machine, C) -> Machine): Machine {
    if cs == [] then m0 else step(Fold(m0, cs[..|cs| - 1], step), cs[|cs| - 1])
  }

  /** A refused blob loads nothing. */
  function After<C>(m0: Machine, turns: seq<Turn<C>>, step: (Machine, C) -> Machine): Machine
    decreases |turns|
  {
    if turns == [] then m0
    else
      var n := |turns| - 1;
      match turns[n]
      case Do(c) => step(After(m0, turns[..n], step), c)
      case RollBack(k) =>
        if k <= n && Codec.Deserialize(Save(After(m0, turns[..k], step))).Ok? then Reload(After(m0, turns[..k], step))
        else After(m0, turns[..n], step)
  }

  /** The calls that were not undone, with a reload where each rollback loaded. */
  function Straight<C>(m0: Machine, turns: seq<Turn<C>>, step: (Machine, C) -> Machine, reload: C): seq<C>
    decreases |turns|
  {
    if turns == [] then []
    else
      var n := |turns| - 1;
      match turns[n]
      case Do(c) => Straight(m0, turns[..n], step, reload) + [c]
      case RollBack(k) =>
        if k <= n && Codec.Deserialize(Save(After(m0, turns[..k], step))).Ok? then Straight(m0, turns[..k], step, reload) + [reload]
        else Straight(m0, turns[..n], step, reload)
  }

  lemma FoldAppend<C>(m0: Machine, cs: seq<C>, c: C, step: (Machine, C) -> Machine)
    ensures Fold(m0, cs + [c], step) == step(Fold(m0, cs, step), c)
  {
    assert (cs + [c])[..|cs|] == cs;
  }

  /** Whatever was rolled back, the match is in a state that a run without rollbacks reaches. */
  lemma {:induction false} RolledBackIsReachable<C>(m0: Machine, turns: seq<Turn<C>>, step: (Machine, C) -> Machine, reload: C)
    requires forall m :: step(m, reload) == Reload(m)
    ensures After(m0, turns, step) == Fold(m0, Straight(m0, turns, step, reload), step)
    decreases |turns|
  {
    hide Reload, Save, Codec.Deserialize;
    if turns != [] {
      var n := |turns| - 1;
      RolledBackIsReachable(m0, turns[..n], step, reload);
      match turns[n]
      case Do(c) => FoldAppend(m0, Straight(m0, turns[..n], step, reload), c, step);
      case RollBack(k) =>
        if k <= n {
          RolledBackIsReachable(m0, turns[..k], step, reload);
          FoldAppend(m0, Straight(m0, turns[..k], step, reload), reload, step);
        }
    }
  }

  // The state results hold with rollbacks.

  function StepOf(src: Source): (Machine, Call) -> Machine {
    (m: Machine, c: Call) => Step(m, c.op, src, c.clock)
  }

  const NoClock: Clock := _ => 0
  const ReloadCall := Call(ReloadOp, NoClock)

  lemma {:induction false} RunIsFold(m0: Machine, calls: seq<Call>, src: Source)
    ensures Run(m0, calls, src) == Fold(m0, calls, StepOf(src))
  {
    hide Step;
    if calls != [] { RunIsFold(m0, calls[..|calls| - 1], src); }
  }

  /** The state after turns that may fall back to any earlier save. */
  function Reached(matchId: string, roomId: string, players: seq<PlayerInfo>, turns: seq<Turn<Call>>, src: Source): Machine {
    After(Create(matchId, roomId, players), turns, StepOf(src))
  }

  function Kept(matchId: string, roomId: string, players: seq<PlayerInfo>, turns: seq<Turn<Call>>, src: Source): seq<Call> {
    Straight(Create(matchId, roomId, players), turns, StepOf(src), ReloadCall)
  }

  lemma ReachedByRun(matchId: string, roomId: string, players: seq<PlayerInfo>, turns: seq<Turn<Call>>, src: Source)
    ensures Reached(matchId, roomId, players, turns, src)
            == Run(Create(matchId, roomId, players), Kept(matchId, roomId, players, turns, src), src)
  {
    hide Create, Reload, Run, Fold, After, Straight;
    var m0 := Create(matchId, roomId, players);
    RolledBackIsReachable(m0, turns, StepOf(src), ReloadCall);
    RunIsFold(m0, Kept(matchId, roomId, players, turns, src), src);
  }

  /** With rollbacks anywhere, the log stays dense, the mirrors its replay, the answers within the second
      chances, the ballots for candidates and the cards in rounds that have started. */
  lemma RollbacksKeepState(matchId: string, roomId: string, players: seq<PlayerInfo>, turns: seq<Turn<Call>>, src: Source, p: string)
    requires Basics.Distinct(Ids(players))
    ensures var m := Reached(matchId, roomId, players, turns, src);
            && MatchInvariants.Inv(m)
            && (m.mirrors == Rehydrate.Replay(m.log) <==> "" !in m.mirrors.secondChance)
            && (Codec.Deserialize(Save(m)).Ok? <==> !MatchInvariants.Backwards(m))
            && AnswerLimits.Answers(m.log, p) <= 1 + AnswerLimits.Granted(m.log, p)
            && TopicBallots.BallotsValid(m)
            && AoeRounds.RoundsPast(m)
  {
    hide Create, Run, Reached, Kept, Codec.Deserialize, MatchInvariants.Inv, MatchInvariants.Backwards, Save;
    hide AnswerLimits.AnswerInv, TopicBallots.BallotsValid, AoeRounds.RoundsPast;
    var calls := Kept(matchId, roomId, players, turns, src);
    ReachedByRun(matchId, roomId, players, turns, src);
    MatchInvariants.EveryRunSurvivesFailover(matchId, roomId, players, calls, src);
    AnswerLimits.AnswersAreLimited(matchId, roomId, players, calls, src, p);
    TopicBallots.RunKeepsBallots(matchId, roomId, players, calls, src);
    AoeRounds.RunKeepsPast(matchId, roomId, players, calls, src);
  }

  lemma {:induction false} StraightTakesFrom<C>(m0: Machine, turns: seq<Turn<C>>, step: (Machine, C) -> Machine, reload: C, i: nat)
    requires i < |Straight(m0, turns, step, reload)|
    ensures var c := Straight(m0, turns, step, reload)[i];
            c == reload || exists j :: 0 <= j < |turns| && turns[j] == Do(c)
    decreases |turns|
  {
    hide Reload, Save, Codec.Deserialize, After;
    var n := |turns| - 1;
    match turns[n]
    case Do(c) =>
      if i < |Straight(m0, turns[..n], step, reload)| { StraightTakesFrom(m0, turns[..n], step, reload, i); }
    case RollBack(k) =>
      if k <= n && Codec.Deserialize(Save(After(m0, turns[..k], step))).Ok? {
        if i < |Straight(m0, turns[..k], step, reload)| { StraightTakesFrom(m0, turns[..k], step, reload, i); }
      } else {
        StraightTakesFrom(m0, turns[..n], step, reload, i);
      }
  }

  /** With rounds of non-negative length every save can be loaded, whatever was rolled back. */
  lemma NoSaveIsRefused(matchId: string, roomId: string, players: seq<PlayerInfo>, turns: seq<Turn<Call>>, src: Source)
    requires Basics.Distinct(Ids(players))
    requires forall i :: 0 <= i < |turns| && turns[i].Do? ==> MatchInvariants.ForwardRounds(turns[i].call.op)
    ensures Codec.Deserialize(Save(Reached(matchId, roomId, players, turns, src))).Ok?
  {
    var calls := Kept(matchId, roomId, players, turns, src);
    forall i | 0 <= i < |calls| ensures MatchInvariants.ForwardRounds(calls[i].op) {
      StraightTakesFrom(Create(matchId, roomId, players), turns, StepOf(src), ReloadCall, i);
    }
    ReachedByRun(matchId, roomId, players, turns, src);
    hide Create, Run, Reached, Kept, Codec.Deserialize, Save, Straight;
    MatchInvariants.NoReachableMatchIsRefused(matchId, roomId, players, calls, src);
  }

  // The roster.

  ghost predicate DisciplinedTurns(m0: Machine, turns: seq<Turn<Call>>, src: Source, longest: nat) {
    forall i :: 0 <= i < |turns| ==> DisciplinedTurn(m0, turns, src, longest, i)
  }

  ghost predicate DisciplinedTurn(m0: Machine, turns: seq<Turn<Call>>, src: Source, longest: nat, i: nat)
    requires i < |turns|
  {
    turns[i].Do? ==> Roster.Disciplined(After(m0, turns[..i], StepOf(src)), turns[i].call.op, longest)
  }

  lemma DisciplinedAppend(m0: Machine, calls: seq<Call>, c: Call, src: Source, longest: nat)
    requires Roster.DisciplinedRun(m0, calls, src, longest) && Roster.Disciplined(Run(m0, calls, src), c.op, longest)
    ensures Roster.DisciplinedRun(m0, calls + [c], src, longest)
  {
    hide Run, Roster.Disciplined;
    var all := calls + [c];
    forall i | 0 <= i < |all| ensures Roster.Disciplined(Run(m0, all[..i], src), all[i].op, longest) {
      assert all[..i] == if i < |calls| then calls[..i] else calls;
    }
  }

  lemma DisciplinedTurnsPrefix(m0: Machine, turns: seq<Turn<Call>>, src: Source, longest: nat, k: nat)
    requires DisciplinedTurns(m0, turns, src, longest) && k <= |turns|
    ensures DisciplinedTurns(m0, turns[..k], src, longest)
  {
    hide After, Roster.Disciplined;
    forall i | 0 <= i < k ensures DisciplinedTurn(m0, turns[..k], src, longest, i) {
      assert turns[..k][..i] == turns[..i] && turns[..k][i] == turns[i];
      assert DisciplinedTurn(m0, turns, src, longest, i);
    }
  }

  lemma {:induction false} StraightDisciplined(m0: Machine, turns: seq<Turn<Call>>, src: Source, longest: nat)
    requires DisciplinedTurns(m0, turns, src, longest)
    ensures Roster.DisciplinedRun(m0, Straight(m0, turns, StepOf(src), ReloadCall), src, longest)
    decreases |turns|
  {
    hide Reload, Save, Codec.Deserialize, After, Run, Step;
    if turns != [] {
      var n, step := |turns| - 1, StepOf(src);
      DisciplinedTurnsPrefix(m0, turns, src, longest, n);
      StraightDisciplined(m0, turns[..n], src, longest);
      match turns[n]
      case Do(c) =>
        assert DisciplinedTurn(m0, turns, src, longest, n);
        StraightState(m0, turns[..n], src);
        DisciplinedAppend(m0, Straight(m0, turns[..n], step, ReloadCall), c, src, longest);
      case RollBack(k) =>
        if k <= n {
          DisciplinedTurnsPrefix(m0, turns, src, longest, k);
          StraightDisciplined(m0, turns[..k], src, longest);
          DisciplinedAppend(m0, Straight(m0, turns[..k], step, ReloadCall), ReloadCall, src, longest);
        }
    }
  }

  lemma StraightState(m0: Machine, turns: seq<Turn<Call>>, src: Source)
    ensures After(m0, turns, StepOf(src)) == Run(m0, Straight(m0, turns, StepOf(src), ReloadCall), src)
  {
    hide Reload, Run, Fold, After, Straight;
    RolledBackIsReachable(m0, turns, StepOf(src), ReloadCall);
    RunIsFold(m0, Straight(m0, turns, StepOf(src), ReloadCall), src);
  }

  /** With rollbacks anywhere and each round evaluated once in what is kept: survivors and eliminated
      are exactly the roster, with the scores and times their answers allow. */
  lemma RollbacksKeepRoster(matchId: string, roomId: string, players: seq<PlayerInfo>, turns: seq<Turn<Call>>, src: Source, longest: nat)
    requires Roster.FreshRoster(players) && DisciplinedTurns(Create(matchId, roomId, players), turns, src, longest)
    ensures var m := Reached(matchId, roomId, players, turns, src);
            var evaluated := Roster.Evaluations(m.log);
            && multiset(m.st.surviving) + multiset(m.st.eliminated) == multiset(Ids(players))
            && (forall p :: p in m.st.surviving ==> p in m.st.players.m && m.st.players.m[p].correctAnswers == evaluated)
            && (forall p :: p in m.st.eliminated ==> p in m.st.players.m && m.st.players.m[p].correctAnswers < evaluated)
            && (forall p :: p in m.st.players.m ==>
                  var x := m.st.players.m[p];
                  && 100 * x.correctAnswers <= x.score <= 150 * x.correctAnswers
                  && 0 <= x.totalResponseTimeMs <= x.correctAnswers * longest)
  {
    var m0 := Create(matchId, roomId, players);
    StraightDisciplined(m0, turns, src, longest);
    ReachedByRun(matchId, roomId, players, turns, src);
    hide Create, Run, Reached, Roster.DisciplinedRun, Straight;
    Roster.EveryRunAccountsForRoster(matchId, roomId, players, Kept(matchId, roomId, players, turns, src), src, longest);
  }

  // The card limits.

  function CommandStep(src: Source): (Machine, CardLimits.Command) -> Machine {
    (m: Machine, c: CardLimits.Command) => CardLimits.Do(m, c, src)
  }

  const ReloadCommand := CardLimits.Plain(ReloadOp, NoClock)

  lemma {:induction false} DoAllIsFold(m0: Machine, cs: seq<CardLimits.Command>, src: Source)
    ensures CardLimits.DoAll(m0, cs, src) == Fold(m0, cs, CommandStep(src))
  {
    hide CardLimits.Do;
    if cs != [] { DoAllIsFold(m0, cs[..|cs| - 1], src); }
  }

  lemma ReloadCommandReloads(src: Source)
    ensures forall m :: CommandStep(src)(m, ReloadCommand) == Reload(m)
  {
    hide Reload;
  }

  lemma StraightCommands(m0: Machine, turns: seq<Turn<CardLimits.Command>>, src: Source)
    ensures After(m0, turns, CommandStep(src))
            == CardLimits.DoAll(m0, Straight(m0, turns, CommandStep(src), ReloadCommand), src)
  {
    hide After, Straight, Fold, CardLimits.DoAll, CommandStep, Reload;
    ReloadCommandReloads(src);
    RolledBackIsReachable(m0, turns, CommandStep(src), ReloadCommand);
    DoAllIsFold(m0, Straight(m0, turns, CommandStep(src), ReloadCommand), src);
  }

  lemma StraightAllowed(m0: Machine, turns: seq<Turn<CardLimits.Command>>, src: Source)
    requires forall i :: 0 <= i < |turns| && turns[i].Do? ==> CardLimits.Allowed(turns[i].call)
    ensures var cs := Straight(m0, turns, CommandStep(src), ReloadCommand);
            forall i :: 0 <= i < |cs| ==> CardLimits.Allowed(cs[i])
  {
    hide Straight, CommandStep;
    var cs := Straight(m0, turns, CommandStep(src), ReloadCommand);
    forall i | 0 <= i < |cs| ensures CardLimits.Allowed(cs[i]) {
      StraightTakesFrom(m0, turns, CommandStep(src), ReloadCommand, i);
    }
  }

  /** With rollbacks anywhere, each card still resolves at most once and a round sees at most two
      multi-target resolutions, the machine's counter agreeing with the log. */
  lemma RollbacksKeepCardLimits(
      matchId: string, roomId: string, players: seq<PlayerInfo>, turns: seq<Turn<CardLimits.Command>>, src: Source,
      p: string, c: CardId, roundNo: int)
    requires Basics.Distinct(Ids(players))
    requires forall i :: 0 <= i < |turns| && turns[i].Do? ==> CardLimits.Allowed(turns[i].call)
    ensures var m := After(Create(matchId, roomId, players), turns, CommandStep(src));
            && CardLimits.Resolutions(m.log, p, c) <= 1
            && AoeCap.AoeResolved(m.log, matchId, roundNo) <= AOE_CAP_PER_ROUND
            && Rehydrate.GetOr(m.mirrors.aoe, roundNo, 0) == AoeCap.AoeResolved(m.log, matchId, roundNo)
  {
    hide Create, After, Straight, CardLimits.DoAll, CardLimits.Allowed;
    var m0 := Create(matchId, roomId, players);
    var cs := Straight(m0, turns, CommandStep(src), ReloadCommand);
    StraightAllowed(m0, turns, src);
    StraightCommands(m0, turns, src);
    CardLimits.CardLimitsHold(matchId, roomId, players, cs, src, p, c, roundNo, 0);
  }

  // The client.

  /** A client that was up to date before a rollback is brought up to date by its next request exactly
      when what it has seen was kept, or is longer than the log that replaced it. */
  lemma ClientCatchesUpIff(seen: seq<Entry>, log: seq<Entry>)
    requires MatchInvariants.Dense(seen) && MatchInvariants.Dense(log)
    ensures var reply := DeltaReplay.Answer(log, DeltaReplay.HeadSeqNo(seen));
            && (reply.Snapshot? ==> reply.lastEventSeqNo == |log|)
            && (DeltaReplay.Receive(seen, reply, log) == log <==> seen <= log || |log| < |seen|)
  {
    DeltaReplay.DeltaIsTheMissingSuffix(seen, 0);
    DeltaReplay.DeltaIsTheMissingSuffix(log, |seen|);
    if 0 < |seen| <= |log| {
      var got := seen + DeltaReplay.GetDelta(log, |seen|);
      assert log == log[..|seen|] + DeltaReplay.GetDelta(log, |seen|);
      assert got == log ==> seen == log[..|seen|];
    }
  }

  /** It happens: a pick is shown to a client, its save is refused, and another pick takes its number.
      The client is told that nothing is missing and keeps the pick that was undone. */
  lemma UndonePickIsKeptByClient(m: Machine, p: string, c: CardId, d: CardId, o: int, md: Metadata, clock: Clock)
    requires MatchInvariants.Inv(m) && !MatchInvariants.Backwards(m)
    requires c in Hand(m, p) && d in Hand(m, p) && c != d
    ensures var seen, log := PickCard(m, p, c, o, md, clock).m.log, PickCard(Reload(m), p, d, o, md, clock).m.log;
            var reply := DeltaReplay.Answer(log, DeltaReplay.HeadSeqNo(seen));
            && reply == DeltaReplay.EventBatch([])
            && DeltaReplay.Receive(seen, reply, log) == seen != log
  {
    hide Reload, PickCard, MatchInvariants.Backwards, DeltaReplay.Answer;
    MatchInvariants.FailoverLosesOnlyTheKey(m);
    PickLogs(m, p, c, o, md, clock);
    PickLogs(Reload(m), p, d, o, md, clock);
    hide MatchInvariants.Inv, Hand;
    UndoneEventIsKept(PickCard(m, p, c, o, md, clock).m.log, PickCard(Reload(m), p, d, o, md, clock).m.log);
  }

  lemma PickLogs(m: Machine, p: string, c: CardId, o: int, md: Metadata, clock: Clock)
    requires MatchInvariants.LogInv(m) && c in Hand(m, p)
    ensures var log := PickCard(m, p, c, o, md, clock).m.log;
            && MatchInvariants.Dense(log) && |log| == |m.log| + 1
            && log[|m.log|].event.CardPicked? && log[|m.log|].event.cardId == c
  {
    hide Rehydrate.Picked;
  }

  /** A log that replaced a seen one with another last event looks complete to the client. */
  lemma UndoneEventIsKept(seen: seq<Entry>, log: seq<Entry>)
    requires MatchInvariants.Dense(seen) && MatchInvariants.Dense(log) && |seen| == |log| > 0
    requires seen[|seen| - 1] != log[|log| - 1]
    ensures var reply := DeltaReplay.Answer(log, DeltaReplay.HeadSeqNo(seen));
            reply == DeltaReplay.EventBatch([]) && DeltaReplay.Receive(seen, reply, log) == seen != log
  {
    DeltaReplay.DeltaIsTheMissingSuffix(seen, 0);
    DeltaReplay.DeltaIsTheMissingSuffix(log, |log|);
    assert log[..|log|] == log;
  }
}
