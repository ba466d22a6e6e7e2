/** Who is still in the match, over runs that evaluate each started round at most once. */
module Roster {
  import opened MatchTypes
  import opened Wrappers
  import opened OrderedMap
  import opened MatchSpec
  import opened MatchRuns
  import Basics
  import MatchInvariants
  import Codec
  import Rounds
  import TopicVoting

  /** Rounds evaluated so far, by the log. */
  function Evaluations(log: seq<Entry>): nat {
    if log == [] then 0
    else Evaluations(log[..|log| - 1]) + (if log[|log| - 1].event.RoundEvaluated? then 1 else 0)
  }

  lemma EvaluationsAppend(log: seq<Entry>, e: Entry)
    ensures Evaluations(log + [e]) == Evaluations(log) + (if e.event.RoundEvaluated? then 1 else 0)
  {
    assert (log + [e])[..|log|] == log;
  }

  predicate Out(p: PlayerInfo) {
    p.status == Eliminated || p.status == Winner
  }

  /** Score and time follow from the number of correct answers and the longest round. */
  predicate StatsFit(p: PlayerInfo, longest: nat) {
    && 0 <= p.correctAnswers
    && 100 * p.correctAnswers <= p.score <= 150 * p.correctAnswers
    && 0 <= p.totalResponseTimeMs <= p.correctAnswers * longest
  }

  ghost predicate PlayersFit(st: MatchState, evaluations: nat, longest: nat) {
    && (forall p :: p in st.players.m ==> StatsFit(st.players.m[p], longest))
    && (forall p :: p in st.surviving ==> p in st.players.m && st.players.m[p].correctAnswers == evaluations)
    && (forall p :: p in st.eliminated ==>
          p in st.players.m && st.players.m[p].correctAnswers < evaluations && Out(st.players.m[p]))
  }

  ghost predicate RoundFits(m: Machine, longest: nat) {
    m.round.Some? ==>
      var r := m.round.value;
      && r.startedAt <= r.endsAt <= r.startedAt + longest
      && (forall k :: k in r.answers.m ==> 0 <= r.answers.m[k].responseTimeMs <= longest)
      && (r.status == Open ==> r.startingPlayers == Available(m.st.surviving))
  }

  ghost predicate Partition(st: MatchState) {
    multiset(st.surviving) + multiset(st.eliminated) == multiset(st.players.keys)
  }

  ghost predicate RosterInv(m: Machine, longest: nat) {
    Partition(m.st) && PlayersFit(m.st, Evaluations(m.log), longest) && RoundFits(m, longest)
  }

  /** One evaluation per started round, and rounds of length 0 to `longest`. */
  predicate Disciplined(m: Machine, op: Op, longest: nat) {
    && (op.EvaluateOp? ==> m.round.None? || m.round.value.status == Open)
    && (op.StartRoundOp? ==> 0 <= (if op.roundMs.Some? then op.roundMs.value else ROUND_DURATION_MS) <= longest)
  }

  // ---- evaluation ----

  lemma SurvivorsCountAgain(m: Machine, clock: Clock)
    requires m.round.Some? && m.round.value.startingPlayers.Available?
    requires var ids := m.round.value.startingPlayers.ids;
             && Basics.Distinct(ids) && (forall p :: p in ids ==> p in m.st.players.m)
             && m.st.surviving == Rounds.Survivors(m.round.value, ids)
    ensures var after := EvaluateRound(m, clock).m.st.players.m;
            forall p :: p in m.st.surviving ==>
              p in after && p in m.st.players.m && after[p].correctAnswers == m.st.players.m[p].correctAnswers + 1
  {
    hide EvaluatePlayers;
    var r := m.round.value;
    forall p | p in m.st.surviving
      ensures var after := EvaluateRound(m, clock).m.st.players.m;
              p in after && p in m.st.players.m && after[p].correctAnswers == m.st.players.m[p].correctAnswers + 1
    {
      EvaluatedPointwise(m.st.players, r, r.startingPlayers.ids, p);
    }
  }

  lemma {:induction false} EvaluatedPointwise(players: OMap<PlayerInfo>, r: Round, ids: seq<string>, p: string)
    requires Basics.Distinct(ids) && forall id :: id in ids ==> id in players.m
    ensures var after := EvaluatePlayers(players, r, ids);
            && after.keys == players.keys && after.m.Keys == players.m.Keys
            && (p in players.m ==>
                  after.m[p] == if p in ids then Evaluated(players.m[p], r, p) else players.m[p])
  {
    hide Evaluated;
    if ids != [] {
      var n := |ids| - 1;
      EvaluatedPointwise(players, r, ids[..n], p);
      EvaluatedPointwise(players, r, ids[..n], ids[n]);
      assert ids[n] !in ids[..n];
      assert ids == ids[..n] + [ids[n]];
    }
  }

  lemma EvaluatedStats(p: PlayerInfo, r: Round, id: string, longest: nat)
    requires StatsFit(p, longest)
    requires forall k :: k in r.answers.m ==> 0 <= r.answers.m[k].responseTimeMs <= longest
    ensures StatsFit(Evaluated(p, r, id), longest)
    ensures Evaluated(p, r, id).correctAnswers == p.correctAnswers + (if Rounds.Survives(r, id) then 1 else 0)
    ensures !Rounds.Survives(r, id) ==> Out(Evaluated(p, r, id))
  {
    if Rounds.Survives(r, id) {
      Rounds.RoundPointsRange(r.answers.m[id].responseTimeMs, r.answers.m[id].responseTimeMs);
      assert (p.correctAnswers + 1) * longest == p.correctAnswers * longest + longest;
    }
  }

  lemma DisjointLists(st: MatchState, p: string)
    requires Partition(st) && p in st.surviving
    ensures p !in st.eliminated
  {
    if p in st.eliminated {
      assert multiset(st.players.keys)[p] >= 2;
      KeyOnce(st.players.keys, p);
    }
  }

  lemma {:induction false} KeyOnce(keys: seq<string>, p: string)
    requires Basics.Distinct(keys)
    ensures multiset(keys)[p] <= 1
  {
    if keys != [] {
      assert keys == [keys[0]] + keys[1..];
      KeyOnce(keys[1..], p);
      assert keys[0] !in keys[1..];
    }
  }

  lemma EvaluateKeepsPartition(m: Machine, clock: Clock)
    requires Partition(m.st) && m.round.Some? && m.round.value.startingPlayers == Available(m.st.surviving)
    requires forall p :: p in m.st.surviving ==> p in m.st.players.m
    requires Basics.Distinct(m.st.surviving)
    ensures Partition(EvaluateRound(m, clock).m.st)
  {
    hide EvaluatePlayers;
    var r := m.round.value;
    Rounds.EliminationPartitions(r, m.st.surviving);
    EvaluatedPointwise(m.st.players, r, m.st.surviving, "");
  }

  lemma EvaluatedPlayersFit(st: MatchState, r: Round, evaluations: nat, longest: nat)
    requires Partition(st) && PlayersFit(st, evaluations, longest) && Basics.Distinct(st.surviving)
    requires forall k :: k in r.answers.m ==> 0 <= r.answers.m[k].responseTimeMs <= longest
    ensures PlayersFit(
              st.(players := EvaluatePlayers(st.players, r, st.surviving),
                  surviving := Rounds.Survivors(r, st.surviving),
                  eliminated := st.eliminated + Rounds.EliminationsForRound(r, st.surviving)),
              evaluations + 1, longest)
  {
    hide EvaluatePlayers;
    hide Evaluated;
    hide StatsFit;
    var after := EvaluatePlayers(st.players, r, st.surviving);
    forall p | p in st.players.m
      ensures p in after.m && StatsFit(after.m[p], longest)
      ensures p in st.surviving ==>
                after.m[p].correctAnswers == (if Rounds.Survives(r, p) then evaluations + 1 else evaluations)
                && (!Rounds.Survives(r, p) ==> Out(after.m[p]))
      ensures p in st.eliminated ==> after.m[p] == st.players.m[p]
    {
      EvaluatedPointwise(st.players, r, st.surviving, p);
      EvaluatedStats(st.players.m[p], r, p, longest);
      if p in st.surviving {
        DisjointLists(st, p);
      }
    }
    EvaluatedPointwise(st.players, r, st.surviving, "");
  }

  lemma EvaluateLogs(m: Machine, clock: Clock)
    requires m.round.Some?
    ensures Evaluations(EvaluateRound(m, clock).m.log) == Evaluations(m.log) + 1
  {
    var r := m.round.value;
    var ids := Starters(m, r);
    var e := RoundEvaluated(r.roundNo, r.correctAnswer, |Rounds.Survivors(r, ids)|,
                            |Rounds.EliminationsForRound(r, ids)|, Rounds.EliminationsForRound(r, ids));
    EvaluationsAppend(m.log, Entry(e, clock(0), m.counter + 1));
  }

  lemma EvaluateKeepsRoster(m: Machine, longest: nat, clock: Clock)
    requires RosterInv(m, longest) && MatchInvariants.TimingInv(m) && Disciplined(m, EvaluateOp, longest)
    ensures RosterInv(EvaluateRound(m, clock).m, longest)
  {
    hide EvaluatePlayers;
    hide StatsFit;
    hide Evaluations;
    hide PlayersFit;
    hide Partition;
    hide Rounds.Survivors;
    hide Rounds.EliminationsForRound;
    if m.round.Some? {
      var r := m.round.value;
      assert forall p :: p in m.st.surviving ==> p in m.st.players.m by { SurvivorsPlay(m, longest); }
      EvaluateKeepsPartition(m, clock);
      EvaluatedPlayersFit(m.st, r, Evaluations(m.log), longest);
      EvaluateLogs(m, clock);
    }
  }

  lemma SurvivorsPlay(m: Machine, longest: nat)
    requires PlayersFit(m.st, Evaluations(m.log), longest)
    ensures forall p :: p in m.st.surviving ==> p in m.st.players.m
  {
  }

  /** Why once: evaluating a round a second time counts its answers and its eliminations again, so the
      roster still adds up exactly when the round eliminated nobody. */
  lemma SecondEvaluationCountsTwice(m: Machine, clock: Clock)
    requires Partition(m.st) && m.round.Some? && m.round.value.startingPlayers.Available?
    requires var ids := m.round.value.startingPlayers.ids;
             && Basics.Distinct(ids) && (forall p :: p in ids ==> p in m.st.players.m)
             && m.st.surviving == Rounds.Survivors(m.round.value, ids)
    ensures Partition(EvaluateRound(m, clock).m.st) <==>
              Rounds.EliminationsForRound(m.round.value, m.round.value.startingPlayers.ids) == []
    ensures var after := EvaluateRound(m, clock).m.st.players.m;
            forall p :: p in m.st.surviving ==>
              p in after && p in m.st.players.m && after[p].correctAnswers == m.st.players.m[p].correctAnswers + 1
  {
    SurvivorsCountAgain(m, clock);
    hide EvaluatePlayers;
    hide Rounds.Survivors;
    hide Rounds.EliminationsForRound;
    var r := m.round.value;
    var ids := r.startingPlayers.ids;
    EvaluatedPointwise(m.st.players, r, ids, "");
    var out := Rounds.EliminationsForRound(r, ids);
    var s, e := multiset(m.st.surviving), multiset(m.st.eliminated);
    assert multiset(m.st.eliminated + out) == e + multiset(out);
    assert |s + (e + multiset(out))| == |s + e| + |out|;
  }

  // ---- the other calls ----

  /** A call that neither evaluates nor moves players between the lists, and touches a player record
      in its status alone, never away from being out. */
  ghost predicate KeepsPlayers(a: Machine, b: Machine) {
    && a.st.surviving == b.st.surviving && a.st.eliminated == b.st.eliminated
    && a.st.players.keys == b.st.players.keys
    && forall p :: p in a.st.players.m ==>
         var x, y := a.st.players.m[p], b.st.players.m[p];
         && y.correctAnswers == x.correctAnswers && y.score == x.score && y.totalResponseTimeMs == x.totalResponseTimeMs
         && (Out(x) ==> Out(y))
  }

  lemma KeepsPlayersKeepsFit(a: Machine, b: Machine, longest: nat)
    requires KeepsPlayers(a, b) && Evaluations(a.log) == Evaluations(b.log)
    requires Partition(a.st) && PlayersFit(a.st, Evaluations(a.log), longest)
    ensures Partition(b.st) && PlayersFit(b.st, Evaluations(b.log), longest)
  {
    assert forall p :: p in a.st.players.m <==> p in a.st.players.keys;
    assert forall p :: p in b.st.players.m <==> p in b.st.players.keys;
  }

  lemma {:induction false} SuffixKeepsEvaluations(log: seq<Entry>, after: seq<Entry>)
    requires log <= after && forall i :: |log| <= i < |after| ==> !after[i].event.RoundEvaluated?
    ensures Evaluations(after) == Evaluations(log)
    decreases |after|
  {
    if |log| < |after| {
      SuffixKeepsEvaluations(log, after[..|after| - 1]);
    } else {
      assert log == after;
    }
  }

  lemma OnlyEvaluateLogsEvaluation(m: Machine, op: Op, src: Source, clock: Clock)
    requires MatchInvariants.LogInv(m) && !op.EvaluateOp? && !op.ReloadOp?
    ensures Evaluations(Step(m, op, src, clock).log) == Evaluations(m.log)
  {
    NewEvents(m, op, src, clock);
    MatchInvariants.StepGrowsLog(m, op, src, clock);
    SuffixKeepsEvaluations(m.log, Step(m, op, src, clock).log);
  }

  lemma NewEvents(m: Machine, op: Op, src: Source, clock: Clock)
    requires !op.EvaluateOp? && !op.ReloadOp?
    ensures var after := Step(m, op, src, clock);
            forall i :: |m.log| <= i < |after.log| ==> !after.log[i].event.RoundEvaluated?
  {
    hide TopicVoting.Resolve;
    hide CandidatesFor;
    hide CardsToOffer;
    hide DetermineWinner;
    hide Promote;
    hide CheckAnswer;
    hide NewAnswer;
    hide CheckVote;
    hide Put;
  }

  lemma FinishKeepsPlayers(m: Machine, src: Source, clock: Clock)
    ensures KeepsPlayers(m, FinishMatch(m, src, clock))
  {
    hide DetermineWinner;
  }

  lemma PresenceKeepsPlayers(m: Machine, p: string, clock: Clock)
    ensures KeepsPlayers(m, DisconnectPlayer(m, p, clock))
    ensures KeepsPlayers(m, ReconnectPlayer(m, p, clock))
  {
  }

  lemma OtherKeepsPlayers(m: Machine, op: Op, src: Source, clock: Clock)
    requires !op.EvaluateOp? && !op.ReloadOp? && !op.FinishOp? && !op.DisconnectOp? && !op.ReconnectOp?
    ensures var after := Step(m, op, src, clock).st;
            after.players == m.st.players && after.surviving == m.st.surviving && after.eliminated == m.st.eliminated
  {
    hide TopicVoting.Resolve;
    hide CandidatesFor;
    hide CardsToOffer;
    hide CheckAnswer;
    hide NewAnswer;
    hide CheckVote;
  }

  lemma StepKeepsPlayers(m: Machine, op: Op, src: Source, clock: Clock)
    requires !op.EvaluateOp? && !op.ReloadOp?
    ensures KeepsPlayers(m, Step(m, op, src, clock))
  {
    match op
    case FinishOp => FinishKeepsPlayers(m, src, clock);
    case DisconnectOp(p) => PresenceKeepsPlayers(m, p, clock);
    case ReconnectOp(p) => PresenceKeepsPlayers(m, p, clock);
    case _ =>
      hide Step;
      OtherKeepsPlayers(m, op, src, clock);
  }

  lemma SubmitKeepsRoundFits(m: Machine, p: string, answer: string, ts: int, sub: Option<string>, clock: Clock, longest: nat)
    requires RoundFits(m, longest)
    ensures RoundFits(SubmitAnswer(m, p, answer, ts, sub, clock).m, longest)
  {
    hide Rounds.IsAnswerMatch;
  }

  lemma StepKeepsRoundFits(m: Machine, op: Op, src: Source, clock: Clock, longest: nat)
    requires RoundFits(m, longest) && Disciplined(m, op, longest) && !op.EvaluateOp? && !op.ReloadOp?
    ensures RoundFits(Step(m, op, src, clock), longest)
  {
    match op
    case SubmitOp(p, a, ts, sub) => SubmitKeepsRoundFits(m, p, a, ts, sub, clock, longest);
    case TransitionOp(_) =>
    case StartRoundOp(_, _, _) =>
    case AttachOp(_) =>
    case InitVotingOp(_, _) =>
      hide CandidatesFor;
    case _ =>
      hide Step;
      MatchInvariants.OtherKeepsTiming(m, op, src, clock);
  }

  lemma StepKeepsRoster(m: Machine, op: Op, src: Source, clock: Clock, longest: nat)
    requires RosterInv(m, longest) && MatchInvariants.Inv(m) && Disciplined(m, op, longest)
    ensures RosterInv(Step(m, op, src, clock), longest)
    ensures m.st.eliminated <= Step(m, op, src, clock).st.eliminated
    ensures Step(m, op, src, clock).st.players.keys == m.st.players.keys
  {
    hide RosterInv, EvaluateRound, Reload, MatchInvariants.Inv;
    match op
    case EvaluateOp =>
      assert MatchInvariants.TimingInv(m) by { InvHasTiming(m); }
      EvaluateKeepsRoster(m, longest, clock);
      EvaluateShape(m, longest, clock);
    case ReloadOp => ReloadKeepsRoster(m, longest);
    case _ =>
      hide Step;
      OtherStepKeepsRoster(m, op, src, clock, longest);
  }

  lemma InvHasTiming(m: Machine)
    requires MatchInvariants.Inv(m)
    ensures MatchInvariants.TimingInv(m)
  {
  }

  lemma OtherStepKeepsRoster(m: Machine, op: Op, src: Source, clock: Clock, longest: nat)
    requires RosterInv(m, longest) && MatchInvariants.Inv(m) && Disciplined(m, op, longest)
    requires !op.EvaluateOp? && !op.ReloadOp?
    ensures RosterInv(Step(m, op, src, clock), longest)
    ensures m.st.eliminated <= Step(m, op, src, clock).st.eliminated
    ensures Step(m, op, src, clock).st.players.keys == m.st.players.keys
  {
    hide Step;
    StepKeepsRoundFits(m, op, src, clock, longest);
    StepKeepsPlayers(m, op, src, clock);
    OnlyEvaluateLogsEvaluation(m, op, src, clock);
    KeepsPlayersKeepsFit(m, Step(m, op, src, clock), longest);
  }

  lemma ReloadKeepsRoster(m: Machine, longest: nat)
    requires RosterInv(m, longest) && MatchInvariants.Inv(m)
    ensures RosterInv(Reload(m), longest) && Reload(m).st == m.st
  {
    hide Reload, MatchInvariants.Inv, MatchInvariants.Backwards, Codec.Deserialize;
    MatchInvariants.FailoverLosesOnlyTheKey(m);
  }

  lemma EvaluateShape(m: Machine, longest: nat, clock: Clock)
    requires RosterInv(m, longest) && MatchInvariants.TimingInv(m) && Disciplined(m, EvaluateOp, longest)
    ensures m.st.eliminated <= EvaluateRound(m, clock).m.st.eliminated
    ensures EvaluateRound(m, clock).m.st.players.keys == m.st.players.keys
  {
    hide EvaluatePlayers;
    if m.round.Some? {
      SurvivorsPlay(m, longest);
      EvaluatedPointwise(m.st.players, m.round.value, m.st.surviving, "");
    }
  }

  // ---- runs ----

  ghost predicate DisciplinedRun(m0: Machine, calls: seq<Call>, src: Source, longest: nat) {
    forall i :: 0 <= i < |calls| ==> Disciplined(Run(m0, calls[..i], src), calls[i].op, longest)
  }

  ghost predicate FreshRoster(players: seq<PlayerInfo>) {
    && Basics.Distinct(Ids(players))
    && forall i :: 0 <= i < |players| ==>
         players[i].score == 0 && players[i].correctAnswers == 0 && players[i].totalResponseTimeMs == 0
  }

  lemma {:induction false} PlayerMapFits(players: seq<PlayerInfo>)
    requires FreshRoster(players)
    ensures PlayerMap(players).keys == Ids(players)
    ensures forall p :: p in PlayerMap(players).m ==>
              var x := PlayerMap(players).m[p];
              x.score == 0 && x.correctAnswers == 0 && x.totalResponseTimeMs == 0
  {
    if players != [] {
      var n := |players| - 1;
      assert forall i :: 0 <= i < n ==> Ids(players[..n])[i] == Ids(players)[i];
      PlayerMapFits(players[..n]);
      assert players[n].id !in PlayerMap(players[..n]).keys;
      assert Ids(players) == Ids(players[..n]) + [players[n].id];
    }
  }

  lemma CreateFits(matchId: string, roomId: string, players: seq<PlayerInfo>, longest: nat)
    requires FreshRoster(players)
    ensures RosterInv(Create(matchId, roomId, players), longest)
    ensures Create(matchId, roomId, players).st.players.keys == Ids(players)
  {
    PlayerMapFits(players);
    assert forall p :: p in PlayerMap(players).m <==> p in PlayerMap(players).keys;
  }

  lemma DisciplinedPrefix(m0: Machine, calls: seq<Call>, src: Source, longest: nat)
    requires DisciplinedRun(m0, calls, src, longest) && calls != []
    ensures var n := |calls| - 1;
            && DisciplinedRun(m0, calls[..n], src, longest)
            && Disciplined(Run(m0, calls[..n], src), calls[n].op, longest)
  {
    hide Run;
    var n := |calls| - 1;
    assert forall i :: 0 <= i < n ==> calls[..n][..i] == calls[..i] && calls[..n][i] == calls[i];
  }

  lemma {:induction false} RunKeepsRoster(matchId: string, roomId: string, players: seq<PlayerInfo>, calls: seq<Call>, src: Source, longest: nat)
    requires FreshRoster(players) && DisciplinedRun(Create(matchId, roomId, players), calls, src, longest)
    ensures var m := Run(Create(matchId, roomId, players), calls, src);
            RosterInv(m, longest) && m.st.players.keys == Ids(players)
  {
    hide Step;
    hide RosterInv;
    hide DisciplinedRun;
    hide Disciplined;
    hide Create;
    hide MatchInvariants.Inv;
    var m0 := Create(matchId, roomId, players);
    if calls == [] {
      CreateFits(matchId, roomId, players, longest);
    } else {
      var n := |calls| - 1;
      DisciplinedPrefix(m0, calls, src, longest);
      RunKeepsRoster(matchId, roomId, players, calls[..n], src, longest);
      MatchInvariants.EveryRunSurvivesFailover(matchId, roomId, players, calls[..n], src);
      StepKeepsRoster(Run(m0, calls[..n], src), calls[n].op, src, calls[n].clock, longest);
    }
  }

  /** Over every run that evaluates each round once: survivors and eliminated are together exactly the
      roster, nobody twice; a survivor has answered every evaluated round and an eliminated player fewer;
      an eliminated player is out; scores and times stay within what the answers allow. */
  lemma EveryRunAccountsForRoster(matchId: string, roomId: string, players: seq<PlayerInfo>, calls: seq<Call>, src: Source, longest: nat)
    requires FreshRoster(players) && DisciplinedRun(Create(matchId, roomId, players), calls, src, longest)
    ensures var m := Run(Create(matchId, roomId, players), calls, src);
            var evaluated := Evaluations(m.log);
            && multiset(m.st.surviving) + multiset(m.st.eliminated) == multiset(Ids(players))
            && (forall p :: p in m.st.surviving ==> p in m.st.players.m && m.st.players.m[p].correctAnswers == evaluated)
            && (forall p :: p in m.st.eliminated ==>
                  p in m.st.players.m && m.st.players.m[p].correctAnswers < evaluated
                  && m.st.players.m[p].status != Active && m.st.players.m[p].status != Disconnected)
            && (forall p :: p in m.st.players.m ==>
                  var x := m.st.players.m[p];
                  && 100 * x.correctAnswers <= x.score <= 150 * x.correctAnswers
                  && 0 <= x.totalResponseTimeMs <= x.correctAnswers * longest)
  {
    hide Run;
    RunKeepsRoster(matchId, roomId, players, calls, src, longest);
  }

  /** Elimination is final: whoever is eliminated at some point of a run still is at the end of it. */
  lemma {:induction false} EliminationIsFinal(matchId: string, roomId: string, players: seq<PlayerInfo>, calls: seq<Call>, src: Source, longest: nat, i: nat)
    requires FreshRoster(players) && DisciplinedRun(Create(matchId, roomId, players), calls, src, longest)
    requires i <= |calls|
    ensures Run(Create(matchId, roomId, players), calls[..i], src).st.eliminated
              <= Run(Create(matchId, roomId, players), calls, src).st.eliminated
  {
    hide Step;
    hide RosterInv;
    if i < |calls| {
      var m0 := Create(matchId, roomId, players);
      var n := |calls| - 1;
      assert calls[..n][..i] == calls[..i];
      DisciplinedPrefix(m0, calls, src, longest);
      EliminationIsFinal(matchId, roomId, players, calls[..n], src, longest, i);
      RunKeepsRoster(matchId, roomId, players, calls[..n], src, longest);
      MatchInvariants.EveryRunSurvivesFailover(matchId, roomId, players, calls[..n], src);
      StepKeepsRoster(Run(m0, calls[..n], src), calls[n].op, src, calls[n].clock, longest);
    } else {
      assert calls[..i] == calls;
    }
  }
}
