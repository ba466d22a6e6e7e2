/** What is on record for a player's answer, and who survives a round because of it (submitAnswer and
    evaluateRound of packages/game-core/src/match-state-machine.ts, over whole runs). */
module AnswerRecords {
  import opened MatchTypes
  import opened Wrappers
  import opened OrderedMap
  import opened MatchSpec
  import opened MatchRuns
  import Basics
  import Codec
  import MatchInvariants
  import Roster
  import Rounds
  import Text
  import TopicVoting

  // ---- submissions ----

  /** A retry of the submission that is already on record. */
  predicate Repeats(stored: AnswerState, submissionId: Option<string>) {
    submissionId.Some? && submissionId.value != "" && stored.submissionId == submissionId.value
  }

  /** The round takes the answer: it is open, the answer in time, the player active, and either nothing of
      the player's is on record or a second chance is held for something new. */
  predicate Accepts(m: Machine, p: string, at: int, submissionId: Option<string>) {
    && m.round.Some? && m.round.value.status == Open && at <= m.round.value.endsAt
    && p in m.st.players.m && m.st.players.m[p].status == Active
    && (p in m.round.value.answers.m ==>
          p in m.mirrors.secondChance && !Repeats(m.round.value.answers.m[p], submissionId))
  }

  /** A submission is logged exactly when it is accepted; otherwise the match stays as it is, and the caller
      gets the answer on record for a retry of it and an error for anything else. */
  lemma SubmissionIsLoggedIff(m: Machine, p: string, answer: string, at: int, sub: Option<string>, clock: Clock)
    ensures var o := SubmitAnswer(m, p, answer, at, sub, clock);
            if Accepts(m, p, at, sub) then
              && |o.m.log| > |m.log| && o.result.Ok? && o.m.round.Some?
              && Get(o.m.round.value.answers, p) == Some(o.result.value)
            else
              && o.m == m
              && (o.result.Ok? <==> m.round.Some? && p in m.round.value.answers.m && Repeats(m.round.value.answers.m[p], sub))
              && (o.result.Ok? ==> o.result.value == m.round.value.answers.m[p])
  {
    hide NewAnswer;
  }

  lemma AcceptedIff(m: Machine, p: string, at: int, sub: Option<string>)
    ensures CheckAnswer(m, p, at, sub) == Ok(None) <==> Accepts(m, p, at, sub)
  {
  }

  /** Sending the same submission again changes nothing and returns the same answer. */
  lemma SubmitIsIdempotent(m: Machine, p: string, answer: string, again: string, at: int, later: int, id: string, clock: Clock, other: Clock)
    requires id != "" && Accepts(m, p, at, Some(id))
    ensures var first := SubmitAnswer(m, p, answer, at, Some(id), clock);
            SubmitAnswer(first.m, p, again, later, Some(id), other) == first
  {
    hide Rounds.IsAnswerMatch;
  }

  /** A round that starts takes one answer of every active player until its time is up, and nobody has a
      second chance yet. */
  lemma StartedRoundAccepts(m: Machine, q: Question, key: string, ms: Option<int>, clock: Clock, p: string, at: int, sub: Option<string>)
    requires m.st.status == RoundActive
    ensures var after := StartRound(m, q, key, ms, clock).m;
            && after.round.Some? && after.round.value.correctAnswer == Some(key)
            && after.round.value.question.options == q.options && after.round.value.startedAt == clock(0)
            && Starters(after, after.round.value) == m.st.surviving
            && after.mirrors.secondChance == {}
            && (Accepts(after, p, at, sub) <==>
                  at <= clock(0) + (if ms.Some? then ms.value else 15000)
                  && p in m.st.players.m && m.st.players.m[p].status == Active)
  {
  }

  /** A second chance played in an open round lets its player answer again, once. */
  lemma SecondChanceAllowsRetry(m: Machine, p: string, c: CardId, o: int, ts: seq<string>, now: int, md: Metadata,
                                answer: string, at: int, sub: Option<string>, clock: Clock, later: Clock)
    requires RoundIsOpen(m) && p in m.round.value.answers.m && p !in m.mirrors.secondChance
    requires at <= m.round.value.endsAt && p in m.st.players.m && m.st.players.m[p].status == Active
    requires !Repeats(m.round.value.answers.m[p], sub)
    ensures !Accepts(m, p, at, sub)
    ensures var played := PlayCard(m, p, c, o, SecondChance, ts, now, md, clock).m;
            var after := SubmitAnswer(played, p, answer, at, sub, later).m;
            && Accepts(played, p, at, sub)
            && after.round.Some? && p in after.round.value.answers.m && after.round.value.answers.m[p].answer == answer
            && forall t: int, s: Option<string> :: !Accepts(after, p, t, s)
  {
    hide Rounds.IsAnswerMatch, Text.OfInt, Rehydrate.Discard;
  }

  // ---- the last accepted answer of a run ----

  /** A submission and the key the round held when it was accepted. */
  datatype Accepted = Accepted(answer: string, at: int, submissionId: Option<string>, key: Option<string>)

  function NextAccepted(m: Machine, op: Op, p: string, before: Option<Accepted>): Option<Accepted> {
    if op.StartRoundOp? && m.st.status == RoundActive then None
    else if op.SubmitOp? && op.playerId == p && Accepts(m, p, op.serverTimestamp, op.submissionId) then
      Some(Accepted(op.answer, op.serverTimestamp, op.submissionId, m.round.value.correctAnswer))
    else before
  }

  /** The player's last accepted submission since a round was last started. */
  function LastAccepted(m0: Machine, calls: seq<Call>, src: Source, p: string): Option<Accepted> {
    if calls == [] then None
    else
      var n := |calls| - 1;
      NextAccepted(Run(m0, calls[..n], src), calls[n].op, p, LastAccepted(m0, calls[..n], src, p))
  }

  /** The answer and the key are the same up to case and outer blanks, or one is the letter code of an
      option reading as the other; neither is empty. */
  predicate Agrees(answer: string, key: Option<string>, options: seq<string>) {
    && answer != "" && key.Some? && key.value != ""
    && var a, k := Rounds.Clean(answer), Rounds.Clean(key.value);
       a == k || Rounds.PointsTo(a, options, k) || Rounds.PointsTo(k, options, a)
  }

  predicate Right(s: Option<Accepted>, options: seq<string>) {
    s.Some? && Agrees(s.value.answer, s.value.key, options)
  }

  /** The stored answer is the submission: its text, time and id, how long it took, and whether it agreed
      with the key of the moment. */
  predicate AsSubmitted(a: AnswerState, s: Accepted, r: Round, p: string) {
    && a.playerId == p && a.answer == s.answer && a.submittedAt == s.at
    && a.submissionId == (if s.submissionId.Some? then s.submissionId.value else "legacy-" + p + "-" + Text.OfInt(s.at))
    && a.responseTimeMs == (if s.at < r.startedAt then 0 else s.at - r.startedAt)
    && (a.isCorrect <==> Agrees(s.answer, s.key, r.question.options))
  }

  predicate OnRecord(m: Machine, p: string, last: Option<Accepted>) {
    m.round.Some? ==>
      var r := m.round.value;
      && (p in r.answers.m <==> last.Some?)
      && (last.Some? ==> AsSubmitted(r.answers.m[p], last.value, r, p))
  }

  lemma NewAnswerIsSubmitted(r: Round, p: string, answer: string, at: int, sub: Option<string>)
    ensures AsSubmitted(NewAnswer(r, p, answer, at, sub), Accepted(answer, at, sub, r.correctAnswer), r, p)
  {
    hide Text.OfInt, Rounds.Clean, Rounds.PointsTo;
    Rounds.MatchMeaning(answer, r.correctAnswer, r.question.options);
    hide Rounds.IsAnswerMatch;
  }

  lemma SubmitKeepsRecord(m: Machine, who: string, answer: string, at: int, sub: Option<string>, clock: Clock, p: string, last: Option<Accepted>)
    requires OnRecord(m, p, last)
    ensures OnRecord(SubmitAnswer(m, who, answer, at, sub, clock).m, p, NextAccepted(m, SubmitOp(who, answer, at, sub), p, last))
  {
    hide NewAnswer, CheckAnswer, Accepts, Agrees, Text.OfInt;
    AcceptedIff(m, who, at, sub);
    if CheckAnswer(m, who, at, sub) == Ok(None) {
      MatchInvariants.AcceptedMeans(m, who, at, sub);
      NewAnswerIsSubmitted(m.round.value, who, answer, at, sub);
    }
  }

  /** What a record depends on stays while a round does. */
  predicate SameRound(m: Machine, after: Machine) {
    after.round.Some? ==>
      && m.round.Some?
      && after.round.value.answers == m.round.value.answers
      && after.round.value.startedAt == m.round.value.startedAt
      && after.round.value.question == m.round.value.question
  }

  lemma OtherStepKeepsRound(m: Machine, op: Op, src: Source, clock: Clock)
    requires !op.SubmitOp? && !op.ReloadOp? && !(op.StartRoundOp? && m.st.status == RoundActive)
    ensures SameRound(m, Step(m, op, src, clock))
  {
    hide EvaluatePlayers, Rounds.Survivors, Rounds.EliminationsForRound, DetermineWinner, Promote;
    hide TopicVoting.Resolve, CandidatesFor, CardsToOffer, CheckVote, Put, Rehydrate.AddClasses, Rehydrate.Resolved;
  }

  lemma ReloadKeepsRound(m: Machine)
    requires MatchInvariants.Inv(m)
    ensures SameRound(m, Reload(m))
  {
    hide Reload, MatchInvariants.Inv, MatchInvariants.Backwards, Codec.Deserialize;
    MatchInvariants.FailoverLosesOnlyTheKey(m);
  }

  lemma SameRoundSameRecord(m: Machine, after: Machine, p: string, last: Option<Accepted>)
    requires OnRecord(m, p, last) && SameRound(m, after)
    ensures OnRecord(after, p, last)
  {
    hide Agrees, Text.OfInt;
  }

  lemma StepKeepsRecord(m: Machine, op: Op, src: Source, clock: Clock, p: string, last: Option<Accepted>)
    requires MatchInvariants.Inv(m) && OnRecord(m, p, last)
    ensures OnRecord(Step(m, op, src, clock), p, NextAccepted(m, op, p, last))
  {
    if op.SubmitOp? {
      hide SubmitAnswer, OnRecord, NextAccepted, MatchInvariants.Inv;
      SubmitKeepsRecord(m, op.playerId, op.answer, op.serverTimestamp, op.submissionId, clock, p, last);
    } else if op.StartRoundOp? && m.st.status == RoundActive {
      assert OnRecord(Step(m, op, src, clock), p, None);
    } else if op.ReloadOp? {
      hide Reload, OnRecord, MatchInvariants.Inv;
      ReloadKeepsRound(m);
      SameRoundSameRecord(m, Reload(m), p, last);
    } else {
      hide Step, OnRecord, MatchInvariants.Inv;
      OtherStepKeepsRound(m, op, src, clock);
      SameRoundSameRecord(m, Step(m, op, src, clock), p, last);
    }
  }

  /** Over every run, failovers and attached keys included: a player has an answer on record in the round
      exactly if one was accepted since it started, and what is on record is the last one accepted,
      correct exactly if it agreed with the key the round held at that moment. */
  lemma {:induction false} AnswersAreOnRecord(matchId: string, roomId: string, players: seq<PlayerInfo>, calls: seq<Call>, src: Source, p: string)
    requires Basics.Distinct(Ids(players))
    ensures var m0 := Create(matchId, roomId, players);
            OnRecord(Run(m0, calls, src), p, LastAccepted(m0, calls, src, p))
  {
    hide Step, OnRecord, NextAccepted, MatchInvariants.Inv;
    var m0 := Create(matchId, roomId, players);
    if calls == [] {
      assert m0.round.None?;
      NoRoundNoRecord(m0, p);
    } else {
      hide Create;
      var n := |calls| - 1;
      AnswersAreOnRecord(matchId, roomId, players, calls[..n], src, p);
      MatchInvariants.EveryRunSurvivesFailover(matchId, roomId, players, calls[..n], src);
      StepKeepsRecord(Run(m0, calls[..n], src), calls[n].op, src, calls[n].clock, p, LastAccepted(m0, calls[..n], src, p));
    }
  }

  lemma NoRoundNoRecord(m: Machine, p: string)
    requires m.round.None?
    ensures OnRecord(m, p, None)
  {
  }

  // ---- evaluation ----

  /** A player's record after a round: an answer more with its time and points, or out. */
  predicate Credited(before: PlayerInfo, after: PlayerInfo, r: Round, s: Accepted) {
    var ms := if s.at < r.startedAt then 0 else s.at - r.startedAt;
    after == before.(correctAnswers := before.correctAnswers + 1,
                     totalResponseTimeMs := before.totalResponseTimeMs + ms,
                     score := before.score + (if ms >= 10000 then 100 else 100 + (10000 - ms) / 200))
  }

  lemma SurvivesIfRight(m: Machine, p: string, last: Option<Accepted>)
    requires m.round.Some? && OnRecord(m, p, last)
    ensures Rounds.Survives(m.round.value, p) <==> Right(last, m.round.value.question.options)
  {
    hide Agrees, Text.OfInt;
  }

  lemma EvaluatedIsCredited(m: Machine, p: string, last: Option<Accepted>, before: PlayerInfo)
    requires m.round.Some? && OnRecord(m, p, last)
    ensures var after := Evaluated(before, m.round.value, p);
            if Right(last, m.round.value.question.options) then Credited(before, after, m.round.value, last.value)
            else after == before.(status := Eliminated)
  {
    hide Agrees, Text.OfInt, Rounds.RoundPoints;
    SurvivesIfRight(m, p, last);
    if Right(last, m.round.value.question.options) {
      Rounds.RoundPointsMeaning(m.round.value.answers.m[p].responseTimeMs);
    }
  }

  /** Over every run: evaluating a round keeps exactly the starters whose last accepted answer agreed with
      the key of its moment and eliminates the others, in the order of the starters; each starter once
      listed among the players is credited its time and points or marked eliminated, nobody else changes. */
  lemma EvaluationFollowsAnswers(matchId: string, roomId: string, players: seq<PlayerInfo>, calls: seq<Call>, src: Source, clock: Clock, p: string)
    requires Basics.Distinct(Ids(players))
    requires Run(Create(matchId, roomId, players), calls, src).round.Some?
    ensures var m := Run(Create(matchId, roomId, players), calls, src);
            var last := LastAccepted(Create(matchId, roomId, players), calls, src, p);
            var r, o := m.round.value, EvaluateRound(m, clock);
            var starters := Starters(m, r);
            var right := Right(last, r.question.options);
            && o.result.Ok?
            && (p in o.result.value.surviving <==> p in starters && right)
            && (p in o.result.value.eliminated <==> p in starters && !right)
            && multiset(o.result.value.surviving) + multiset(o.result.value.eliminated) == multiset(starters)
            && o.m.st.surviving == o.result.value.surviving
            && o.m.st.eliminated == m.st.eliminated + o.result.value.eliminated
            && o.m.st.players.m.Keys == m.st.players.m.Keys
            && ((forall id :: id in starters ==> id in m.st.players.m) && p in m.st.players.m ==>
                  var before, after := m.st.players.m[p], o.m.st.players.m[p];
                  if p !in starters then after == before
                  else if right then Credited(before, after, r, last.value)
                  else after == before.(status := Eliminated))
  {
    AnswersAreOnRecord(matchId, roomId, players, calls, src, p);
    MatchInvariants.EveryRunSurvivesFailover(matchId, roomId, players, calls, src);
    var last := LastAccepted(Create(matchId, roomId, players), calls, src, p);
    var m := Run(Create(matchId, roomId, players), calls, src);
    hide Run, Create, LastAccepted;
    EvaluatedByRecord(m, clock, p, last);
  }

  lemma EvaluatedByRecord(m: Machine, clock: Clock, p: string, last: Option<Accepted>)
    requires MatchInvariants.Inv(m) && m.round.Some? && OnRecord(m, p, last)
    ensures var r, o := m.round.value, EvaluateRound(m, clock);
            var starters := Starters(m, r);
            var right := Right(last, r.question.options);
            && o.result.Ok?
            && (p in o.result.value.surviving <==> p in starters && right)
            && (p in o.result.value.eliminated <==> p in starters && !right)
            && multiset(o.result.value.surviving) + multiset(o.result.value.eliminated) == multiset(starters)
            && o.m.st.surviving == o.result.value.surviving
            && o.m.st.eliminated == m.st.eliminated + o.result.value.eliminated
            && o.m.st.players.m.Keys == m.st.players.m.Keys
            && ((forall id :: id in starters ==> id in m.st.players.m) && p in m.st.players.m ==>
                  var before, after := m.st.players.m[p], o.m.st.players.m[p];
                  if p !in starters then after == before
                  else if right then Credited(before, after, r, last.value)
                  else after == before.(status := Eliminated))
  {
    hide OnRecord, Right, Credited, EvaluatePlayers, Rounds.Filter, Evaluated, Rounds.Survives;
    var r := m.round.value;
    var starters := Starters(m, r);
    SurvivesIfRight(m, p, last);
    Rounds.EliminationPartitions(r, starters);
    KeysStay(m.st.players, r, starters);
    if (forall id :: id in starters ==> id in m.st.players.m) && p in m.st.players.m {
      StartersAreDistinct(m);
      Roster.EvaluatedPointwise(m.st.players, r, starters, p);
      EvaluatedIsCredited(m, p, last, m.st.players.m[p]);
    }
  }

  lemma StartersAreDistinct(m: Machine)
    requires MatchInvariants.Inv(m) && m.round.Some?
    ensures Basics.Distinct(Starters(m, m.round.value))
  {
  }

  lemma {:induction false} KeysStay(players: OMap<PlayerInfo>, r: Round, ids: seq<string>)
    ensures EvaluatePlayers(players, r, ids).m.Keys == players.m.Keys
  {
    hide Evaluated;
    if ids != [] { KeysStay(players, r, ids[..|ids| - 1]); }
  }

  // ---- one key a round ----

  /** The key the last round was started with. */
  function StartedKey(m0: Machine, calls: seq<Call>, src: Source): Option<string> {
    if calls == [] then None
    else
      var n := |calls| - 1;
      NextKey(Run(m0, calls[..n], src), calls[n].op, StartedKey(m0, calls[..n], src))
  }

  function NextKey(m: Machine, op: Op, before: Option<string>): Option<string> {
    if op.StartRoundOp? && m.st.status == RoundActive then Some(op.correctAnswer) else before
  }

  /** The key attached after a failover is the one the round was started with, and no answer is submitted
      to a round between its failover and that. */
  predicate KeepsKey(m: Machine, op: Op, key: Option<string>) {
    && (op.AttachOp? ==> key == Some(op.correctAnswer))
    && (op.SubmitOp? && m.round.Some? ==> m.round.value.correctAnswer.Some?)
  }

  ghost predicate KeyedRun(m0: Machine, calls: seq<Call>, src: Source) {
    forall i :: 0 <= i < |calls| ==> KeepsKey(Run(m0, calls[..i], src), calls[i].op, StartedKey(m0, calls[..i], src))
  }

  predicate OneKey(m: Machine, key: Option<string>, last: Option<Accepted>) {
    m.round.Some? ==>
      && key.Some?
      && (m.round.value.correctAnswer.Some? ==> m.round.value.correctAnswer == key)
      && (last.Some? ==> last.value.key == key)
  }

  lemma OtherStepKeepsKey(m: Machine, op: Op, src: Source, clock: Clock)
    requires !op.SubmitOp? && !op.ReloadOp? && !op.AttachOp? && !(op.StartRoundOp? && m.st.status == RoundActive)
    ensures var after := Step(m, op, src, clock);
            after.round.Some? ==> m.round.Some? && after.round.value.correctAnswer == m.round.value.correctAnswer
  {
    hide EvaluatePlayers, Rounds.Survivors, Rounds.EliminationsForRound, DetermineWinner, Promote;
    hide TopicVoting.Resolve, CandidatesFor, CardsToOffer, CheckVote, Put, Rehydrate.AddClasses, Rehydrate.Resolved;
  }

  lemma SubmitKeepsKey(m: Machine, who: string, answer: string, at: int, sub: Option<string>, clock: Clock)
    ensures var after := SubmitAnswer(m, who, answer, at, sub, clock).m;
            && after.round.Some? == m.round.Some?
            && (m.round.Some? ==> after.round.value.correctAnswer == m.round.value.correctAnswer)
  {
    hide NewAnswer, CheckAnswer;
    if CheckAnswer(m, who, at, sub) == Ok(None) { MatchInvariants.AcceptedMeans(m, who, at, sub); }
  }

  lemma ReloadErasesKey(m: Machine)
    requires MatchInvariants.Inv(m)
    ensures Reload(m).round.Some? == m.round.Some?
    ensures m.round.Some? ==> Reload(m).round.value.correctAnswer.None? || Reload(m).round == m.round
  {
    hide Reload, MatchInvariants.Inv, MatchInvariants.Backwards, Codec.Deserialize;
    MatchInvariants.FailoverLosesOnlyTheKey(m);
  }

  lemma StepKeepsOneKey(m: Machine, op: Op, src: Source, clock: Clock, p: string, key: Option<string>, last: Option<Accepted>)
    requires MatchInvariants.Inv(m) && OneKey(m, key, last) && KeepsKey(m, op, key)
    ensures OneKey(Step(m, op, src, clock), NextKey(m, op, key), NextAccepted(m, op, p, last))
  {
    if op.SubmitOp? {
      hide SubmitAnswer, Accepts, MatchInvariants.Inv;
      SubmitKeepsKey(m, op.playerId, op.answer, op.serverTimestamp, op.submissionId, clock);
    } else if op.StartRoundOp? && m.st.status == RoundActive {
    } else if op.AttachOp? {
    } else if op.ReloadOp? {
      hide Reload, MatchInvariants.Inv;
      ReloadErasesKey(m);
    } else {
      hide Step, MatchInvariants.Inv;
      OtherStepKeepsKey(m, op, src, clock);
    }
  }

  lemma KeyedPrefix(m0: Machine, calls: seq<Call>, src: Source)
    requires KeyedRun(m0, calls, src) && calls != []
    ensures var n := |calls| - 1;
            && KeyedRun(m0, calls[..n], src)
            && KeepsKey(Run(m0, calls[..n], src), calls[n].op, StartedKey(m0, calls[..n], src))
  {
    hide Run, StartedKey, KeepsKey;
    var n := |calls| - 1;
    assert forall i :: 0 <= i < n ==> calls[..n][..i] == calls[..i] && calls[..n][i] == calls[i];
  }

  lemma {:induction false} RunKeepsOneKey(matchId: string, roomId: string, players: seq<PlayerInfo>, calls: seq<Call>, src: Source, p: string)
    requires Basics.Distinct(Ids(players)) && KeyedRun(Create(matchId, roomId, players), calls, src)
    ensures var m0 := Create(matchId, roomId, players);
            OneKey(Run(m0, calls, src), StartedKey(m0, calls, src), LastAccepted(m0, calls, src, p))
  {
    hide Step, NextAccepted, NextKey, KeepsKey, MatchInvariants.Inv;
    var m0 := Create(matchId, roomId, players);
    if calls != [] {
      hide OneKey, Create;
      var n := |calls| - 1;
      KeyedPrefix(m0, calls, src);
      hide KeyedRun;
      RunKeepsOneKey(matchId, roomId, players, calls[..n], src, p);
      MatchInvariants.EveryRunSurvivesFailover(matchId, roomId, players, calls[..n], src);
      StepKeepsOneKey(Run(m0, calls[..n], src), calls[n].op, src, calls[n].clock, p,
                      StartedKey(m0, calls[..n], src), LastAccepted(m0, calls[..n], src, p));
    }
  }

  /** So where each failover gives the key back before the next answer, a round keeps exactly the starters
      whose last accepted answer agrees with the key the round was started with. */
  lemma RoundKeepsTheRight(matchId: string, roomId: string, players: seq<PlayerInfo>, calls: seq<Call>, src: Source, clock: Clock, p: string)
    requires Basics.Distinct(Ids(players)) && KeyedRun(Create(matchId, roomId, players), calls, src)
    ensures var m0 := Create(matchId, roomId, players);
            var m, key, last := Run(m0, calls, src), StartedKey(m0, calls, src), LastAccepted(m0, calls, src, p);
            m.round.Some? ==>
              var r, e := m.round.value, EvaluateRound(m, clock).result;
              && key.Some? && e.Ok?
              && (p in e.value.eliminated <==>
                    p in Starters(m, r) && !(last.Some? && Agrees(last.value.answer, key, r.question.options)))
              && (p in e.value.surviving <==>
                    p in Starters(m, r) && last.Some? && Agrees(last.value.answer, key, r.question.options))
  {
    hide Run, Create, LastAccepted, StartedKey, KeyedRun, Agrees, EvaluateRound;
    RunKeepsOneKey(matchId, roomId, players, calls, src, p);
    if Run(Create(matchId, roomId, players), calls, src).round.Some? {
      EvaluationFollowsAnswers(matchId, roomId, players, calls, src, clock, p);
    }
  }

  /** The condition is needed: while the key is missing, every answer is put down as wrong, the right one
      too, and stays so when the key is attached. */
  lemma KeylessAnswerIsWrong(m: Machine, p: string, answer: string, at: int, sub: Option<string>, clock: Clock, key: string)
    requires Accepts(m, p, at, sub) && m.round.value.correctAnswer.None?
    ensures var after := AttachCorrectAnswer(SubmitAnswer(m, p, answer, at, sub, clock).m, key);
            && after.round.Some? && after.round.value.correctAnswer == Some(key)
            && !Rounds.Survives(after.round.value, p)
  {
    hide Text.OfInt;
  }

  /** And a round that lost its key is not graded wrong for everyone: answers given before keep their
      marks, so losing the key changes nobody's fate. */
  lemma LostKeyKeepsMarks(m: Machine, clock: Clock)
    requires MatchInvariants.Inv(m) && !MatchInvariants.Backwards(m) && m.round.Some?
    ensures var kept, lost := EvaluateRound(m, clock).result, EvaluateRound(Reload(m), clock).result;
            && kept.Ok? && lost.Ok?
            && lost.value.surviving == kept.value.surviving && lost.value.eliminated == kept.value.eliminated
  {
    hide Reload, MatchInvariants.Inv, MatchInvariants.Backwards;
    MatchInvariants.FailoverLosesOnlyTheKey(m);
    var r, erased := m.round.value, m.round.value.(correctAnswer := None);
    assert forall id :: Rounds.Survives(r, id) == Rounds.Survives(erased, id);
    SameSurvivors(r, erased, Starters(m, r));
  }

  lemma {:induction false} SameSurvivors(r: Round, t: Round, ids: seq<string>)
    requires forall id :: Rounds.Survives(r, id) == Rounds.Survives(t, id)
    ensures Rounds.Survivors(r, ids) == Rounds.Survivors(t, ids)
    ensures Rounds.EliminationsForRound(r, ids) == Rounds.EliminationsForRound(t, ids)
  {
    hide Rounds.Survives;
    if ids != [] { SameSurvivors(r, t, ids[1..]); }
  }
}
