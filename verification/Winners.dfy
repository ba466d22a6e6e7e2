/** Who wins a match, and with what record (finishMatch and determineWinner of
    packages/game-core/src/match-state-machine.ts). */
module Winners {
  import opened MatchTypes
  import opened Wrappers
  import opened MatchSpec
  import opened MatchRuns
  import Basics
  import Mulberry
  import Roster
  import Text
  import TieBreak

  /** Least total time, then most correct answers, then smallest roll, then smallest id. */
  predicate Beats(players: map<string, PlayerInfo>, a: string, rollOfA: Mulberry.Word, b: string, rollOfB: Mulberry.Word)
    requires a in players && b in players
  {
    var x, y := players[a], players[b];
    || x.totalResponseTimeMs < y.totalResponseTimeMs
    || (&& x.totalResponseTimeMs == y.totalResponseTimeMs
        && (|| x.correctAnswers > y.correctAnswers
            || (x.correctAnswers == y.correctAnswers && (rollOfA < rollOfB || (rollOfA == rollOfB && Text.Less(a, b))))))
  }

  lemma {:induction false} EveryonePresent(ids: seq<string>, players: map<string, PlayerInfo>)
    requires forall id :: id in ids ==> id in players
    ensures TieBreak.Present(ids, players) == ids
  {
    if ids != [] {
      EveryonePresent(ids[1..], players);
      assert ids == [ids[0]] + ids[1..];
    }
  }

  /** Each of the tied players draws its own roll. */
  lemma {:induction false} OffsetIsRoll(ids: seq<string>, rolls: Mulberry.Rolls, i: nat)
    requires Basics.Distinct(ids) && i < |ids|
    ensures TieBreak.Offset(TieBreak.Offsets(ids, rolls), ids[i]) == rolls(i)
  {
    if i < |ids| - 1 {
      OffsetIsRoll(ids[..|ids| - 1], rolls, i);
    }
  }

  lemma TieIsBroken(ids: seq<string>, players: map<string, PlayerInfo>, rolls: Mulberry.Rolls) returns (i: nat)
    requires Basics.Distinct(ids) && ids != [] && forall id :: id in ids ==> id in players
    ensures i < |ids| && TieBreak.Winner(ids, players, rolls) == Some(ids[i])
    ensures forall j :: 0 <= j < |ids| && j != i ==> Beats(players, ids[i], rolls(i), ids[j], rolls(j))
  {
    hide TieBreak.Winner, TieBreak.Offset, TieBreak.Offsets;
    EveryonePresent(ids, players);
    var w := TieBreak.Winner(ids, players, rolls);
    i :| 0 <= i < |ids| && Some(ids[i]) == w;
    OffsetIsRoll(ids, rolls, i);
    forall j | 0 <= j < |ids| && j != i ensures Beats(players, ids[i], rolls(i), ids[j], rolls(j)) {
      TieBreak.WinnerIsLexicographicMinimum(ids, players, rolls, ids[j]);
      OffsetIsRoll(ids, rolls, j);
    }
  }

  /** Those the winner is taken from: the survivors, or everybody where nobody survived. */
  function Contenders(m: Machine): seq<string> {
    if m.st.surviving != [] then m.st.surviving else m.st.eliminated
  }

  lemma {:induction false} PartIsDistinct(s: seq<string>, all: seq<string>)
    requires multiset(s) <= multiset(all) && Basics.Distinct(all)
    ensures Basics.Distinct(s)
  {
    forall i, j | 0 <= i < j < |s| ensures s[i] != s[j] {
      if s[i] == s[j] {
        assert s == s[..j] + [s[j]] + s[j + 1..];
        assert s[i] in multiset(s[..j]);
        Roster.KeyOnce(all, s[i]);
      }
    }
  }

  lemma ContendersPlay(m: Machine, longest: nat)
    requires Roster.RosterInv(m, longest)
    ensures Basics.Distinct(Contenders(m)) && forall id :: id in Contenders(m) ==> id in m.st.players.m
    ensures Contenders(m) == [] <==> m.st.players.keys == []
  {
    hide Roster.StatsFit;
    assert multiset(Contenders(m)) <= multiset(m.st.players.keys);
    PartIsDistinct(Contenders(m), m.st.players.keys);
    assert |m.st.surviving| + |m.st.eliminated| == |m.st.players.keys| by {
      assert |multiset(m.st.surviving) + multiset(m.st.eliminated)| == |multiset(m.st.players.keys)|;
    }
  }

  lemma DeterminedAmongContenders(m: Machine, longest: nat, src: Source) returns (i: nat)
    requires Roster.RosterInv(m, longest)
    ensures var ids := Contenders(m);
            && (DetermineWinner(m, src).None? <==> ids == [])
            && (ids != [] ==> i < |ids| && DetermineWinner(m, src) == Some(ids[i]))
            && forall j :: 0 <= j < |ids| && j != i && i < |ids| && ids[i] in m.st.players.m && ids[j] in m.st.players.m ==>
                 Beats(m.st.players.m, ids[i], src.hashRolls(m.st.id)(i), ids[j], src.hashRolls(m.st.id)(j))
  {
    hide Roster.RosterInv, Beats;
    ContendersPlay(m, longest);
    i := 0;
    if Contenders(m) != [] {
      i := TieIsBroken(Contenders(m), m.st.players.m, src.hashRolls(m.st.id));
    }
  }

  /** What finishMatch leaves: nothing but the winner's status, the winner id, the end time and the log
      changes; the log gains the tie-break, where there was one, and the result. */
  lemma FinishRecords(m: Machine, src: Source, clock: Clock)
    ensures var after := FinishMatch(m, src, clock);
            var w := DetermineWinner(m, src);
            && after.st.winnerId == w && after.st.endedAt == Some(clock(1))
            && after.st.surviving == m.st.surviving && after.st.eliminated == m.st.eliminated
            && after.st.players.m.Keys == m.st.players.m.Keys
            && (forall p :: p in m.st.players.m ==>
                  after.st.players.m[p]
                    == if w == Some(p) then m.st.players.m[p].(status := Winner) else m.st.players.m[p])
            && after.log == m.log
                 + (if |m.st.surviving| == 1 || Contenders(m) == [] then []
                    else [Entry(Event.TieBreak(w, Contenders(m)), clock(0), m.counter + 1)])
                 + [Entry(MatchFinished(w, m.st.totalRounds), clock(2), after.counter)]
  {
    hide DetermineWinner;
  }

  /** A finished match is won by its only survivor; among several, or among everybody where nobody
      survived, by the one contender that beats every other in time, correct answers, roll and id; and by
      nobody exactly if there are no players.  Only the winner's record gets the Winner status. */
  lemma FinishCrowns(m: Machine, longest: nat, src: Source, clock: Clock) returns (i: nat)
    requires Roster.RosterInv(m, longest)
    ensures var after := FinishMatch(m, src, clock);
            var ids, w := Contenders(m), after.st.winnerId;
            var rolls := src.hashRolls(m.st.id);
            && (w.None? <==> m.st.players.keys == [])
            && (|m.st.surviving| == 1 ==> w == Some(m.st.surviving[0]))
            && (w.Some? ==> i < |ids| && w == Some(ids[i]) && ids[i] in m.st.players.m)
            && (w.Some? ==> forall j :: 0 <= j < |ids| && j != i ==>
                  ids[j] in m.st.players.m && Beats(m.st.players.m, ids[i], rolls(i), ids[j], rolls(j)))
            && after.st.players.m.Keys == m.st.players.m.Keys
            && (forall p :: p in m.st.players.m ==>
                  after.st.players.m[p]
                    == if w == Some(p) then m.st.players.m[p].(status := Winner) else m.st.players.m[p])
            && |after.log| > |m.log| && after.log[|after.log| - 1].event == MatchFinished(w, m.st.totalRounds)
  {
    i := DeterminedAmongContenders(m, longest, src);
    FinishRecords(m, src, clock);
    ContendersPlay(m, longest);
    hide Roster.RosterInv, Beats, FinishMatch, DetermineWinner;
  }

  lemma NoAnswerNoTime(p: PlayerInfo, longest: nat)
    requires Roster.StatsFit(p, longest) && p.correctAnswers == 0
    ensures p.totalResponseTimeMs == 0
  {
  }

  lemma LessTimeBeats(m: Machine, c: string)
    requires c in m.st.players.m && forall p :: p in m.st.players.m && p != c ==> m.st.players.m[c].totalResponseTimeMs < m.st.players.m[p].totalResponseTimeMs
    ensures forall p, k, l :: p in m.st.players.m && p != c ==> !Beats(m.st.players.m, p, k, c, l)
  {
  }

  /** Where nobody is left, everybody who ever played contends: somebody out in the first round with no
      right answer has no response time and wins against all who have any. */
  lemma FirstOutWinsIfNobodyIsLeft(m: Machine, longest: nat, src: Source, clock: Clock, c: string)
    requires Roster.RosterInv(m, longest) && m.st.surviving == []
    requires c in m.st.eliminated && m.st.players.m[c].correctAnswers == 0
    requires forall p :: p in m.st.players.m && p != c ==> m.st.players.m[p].totalResponseTimeMs > 0
    ensures FinishMatch(m, src, clock).st.winnerId == Some(c)
  {
    hide FinishMatch, Roster.StatsFit, Roster.Partition, Roster.RoundFits, Beats;
    assert Roster.StatsFit(m.st.players.m[c], longest);
    NoAnswerNoTime(m.st.players.m[c], longest);
    hide Roster.RosterInv;
    LessTimeBeats(m, c);
    var i := FinishCrowns(m, longest, src, clock);
    ContendersPlay(m, longest);
    var j :| 0 <= j < |m.st.eliminated| && m.st.eliminated[j] == c;
  }

  /** So over every run that evaluates each started round once. */
  lemma RunIsWon(matchId: string, roomId: string, players: seq<PlayerInfo>, calls: seq<Call>, src: Source, longest: nat, clock: Clock)
    returns (i: nat)
    requires Roster.FreshRoster(players) && Roster.DisciplinedRun(Create(matchId, roomId, players), calls, src, longest)
    ensures var m := Run(Create(matchId, roomId, players), calls, src);
            var after := Run(Create(matchId, roomId, players), calls + [Call(FinishOp, clock)], src);
            var ids, w, rolls := Contenders(m), after.st.winnerId, src.hashRolls(m.st.id);
            && (w.None? <==> players == [])
            && (|m.st.surviving| == 1 ==> w == Some(m.st.surviving[0]))
            && (w.Some? ==> i < |ids| && w == Some(ids[i]) && ids[i] in m.st.players.m)
            && (w.Some? ==> forall j :: 0 <= j < |ids| && j != i ==>
                  ids[j] in m.st.players.m && Beats(m.st.players.m, ids[i], rolls(i), ids[j], rolls(j)))
  {
    var m0 := Create(matchId, roomId, players);
    Roster.RunKeepsRoster(matchId, roomId, players, calls, src, longest);
    FinishedRun(m0, calls, src, clock);
    hide Run, Create, Roster.DisciplinedRun, Roster.RosterInv, Beats, FinishMatch;
    i := FinishCrowns(Run(m0, calls, src), longest, src, clock);
  }

  lemma FinishedRun(m0: Machine, calls: seq<Call>, src: Source, clock: Clock)
    ensures Run(m0, calls + [Call(FinishOp, clock)], src) == FinishMatch(Run(m0, calls, src), src, clock)
  {
    var all := calls + [Call(FinishOp, clock)];
    assert all[..|calls|] == calls;
    hide FinishMatch;
  }
}
