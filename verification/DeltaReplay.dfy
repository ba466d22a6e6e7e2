/** Catching a client up from its cursor (getDelta of packages/game-core/src/match-state-machine.ts and the
    decision in apps/api/src/gateways/handlers/match.handler.ts).  A client that applied the first c
    events is that prefix of the log. */
module DeltaReplay {
  import opened MatchTypes
  import opened MatchSpec
  import opened MatchRuns
  import Basics
  import MatchInvariants

  function HeadSeqNo(log: seq<Entry>): int {
    if log == [] then 0 else log[|log| - 1].seqNo
  }

  function FloorSeqNo(log: seq<Entry>): int {
    if log == [] then 0 else log[0].seqNo
  }

  /** The events with a number above the cursor. */
  function GetDelta(log: seq<Entry>, cursor: int): seq<Entry> {
    if log == [] then []
    else (if log[0].seqNo > cursor then [log[0]] else []) + GetDelta(log[1..], cursor)
  }

  datatype Reply = EventBatch(events: seq<Entry>) | Snapshot(lastEventSeqNo: int)

  predicate CanDelta(log: seq<Entry>, cursor: int) {
    var head, floor := HeadSeqNo(log), FloorSeqNo(log);
    cursor > 0 && head > 0 && cursor >= floor && cursor <= head
  }

  /** `handleRequestSnapshot` */
  function Answer(log: seq<Entry>, cursor: int): Reply {
    if CanDelta(log, cursor) then EventBatch(GetDelta(log, cursor)) else Snapshot(HeadSeqNo(log))
  }

  /** Events a client has seen: a batch is appended, a snapshot stands for everything up to its number. */
  function Receive(seen: seq<Entry>, reply: Reply, log: seq<Entry>): seq<Entry>
    requires reply.Snapshot? ==> 0 <= reply.lastEventSeqNo <= |log|
  {
    match reply
    case EventBatch(events) => seen + events
    case Snapshot(last) => log[..last]
  }

  lemma {:induction false} DeltaFrom(log: seq<Entry>, cursor: int, k: int)
    requires forall i :: 0 <= i < |log| ==> log[i].seqNo == k + i + 1
    ensures GetDelta(log, cursor) ==
              if cursor <= k then log else if cursor - k >= |log| then [] else log[cursor - k..]
  {
    if log != [] {
      assert forall i :: 0 <= i < |log[1..]| ==> log[1..][i] == log[i + 1];
      DeltaFrom(log[1..], cursor, k + 1);
      assert log == [log[0]] + log[1..];
      if cursor > k && cursor - k < |log| {
        assert log[1..][cursor - k - 1..] == log[cursor - k..];
      }
    }
  }

  /** In a dense log the delta is exactly what is missing, for every cursor up to the head; a delta is
      sent exactly for the cursors 1..head, and everything else gets a snapshot of the head. */
  lemma DeltaIsTheMissingSuffix(log: seq<Entry>, cursor: int)
    requires MatchInvariants.Dense(log)
    ensures 0 <= cursor <= |log| ==> log[..cursor] + GetDelta(log, cursor) == log
    ensures CanDelta(log, cursor) <==> 1 <= cursor <= |log|
    ensures HeadSeqNo(log) == |log|
  {
    DeltaFrom(log, cursor, 0);
    if log != [] {
      assert log[|log| - 1].seqNo == |log| && log[0].seqNo == 1;
    }
  }

  /** Whichever branch the handler takes, a client holding the prefix its cursor names ends with the
      whole log; and so does a client with a cursor the log never reached. */
  lemma ClientEndsAtHead(log: seq<Entry>, cursor: int, seen: seq<Entry>)
    requires MatchInvariants.Dense(log)
    requires 1 <= cursor <= |log| ==> seen == log[..cursor]
    ensures var reply := Answer(log, cursor);
            && (reply.Snapshot? ==> reply.lastEventSeqNo == |log|)
            && Receive(seen, reply, log) == log
  {
    DeltaIsTheMissingSuffix(log, cursor);
  }

  lemma OldClientEndsAtHead(seen: seq<Entry>, log: seq<Entry>)
    requires MatchInvariants.Dense(seen) && MatchInvariants.Dense(log) && seen <= log
    ensures var reply := Answer(log, HeadSeqNo(seen));
            && (reply.Snapshot? ==> reply.lastEventSeqNo == |log|)
            && Receive(seen, reply, log) == log
  {
    DeltaIsTheMissingSuffix(seen, 0);
    ClientEndsAtHead(log, HeadSeqNo(seen), seen);
  }

  lemma {:induction false} RunGrowsLog(matchId: string, roomId: string, players: seq<PlayerInfo>, calls: seq<Call>, src: Source, i: nat)
    requires Basics.Distinct(Ids(players)) && i <= |calls|
    ensures Run(Create(matchId, roomId, players), calls[..i], src).log <= Run(Create(matchId, roomId, players), calls, src).log
  {
    hide Step, Create, MatchInvariants.Inv, MatchRuns.Reload, MatchRuns.Save, Ids;
    if i < |calls| {
      var n := |calls| - 1;
      assert calls[..n][..i] == calls[..i];
      RunGrowsLog(matchId, roomId, players, calls[..n], src, i);
      MatchInvariants.EveryRunSurvivesFailover(matchId, roomId, players, calls[..n], src);
      MatchInvariants.StepKeepsInv(Run(Create(matchId, roomId, players), calls[..n], src), calls[n].op, src, calls[n].clock);
    } else {
      assert calls[..i] == calls;
    }
  }

  /** A client that was up to date after i calls and reconnects after the whole run, failovers in
      between included, ends up to date again, and its new cursor is the head. */
  lemma ReconnectCatchesUp(matchId: string, roomId: string, players: seq<PlayerInfo>, calls: seq<Call>, src: Source, i: nat)
    requires Basics.Distinct(Ids(players)) && i <= |calls|
    ensures var seen := Run(Create(matchId, roomId, players), calls[..i], src).log;
            var log := Run(Create(matchId, roomId, players), calls, src).log;
            var reply := Answer(log, HeadSeqNo(seen));
            && (reply.Snapshot? ==> reply.lastEventSeqNo == |log|)
            && Receive(seen, reply, log) == log
  {
    hide Run;
    hide Answer;
    hide Receive;
    hide HeadSeqNo;
    MatchInvariants.EveryRunSurvivesFailover(matchId, roomId, players, calls, src);
    MatchInvariants.EveryRunSurvivesFailover(matchId, roomId, players, calls[..i], src);
    RunGrowsLog(matchId, roomId, players, calls, src, i);
    OldClientEndsAtHead(
      Run(Create(matchId, roomId, players), calls[..i], src).log,
      Run(Create(matchId, roomId, players), calls, src).log);
  }
}
