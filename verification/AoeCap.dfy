/** The area-effect budget of a round (apps/api/src/modules/match/aoe-cap.ts). */
module AoeCap {
  import opened MatchTypes
  import opened Rehydrate

  predicate CountsAsAoe(e: Event, matchId: string, roundNo: int) {
    e.CardResolved? && e.matchId == matchId && e.roundNo == roundNo && |e.targets| > 1
  }

  function AoeResolved(log: seq<Entry>, matchId: string, roundNo: int): nat {
    if log == [] then 0
    else
      AoeResolved(log[..|log| - 1], matchId, roundNo)
      + (if CountsAsAoe(log[|log| - 1].event, matchId, roundNo) then 1 else 0)
  }

  lemma AoeAppend(log: seq<Entry>, e: Entry, matchId: string, roundNo: int)
    ensures AoeResolved(log + [e], matchId, roundNo)
              == AoeResolved(log, matchId, roundNo) + (if CountsAsAoe(e.event, matchId, roundNo) then 1 else 0)
  {
    assert (log + [e])[..|log|] == log;
  }

  /** `countAoeResolved` */
  method CountAoeResolved(log: seq<Entry>, matchId: string, roundNo: int) returns (count: nat)
    ensures count == AoeResolved(log, matchId, roundNo)
  {
    count := 0;
    for i := 0 to |log|
      invariant count == AoeResolved(log[..i], matchId, roundNo)
    {
      assert log[..i + 1][..i] == log[..i];
      if CountsAsAoe(log[i].event, matchId, roundNo) {
        count := count + 1;
      }
    }
    assert log[..|log|] == log;
  }

  /** The per-match tracker kept beside the log. */
  class AoeCapTracker {
    const matchId: string
    var currentRoundNo: int
    var currentAoeCount: nat

    constructor (matchId: string, initialRoundNo: int, initialAoeCount: nat)
      ensures this.matchId == matchId && currentRoundNo == initialRoundNo && currentAoeCount == initialAoeCount
    {
      this.matchId := matchId;
      currentRoundNo := initialRoundNo;
      currentAoeCount := initialAoeCount;
    }

    static method RebuildFromLog(matchId: string, currentRoundNo: int, log: seq<Entry>) returns (t: AoeCapTracker)
      ensures fresh(t) && t.matchId == matchId && t.currentRoundNo == currentRoundNo && t.Agrees(log)
    {
      var count := CountAoeResolved(log, matchId, currentRoundNo);
      t := new AoeCapTracker(matchId, currentRoundNo, count);
    }

    /** The tracker shows what counting the log from the start would. */
    ghost predicate Agrees(log: seq<Entry>)
      reads this
    {
      currentAoeCount == AoeResolved(log, matchId, currentRoundNo)
    }

    /** Told of each event as it is appended, the tracker keeps agreeing with the log. */
    method OnCardResolved(e: Entry, ghost log: seq<Entry>)
      requires Agrees(log)
      modifies this`currentAoeCount
      ensures Agrees(log + [e])
    {
      AoeAppend(log, e, matchId, currentRoundNo);
      if !e.event.CardResolved? { return; }
      if e.event.matchId != matchId { return; }
      if e.event.roundNo != currentRoundNo { return; }
      if |e.event.targets| > 1 {
        currentAoeCount := currentAoeCount + 1;
      }
    }

    /** A new round starts at zero, which is right because the log has no card of a later round. */
    method OnEndRound(nextRoundNo: int, ghost log: seq<Entry>)
      requires forall i :: 0 <= i < |log| ==> !CountsAsAoe(log[i].event, matchId, nextRoundNo)
      modifies this
      ensures currentRoundNo == nextRoundNo && Agrees(log)
    {
      NoneCounted(log, matchId, nextRoundNo);
      currentRoundNo := nextRoundNo;
      currentAoeCount := 0;
    }

    /** Exhausted exactly when the log shows as many area effects in the round as are allowed. */
    method IsExhausted(ghost log: seq<Entry>) returns (full: bool)
      requires Agrees(log)
      ensures full <==> AoeResolved(log, matchId, currentRoundNo) >= AOE_CAP_PER_ROUND
    {
      full := currentAoeCount >= AOE_CAP_PER_ROUND;
    }
  }

  lemma {:induction false} NoneCounted(log: seq<Entry>, matchId: string, roundNo: int)
    requires forall i :: 0 <= i < |log| ==> !CountsAsAoe(log[i].event, matchId, roundNo)
    ensures AoeResolved(log, matchId, roundNo) == 0
  {
    if log != [] {
      NoneCounted(log[..|log| - 1], matchId, roundNo);
    }
  }

  /** The machine's own counter is the same count, on a log of one match. */
  lemma {:induction false} MachineCounterAgrees(log: seq<Entry>, matchId: string, roundNo: int)
    requires forall i :: 0 <= i < |log| && log[i].event.CardResolved? ==> log[i].event.matchId == matchId
    ensures GetOr(Replay(log).aoe, roundNo, 0) == AoeResolved(log, matchId, roundNo)
  {
    if log != [] {
      MachineCounterAgrees(log[..|log| - 1], matchId, roundNo);
    }
  }
}
