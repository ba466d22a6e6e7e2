/** Validated card plays (apps/api/src/modules/match/card-validator.ts and
    apps/api/src/modules/match/match-card-command-authoritative.ts) and the limits they keep over a match. */
module CardLimits {
  import opened MatchTypes
  import opened Wrappers
  import opened OrderedMap
  import opened Rehydrate
  import opened MatchSpec
  import opened MatchRuns
  import opened AoeCap
  import Basics
  import Cards
  import Codec
  import Draws
  import MatchInvariants
  import Mulberry
  import TopicVoting

  // ---- the validator ----

  function ValidateTarget(c: CardId, target: Option<string>, roster: set<string>, acting: string): Result<(), MatchError>
    requires Cards.InCatalog(c)
  {
    var named := target.Some? && target.value != "";
    if Cards.ClassOf(c) == Attack then
      if !Cards.IsAoeCard(c) && !named then Err(InvalidPayload)
      else if named && acting != "" && target.value == acting then Err(InvalidPayload)
      else if named && target.value !in roster then Err(PlayerNotInRoom)
      else Ok(())
    else if target.Some? then Err(InvalidPayload)
    else Ok(())
  }

  function ValidateCardCommand(
    c: CardId, offered: seq<CardId>, target: Option<string>, roster: set<string>, aoeCount: nat,
    played: set<CardId>, picked: set<CardId>, acting: string,
    matchStatus: MatchStatus, roundStatus: RoundStatus): (r: Result<(), MatchError>)
    ensures r.Ok? <==>
              && matchStatus == RoundActive && roundStatus == Open && Cards.InCatalog(c)
              && c in picked && c in offered && c !in played
              && (Cards.ClassOf(c) == Defense ==> target.None?)
              && (Cards.ClassOf(c) == Attack ==>
                    if target.None? || target.value == "" then Cards.IsAoeCard(c)
                    else target.value in roster && target.value != acting)
              && (Cards.IsAoeCard(c) ==> aoeCount < AOE_CAP_PER_ROUND)
  {
    if matchStatus != RoundActive || roundStatus != Open then Err(RoundNotActive)
    else if !Cards.InCatalog(c) then Err(CardNotFound)
    else if c !in picked || c !in offered || c in played then Err(CardNotInHand)
    else if ValidateTarget(c, target, roster, acting).Err? then ValidateTarget(c, target, roster, acting)
    else if Cards.IsAoeCard(c) && aoeCount >= AOE_CAP_PER_ROUND then Err(AoeCapExhausted)
    else Ok(())
  }

  /** `getCardOfferForPlayer`: the three cards of the offer with that number, if it was this player's. */
  function OfferFor(log: seq<Entry>, playerId: string, offerSeqNo: int): Option<seq<CardId>> {
    if log == [] then None
    else
      var e := log[0];
      if e.event.CardOffer? && e.seqNo == offerSeqNo && e.event.playerId == playerId then
        if |e.event.offered| == 3 then Some(e.event.offered) else None
      else OfferFor(log[1..], playerId, offerSeqNo)
  }

  datatype Play = Play(
    playerId: string, cardId: CardId, offerSeqNo: int, target: Option<string>, effect: Effect,
    serverNow: int, metadata: Metadata)

  /** The card command: the acting player's status, the validator, the targets, then the machine. */
  function PlayCommand(m: Machine, cmd: Play, rolls: Mulberry.Rolls, clock: Clock): Outcome<Played> {
    var p := cmd.playerId;
    if p !in m.st.players.m || m.st.players.m[p].status != Active then Outcome(m, Err(PlayerNotInRoom))
    else if m.round.None? then Outcome(m, Err(RoundNotActive))
    else
      var offer := OfferFor(m.log, p, cmd.offerSeqNo);
      var valid := ValidateCardCommand(
        cmd.cardId, if offer.Some? then offer.value else [], cmd.target, m.st.players.m.Keys,
        GetOr(m.mirrors.aoe, m.round.value.roundNo, 0),
        GetOr(m.mirrors.played, p, {}), GetOr(m.mirrors.picked, p, {}), p, m.st.status, m.round.value.status);
      if valid.Err? then Outcome(m, Err(valid.error))
      else
        var targets := Draws.ExpandTargets(cmd.cardId, p, cmd.target, m.st.players.keys, m.st.players.m, rolls);
        if targets == [] then Outcome(m, Err(NoEligibleTarget))
        else PlayCard(m, p, cmd.cardId, cmd.offerSeqNo, cmd.effect, targets, cmd.serverNow, cmd.metadata, clock)
  }

  datatype Command =
    | Plain(op: Op, clock: Clock)
    | Card(play: Play, rolls: Mulberry.Rolls, clock: Clock)

  /** A card is played through the command only. */
  predicate Allowed(c: Command) {
    c.Plain? ==> !c.op.PlayOp?
  }

  function Do(m: Machine, c: Command, src: Source): Machine {
    match c
    case Plain(op, clock) => Step(m, op, src, clock)
    case Card(play, rolls, clock) => PlayCommand(m, play, rolls, clock).m
  }

  function DoAll(m: Machine, cs: seq<Command>, src: Source): Machine {
    if cs == [] then m else Do(DoAll(m, cs[..|cs| - 1], src), cs[|cs| - 1], src)
  }

  // ---- what the log shows about earlier events ----

  predicate IsResolution(e: Event, p: string, c: CardId) {
    e.CardResolved? && e.playedBy == p && e.cardId == c
  }

  function Resolutions(log: seq<Entry>, p: string, c: CardId): nat {
    if log == [] then 0
    else Resolutions(log[..|log| - 1], p, c) + (if IsResolution(log[|log| - 1].event, p, c) then 1 else 0)
  }

  predicate PickedBefore(log: seq<Entry>, p: string, c: CardId) {
    exists i :: 0 <= i < |log| && log[i].event.CardPicked? && log[i].event.playerId == p && log[i].event.cardId == c
  }

  predicate OfferedBefore(log: seq<Entry>, p: string, c: CardId, offerSeqNo: int) {
    exists i :: 0 <= i < |log| && log[i].event.CardOffer? && log[i].seqNo == offerSeqNo
                && log[i].event.playerId == p && c in log[i].event.offered
  }

  lemma {:induction false} PlayedMeansResolved(log: seq<Entry>, p: string, c: CardId)
    ensures c in GetOr(Replay(log).played, p, {}) <==> Resolutions(log, p, c) > 0
  {
    if log != [] {
      var n := |log| - 1;
      PlayedMeansResolved(log[..n], p, c);
      EventPlays(Replay(log[..n]), log[n], p, c);
    }
  }

  /** One entry of the replay marks a card played exactly when it resolves it. */
  lemma EventPlays(mi: Mirrors, e: Entry, p: string, c: CardId)
    ensures c in GetOr(ReplayEvent(mi, e).played, p, {}) <==> c in GetOr(mi.played, p, {}) || IsResolution(e.event, p, c)
  {
    hide AddClasses, Discard;
    if e.event.CardResolved? {
    } else if e.event.CardOffer? {
    } else if e.event.CardPicked? {
    }
  }

  lemma PickedGrows(log: seq<Entry>, p: string, c: CardId)
    requires log != [] && PickedBefore(log[..|log| - 1], p, c)
    ensures PickedBefore(log, p, c)
  {
    var before := log[..|log| - 1];
    var i :| 0 <= i < |before| && before[i].event.CardPicked? && before[i].event.playerId == p && before[i].event.cardId == c;
    assert log[i] == before[i];
  }

  lemma {:induction false} PickedMeansPicked(log: seq<Entry>, p: string, c: CardId)
    requires c in GetOr(Replay(log).picked, p, {})
    ensures PickedBefore(log, p, c)
  {
    var n := |log| - 1;
    if c in GetOr(Replay(log[..n]).picked, p, {}) {
      PickedMeansPicked(log[..n], p, c);
      PickedGrows(log, p, c);
    } else {
      var e := log[n].event;
      assert e.CardPicked? && e.playerId == p && e.cardId == c;
    }
  }

  lemma {:induction false} OfferMeansOffered(log: seq<Entry>, p: string, c: CardId, offerSeqNo: int)
    requires OfferFor(log, p, offerSeqNo).Some? && c in OfferFor(log, p, offerSeqNo).value
    ensures OfferedBefore(log, p, c, offerSeqNo)
  {
    var e := log[0];
    if !(e.event.CardOffer? && e.seqNo == offerSeqNo && e.event.playerId == p) {
      OfferMeansOffered(log[1..], p, c, offerSeqNo);
      var i :| 0 <= i < |log[1..]| && log[1..][i].event.CardOffer? && log[1..][i].seqNo == offerSeqNo
               && log[1..][i].event.playerId == p && c in log[1..][i].event.offered;
      assert log[i + 1] == log[1..][i];
    }
  }

  // ---- the limits ----

  /** What a resolution owes to the events before it. */
  predicate Owed(before: seq<Entry>, e: Event, matchId: string) {
    e.CardResolved? ==>
      && e.matchId == matchId
      && Resolutions(before, e.playedBy, e.cardId) == 0
      && OfferedBefore(before, e.playedBy, e.cardId, e.offerSeqNo)
      && PickedBefore(before, e.playedBy, e.cardId)
      && (|e.targets| > 1 ==> AoeResolved(before, matchId, e.roundNo) < AOE_CAP_PER_ROUND)
  }

  predicate Limited(log: seq<Entry>, matchId: string) {
    log == [] || (Limited(log[..|log| - 1], matchId) && Owed(log[..|log| - 1], log[|log| - 1].event, matchId))
  }

  lemma LimitedAppend(log: seq<Entry>, e: Entry, matchId: string)
    ensures Limited(log + [e], matchId) <==> Limited(log, matchId) && Owed(log, e.event, matchId)
  {
    assert (log + [e])[..|log|] == log;
  }

  lemma {:induction false} OneMatchLog(log: seq<Entry>, matchId: string)
    requires Limited(log, matchId)
    ensures forall i :: 0 <= i < |log| && log[i].event.CardResolved? ==> log[i].event.matchId == matchId
  {
    if log != [] {
      OneMatchLog(log[..|log| - 1], matchId);
    }
  }

  /** In a limited log each player resolves each card at most once, and a round sees at most two
      multi-target resolutions. */
  lemma {:induction false} LimitedMeaning(log: seq<Entry>, matchId: string, p: string, c: CardId, roundNo: int)
    requires Limited(log, matchId)
    ensures Resolutions(log, p, c) <= 1
    ensures AoeResolved(log, matchId, roundNo) <= AOE_CAP_PER_ROUND
  {
    if log != [] {
      LimitedMeaning(log[..|log| - 1], matchId, p, c, roundNo);
    }
  }

  lemma {:induction false} LimitedPrefix(log: seq<Entry>, matchId: string, i: nat)
    requires Limited(log, matchId) && i < |log|
    ensures Owed(log[..i], log[i].event, matchId)
  {
    var n := |log| - 1;
    if i < n {
      LimitedPrefix(log[..n], matchId, i);
      assert log[..n][..i] == log[..i];
    }
  }

  // ---- the commands keep them ----

  lemma {:induction false} QuietSuffix(log: seq<Entry>, after: seq<Entry>, matchId: string)
    requires Limited(log, matchId) && log <= after
    requires forall i :: |log| <= i < |after| ==> !after[i].event.CardResolved?
    ensures Limited(after, matchId)
    decreases |after|
  {
    if |log| < |after| {
      QuietSuffix(log, after[..|after| - 1], matchId);
    } else {
      assert log == after;
    }
  }

  /** No entry after the first |log| resolves a card. */
  predicate Quiet(m: Machine, after: Machine) {
    after.st.id == m.st.id && forall i :: |m.log| <= i < |after.log| ==> !after.log[i].event.CardResolved?
  }

  lemma QuietRoundStep(m: Machine, op: Op, src: Source, clock: Clock)
    requires op.TransitionOp? || op.StartRoundOp? || op.SubmitOp? || op.EvaluateOp? || op.FinishOp?
    ensures Quiet(m, Step(m, op, src, clock))
  {
    hide DetermineWinner, Promote, EvaluatePlayers, CheckAnswer, NewAnswer, Put;
  }

  lemma QuietOtherStep(m: Machine, op: Op, src: Source, clock: Clock)
    requires op.DisconnectOp? || op.ReconnectOp? || op.InitVotingOp? || op.VoteOp? || op.ResolveVotingOp?
             || op.ClassesOp? || op.OfferOp? || op.PickOp? || op.AttachOp?
    ensures Quiet(m, Step(m, op, src, clock))
  {
    hide TopicVoting.Resolve, CandidatesFor, CardsToOffer, CheckVote, Put;
  }

  lemma QuietStep(m: Machine, op: Op, src: Source, clock: Clock)
    requires !op.PlayOp? && !op.ReloadOp?
    ensures Quiet(m, Step(m, op, src, clock))
  {
    hide Step, Quiet;
    if op.TransitionOp? || op.StartRoundOp? || op.SubmitOp? || op.EvaluateOp? || op.FinishOp? {
      QuietRoundStep(m, op, src, clock);
    } else {
      QuietOtherStep(m, op, src, clock);
    }
  }

  lemma ValidPlayIsOwed(m: Machine, cmd: Play, rolls: Mulberry.Rolls, clock: Clock)
    requires MatchInvariants.Inv(m) && Limited(m.log, m.st.id) && PlayCommand(m, cmd, rolls, clock).result.Ok?
    ensures var targets := Draws.ExpandTargets(cmd.cardId, cmd.playerId, cmd.target, m.st.players.keys, m.st.players.m, rolls);
            Owed(m.log, ResolvedEvent(m, cmd.playerId, cmd.cardId, cmd.offerSeqNo, cmd.effect, targets, cmd.serverNow, cmd.metadata), m.st.id)
  {
    hide Draws.ExpandTargets;
    hide Replay;
    hide Resolutions;
    hide AoeResolved;
    hide PickedBefore;
    hide OfferedBefore;
    hide PlayCard;
    OneMatchLog(m.log, m.st.id);
    MachineCounterAgrees(m.log, m.st.id, m.round.value.roundNo);
    PlayedMeansResolved(m.log, cmd.playerId, cmd.cardId);
    PickedMeansPicked(m.log, cmd.playerId, cmd.cardId);
    OfferMeansOffered(m.log, cmd.playerId, cmd.cardId, cmd.offerSeqNo);
  }

  lemma PlayedLog(m: Machine, cmd: Play, targets: seq<string>, clock: Clock)
    requires Limited(m.log, m.st.id) && RoundIsOpen(m)
    requires Owed(m.log, ResolvedEvent(m, cmd.playerId, cmd.cardId, cmd.offerSeqNo, cmd.effect, targets, cmd.serverNow, cmd.metadata), m.st.id)
    ensures var after := PlayCard(m, cmd.playerId, cmd.cardId, cmd.offerSeqNo, cmd.effect, targets, cmd.serverNow, cmd.metadata, clock).m;
            after.st.id == m.st.id && Limited(after.log, m.st.id)
  {
    hide Limited;
    hide Owed;
    hide ResolvedEvent;
    var e := ResolvedEvent(m, cmd.playerId, cmd.cardId, cmd.offerSeqNo, cmd.effect, targets, cmd.serverNow, cmd.metadata);
    var entry := Entry(e, clock(0), m.counter + 1);
    LimitedAppend(m.log, entry, m.st.id);
    var grant := SecondChanceGranted(cmd.playerId, m.round.value.roundNo);
    assert Owed(m.log + [entry], grant, m.st.id) by { GrantOwesNothing(m.log + [entry], grant, m.st.id); }
    LimitedAppend(m.log + [entry], Entry(grant, clock(1), m.counter + 2), m.st.id);
  }

  lemma GrantOwesNothing(log: seq<Entry>, e: Event, matchId: string)
    requires !e.CardResolved?
    ensures Owed(log, e, matchId)
  {
  }

  lemma PlayedInv(m: Machine, cmd: Play, targets: seq<string>, clock: Clock)
    requires MatchInvariants.Inv(m)
    ensures MatchInvariants.Inv(PlayCard(m, cmd.playerId, cmd.cardId, cmd.offerSeqNo, cmd.effect, targets, cmd.serverNow, cmd.metadata, clock).m)
  {
    hide PlayCard;
    hide MatchInvariants.Inv;
    var op := PlayOp(cmd.playerId, cmd.cardId, cmd.offerSeqNo, cmd.effect, targets, cmd.serverNow, cmd.metadata);
    MatchInvariants.PlayKeepsInv(m, op, clock);
  }

  lemma PlayKeepsLimits(m: Machine, cmd: Play, rolls: Mulberry.Rolls, clock: Clock)
    requires MatchInvariants.Inv(m) && Limited(m.log, m.st.id)
    ensures var after := PlayCommand(m, cmd, rolls, clock).m;
            MatchInvariants.Inv(after) && after.st.id == m.st.id && Limited(after.log, after.st.id)
  {
    hide Limited;
    hide Owed;
    hide Draws.ExpandTargets;
    hide ValidateCardCommand;
    var o := PlayCommand(m, cmd, rolls, clock);
    if o.result.Ok? {
      var p, c, seqNo := cmd.playerId, cmd.cardId, cmd.offerSeqNo;
      var targets := Draws.ExpandTargets(c, p, cmd.target, m.st.players.keys, m.st.players.m, rolls);
      ValidPlayIsOwed(m, cmd, rolls, clock);
      PlayedLog(m, cmd, targets, clock);
      PlayedInv(m, cmd, targets, clock);
    }
  }

  lemma DoKeepsLimits(m: Machine, c: Command, src: Source)
    requires MatchInvariants.Inv(m) && Limited(m.log, m.st.id) && Allowed(c)
    ensures var after := Do(m, c, src);
            MatchInvariants.Inv(after) && after.st.id == m.st.id && Limited(after.log, after.st.id)
  {
    hide Limited;
    hide Step;
    match c
    case Card(play, rolls, clock) =>
      hide PlayCommand;
      PlayKeepsLimits(m, play, rolls, clock);
    case Plain(op, clock) =>
      MatchInvariants.StepKeepsInv(m, op, src, clock);
      if op.ReloadOp? {
        ReloadKeepsLog(m, src, clock);
      } else {
        QuietStep(m, op, src, clock);
        QuietSuffix(m.log, Step(m, op, src, clock).log, m.st.id);
      }
  }

  lemma ReloadKeepsLog(m: Machine, src: Source, clock: Clock)
    requires MatchInvariants.Inv(m)
    ensures var after := Step(m, ReloadOp, src, clock); after.log == m.log && after.st.id == m.st.id
  {
    hide Reload, MatchInvariants.Inv, MatchInvariants.Backwards, Codec.Deserialize, Codec.EraseAnswer;
    assert Step(m, ReloadOp, src, clock) == Reload(m);
    hide Step;
    MatchInvariants.FailoverLosesOnlyTheKey(m);
  }

  lemma {:induction false} RunKeepsLimits(matchId: string, roomId: string, players: seq<PlayerInfo>, cs: seq<Command>, src: Source)
    requires Basics.Distinct(Ids(players)) && forall i :: 0 <= i < |cs| ==> Allowed(cs[i])
    ensures var m := DoAll(Create(matchId, roomId, players), cs, src);
            MatchInvariants.Inv(m) && m.st.id == matchId && Limited(m.log, matchId)
  {
    hide Do;
    if cs == [] {
      MatchInvariants.CreateInv(matchId, roomId, players);
    } else {
      var n := |cs| - 1;
      RunKeepsLimits(matchId, roomId, players, cs[..n], src);
      DoKeepsLimits(DoAll(Create(matchId, roomId, players), cs[..n], src), cs[n], src);
    }
  }

  /** Over every run of validated plays and other calls, failovers included: a player resolves a card at
      most once, a round sees at most two multi-target resolutions, the machine's counter agrees with a
      count over the log, and every resolution follows the offer it names and a pick of the card. */
  lemma CardLimitsHold(matchId: string, roomId: string, players: seq<PlayerInfo>, cs: seq<Command>, src: Source,
                       p: string, c: CardId, roundNo: int, i: nat)
    requires Basics.Distinct(Ids(players)) && forall k :: 0 <= k < |cs| ==> Allowed(cs[k])
    ensures var m := DoAll(Create(matchId, roomId, players), cs, src);
            && Resolutions(m.log, p, c) <= 1
            && AoeResolved(m.log, matchId, roundNo) <= AOE_CAP_PER_ROUND
            && GetOr(m.mirrors.aoe, roundNo, 0) == AoeResolved(m.log, matchId, roundNo)
            && (i < |m.log| && m.log[i].event.CardResolved? ==>
                  var e := m.log[i].event;
                  && OfferedBefore(m.log[..i], e.playedBy, e.cardId, e.offerSeqNo)
                  && PickedBefore(m.log[..i], e.playedBy, e.cardId))
  {
    hide DoAll;
    hide Replay;
    RunKeepsLimits(matchId, roomId, players, cs, src);
    var log := DoAll(Create(matchId, roomId, players), cs, src).log;
    LimitedMeaning(log, matchId, p, c, roundNo);
    OneMatchLog(log, matchId);
    MachineCounterAgrees(log, matchId, roundNo);
    if i < |log| {
      LimitedPrefix(log, matchId, i);
    }
  }
}
