/** A card from the offer to its effect: what is offered, picked and played, and what the play leaves
    (pickOffer, pickCard and playCard of packages/game-core/src/match-state-machine.ts). */
module CardLives {
  import opened MatchTypes
  import opened Wrappers
  import opened Rehydrate
  import opened MatchSpec
  import Basics
  import CardEngine
  import CardLimits
  import Cards
  import ClassEngine
  import Draws
  import MatchInvariants
  import Mulberry

  // ---- classes ----

  lemma {:induction false} AddClassesMeaning(classes: map<string, ClassId>, a: seq<Assignment>, i: nat, p: string)
    requires forall j, k :: 0 <= j < k < |a| ==> a[j].playerId != a[k].playerId
    ensures var after := AddClasses(classes, a);
            && (i < |a| ==> a[i].playerId in after && after[a[i].playerId] == a[i].classId)
            && ((forall j :: 0 <= j < |a| ==> a[j].playerId != p) ==>
                  (p in after <==> p in classes) && (p in classes ==> after[p] == classes[p]))
  {
    if a != [] {
      var n := |a| - 1;
      AddClassesMeaning(classes, a[..n], if i < n then i else 0, p);
    }
  }

  /** Every player listed once holds the class drawn for it, and nobody else's changes. */
  lemma AssignedClassIsHeld(m: Machine, ids: seq<string>, seedUsed: string, src: Source, clock: Clock, i: nat, p: string)
    requires Basics.Distinct(ids) && i < |ids|
    ensures var after := ClassAssignment(m, ids, seedUsed, src, clock);
            var a := ClassEngine.Assign(ids, src.rolls(seedUsed, "class"));
            && |a| == |ids| && a[i].playerId in ids
            && a[i].playerId in after.mirrors.classes && after.mirrors.classes[a[i].playerId] == a[i].classId
            && (p !in ids ==> (p in after.mirrors.classes <==> p in m.mirrors.classes)
                              && (p in m.mirrors.classes ==> after.mirrors.classes[p] == m.mirrors.classes[p]))
  {
    var a := ClassEngine.Assign(ids, src.rolls(seedUsed, "class"));
    AssignedIds(ids, src.rolls(seedUsed, "class"));
    hide ClassEngine.Assign, AddClasses;
    AddClassesMeaning(m.mirrors.classes, a, i, p);
  }

  lemma AssignedIds(ids: seq<string>, rolls: Mulberry.Rolls)
    requires Basics.Distinct(ids)
    ensures var a := ClassEngine.Assign(ids, rolls);
            && |a| == |ids|
            && (forall i :: 0 <= i < |a| ==> a[i].playerId in ids)
            && (forall i, j :: 0 <= i < j < |a| ==> a[i].playerId != a[j].playerId)
  {
    ClassEngine.EveryPlayerAssigned(ids, rolls);
    var ranked := ClassEngine.Ids(ClassEngine.Ranked(ids, rolls));
    CardEngine.SubsetOfDistinct(ranked, ids);
    hide ClassEngine.Ranked, ClassEngine.Ids, ClassEngine.Assign;
    forall i | 0 <= i < |ids| ensures ranked[i] in ids {
      assert ranked[i] in multiset(ranked);
    }
  }

  // ---- the offer ----

  /** Cards of the class the player has neither picked nor played. */
  function Open(m: Machine, p: string, c: ClassId): set<CardId> {
    set x | x in Cards.ClassPool(c) && x !in GetOr(m.mirrors.picked, p, {}) && x !in GetOr(m.mirrors.played, p, {})
  }

  function Kept(pool: seq<CardId>, excluded: set<CardId>): set<CardId> {
    set x | x in pool && x !in excluded
  }

  lemma KeptCons(pool: seq<CardId>, excluded: set<CardId>)
    requires pool != [] && pool[0] !in pool[1..]
    ensures |Kept(pool, excluded)| == |Kept(pool[1..], excluded)| + (if pool[0] in excluded then 0 else 1)
  {
    var rest := Kept(pool[1..], excluded);
    assert pool == [pool[0]] + pool[1..];
    if pool[0] in excluded {
      assert Kept(pool, excluded) == rest;
    } else {
      assert Kept(pool, excluded) == rest + {pool[0]};
    }
  }

  lemma {:induction false} NotExcludedMeaning(pool: seq<CardId>, excluded: set<CardId>)
    requires Basics.Distinct(pool)
    ensures Basics.Distinct(NotExcluded(pool, excluded)) && |NotExcluded(pool, excluded)| == |Kept(pool, excluded)|
  {
    if pool != [] {
      NotExcludedMeaning(pool[1..], excluded);
      assert pool[0] !in pool[1..];
      KeptCons(pool, excluded);
      hide Kept;
    }
  }

  lemma CardsToOfferMeaning(m: Machine, p: string, c: ClassId, seedUsed: string, src: Source)
    ensures var cards := CardsToOffer(m, p, c, seedUsed, src);
            && |cards| == Basics.Min(3, |Open(m, p, c)|) && Basics.Distinct(cards)
            && forall x :: x in cards ==> x in Open(m, p, c)
  {
    hide CardEngine.SampleOffer, Cards.ClassPool, NotExcluded, GetOr, Label;
    var excluded := GetOr(m.mirrors.picked, p, {}) + GetOr(m.mirrors.played, p, {});
    var pool := Cards.ClassPool(c);
    assert Open(m, p, c) == Kept(pool, excluded);
    SampledFromOpen(src.seed(seedUsed, Label(c)), pool, excluded);
  }

  lemma SampledFromOpen(seed: Mulberry.Word, pool: seq<CardId>, excluded: set<CardId>)
    requires Basics.Distinct(pool)
    ensures var cards, open := CardEngine.SampleOffer(seed, NotExcluded(pool, excluded)).cards, Kept(pool, excluded);
            && |cards| == Basics.Min(3, |open|) && Basics.Distinct(cards)
            && forall x :: x in cards ==> x in open
  {
    hide CardEngine.SampleOffer, NotExcluded;
    NotExcludedMeaning(pool, excluded);
    CardEngine.OfferDrawsWithoutReplacement(seed, NotExcluded(pool, excluded));
    var cards := CardEngine.SampleOffer(seed, NotExcluded(pool, excluded)).cards;
    forall x | x in cards ensures x in NotExcluded(pool, excluded) {
      assert x in multiset(cards);
    }
  }

  /** An offer is dealt exactly if the player has a class and three cards of it are neither picked nor
      played: three different such cards, which become the hand and are logged under the next number.
      Otherwise nothing changes. */
  lemma OfferMeaning(m: Machine, p: string, roundNo: int, seedUsed: string, src: Source, clock: Clock)
    ensures var o := PickOffer(m, p, roundNo, seedUsed, src, clock);
            && (o.result.Ok? <==> p in m.mirrors.classes && |Open(m, p, m.mirrors.classes[p])| >= 3)
            && (o.result.Err? ==> o.m == m)
            && (o.result.Ok? ==>
                  var cards := o.result.value;
                  && |cards| == 3 && Basics.Distinct(cards)
                  && (forall c :: c in cards ==>
                        Cards.InCatalog(c) && Cards.ClassOf(c) == m.mirrors.classes[p] && c in Open(m, p, m.mirrors.classes[p]))
                  && Hand(o.m, p) == cards
                  && (forall q :: q != p ==> Hand(o.m, q) == Hand(m, q))
                  && o.m.log == m.log + [Entry(CardOffer(roundNo, p, cards, seedUsed), clock(0), m.counter + 1)]
                  && o.m.mirrors.played == m.mirrors.played)
  {
    hide CardsToOffer, Cards.ClassPool, Cards.InCatalog, Cards.ClassOf, Open;
    if p in m.mirrors.classes {
      CardsToOfferMeaning(m, p, m.mirrors.classes[p], seedUsed, src);
      OpenAreOfClass(m, p, m.mirrors.classes[p]);
    }
  }

  lemma OpenAreOfClass(m: Machine, p: string, c: ClassId)
    ensures forall x :: x in Open(m, p, c) ==> Cards.InCatalog(x) && Cards.ClassOf(x) == c
  {
    hide Cards.ClassPool;
  }

  /** The offer is dealt and holds the card. */
  predicate Deals(m: Machine, p: string, roundNo: int, seedUsed: string, src: Source, clock: Clock, c: CardId) {
    var r := PickOffer(m, p, roundNo, seedUsed, src, clock).result;
    r.Ok? && c in r.value
  }

  /** What is offered has not been played before, by the log. */
  lemma OfferedIsUnplayed(m: Machine, p: string, roundNo: int, seedUsed: string, src: Source, clock: Clock, c: CardId)
    requires MatchInvariants.Mirrored(m)
    ensures Deals(m, p, roundNo, seedUsed, src, clock, c) ==> CardLimits.Resolutions(m.log, p, c) == 0
  {
    OfferMeaning(m, p, roundNo, seedUsed, src, clock);
    hide PickOffer, Replay, Cards.ClassPool;
    CardLimits.PlayedMeansResolved(m.log, p, c);
    assert Replay(m.log).played == m.mirrors.played;
  }

  // ---- the pick ----

  /** A card can be picked exactly from the hand; it leaves the hand, where the others stay, and joins the
      player's picked cards. */
  lemma PickMeaning(m: Machine, p: string, c: CardId, o: int, md: Metadata, clock: Clock)
    ensures var after := PickCard(m, p, c, o, md, clock);
            && (after.result.Ok? <==> c in Hand(m, p))
            && (after.result.Err? ==> after.m == m)
            && (after.result.Ok? ==>
                  && (forall x :: x in Hand(after.m, p) <==> x in Hand(m, p) && x != c)
                  && GetOr(after.m.mirrors.picked, p, {}) == GetOr(m.mirrors.picked, p, {}) + {c}
                  && (forall q :: q != p ==> Hand(after.m, q) == Hand(m, q)
                                             && GetOr(after.m.mirrors.picked, q, {}) == GetOr(m.mirrors.picked, q, {}))
                  && after.m.mirrors.played == m.mirrors.played && after.m.mirrors.aoe == m.mirrors.aoe
                  && after.m.st == m.st && after.m.round == m.round
                  && |after.m.log| == |m.log| + 1 && after.m.log[..|m.log|] == m.log
                  && after.m.log[|m.log|].event.CardPicked? && after.m.log[|m.log|].event.cardId == c
                  && after.m.log[|m.log|].event.playerId == p && after.m.log[|m.log|].event.offerSeqNo == o)
  {
    hide Remove;
  }

  lemma {:induction false} OfferIsFoundFrom(log: seq<Entry>, k: int, p: string, n: int)
    requires forall i :: 0 <= i < |log| ==> log[i].seqNo == k + i + 1
    ensures CardLimits.OfferFor(log, p, n) ==
              if k < n <= k + |log| && log[n - k - 1].event.CardOffer? && log[n - k - 1].event.playerId == p
                 && |log[n - k - 1].event.offered| == 3
              then Some(log[n - k - 1].event.offered) else None
  {
    if log != [] {
      assert forall i :: 0 <= i < |log[1..]| ==> log[1..][i] == log[i + 1];
      OfferIsFoundFrom(log[1..], k + 1, p, n);
      if n == k + 1 { assert CardLimits.OfferFor(log[1..], p, n) == None; }
    }
  }

  /** In a dense log the offer with a number is found exactly where it was logged. */
  lemma OfferIsFound(log: seq<Entry>, p: string, n: int)
    requires MatchInvariants.Dense(log)
    ensures CardLimits.OfferFor(log, p, n) ==
              if 1 <= n <= |log| && log[n - 1].event.CardOffer? && log[n - 1].event.playerId == p
                 && |log[n - 1].event.offered| == 3
              then Some(log[n - 1].event.offered) else None
  {
    OfferIsFoundFrom(log, 0, p, n);
  }

  // ---- the play ----

  /** A card offered to an active player in an open round and picked from the hand can be played: the
      command is accepted exactly if the target is legal, the area budget of the round is not used up and
      somebody can be reached. */
  lemma PickedCardCanBePlayed(m: Machine, p: string, roundNo: int, seedUsed: string, src: Source, c: CardId, md: Metadata,
                              target: Option<string>, effect: Effect, now: int, rolls: Mulberry.Rolls,
                              c1: Clock, c2: Clock, c3: Clock)
    requires MatchInvariants.LogInv(m) && RoundIsOpen(m)
    requires p in m.st.players.m && m.st.players.m[p].status == Active
    ensures var offered := PickOffer(m, p, roundNo, seedUsed, src, c1).m;
            var picked := PickCard(offered, p, c, m.counter + 1, md, c2);
            var cmd := CardLimits.Play(p, c, m.counter + 1, target, effect, now, md);
            Deals(m, p, roundNo, seedUsed, src, c1, c) ==>
              && picked.result.Ok? && Cards.InCatalog(c)
              && (CardLimits.PlayCommand(picked.m, cmd, rolls, c3).result.Ok? <==>
                    && CardLimits.ValidateTarget(c, target, m.st.players.m.Keys, p).Ok?
                    && (Cards.IsAoeCard(c) ==> GetOr(m.mirrors.aoe, m.round.value.roundNo, 0) < AOE_CAP_PER_ROUND)
                    && Draws.ExpandTargets(c, p, target, m.st.players.keys, m.st.players.m, rolls) != [])
  {
    PickedIsReady(m, p, roundNo, seedUsed, src, c, md, c1, c2);
    var picked := PickCard(PickOffer(m, p, roundNo, seedUsed, src, c1).m, p, c, m.counter + 1, md, c2).m;
    hide PickOffer, PickCard, Draws.ExpandTargets, CardLimits.OfferFor, Cards.ClassPool, PlayCard, MatchInvariants.LogInv;
    hide CardLimits.PlayCommand, CardLimits.ValidateTarget, Cards.TargetCount, Cards.InCatalog, Deals;
    if Deals(m, p, roundNo, seedUsed, src, c1, c) {
      PlayOkIff(picked, CardLimits.Play(p, c, m.counter + 1, target, effect, now, md), rolls, c3);
    }
  }

  lemma PickedIsReady(m: Machine, p: string, roundNo: int, seedUsed: string, src: Source, c: CardId, md: Metadata, c1: Clock, c2: Clock)
    requires MatchInvariants.LogInv(m)
    ensures var offered := PickOffer(m, p, roundNo, seedUsed, src, c1).m;
            var picked := PickCard(offered, p, c, m.counter + 1, md, c2);
            var offer := CardLimits.OfferFor(picked.m.log, p, m.counter + 1);
            Deals(m, p, roundNo, seedUsed, src, c1, c) ==>
              && picked.result.Ok? && Cards.InCatalog(c)
              && picked.m.st == m.st && picked.m.round == m.round && picked.m.mirrors.aoe == m.mirrors.aoe
              && c in GetOr(picked.m.mirrors.picked, p, {}) && c !in GetOr(picked.m.mirrors.played, p, {})
              && offer.Some? && c in offer.value
  {
    OfferMeaning(m, p, roundNo, seedUsed, src, c1);
    SameMatch(m, p, roundNo, seedUsed, src, c1);
    var offered := PickOffer(m, p, roundNo, seedUsed, src, c1).m;
    hide PickOffer, PickCard, CardLimits.OfferFor, Cards.ClassPool, Cards.InCatalog, Cards.ClassOf;
    if Deals(m, p, roundNo, seedUsed, src, c1, c) {
      PickMeaning(offered, p, c, m.counter + 1, md, c2);
      OfferStays(m, offered, PickCard(offered, p, c, m.counter + 1, md, c2).m, p);
    }
  }

  lemma SameMatch(m: Machine, p: string, roundNo: int, seedUsed: string, src: Source, clock: Clock)
    ensures var o := PickOffer(m, p, roundNo, seedUsed, src, clock).m;
            o.st == m.st && o.round == m.round && o.mirrors.aoe == m.mirrors.aoe && o.counter - |o.log| == m.counter - |m.log|
  {
    hide CardsToOffer;
  }

  lemma OfferStays(m: Machine, offered: Machine, picked: Machine, p: string)
    requires MatchInvariants.LogInv(m) && |offered.log| == |m.log| + 1 && |picked.log| == |m.log| + 2
    requires offered.log[..|m.log|] == m.log && picked.log[..|offered.log|] == offered.log
    requires offered.log[|m.log|].event.CardOffer? && offered.log[|m.log|].event.playerId == p
    requires offered.log[|m.log|].seqNo == m.counter + 1 && |offered.log[|m.log|].event.offered| == 3
    ensures CardLimits.OfferFor(picked.log, p, m.counter + 1) == Some(offered.log[|m.log|].event.offered)
  {
    assert picked.log[..|offered.log|][..|m.log|] == m.log;
    OfferIsFound(offered.log, p, m.counter + 1);
    hide MatchInvariants.LogInv;
    assert picked.log == offered.log + [picked.log[|offered.log|]];
    LaterEntriesDoNotMatter(offered.log, picked.log[|offered.log|], p, m.counter + 1);
  }

  lemma {:induction false} LaterEntriesDoNotMatter(log: seq<Entry>, e: Entry, p: string, n: int)
    requires CardLimits.OfferFor(log, p, n).Some?
    ensures CardLimits.OfferFor(log + [e], p, n) == CardLimits.OfferFor(log, p, n)
  {
    assert (log + [e])[0] == log[0] && (log + [e])[1..] == log[1..] + [e];
    var f := log[0];
    if !(f.event.CardOffer? && f.seqNo == n && f.event.playerId == p) {
      LaterEntriesDoNotMatter(log[1..], e, p, n);
    }
  }

  lemma PlayOkIff(m: Machine, cmd: CardLimits.Play, rolls: Mulberry.Rolls, clock: Clock)
    requires RoundIsOpen(m) && cmd.playerId in m.st.players.m && m.st.players.m[cmd.playerId].status == Active
    requires Cards.InCatalog(cmd.cardId)
    requires cmd.cardId in GetOr(m.mirrors.picked, cmd.playerId, {}) && cmd.cardId !in GetOr(m.mirrors.played, cmd.playerId, {})
    requires var offer := CardLimits.OfferFor(m.log, cmd.playerId, cmd.offerSeqNo); offer.Some? && cmd.cardId in offer.value
    ensures CardLimits.PlayCommand(m, cmd, rolls, clock).result.Ok? <==>
              && CardLimits.ValidateTarget(cmd.cardId, cmd.target, m.st.players.m.Keys, cmd.playerId).Ok?
              && (Cards.IsAoeCard(cmd.cardId) ==> GetOr(m.mirrors.aoe, m.round.value.roundNo, 0) < AOE_CAP_PER_ROUND)
              && Draws.ExpandTargets(cmd.cardId, cmd.playerId, cmd.target, m.st.players.keys, m.st.players.m, rolls) != []
  {
    hide Draws.ExpandTargets, CardLimits.OfferFor, Resolved, GrantSecondChance, Cards.TargetCount, CardLimits.ValidateTarget;
  }

  /** A played card is logged under the next number with what was played; it leaves the picked cards for the
      played ones; and a temporary effect runs for its duration from the time of the play. */
  lemma PlayMeaning(m: Machine, p: string, c: CardId, o: int, e: Effect, ts: seq<string>, now: int, md: Metadata, clock: Clock)
    requires RoundIsOpen(m)
    ensures var after := PlayCard(m, p, c, o, e, ts, now, md, clock);
            var n, x := |m.log|, after.m;
            && after.result.Ok? && n < |x.log| && x.log[..n] == m.log && x.log[n].seqNo == m.counter + 1
            && x.log[n].event.CardResolved?
            && var event := x.log[n].event;
               (&& event.payloadSeqNo == m.counter + 1 && event.matchId == m.st.id && event.roundNo == m.round.value.roundNo
                && event.cardId == c && event.offerSeqNo == o && event.playedBy == p && event.targets == ts && event.effect == e
                && event.serverTimestamp == now
                && (e.Temporary() ==> event.expiresAtServer == Some(now + e.durationMs) && event.remainingMs == Some(e.durationMs))
                && (!e.Temporary() ==> event.expiresAtServer == None == event.remainingMs)
                && event.targetRoundNo == (if e.Shield? then e.expiresAtRound else m.round.value.roundNo))
    ensures var x := PlayCard(m, p, c, o, e, ts, now, md, clock).m;
            && GetOr(x.mirrors.played, p, {}) == GetOr(m.mirrors.played, p, {}) + {c}
            && GetOr(x.mirrors.picked, p, {}) == GetOr(m.mirrors.picked, p, {}) - {c}
            && GetOr(x.mirrors.effects, p, []) == GetOr(m.mirrors.effects, p, [])
                 + (if e.Temporary() then [ActiveEffect(m.counter + 1, e, now + e.durationMs, e.durationMs)] else [])
            && GetOr(x.mirrors.aoe, m.round.value.roundNo, 0)
                 == GetOr(m.mirrors.aoe, m.round.value.roundNo, 0) + (if |ts| > 1 then 1 else 0)
            && (p in x.mirrors.secondChance <==> p in m.mirrors.secondChance || e.SecondChance?)
  {
  }

  // ---- effects ----

  /** The temporary effects a player's cards left, by the log. */
  function LoggedEffects(log: seq<Entry>, p: string): seq<ActiveEffect> {
    if log == [] then []
    else
      var n := |log| - 1;
      var e := log[n].event;
      LoggedEffects(log[..n], p)
      + (if e.CardResolved? && e.playedBy == p && e.temporary then
           [ActiveEffect(log[n].seqNo, e.effect, if e.expiresAtServer.Some? then e.expiresAtServer.value else 0, e.effect.DurationMs())]
         else [])
  }

  /** The effects kept beside the log are the ones it shows, in its order. */
  lemma {:induction false} EffectsAreLogged(log: seq<Entry>, p: string)
    ensures GetOr(Replay(log).effects, p, []) == LoggedEffects(log, p)
  {
    if log != [] {
      var n := |log| - 1;
      EffectsAreLogged(log[..n], p);
      EventEffects(Replay(log[..n]), log[n], p);
    }
  }

  lemma EventEffects(mi: Mirrors, entry: Entry, p: string)
    ensures var e := entry.event;
            GetOr(ReplayEvent(mi, entry).effects, p, []) == GetOr(mi.effects, p, [])
              + (if e.CardResolved? && e.playedBy == p && e.temporary then
                   [ActiveEffect(entry.seqNo, e.effect, if e.expiresAtServer.Some? then e.expiresAtServer.value else 0, e.effect.DurationMs())]
                 else [])
  {
    hide AddClasses, Discard;
    if entry.event.CardResolved? {
    } else if entry.event.CardOffer? {
    } else if entry.event.CardPicked? {
    }
  }
}
