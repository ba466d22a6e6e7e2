/** Rebuilding the mirrors from the event log after a failover
    (packages/game-core/src/match-state-machine.ts, the rehydrate methods). */
module Rehydrate {
  import opened MatchTypes

  function GetOr<K, V>(m: map<K, V>, k: K, default: V): V {
    if k in m then m[k] else default
  }

  function AddClasses(classes: map<string, ClassId>, assignments: seq<Assignment>): map<string, ClassId> {
    if assignments == [] then classes
    else
      var n := |assignments| - 1;
      AddClasses(classes, assignments[..n])[assignments[n].playerId := assignments[n].classId]
  }

  function Remove(hand: seq<CardId>, c: CardId): (r: seq<CardId>)
    ensures forall x :: x in r <==> x in hand && x != c
  {
    if hand == [] then []
    else (if hand[0] == c then [] else [hand[0]]) + Remove(hand[1..], c)
  }

  /** `map.get(k)?.delete(c)` */
  function Discard(m: map<string, set<CardId>>, k: string, c: CardId): map<string, set<CardId>> {
    if k in m then m[k := m[k] - {c}] else m
  }

  function Offered(mi: Mirrors, playerId: string, cards: seq<CardId>): (r: Mirrors)
    ensures r.secondChance == mi.secondChance && r.played == mi.played
  {
    mi.(hands := mi.hands[playerId := cards], picked := mi.picked - {playerId})
  }

  function Picked(mi: Mirrors, playerId: string, c: CardId): (r: Mirrors)
    ensures r.secondChance == mi.secondChance && r.played == mi.played
  {
    mi.(hands := mi.hands[playerId := Remove(GetOr(mi.hands, playerId, []), c)],
        picked := mi.picked[playerId := GetOr(mi.picked, playerId, {}) + {c}])
  }

  function Resolved(mi: Mirrors, seqNo: int, playedBy: string, c: CardId, targets: seq<string>, roundNo: int,
                    temporary: bool, effect: Effect, expiresAtServer: int): (r: Mirrors)
    ensures r.secondChance == mi.secondChance
  {
    mi.(played := mi.played[playedBy := GetOr(mi.played, playedBy, {}) + {c}],
        picked := Discard(mi.picked, playedBy, c),
        effects := if !temporary then mi.effects else
          mi.effects[playedBy := GetOr(mi.effects, playedBy, [])
                                   + [ActiveEffect(seqNo, effect, expiresAtServer, effect.DurationMs())]],
        aoe := if |targets| <= 1 then mi.aoe else mi.aoe[roundNo := GetOr(mi.aoe, roundNo, 0) + 1])
  }

  /** `rehydrateEvent` */
  function ReplayEvent(mi: Mirrors, entry: Entry): Mirrors {
    match entry.event
    case RoundStarted(_, _, _) => mi.(secondChance := {})
    case SecondChanceGranted(p, _) => if p == "" then mi else mi.(secondChance := mi.secondChance + {p})
    case SecondChanceConsumed(p, _) => if p == "" then mi else mi.(secondChance := mi.secondChance - {p})
    case ClassAssigned(assignments, _) => mi.(classes := AddClasses(mi.classes, assignments))
    case CardOffer(_, p, cards, _) => if |cards| == 3 then Offered(mi, p, cards) else mi
    case CardPicked(_, p, c, _, _) => Picked(mi, p, c)
    case CardResolved(_, _, roundNo, _, c, _, p, targets, effect, temporary, _, expires, _, _) =>
      Resolved(mi, entry.seqNo, p, c, targets, roundNo, temporary, effect,
               if expires.Some? then expires.value else 0)
    case _ => mi
  }

  /** `rehydrateCardStateFromEventLog` */
  function Replay(log: seq<Entry>): Mirrors {
    if log == [] then NoMirrors
    else ReplayEvent(Replay(log[..|log| - 1]), log[|log| - 1])
  }

  lemma ReplayAppend(log: seq<Entry>, e: Entry)
    ensures Replay(log + [e]) == ReplayEvent(Replay(log), e)
  {
    assert (log + [e])[..|log|] == log;
  }
}
