/** Leaving and coming back (handlePlayerDisconnect and handlePlayerReconnect of
    packages/game-core/src/match-state-machine.ts). */
module Presence {
  import opened MatchTypes
  import opened OrderedMap
  import opened MatchSpec

  predicate OnlyPlayer(m: Machine, after: Machine, p: string) {
    && after.st.players.keys == m.st.players.keys
    && after == m.(st := m.st.(players := after.st.players), log := after.log, counter := after.counter)
    && forall q :: q in m.st.players.m && q != p ==> q in after.st.players.m && after.st.players.m[q] == m.st.players.m[q]
  }

  /** Leaving takes an active player out of play until it comes back and any player offline; it is logged
      exactly for an active one, so leaving twice is leaving once. */
  lemma LeavingMeans(m: Machine, p: string, clock: Clock, later: Clock)
    requires p in m.st.players.m
    ensures var before, off := m.st.players.m[p], DisconnectPlayer(m, p, clock);
            && OnlyPlayer(m, off, p)
            && off.st.players.m[p]
                 == before.(isOnline := false, status := if before.status == Active then Disconnected else before.status)
            && off.log == m.log + (if before.status == Active then [Entry(PlayerDisconnected(p), clock(0), m.counter + 1)] else [])
            && DisconnectPlayer(off, p, later) == off
  {
    var off := DisconnectPlayer(m, p, clock);
    var x := off.st.players.m[p];
    PutTwice(m.st.players, p, x, x);
    assert DisconnectPlayer(off, p, later).st.players == Put(off.st.players, p, x);
  }

  /** Whoever comes back is as before leaving, online: active again if the connection was all that was lost,
      and still out if out. */
  lemma ComingBackRestores(m: Machine, p: string, clock: Clock, later: Clock)
    requires p in m.st.players.m
    ensures var before, back := m.st.players.m[p], ReconnectPlayer(DisconnectPlayer(m, p, clock), p, later);
            && OnlyPlayer(m, back, p)
            && back.st.players.m[p]
                 == before.(isOnline := true, status := if before.status == Disconnected then Active else before.status)
            && |back.log| > |m.log| && back.log[|back.log| - 1].event == PlayerReconnected(p)
            && ReconnectPlayer(back, p, later) == back
  {
    hide Put;
  }

  /** A player nobody knows changes nothing. */
  lemma StrangersAreIgnored(m: Machine, p: string, clock: Clock)
    requires p !in m.st.players.m
    ensures DisconnectPlayer(m, p, clock) == m && ReconnectPlayer(m, p, clock) == m
  {
  }
}
