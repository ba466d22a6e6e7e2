/** The winner among tied players (packages/game-core/src/tie-break.ts). */
module TieBreak {
  import opened Wrappers
  import opened MatchTypes
  import Mulberry
  import Rounds
  import Sorting
  import Text

  function Offsets(ids: seq<string>, rolls: Mulberry.Rolls): map<string, Mulberry.Word> {
    if ids == [] then map[]
    else
      var n := |ids| - 1;
      Offsets(ids[..n], rolls)[ids[n] := rolls(n)]
  }

  /** The comparator: a sorts no later than b. */
  predicate AtMost(a: string, b: string, players: map<string, PlayerInfo>, offsets: map<string, Mulberry.Word>) {
    var ta, tb := Time(players, a), Time(players, b);
    var ca, cb := Correct(players, a), Correct(players, b);
    var oa, ob := Offset(offsets, a), Offset(offsets, b);
    if ta != tb then ta < tb
    else if ca != cb then cb < ca
    else if oa != ob then oa < ob
    else Text.AtMost(a, b)
  }

  function Order(players: map<string, PlayerInfo>, offsets: map<string, Mulberry.Word>): (string, string) -> bool {
    (a, b) => AtMost(a, b, players, offsets)
  }

  function Time(players: map<string, PlayerInfo>, id: string): int {
    if id in players then players[id].totalResponseTimeMs else 0
  }

  function Correct(players: map<string, PlayerInfo>, id: string): int {
    if id in players then players[id].correctAnswers else 0
  }

  function Offset(offsets: map<string, Mulberry.Word>, id: string): Mulberry.Word {
    if id in offsets then offsets[id] else 0
  }

  function Present(ids: seq<string>, players: map<string, PlayerInfo>): (r: seq<string>)
    ensures forall x :: x in r <==> x in ids && x in players
  {
    Rounds.Filter(ids, id => id in players)
  }

  function Winner(ids: seq<string>, players: map<string, PlayerInfo>, rolls: Mulberry.Rolls): (w: Option<string>)
    ensures w.Some? ==> w.value in ids && w.value in players
    ensures w.None? <==> forall id :: id in ids ==> id !in players
  {
    var active := Present(ids, players);
    if active == [] then None
    else
      var offsets := Offsets(active, rolls);
      var sorted := Sorting.Sort(active, Order(players, offsets));
      assert sorted[0] in multiset(active);
      Some(sorted[0])
  }

  lemma ComparatorIsTotalOrder(players: map<string, PlayerInfo>, offsets: map<string, Mulberry.Word>)
    ensures Sorting.TotalPreorder(Order(players, offsets))
    ensures Sorting.Antisymmetric(Order(players, offsets))
  {
    forall a, b
      ensures AtMost(a, b, players, offsets) || AtMost(b, a, players, offsets)
      ensures AtMost(a, b, players, offsets) && AtMost(b, a, players, offsets) ==> a == b
    {
      Text.LessTrichotomy(a, b);
    }
    forall a, b, c | AtMost(a, b, players, offsets) && AtMost(b, c, players, offsets)
      ensures AtMost(a, c, players, offsets)
    {
      if Text.Less(a, b) && Text.Less(b, c) {
        Text.LessTransitive(a, b, c);
      }
    }
  }

  /** The winner is the one candidate that is least in (time, most correct, offset, id) order:
      against every other candidate the first of the four that differs speaks for the winner. */
  lemma WinnerIsLexicographicMinimum(ids: seq<string>, players: map<string, PlayerInfo>, rolls: Mulberry.Rolls, x: string)
    requires x in ids && x in players
    ensures var w := Winner(ids, players, rolls);
            var offsets := Offsets(Present(ids, players), rolls);
            && w.Some?
            && (x != w.value ==>
                  || players[w.value].totalResponseTimeMs < players[x].totalResponseTimeMs
                  || (&& players[w.value].totalResponseTimeMs == players[x].totalResponseTimeMs
                      && (|| players[w.value].correctAnswers > players[x].correctAnswers
                          || (&& players[w.value].correctAnswers == players[x].correctAnswers
                              && (|| Offset(offsets, w.value) < Offset(offsets, x)
                                  || (&& Offset(offsets, w.value) == Offset(offsets, x)
                                      && Text.Less(w.value, x)))))))
  {
    var active := Present(ids, players);
    var offsets := Offsets(active, rolls);
    ComparatorIsTotalOrder(players, offsets);
    Sorting.HeadIsLeast(active, Order(players, offsets), x);
    assert Order(players, offsets)(Winner(ids, players, rolls).value, x);
  }

  method ResolveTieBreak(ids: seq<string>, players: map<string, PlayerInfo>, rng: Mulberry.Generator)
    returns (winner: Option<string>)
    requires rng.Valid() && rng.calls == 0
    modifies rng
    ensures winner == Winner(ids, players, rng.rolls)
  {
    hide Mulberry.Mix;
    var active := Present(ids, players);
    if active == [] { return None; }
    var offsets: map<string, Mulberry.Word> := map[];
    for i := 0 to |active|
      invariant rng.Valid() && rng.calls == i
      invariant offsets == Offsets(active[..i], rng.rolls)
    {
      var k := rng.Next();
      offsets := offsets[active[i] := k];
      assert active[..i + 1][..i] == active[..i];
    }
    assert active[..|active|] == active;
    var sorted := Sorting.Sort(active, Order(players, offsets));
    winner := Some(sorted[0]);
  }
}
