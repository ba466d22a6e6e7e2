/** Random class assignment (packages/game-core/src/class-engine.ts). */
module ClassEngine {
  import opened MatchTypes
  import Mulberry
  import Sorting
  import Text

  datatype Drawn = Drawn(playerId: string, roll: Mulberry.Word)

  function IdOrder(): (string, string) -> bool {
    (a, b) => Text.AtMost(a, b)
  }

  function RollOrder(): (Drawn, Drawn) -> bool {
    (a: Drawn, b: Drawn) => a.roll <= b.roll
  }

  function DrawRolls(sorted: seq<string>, rolls: Mulberry.Rolls): (r: seq<Drawn>)
    ensures |r| == |sorted|
  {
    if sorted == [] then []
    else
      var n := |sorted| - 1;
      DrawRolls(sorted[..n], rolls) + [Drawn(sorted[n], rolls(n))]
  }

  /** Players in rank order: by roll, and by id where rolls tie. */
  function Ranked(ids: seq<string>, rolls: Mulberry.Rolls): (r: seq<Drawn>)
    ensures |r| == |ids|
  {
    Sorting.Sort(DrawRolls(Sorting.Sort(ids, IdOrder()), rolls), RollOrder())
  }

  function Alternate(ranked: seq<Drawn>): (r: seq<Assignment>)
    ensures |r| == |ranked|
    ensures forall i :: 0 <= i < |r| ==> r[i].playerId == ranked[i].playerId
    ensures forall i :: 0 <= i < |r| ==> (r[i].classId == Attack <==> i % 2 == 0)
  {
    seq(|ranked|, i requires 0 <= i < |ranked| =>
      Assignment(ranked[i].playerId, if i % 2 == 0 then Attack else Defense))
  }

  function Assign(ids: seq<string>, rolls: Mulberry.Rolls): seq<Assignment> {
    Alternate(Ranked(ids, rolls))
  }

  // ---- properties ----

  function CountClass(a: seq<Assignment>, c: ClassId): nat {
    if a == [] then 0 else CountClass(a[..|a| - 1], c) + (if a[|a| - 1].classId == c then 1 else 0)
  }

  function Ids(d: seq<Drawn>): (r: seq<string>)
    ensures |r| == |d|
    ensures forall i :: 0 <= i < |d| ==> r[i] == d[i].playerId
  {
    if d == [] then [] else [d[0].playerId] + Ids(d[1..])
  }

  lemma {:induction false} InsertIds(x: Drawn, s: seq<Drawn>)
    ensures multiset(Ids(Sorting.Insert(x, s, RollOrder()))) == multiset(Ids(s)) + multiset{x.playerId}
  {
    if s == [] || x.roll <= s[0].roll {
      assert Ids([x] + s) == [x.playerId] + Ids(s);
    } else {
      InsertIds(x, s[1..]);
      var rest := Sorting.Insert(x, s[1..], RollOrder());
      hide Sorting.Insert;
      assert Ids([s[0]] + rest) == [s[0].playerId] + Ids(rest);
      assert Ids(s) == [s[0].playerId] + Ids(s[1..]);
    }
  }

  lemma {:induction false} SortIds(s: seq<Drawn>)
    ensures multiset(Ids(Sorting.Sort(s, RollOrder()))) == multiset(Ids(s))
  {
    if s != [] {
      SortIds(s[1..]);
      InsertIds(s[0], Sorting.Sort(s[1..], RollOrder()));
    }
  }

  lemma {:induction false} DrawRollsIds(sorted: seq<string>, rolls: Mulberry.Rolls)
    ensures Ids(DrawRolls(sorted, rolls)) == sorted
  {
    if sorted != [] {
      DrawRollsIds(sorted[..|sorted| - 1], rolls);
    }
  }

  /** Every player gets a class exactly as often as it is listed. */
  lemma EveryPlayerAssigned(ids: seq<string>, rolls: Mulberry.Rolls)
    ensures multiset(Ids(Ranked(ids, rolls))) == multiset(ids)
    ensures forall i :: 0 <= i < |ids| ==> Assign(ids, rolls)[i].playerId == Ids(Ranked(ids, rolls))[i]
  {
    var sorted := Sorting.Sort(ids, IdOrder());
    SortIds(DrawRolls(sorted, rolls));
    DrawRollsIds(sorted, rolls);
  }

  /** The classes split the players evenly; an odd player out attacks. */
  lemma {:induction false} FairSplit(ranked: seq<Drawn>)
    ensures CountClass(Alternate(ranked), Attack) == (|ranked| + 1) / 2
    ensures CountClass(Alternate(ranked), Defense) == |ranked| / 2
  {
    if ranked != [] {
      var n := |ranked| - 1;
      FairSplit(ranked[..n]);
      assert Alternate(ranked)[..n] == Alternate(ranked[..n]);
    }
  }

  lemma IdOrderIsTotal()
    ensures Sorting.TotalPreorder(IdOrder()) && Sorting.Antisymmetric(IdOrder())
  {
    forall a, b ensures IdOrder()(a, b) || IdOrder()(b, a)
                ensures IdOrder()(a, b) && IdOrder()(b, a) ==> a == b {
      Text.LessTrichotomy(a, b);
    }
    forall a, b, c | IdOrder()(a, b) && IdOrder()(b, c) ensures IdOrder()(a, c) {
      if Text.Less(a, b) && Text.Less(b, c) {
        Text.LessTransitive(a, b, c);
      }
    }
  }

  /** The assignment depends on who plays and on the seed, not on the order the caller lists them in. */
  lemma AssignmentIgnoresInputOrder(ids: seq<string>, other: seq<string>, rolls: Mulberry.Rolls)
    requires multiset(ids) == multiset(other)
    ensures Assign(ids, rolls) == Assign(other, rolls)
  {
    IdOrderIsTotal();
    Sorting.SortForgetsOrder(ids, other, IdOrder());
  }

  method AssignClasses(ids: seq<string>, rng: Mulberry.Generator) returns (r: seq<Assignment>)
    requires rng.Valid() && rng.calls == 0
    modifies rng
    ensures r == Assign(ids, rng.rolls)
  {
    hide Mulberry.Mix;
    if ids == [] { return []; }
    var sorted := Sorting.Sort(ids, IdOrder());
    var drawn: seq<Drawn> := [];
    for i := 0 to |sorted|
      invariant rng.Valid() && rng.calls == i
      invariant drawn == DrawRolls(sorted[..i], rng.rolls)
    {
      var k := rng.Next();
      drawn := drawn + [Drawn(sorted[i], k)];
      assert sorted[..i + 1][..i] == sorted[..i];
    }
    assert sorted[..|sorted|] == sorted;
    r := Alternate(Sorting.Sort(drawn, RollOrder()));
  }
}
