/** Draws without replacement: disabled options and destroyed cards (packages/game-core/src/card-engine.ts),
    area targets (apps/api/src/modules/match/match-card-targeting.ts) and the questions of a day
    (apps/api/prisma/seed-daily.ts). */
module Draws {
  import opened MatchTypes
  import opened Wrappers
  import opened Basics
  import Cards
  import CardEngine
  import ClassEngine
  import Mulberry
  import Sorting

  datatype Draw<T> = Draw(picked: seq<T>, left: seq<T>)

  /** `count` picks, each removing the element it chose. */
  function DrawFrom<T>(items: seq<T>, count: nat, rolls: Mulberry.Rolls): (d: Draw<T>)
    requires count <= |items|
    ensures |d.picked| == count && |d.left| == |items| - count
    ensures multiset(d.picked) + multiset(d.left) == multiset(items)
  {
    if count == 0 then Draw([], items)
    else
      var d := DrawFrom(items, count - 1, rolls);
      var i := CardEngine.IndexOf(rolls(count - 1), |d.left|);
      Draw(d.picked + [d.left[i]], CardEngine.Without(d.left, i))
  }

  method DrawLoop<T>(items: seq<T>, count: nat, rng: Mulberry.Generator) returns (picked: seq<T>)
    requires count <= |items| && rng.Valid() && rng.calls == 0
    modifies rng
    ensures rng.Valid() && rng.calls == count
    ensures picked == DrawFrom(items, count, rng.rolls).picked
  {
    hide Mulberry.Mix;
    picked := [];
    var left := items;
    for n := 0 to count
      invariant rng.Valid() && rng.calls == n
      invariant DrawFrom(items, n, rng.rolls) == Draw(picked, left)
    {
      var u := rng.Next();
      var i := CardEngine.IndexOf(u, |left|);
      picked := picked + [left[i]];
      left := CardEngine.Without(left, i);
    }
  }

  // ---- option disable ----

  /** Positions, in ascending order, whose option is not the correct answer. */
  function WrongIndexes(options: seq<string>, correct: string): (r: seq<nat>)
    ensures forall i: nat :: i in r <==> i < |options| && options[i] != correct
    ensures forall j :: 0 <= j < |r| ==> r[j] < |options|
    ensures Distinct(r)
  {
    if options == [] then []
    else
      var n := |options| - 1;
      var earlier := WrongIndexes(options[..n], correct);
      if options[n] == correct then earlier else earlier + [n]
  }

  function OptionDisabled(count: nat, durationMs: int, options: seq<string>, correct: string, rolls: Mulberry.Rolls): Effect {
    var wrong := WrongIndexes(options, correct);
    OptionDisable(DrawFrom(wrong, Min(count, |wrong|), rolls).picked, count, |wrong|, durationMs)
  }

  /** As many wrong positions as asked for or available, no position twice, never a correct one. */
  lemma OptionDisableMeaning(count: nat, durationMs: int, options: seq<string>, correct: string, rolls: Mulberry.Rolls)
    ensures var e := OptionDisabled(count, durationMs, options, correct, rolls);
            && |e.indexes| == Min(count, e.availableAtResolution)
            && Distinct(e.indexes)
            && forall i :: i in e.indexes ==> i < |options| && options[i] != correct
  {
    var wrong := WrongIndexes(options, correct);
    var d := DrawFrom(wrong, Min(count, |wrong|), rolls);
    assert multiset(d.picked) <= multiset(wrong);
    CardEngine.SubsetOfDistinct(d.picked, wrong);
    forall i | i in d.picked ensures i in wrong {
      assert i in multiset(d.picked);
    }
  }

  method ResolveOptionDisable(count: nat, durationMs: int, options: seq<string>, correct: string, rng: Mulberry.Generator)
    returns (e: Effect)
    requires rng.Valid() && rng.calls == 0
    modifies rng
    ensures e == OptionDisabled(count, durationMs, options, correct, rng.rolls)
  {
    hide Mulberry.Mix;
    var wrong := WrongIndexes(options, correct);
    var picked := DrawLoop(wrong, Min(count, |wrong|), rng);
    e := OptionDisable(picked, count, |wrong|, durationMs);
  }

  // ---- hand destroy ----

  function HandDestroyed(count: nat, hand: seq<CardId>, rolls: Mulberry.Rolls): Effect {
    var n := Min(count, |hand|);
    HandDestroy(count, |hand|, DrawFrom(Sorting.Sort(hand, Cards.CanonicalOrder()), n, rolls).picked)
  }

  /** The destroyed cards are cards of the hand, as many as asked for or held, and which ones they are
      depends on the cards held, not on the order of the hand. */
  lemma HandDestroyMeaning(count: nat, hand: seq<CardId>, other: seq<CardId>, rolls: Mulberry.Rolls)
    requires multiset(hand) == multiset(other)
    ensures var e := HandDestroyed(count, hand, rolls);
            && |e.destroyed| == Min(count, |hand|)
            && multiset(e.destroyed) <= multiset(hand)
            && e == HandDestroyed(count, other, rolls)
  {
    CardEngine.CanonicalOrderIsTotal();
    Sorting.SortForgetsOrder(hand, other, Cards.CanonicalOrder());
    assert |hand| == |multiset(hand)| == |multiset(other)| == |other|;
  }

  method ResolveHandDestroy(count: nat, hand: seq<CardId>, rng: Mulberry.Generator) returns (e: Effect)
    requires rng.Valid() && rng.calls == 0
    modifies rng
    ensures e == HandDestroyed(count, hand, rng.rolls)
  {
    hide Mulberry.Mix;
    var sorted := Sorting.Sort(hand, Cards.CanonicalOrder());
    var picked := DrawLoop(sorted, Min(count, |sorted|), rng);
    e := HandDestroy(count, |sorted|, picked);
  }

  // ---- area targets ----

  predicate Eligible(players: map<string, PlayerInfo>, id: string) {
    id in players && players[id].status == Active
  }

  function Keep(ids: seq<string>, players: map<string, PlayerInfo>, except: string): (r: seq<string>)
    ensures forall x :: x in r ==> x in ids && x != except && Eligible(players, x)
    ensures |r| <= |ids|
  {
    if ids == [] then []
    else (if ids[0] != except && Eligible(players, ids[0]) then [ids[0]] else []) + Keep(ids[1..], players, except)
  }

  /** `expandCardTargets`: the players a card reaches; `order` is the iteration order of the roster. */
  function ExpandTargets(
    card: CardId, playedBy: string, target: Option<string>,
    order: seq<string>, players: map<string, PlayerInfo>, rolls: Mulberry.Rolls): (r: seq<string>)
    requires Cards.InCatalog(card)
    ensures |r| > 1 ==> Cards.IsAoeCard(card)
    ensures |r| <= Cards.TargetCount(card)
  {
    var count := Cards.TargetCount(card);
    if count <= 1 then
      var id := if target.Some? then target.value else playedBy;
      if Eligible(players, id) then [id] else []
    else
      var eligible := Sorting.Sort(Keep(order, players, playedBy), ClassEngine.IdOrder());
      DrawFrom(eligible, Min(count, |eligible|), rolls).picked
  }

  lemma CountCons(head: string, s: seq<string>, x: string)
    ensures multiset([head] + s)[x] == multiset(s)[x] + if head == x then 1 else 0
  {
    assert multiset([head] + s) == multiset{head} + multiset(s);
  }

  lemma KeepCons(ids: seq<string>, players: map<string, PlayerInfo>, except: string)
    requires ids != []
    ensures var rest := Keep(ids[1..], players, except);
            Keep(ids, players, except) == if ids[0] != except && Eligible(players, ids[0]) then [ids[0]] + rest else rest
  {
  }

  lemma {:induction false} KeepCounts(ids: seq<string>, players: map<string, PlayerInfo>, except: string, x: string)
    ensures multiset(Keep(ids, players, except))[x]
              == if x != except && Eligible(players, x) then multiset(ids)[x] else 0
  {
    if ids == [] {
      assert Keep(ids, players, except) == [];
    } else {
      hide Keep, Eligible;
      KeepCounts(ids[1..], players, except, x);
      KeepCons(ids, players, except);
      CountCons(ids[0], Keep(ids[1..], players, except), x);
      CountCons(ids[0], ids[1..], x);
      assert [ids[0]] + ids[1..] == ids;
    }
  }

  /** An area card reaches min(count, available) distinct active players other than its player, and
      does not depend on the iteration order of the roster. */
  lemma AreaTargetsMeaning(
    card: CardId, playedBy: string, target: Option<string>,
    order: seq<string>, other: seq<string>, players: map<string, PlayerInfo>, rolls: Mulberry.Rolls)
    requires Cards.InCatalog(card) && Cards.IsAoeCard(card)
    requires multiset(order) == multiset(other) && Distinct(order)
    ensures var r := ExpandTargets(card, playedBy, target, order, players, rolls);
            && r == ExpandTargets(card, playedBy, target, other, players, rolls)
            && |r| == Min(Cards.TargetCount(card), |Keep(order, players, playedBy)|)
            && Distinct(r)
            && forall x :: x in r ==> x in order && x != playedBy && Eligible(players, x)
  {
    var kept := Keep(order, players, playedBy);
    forall x ensures multiset(kept)[x] == multiset(Keep(other, players, playedBy))[x] <= multiset(order)[x] {
      KeepCounts(order, players, playedBy, x);
      KeepCounts(other, players, playedBy, x);
    }
    ClassEngine.IdOrderIsTotal();
    Sorting.SortForgetsOrder(kept, Keep(other, players, playedBy), ClassEngine.IdOrder());
    var sorted := Sorting.Sort(kept, ClassEngine.IdOrder());
    var r := ExpandTargets(card, playedBy, target, order, players, rolls);
    assert multiset(r) <= multiset(sorted);
    CardEngine.SubsetOfDistinct(r, order);
    forall x | x in r ensures x in kept {
      assert x in multiset(r);
      assert x in multiset(kept);
    }
  }

  // ---- the questions of a day ----

  function Swap<T>(s: seq<T>, i: nat, j: nat): (r: seq<T>)
    requires i < |s| && j < |s|
    ensures |r| == |s| && multiset(r) == multiset(s)
  {
    s[i := s[j]][j := s[i]]
  }

  /** The pool after n steps of a partial Fisher-Yates shuffle. */
  function Shuffled<T>(pool: seq<T>, n: nat, rolls: Mulberry.Rolls): (r: seq<T>)
    requires n <= |pool|
    ensures |r| == |pool| && multiset(r) == multiset(pool)
  {
    if n == 0 then pool
    else
      var p := Shuffled(pool, n - 1, rolls);
      Swap(p, n - 1, n - 1 + CardEngine.IndexOf(rolls(n - 1), |pool| - (n - 1)))
  }

  lemma ShuffleStep<T>(pool: seq<T>, n: nat, rolls: Mulberry.Rolls)
    requires n < |pool|
    ensures Shuffled(pool, n + 1, rolls)
              == Swap(Shuffled(pool, n, rolls), n, n + CardEngine.IndexOf(rolls(n), |pool| - n))
  {
  }

  lemma SwapLeavesOthers<T>(s: seq<T>, i: nat, j: nat, k: nat)
    requires i < |s| && j < |s| && k < |s| && k != i && k != j
    ensures Swap(s, i, j)[k] == s[k]
  {
  }

  lemma {:induction false} PositionIsFixed<T>(pool: seq<T>, i: nat, m: nat, n: nat, rolls: Mulberry.Rolls)
    requires i < m <= n <= |pool|
    ensures Shuffled(pool, n, rolls)[i] == Shuffled(pool, m, rolls)[i]
  {
    hide CardEngine.IndexOf, Shuffled, Swap;
    if m < n {
      PositionIsFixed(pool, i, m, n - 1, rolls);
      ShuffleStep(pool, n - 1, rolls);
      SwapLeavesOthers(Shuffled(pool, n - 1, rolls), n - 1, n - 1 + CardEngine.IndexOf(rolls(n - 1), |pool| - (n - 1)), i);
    }
  }

  /** Each step fixes one position for good, so the picks so far never change. */
  lemma ShuffleFixesPrefix<T>(pool: seq<T>, m: nat, n: nat, rolls: Mulberry.Rolls)
    requires m <= n <= |pool|
    ensures Shuffled(pool, n, rolls)[..m] == Shuffled(pool, m, rolls)[..m]
  {
    hide Shuffled;
    forall i | 0 <= i < m ensures Shuffled(pool, n, rolls)[i] == Shuffled(pool, m, rolls)[i] {
      PositionIsFixed(pool, i, m, n, rolls);
    }
  }

  /** From a bank of at least n questions (n is 5 in production) a day gets n of them, distinct if the
      bank's are. */
  lemma DayQuestionsAreDistinct<T>(bank: seq<T>, n: nat, rolls: Mulberry.Rolls)
    requires n <= |bank|
    ensures var questions := Shuffled(bank, n, rolls)[..n];
            && multiset(questions) <= multiset(bank)
            && (Distinct(bank) ==> Distinct(questions))
  {
    var pool := Shuffled(bank, n, rolls);
    var questions := pool[..n];
    assert pool == questions + pool[n..];
    if Distinct(bank) {
      CardEngine.SubsetOfDistinct(questions, bank);
    }
  }

  method PickQuestionsForDay<T>(bank: seq<T>, n: nat, rng: Mulberry.Generator) returns (questions: seq<T>)
    requires n <= |bank| && rng.Valid() && rng.calls == 0
    modifies rng
    ensures questions == Shuffled(bank, n, rng.rolls)[..n]
  {
    hide Mulberry.Mix;
    hide CardEngine.IndexOf;
    hide Swap;
    var pool := bank;
    assert Shuffled(bank, 0, rng.rolls) == bank;
    hide Shuffled;
    for i := 0 to n
      invariant rng.Valid() && rng.calls == i
      invariant |pool| == |bank| && pool == Shuffled(bank, i, rng.rolls)
    {
      ShuffleStep(bank, i, rng.rolls);
      var u := rng.Next();
      pool := Swap(pool, i, i + CardEngine.IndexOf(u, |pool| - i));
    }
    questions := pool[..n];
  }
}
