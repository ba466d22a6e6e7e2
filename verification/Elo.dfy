/** Rating changes and placements after a match (packages/game-core/src/elo-engine.ts). */
module Elo {
  import opened Wrappers
  import Sorting

  datatype PlayerInput = PlayerInput(userId: string, currentElo: real, placement: int, score: int)

  datatype EloResult = EloResult(
    userId: string, currentElo: real, newElo: real, delta: real, placement: int, score: int)

  /** What is used of the base-10 power. */
  ghost predicate PowerLike(pow: real -> real) {
    && (forall x :: pow(x) > 0.0)
    && (forall x :: pow(x) * pow(-x) == 1.0)
    && (forall x, y :: x <= y ==> pow(x) <= pow(y))
  }

  /** E of a player rated a against one rated b. */
  function Expected(a: real, b: real, pow: real -> real): real
    requires PowerLike(pow)
  {
    1.0 / (1.0 + pow((b - a) / 400.0))
  }

  /** S of a player placed p against one placed q. */
  function Actual(p: int, q: int): real {
    if p < q then 1.0 else if p == q then 0.5 else 0.0
  }

  lemma Halves(p: real, q: real)
    requires p > 0.0 && p * q == 1.0
    ensures 1.0 / (1.0 + p) + 1.0 / (1.0 + q) == 1.0
    ensures 0.0 < 1.0 / (1.0 + p) < 1.0
  {
    var u := 1.0 / (1.0 + p);
    assert u * (1.0 + p) == 1.0;
    assert q > 0.0;
    assert p * (1.0 + q) == p + 1.0;
    assert 1.0 / (1.0 + q) == p * u by {
      assert (p * u) * (1.0 + q) == u * (p * (1.0 + q)) == 1.0;
    }
  }

  lemma ExpectedSumsToOne(a: real, b: real, pow: real -> real)
    requires PowerLike(pow)
    ensures Expected(a, b, pow) + Expected(b, a, pow) == 1.0
    ensures 0.0 < Expected(a, b, pow) < 1.0
  {
    var x := (b - a) / 400.0;
    assert (a - b) / 400.0 == -x;
    Halves(pow(x), pow(-x));
  }

  lemma CancelFactor(x: real, y: real, c: real)
    requires c > 0.0 && x * c <= y * c
    ensures x <= y
  {
    assert x == (x * c) / c && y == (y * c) / c;
  }

  lemma ReciprocalFalls(p: real, q: real)
    requires 0.0 < p <= q
    ensures 1.0 / (1.0 + q) <= 1.0 / (1.0 + p)
  {
    var u, v := 1.0 / (1.0 + p), 1.0 / (1.0 + q);
    assert u * (1.0 + p) == 1.0 && v * (1.0 + q) == 1.0;
    assert v * (1.0 + p) <= v * (1.0 + q);
    CancelFactor(v, u, 1.0 + p);
  }

  lemma ExpectedGrows(a: real, b: real, c: real, pow: real -> real)
    requires PowerLike(pow) && a <= b
    ensures Expected(a, c, pow) <= Expected(b, c, pow)
  {
    ReciprocalFalls(pow((c - b) / 400.0), pow((c - a) / 400.0));
  }

  // Sums over the other players.

  function ExpectedAgainst(ps: seq<PlayerInput>, i: nat, m: nat, pow: real -> real): real
    requires i < |ps| && m <= |ps| && PowerLike(pow)
  {
    if m == 0 then 0.0
    else
      ExpectedAgainst(ps, i, m - 1, pow)
      + if m - 1 == i then 0.0 else Expected(ps[i].currentElo, ps[m - 1].currentElo, pow)
  }

  function ActualAgainst(ps: seq<PlayerInput>, i: nat, m: nat): real
    requires i < |ps| && m <= |ps|
  {
    if m == 0 then 0.0
    else ActualAgainst(ps, i, m - 1) + if m - 1 == i then 0.0 else Actual(ps[i].placement, ps[m - 1].placement)
  }

  function RawDelta(ps: seq<PlayerInput>, i: nat, k: real, pow: real -> real): real
    requires i < |ps| && 2 <= |ps| && PowerLike(pow)
  {
    k / (|ps| - 1) as real * (ActualAgainst(ps, i, |ps|) - ExpectedAgainst(ps, i, |ps|, pow))
  }

  /** `Math.round`: halves go up. */
  function Round(x: real): (r: int)
    ensures x - 0.5 < r as real <= x + 0.5
  {
    (x + 0.5).Floor
  }

  function RoundedDelta(ps: seq<PlayerInput>, i: nat, k: real, pow: real -> real): int
    requires i < |ps| && PowerLike(pow)
  {
    if |ps| == 1 then 0 else Round(RawDelta(ps, i, k, pow))
  }

  /** What player i wins from player j. */
  function Edge(ps: seq<PlayerInput>, i: nat, j: nat, pow: real -> real): (e: real)
    requires i < |ps| && j < |ps| && PowerLike(pow)
  {
    if i == j then 0.0
    else Actual(ps[i].placement, ps[j].placement) - Expected(ps[i].currentElo, ps[j].currentElo, pow)
  }

  lemma EdgesCancel(ps: seq<PlayerInput>, i: nat, j: nat, pow: real -> real)
    requires i < |ps| && j < |ps| && PowerLike(pow)
    ensures Edge(ps, i, j, pow) + Edge(ps, j, i, pow) == 0.0
    ensures -1.0 < Edge(ps, i, j, pow) < 1.0
  {
    ExpectedSumsToOne(ps[i].currentElo, ps[j].currentElo, pow);
    hide Expected;
  }

  function RowSum(ps: seq<PlayerInput>, i: nat, m: nat, pow: real -> real): real
    requires i < |ps| && m <= |ps| && PowerLike(pow)
  {
    if m == 0 then 0.0 else RowSum(ps, i, m - 1, pow) + Edge(ps, i, m - 1, pow)
  }

  lemma {:induction false} RowIsDifference(ps: seq<PlayerInput>, i: nat, m: nat, pow: real -> real)
    requires i < |ps| && m <= |ps| && PowerLike(pow)
    ensures RowSum(ps, i, m, pow) == ActualAgainst(ps, i, m) - ExpectedAgainst(ps, i, m, pow)
  {
    hide Expected, Actual;
    if m != 0 { RowIsDifference(ps, i, m - 1, pow); }
  }

  /** The sum of the first rows of the table, each over the first columns. */
  function Table(ps: seq<PlayerInput>, rows: nat, columns: nat, pow: real -> real): real
    requires rows <= |ps| && columns <= |ps| && PowerLike(pow)
  {
    if rows == 0 then 0.0 else Table(ps, rows - 1, columns, pow) + RowSum(ps, rows - 1, columns, pow)
  }

  lemma {:induction false} AddColumn(ps: seq<PlayerInput>, rows: nat, j: nat, pow: real -> real)
    requires rows <= |ps| && j < |ps| && PowerLike(pow)
    ensures Table(ps, rows, j + 1, pow) == Table(ps, rows, j, pow) - RowSum(ps, j, rows, pow)
  {
    if rows != 0 {
      AddColumn(ps, rows - 1, j, pow);
      EdgesCancel(ps, rows - 1, j, pow);
    }
  }

  lemma {:induction false} SquareIsZero(ps: seq<PlayerInput>, n: nat, pow: real -> real)
    requires n <= |ps| && PowerLike(pow)
    ensures Table(ps, n, n, pow) == 0.0
  {
    hide Expected, Actual, PowerLike;
    if n != 0 {
      SquareIsZero(ps, n - 1, pow);
      AddColumn(ps, n - 1, n - 1, pow);
      assert RowSum(ps, n - 1, n, pow) == RowSum(ps, n - 1, n - 1, pow) + Edge(ps, n - 1, n - 1, pow);
    }
  }

  function RawTotal(ps: seq<PlayerInput>, m: nat, k: real, pow: real -> real): real
    requires m <= |ps| && 2 <= |ps| && PowerLike(pow)
  {
    if m == 0 then 0.0 else RawTotal(ps, m - 1, k, pow) + RawDelta(ps, m - 1, k, pow)
  }

  function RoundedTotal(ps: seq<PlayerInput>, m: nat, k: real, pow: real -> real): int
    requires m <= |ps| && PowerLike(pow)
  {
    if m == 0 then 0 else RoundedTotal(ps, m - 1, k, pow) + RoundedDelta(ps, m - 1, k, pow)
  }

  function PerPairing(n: nat, k: real): real
    requires 2 <= n
  {
    k / (n - 1) as real
  }

  lemma RawScalesRow(ps: seq<PlayerInput>, i: nat, k: real, pow: real -> real)
    requires i < |ps| && 2 <= |ps| && PowerLike(pow)
    ensures RawDelta(ps, i, k, pow) == PerPairing(|ps|, k) * RowSum(ps, i, |ps|, pow)
  {
    hide RowSum, ActualAgainst, ExpectedAgainst, PowerLike;
    RowIsDifference(ps, i, |ps|, pow);
  }

  lemma Distribute(c: real, x: real, y: real)
    ensures c * (x + y) == c * x + c * y
  {
  }

  lemma {:induction false} RawTotalScalesTable(ps: seq<PlayerInput>, m: nat, k: real, pow: real -> real)
    requires m <= |ps| && 2 <= |ps| && PowerLike(pow)
    ensures RawTotal(ps, m, k, pow) == PerPairing(|ps|, k) * Table(ps, m, |ps|, pow)
  {
    hide RawDelta, RowSum, PerPairing;
    if m != 0 {
      RawTotalScalesTable(ps, m - 1, k, pow);
      RawScalesRow(ps, m - 1, k, pow);
      Distribute(PerPairing(|ps|, k), Table(ps, m - 1, |ps|, pow), RowSum(ps, m - 1, |ps|, pow));
    }
  }

  /** Before rounding the exchange is zero-sum, for any factor, placements and ratings. */
  lemma RawDeltasSumToZero(ps: seq<PlayerInput>, k: real, pow: real -> real)
    requires 2 <= |ps| && PowerLike(pow)
    ensures RawTotal(ps, |ps|, k, pow) == 0.0
  {
    RawTotalScalesTable(ps, |ps|, k, pow);
    SquareIsZero(ps, |ps|, pow);
  }

  lemma {:induction false} RoundingDrift(ps: seq<PlayerInput>, m: nat, k: real, pow: real -> real)
    requires m <= |ps| && 2 <= |ps| && PowerLike(pow)
    ensures -0.5 * m as real <= RoundedTotal(ps, m, k, pow) as real - RawTotal(ps, m, k, pow) <= 0.5 * m as real
  {
    hide RawDelta;
    if m != 0 { RoundingDrift(ps, m - 1, k, pow); }
  }

  /** After rounding the total drifts from zero by at most half a point a player. */
  lemma RoundedDeltasNearlyCancel(ps: seq<PlayerInput>, k: real, pow: real -> real)
    requires 2 <= |ps| && PowerLike(pow)
    ensures -|ps| <= 2 * RoundedTotal(ps, |ps|, k, pow) <= |ps|
  {
    RawDeltasSumToZero(ps, k, pow);
    RoundingDrift(ps, |ps|, k, pow);
  }

  lemma {:induction false} RowBound(ps: seq<PlayerInput>, i: nat, m: nat, pow: real -> real)
    requires i < |ps| && m <= |ps| && PowerLike(pow)
    ensures var others := (if i < m then m - 1 else m) as real;
            -others <= RowSum(ps, i, m, pow) <= others
  {
    if m != 0 {
      RowBound(ps, i, m - 1, pow);
      EdgesCancel(ps, i, m - 1, pow);
    }
  }

  lemma ScaledBound(k: real, n: real, x: real)
    requires k >= 0.0 && n > 0.0 && -n <= x <= n
    ensures -k <= k / n * x <= k
  {
    var c := k / n;
    assert c * n == k;
    assert c * x <= c * n && c * -n <= c * x;
  }

  /** No one gains or loses more than the factor. */
  lemma DeltaWithinFactor(ps: seq<PlayerInput>, i: nat, k: nat, pow: real -> real)
    requires i < |ps| && PowerLike(pow)
    ensures 0 - k <= RoundedDelta(ps, i, k as real, pow) <= k
  {
    hide RawDelta, RowSum;
    if 2 <= |ps| {
      RowBound(ps, i, |ps|, pow);
      RawScalesRow(ps, i, k as real, pow);
      ScaledBound(k as real, (|ps| - 1) as real, RowSum(ps, i, |ps|, pow));
    }
  }

  lemma EdgeOrder(ps: seq<PlayerInput>, i: nat, k: nat, j: nat, pow: real -> real)
    requires i < |ps| && k < |ps| && j < |ps| && PowerLike(pow)
    requires ps[i].placement <= ps[k].placement && ps[i].currentElo <= ps[k].currentElo
    ensures Edge(ps, k, j, pow) <= Edge(ps, i, j, pow)
  {
    var a, b, c := ps[i].currentElo, ps[k].currentElo, ps[j].currentElo;
    ExpectedGrows(a, b, c, pow);
    ExpectedSumsToOne(a, b, pow);
    ExpectedGrows(a, b, b, pow);
    ExpectedGrows(a, b, a, pow);
    ExpectedSumsToOne(b, b, pow);
    ExpectedSumsToOne(a, a, pow);
    hide Expected;
  }

  lemma {:induction false} RowOrder(ps: seq<PlayerInput>, i: nat, k: nat, m: nat, pow: real -> real)
    requires i < |ps| && k < |ps| && m <= |ps| && PowerLike(pow)
    requires ps[i].placement <= ps[k].placement && ps[i].currentElo <= ps[k].currentElo
    ensures RowSum(ps, k, m, pow) <= RowSum(ps, i, m, pow)
  {
    if m != 0 {
      RowOrder(ps, i, k, m - 1, pow);
      EdgeOrder(ps, i, k, m - 1, pow);
    }
  }

  lemma ScaledOrder(c: real, x: real, y: real)
    requires c >= 0.0 && x <= y
    ensures c * x <= c * y
  {
  }

  /** A player placed no worse and rated no higher earns no less: at equal ratings
      the better placement never earns less, at equal placements the underdog never earns less. */
  lemma BetterPlacedEarnsNoLess(ps: seq<PlayerInput>, i: nat, j: nat, k: real, pow: real -> real)
    requires i < |ps| && j < |ps| && PowerLike(pow) && k >= 0.0
    requires ps[i].placement <= ps[j].placement && ps[i].currentElo <= ps[j].currentElo
    ensures RoundedDelta(ps, j, k, pow) <= RoundedDelta(ps, i, k, pow)
  {
    hide RawDelta, RowSum;
    if 2 <= |ps| {
      RowOrder(ps, i, j, |ps|, pow);
      RawScalesRow(ps, i, k, pow);
      RawScalesRow(ps, j, k, pow);
      ScaledOrder(PerPairing(|ps|, k), RowSum(ps, j, |ps|, pow), RowSum(ps, i, |ps|, pow));
    }
  }

  // What a placement is worth.

  /** Opponents among the first m that i is placed better than. */
  function Beaten(ps: seq<PlayerInput>, i: nat, m: nat): set<nat>
    requires i < |ps| && m <= |ps|
  {
    set j: nat | j < m && ps[i].placement < ps[j].placement
  }

  /** Opponents among the first m that share i's place. */
  function Level(ps: seq<PlayerInput>, i: nat, m: nat): set<nat>
    requires i < |ps| && m <= |ps|
  {
    set j: nat | j < m && j != i && ps[i].placement == ps[j].placement
  }

  lemma OneMoreBeaten(ps: seq<PlayerInput>, i: nat, m: nat)
    requires i < |ps| && m < |ps|
    ensures |Beaten(ps, i, m + 1)| == |Beaten(ps, i, m)| + if ps[i].placement < ps[m].placement then 1 else 0
  {
    if ps[i].placement < ps[m].placement {
      assert Beaten(ps, i, m + 1) == Beaten(ps, i, m) + {m};
    } else {
      assert Beaten(ps, i, m + 1) == Beaten(ps, i, m);
    }
  }

  lemma OneMoreLevel(ps: seq<PlayerInput>, i: nat, m: nat)
    requires i < |ps| && m < |ps|
    ensures |Level(ps, i, m + 1)| == |Level(ps, i, m)| + if m != i && ps[i].placement == ps[m].placement then 1 else 0
  {
    if m != i && ps[i].placement == ps[m].placement {
      assert Level(ps, i, m + 1) == Level(ps, i, m) + {m};
    } else {
      assert Level(ps, i, m + 1) == Level(ps, i, m);
    }
  }

  /** The outcome of a match for a player: one for each player placed strictly worse and a half for each
      other player placed the same. */
  lemma {:induction false} OutcomeCounts(ps: seq<PlayerInput>, i: nat, m: nat)
    requires i < |ps| && m <= |ps|
    ensures ActualAgainst(ps, i, m) == |Beaten(ps, i, m)| as real + 0.5 * |Level(ps, i, m)| as real
  {
    if m != 0 {
      OutcomeCounts(ps, i, m - 1);
      OneMoreBeaten(ps, i, m - 1);
      OneMoreLevel(ps, i, m - 1);
      hide Beaten, Level;
    }
  }

  /** The odds between two players are the power of their rating difference, in steps of 400. */
  lemma ExpectedOdds(a: real, b: real, pow: real -> real)
    requires PowerLike(pow)
    ensures Expected(a, b, pow) == pow((a - b) / 400.0) * Expected(b, a, pow)
    ensures Expected(a, a, pow) == 0.5
  {
    var p, q := pow((a - b) / 400.0), pow((b - a) / 400.0);
    assert (b - a) / 400.0 == -((a - b) / 400.0);
    assert p * q == 1.0;
    var u := 1.0 / (1.0 + p);
    assert u * (1.0 + p) == 1.0;
    assert (p * u) * (1.0 + q) == u * (p + p * q) == 1.0;
    ExpectedSumsToOne(a, a, pow);
  }

  lemma {:induction false} EqualRatingsExpect(ps: seq<PlayerInput>, i: nat, m: nat, pow: real -> real)
    requires i < |ps| && m <= |ps| && PowerLike(pow)
    requires forall j :: 0 <= j < |ps| ==> ps[j].currentElo == ps[i].currentElo
    ensures ExpectedAgainst(ps, i, m, pow) == 0.5 * (if i < m then m - 1 else m) as real
  {
    hide Expected;
    if m != 0 {
      EqualRatingsExpect(ps, i, m - 1, pow);
      ExpectedOdds(ps[i].currentElo, ps[i].currentElo, pow);
    }
  }

  /** Among equals only the placement counts: a player gains as many shares of the factor as it beats
      opponents above half of them, a level one counting half. */
  lemma EqualRatingsDelta(ps: seq<PlayerInput>, i: nat, k: real, pow: real -> real)
    requires i < |ps| && 2 <= |ps| && PowerLike(pow)
    requires forall j :: 0 <= j < |ps| ==> ps[j].currentElo == ps[i].currentElo
    ensures var n := |ps|;
            RawDelta(ps, i, k, pow) == k / (n - 1) as real
              * (|Beaten(ps, i, n)| as real + 0.5 * |Level(ps, i, n)| as real - 0.5 * (n - 1) as real)
  {
    OutcomeCounts(ps, i, |ps|);
    EqualRatingsExpect(ps, i, |ps|, pow);
    hide ActualAgainst, ExpectedAgainst, Beaten, Level;
  }

  /** The winner of two equals gains half the factor, rounded. */
  lemma WinnerOfTwoGains(ps: seq<PlayerInput>, k: real, pow: real -> real)
    requires |ps| == 2 && PowerLike(pow) && k >= 0.0
    requires ps[0].placement < ps[1].placement && ps[0].currentElo == ps[1].currentElo >= 0.0
    ensures ResultOf(ps, 0, k, pow).delta == Round(k / 2.0) as real
    ensures ResultOf(ps, 0, k, pow).newElo == ps[0].currentElo + Round(k / 2.0) as real
  {
    EqualRatingsDelta(ps, 0, k, pow);
    assert Beaten(ps, 0, 2) == {1} && Level(ps, 0, 2) == {};
    assert RawDelta(ps, 0, k, pow) == k / 2.0;
    hide RawDelta, Beaten, Level;
  }

  lemma EdgeIsStrict(ps: seq<PlayerInput>, i: nat, k: nat, pow: real -> real)
    requires i < |ps| && k < |ps| && PowerLike(pow)
    requires ps[i].placement < ps[k].placement
    ensures Edge(ps, k, i, pow) < Edge(ps, i, i, pow)
  {
    ExpectedSumsToOne(ps[k].currentElo, ps[i].currentElo, pow);
    hide Expected;
  }

  lemma {:induction false} RowOrderIsStrict(ps: seq<PlayerInput>, i: nat, k: nat, m: nat, pow: real -> real)
    requires i < m <= |ps| && k < |ps| && PowerLike(pow)
    requires ps[i].placement < ps[k].placement && ps[i].currentElo <= ps[k].currentElo
    ensures RowSum(ps, k, m, pow) < RowSum(ps, i, m, pow)
  {
    hide Edge, Expected, Actual, PowerLike;
    if m == i + 1 {
      RowOrder(ps, i, k, i, pow);
      EdgeIsStrict(ps, i, k, pow);
    } else {
      RowOrderIsStrict(ps, i, k, m - 1, pow);
      EdgeOrder(ps, i, k, m - 1, pow);
    }
  }

  lemma ScaledStrictly(c: real, x: real, y: real, u: real, v: real)
    requires c > 0.0 && x < y && u == c * x && v == c * y
    ensures u < v
  {
  }

  lemma PositiveShare(n: nat, k: real)
    requires 2 <= n && k > 0.0
    ensures PerPairing(n, k) > 0.0
  {
  }

  /** Placed strictly better and rated no higher, a player's change is strictly larger before rounding. */
  lemma BetterPlacedEarnsMore(ps: seq<PlayerInput>, i: nat, j: nat, k: real, pow: real -> real)
    requires i < |ps| && j < |ps| && PowerLike(pow) && k > 0.0
    requires ps[i].placement < ps[j].placement && ps[i].currentElo <= ps[j].currentElo
    ensures 2 <= |ps| && RawDelta(ps, j, k, pow) < RawDelta(ps, i, k, pow)
  {
    assert i != j;
    hide RawDelta, RowSum, PowerLike, PerPairing;
    PositiveShare(|ps|, k);
    RowOrderIsStrict(ps, i, j, |ps|, pow);
    ScaledRows(ps, i, j, k, pow);
  }

  lemma ScaledRows(ps: seq<PlayerInput>, i: nat, j: nat, k: real, pow: real -> real)
    requires i < |ps| && j < |ps| && 2 <= |ps| && PowerLike(pow) && PerPairing(|ps|, k) > 0.0
    requires RowSum(ps, j, |ps|, pow) < RowSum(ps, i, |ps|, pow)
    ensures RawDelta(ps, j, k, pow) < RawDelta(ps, i, k, pow)
  {
    hide RawDelta, RowSum, PowerLike, PerPairing;
    RawScalesRow(ps, i, k, pow);
    RawScalesRow(ps, j, k, pow);
    ScaledStrictly(PerPairing(|ps|, k), RowSum(ps, j, |ps|, pow), RowSum(ps, i, |ps|, pow),
                   RawDelta(ps, j, k, pow), RawDelta(ps, i, k, pow));
  }

  // The published ratings.

  function NewElo(ps: seq<PlayerInput>, i: nat, k: real, pow: real -> real): real
    requires i < |ps| && PowerLike(pow)
  {
    var moved := ps[i].currentElo + RoundedDelta(ps, i, k, pow) as real;
    if |ps| == 1 then ps[0].currentElo else if moved < 0.0 then 0.0 else moved
  }

  function PublishedTotal(ps: seq<PlayerInput>, m: nat, k: real, pow: real -> real): real
    requires m <= |ps| && PowerLike(pow)
  {
    if m == 0 then 0.0 else PublishedTotal(ps, m - 1, k, pow) + (NewElo(ps, m - 1, k, pow) - ps[m - 1].currentElo)
  }

  /** The player's rounded change would take the rating below zero. */
  predicate Clamped(ps: seq<PlayerInput>, i: nat, k: real, pow: real -> real)
    requires i < |ps| && PowerLike(pow)
  {
    ps[i].currentElo + RoundedDelta(ps, i, k, pow) as real < 0.0
  }

  lemma {:induction false} ClampOnlyAdds(ps: seq<PlayerInput>, m: nat, k: real, pow: real -> real)
    requires m <= |ps| && 2 <= |ps| && PowerLike(pow)
    ensures RoundedTotal(ps, m, k, pow) as real <= PublishedTotal(ps, m, k, pow)
    ensures RoundedTotal(ps, m, k, pow) as real == PublishedTotal(ps, m, k, pow)
            <==> forall i :: 0 <= i < m ==> !Clamped(ps, i, k, pow)
  {
    hide RoundedDelta;
    if m != 0 {
      ClampOnlyAdds(ps, m - 1, k, pow);
      assert Clamped(ps, m - 1, k, pow) || !Clamped(ps, m - 1, k, pow);
    }
  }

  /** Over a whole match the ratings in play shrink by at most half a point a player, and
      grow by no more than that unless some rating was held at zero. */
  lemma NearlyZeroSum(ps: seq<PlayerInput>, k: real, pow: real -> real)
    requires 2 <= |ps| && PowerLike(pow)
    ensures -0.5 * |ps| as real <= PublishedTotal(ps, |ps|, k, pow)
    ensures (forall i :: 0 <= i < |ps| ==> !Clamped(ps, i, k, pow))
            ==> PublishedTotal(ps, |ps|, k, pow) <= 0.5 * |ps| as real
  {
    hide RoundedTotal, PublishedTotal, Clamped;
    RoundedDeltasNearlyCancel(ps, k, pow);
    ClampOnlyAdds(ps, |ps|, k, pow);
  }

  function ResultOf(ps: seq<PlayerInput>, i: nat, k: real, pow: real -> real): EloResult
    requires i < |ps| && PowerLike(pow)
  {
    var p, newElo := ps[i], NewElo(ps, i, k, pow);
    EloResult(p.userId, p.currentElo, newElo, newElo - p.currentElo, p.placement, p.score)
  }

  /** A result names its player, never goes below zero, and moves the rating by the rounded change unless
      that is where it is held. */
  lemma ResultMeaning(ps: seq<PlayerInput>, i: nat, k: real, pow: real -> real)
    requires i < |ps| && PowerLike(pow)
    ensures var r, p := ResultOf(ps, i, k, pow), ps[i];
            && r.userId == p.userId && r.currentElo == p.currentElo && r.placement == p.placement && r.score == p.score
            && r.delta == r.newElo - p.currentElo
            && (|ps| == 1 ==> r.delta == 0.0)
            && (|ps| > 1 ==>
                  && r.newElo >= 0.0
                  && (r.newElo > 0.0 ==> r.delta == Round(RawDelta(ps, i, k, pow)) as real)
                  && (r.newElo == 0.0 ==> r.delta >= Round(RawDelta(ps, i, k, pow)) as real))
  {
    hide RawDelta;
  }

  method CalculateMultiplayerElo(ps: seq<PlayerInput>, k: real, pow: real -> real) returns (results: seq<EloResult>)
    requires PowerLike(pow)
    ensures |results| == |ps|
    ensures forall i :: 0 <= i < |ps| ==> results[i] == ResultOf(ps, i, k, pow)
  {
    var n := |ps|;
    if n == 0 { return []; }
    if n == 1 {
      var p := ps[0];
      return [EloResult(p.userId, p.currentElo, p.currentElo, 0.0, p.placement, p.score)];
    }
    var kNorm := k / (n - 1) as real;
    results := [];
    for i := 0 to n
      invariant |results| == i
      invariant forall j :: 0 <= j < i ==> results[j] == ResultOf(ps, j, k, pow)
    {
      var expectedSum, actualSum := SumAgainst(ps, i, pow);
      var rawDelta := kNorm * (actualSum - expectedSum);
      assert rawDelta == RawDelta(ps, i, k, pow);
      var roundedDelta := Round(rawDelta);
      var moved := ps[i].currentElo + roundedDelta as real;
      var newElo := if moved < 0.0 then 0.0 else moved;
      results := results + [
        EloResult(ps[i].userId, ps[i].currentElo, newElo, newElo - ps[i].currentElo, ps[i].placement, ps[i].score)];
    }
  }

  /** The inner loop over opponents. */
  method SumAgainst(ps: seq<PlayerInput>, i: nat, pow: real -> real) returns (expectedSum: real, actualSum: real)
    requires i < |ps| && PowerLike(pow)
    ensures expectedSum == ExpectedAgainst(ps, i, |ps|, pow)
    ensures actualSum == ActualAgainst(ps, i, |ps|)
  {
    expectedSum, actualSum := 0.0, 0.0;
    for j := 0 to |ps|
      invariant expectedSum == ExpectedAgainst(ps, i, j, pow)
      invariant actualSum == ActualAgainst(ps, i, j)
    {
      if i == j { continue; }
      expectedSum := expectedSum + 1.0 / (1.0 + pow((ps[j].currentElo - ps[i].currentElo) / 400.0));
      if ps[i].placement < ps[j].placement {
        actualSum := actualSum + 1.0;
      } else if ps[i].placement == ps[j].placement {
        actualSum := actualSum + 0.5;
      }
    }
  }

  // Placements.

  datatype Standing = Standing(
    userId: string, score: int, avgResponseMs: Option<int>, survivedRounds: Option<int>,
    eliminatedInRound: Option<int>, isWinner: bool)

  datatype Placed = Placed(player: Standing, placement: nat)

  /** The winner id if it names a player; an empty id names none. */
  function EffectiveWinner(players: seq<Standing>, winnerId: Option<string>): Option<string> {
    if winnerId.Some? && winnerId.value != "" && exists i :: 0 <= i < |players| && players[i].userId == winnerId.value
    then winnerId else None
  }

  predicate IsWinner(p: Standing, winner: Option<string>) {
    if winner.Some? then p.userId == winner.value else p.isWinner
  }

  function RoundsOf(p: Standing): int {
    if p.survivedRounds.Some? then p.survivedRounds.value
    else if p.eliminatedInRound.Some? then p.eliminatedInRound.value
    else 0
  }

  /** A player without a response time is slower than any with one. */
  predicate Faster(a: Option<int>, b: Option<int>) {
    a.Some? && (b.None? || a.value < b.value)
  }

  /** The comparator does not put b before a; collate is `localeCompare <= 0`. */
  predicate RanksAtMost(a: Standing, b: Standing, winner: Option<string>, collate: (string, string) -> bool) {
    if IsWinner(a, winner) != IsWinner(b, winner) then IsWinner(a, winner)
    else if RoundsOf(a) != RoundsOf(b) then RoundsOf(b) < RoundsOf(a)
    else if a.score != b.score then b.score < a.score
    else if a.avgResponseMs != b.avgResponseMs then Faster(a.avgResponseMs, b.avgResponseMs)
    else collate(a.userId, b.userId)
  }

  function Ranking(winner: Option<string>, collate: (string, string) -> bool): (Standing, Standing) -> bool {
    (a, b) => RanksAtMost(a, b, winner, collate)
  }

  function AssignPlacements(players: seq<Standing>, winnerId: Option<string>, collate: (string, string) -> bool): (r: seq<Placed>)
    ensures |r| == |players|
  {
    var sorted := Sorting.Sort(players, Ranking(EffectiveWinner(players, winnerId), collate));
    seq(|sorted|, i requires 0 <= i < |sorted| => Placed(sorted[i], i + 1))
  }

  lemma RankingIsTotal(winner: Option<string>, collate: (string, string) -> bool)
    requires Sorting.TotalPreorder(collate)
    ensures Sorting.TotalPreorder(Ranking(winner, collate))
  {
  }

  /** The players of a placing, in its order. */
  function PlayersOf(r: seq<Placed>): seq<Standing> {
    seq(|r|, i requires 0 <= i < |r| => r[i].player)
  }

  /** Everyone is placed once, places run 1, 2, 3, … and no one is placed before a player who
      outranks them: a survivor of more rounds, a higher score among equals, a faster answer. */
  lemma PlacementsFollowRanking(
      players: seq<Standing>, winnerId: Option<string>, collate: (string, string) -> bool, i: nat, j: nat)
    requires Sorting.TotalPreorder(collate) && i < j < |players|
    ensures var r, w := AssignPlacements(players, winnerId, collate), EffectiveWinner(players, winnerId);
            var a, b := r[i].player, r[j].player;
            && multiset(PlayersOf(r)) == multiset(players)
            && r[i].placement == i + 1 && r[j].placement == j + 1
            && !(IsWinner(b, w) && !IsWinner(a, w))
            && (IsWinner(a, w) == IsWinner(b, w) ==>
                  && RoundsOf(b) <= RoundsOf(a)
                  && (RoundsOf(b) == RoundsOf(a) ==>
                        && b.score <= a.score
                        && (b.score == a.score ==> !Faster(b.avgResponseMs, a.avgResponseMs))))
  {
    var r, w := AssignPlacements(players, winnerId, collate), EffectiveWinner(players, winnerId);
    var sorted := Sorting.Sort(players, Ranking(w, collate));
    RankingIsTotal(w, collate);
    Sorting.SortSorts(players, Ranking(w, collate));
    assert PlayersOf(r) == sorted;
    assert Ranking(w, collate)(sorted[i], sorted[j]);
  }

  /** Read from the fields: nobody stands behind a player with fewer rounds, among the same rounds behind
      one with a lower score, among those behind a slower one.  A player out in round r has survived as
      if for r rounds, one with neither number for none, and one without a time is the slowest. */
  lemma PlacementsReadFields(
      players: seq<Standing>, winnerId: Option<string>, collate: (string, string) -> bool, i: nat, j: nat)
    requires Sorting.TotalPreorder(collate) && i < j < |players|
    ensures var r := AssignPlacements(players, winnerId, collate);
            var a, b := r[i].player, r[j].player;
            && (winnerId.Some? && winnerId.value != "" && (exists k :: 0 <= k < |players| && players[k].userId == winnerId.value) ==>
                  (b.userId == winnerId.value ==> a.userId == winnerId.value))
            && (winnerId.None? || winnerId.value == "" ==> (b.isWinner ==> a.isWinner))
            && ((winnerId.None? || winnerId.value == "") && a.isWinner == b.isWinner ==>
                  && (a.survivedRounds.Some? && b.survivedRounds.Some? ==> b.survivedRounds.value <= a.survivedRounds.value)
                  && (a.survivedRounds.Some? && b.survivedRounds.None? && b.eliminatedInRound.Some? ==>
                        b.eliminatedInRound.value <= a.survivedRounds.value)
                  && (a.survivedRounds.None? && a.eliminatedInRound.Some? && b.survivedRounds.None? && b.eliminatedInRound.Some? ==>
                        b.eliminatedInRound.value <= a.eliminatedInRound.value)
                  && (a.survivedRounds.None? && a.eliminatedInRound.Some? && b.survivedRounds.Some? ==>
                        b.survivedRounds.value <= a.eliminatedInRound.value)
                  && (a.survivedRounds.None? && a.eliminatedInRound.None? && b.survivedRounds.Some? ==> b.survivedRounds.value <= 0)
                  && (a.survivedRounds == b.survivedRounds && a.eliminatedInRound == b.eliminatedInRound ==>
                        && b.score <= a.score
                        && (b.score == a.score && b.avgResponseMs.Some? ==>
                              a.avgResponseMs.Some? && a.avgResponseMs.value <= b.avgResponseMs.value)))
  {
    PlacementsFollowRanking(players, winnerId, collate, i, j);
    hide AssignPlacements;
  }

  /** A winner id that names a player puts a player of that name first, whatever the scores. */
  lemma WinnerIsPlacedFirst(players: seq<Standing>, winnerId: Option<string>, collate: (string, string) -> bool)
    requires Sorting.TotalPreorder(collate)
    requires winnerId.Some? && winnerId.value != "" && exists i :: 0 <= i < |players| && players[i].userId == winnerId.value
    ensures var r := AssignPlacements(players, winnerId, collate);
            r != [] && r[0].player.userId == winnerId.value
  {
    var w := EffectiveWinner(players, winnerId);
    var k :| 0 <= k < |players| && players[k].userId == winnerId.value;
    RankingIsTotal(w, collate);
    Sorting.HeadIsLeast(players, Ranking(w, collate), players[k]);
    assert Ranking(w, collate)(Sorting.Sort(players, Ranking(w, collate))[0], players[k]);
  }
}
