/** What a float draws: the n-th part of the unit interval it falls in, at every draw the game makes
    (packages/game-core/src/card-engine.ts, apps/api/src/modules/match/match-card-targeting.ts,
    apps/api/prisma/seed-daily.ts, packages/game-core/src/class-engine.ts,
    packages/game-core/src/topic-voting.ts). */
module FairDraws {
  import opened MatchTypes
  import opened Wrappers
  import opened Basics
  import opened Cards
  import opened CardEngine
  import ClassEngine
  import Draws
  import Mulberry
  import Sorting
  import Text
  import TopicVoting

  /** The float k / 2^32 lies in the i-th of n equal parts of [0, 1). */
  predicate Hits(k: Word, i: nat, n: nat)
    requires n > 0
  {
    i as real / n as real <= k as real / 4294967296.0 < (i + 1) as real / n as real
  }

  lemma ScaledDown(i: nat, k: nat, n: nat, m: nat)
    requires n > 0 && m > 0 && i * m <= k * n < (i + 1) * m
    ensures i as real / n as real <= k as real / m as real < (i + 1) as real / n as real
  {
    var x, y, z := i as real / n as real, k as real / m as real, (i + 1) as real / n as real;
    var nm := n as real * m as real;
    assert x * nm == i as real * m as real == (i * m) as real;
    assert y * nm == k as real * n as real == (k * n) as real;
    assert z * nm == (i + 1) as real * m as real == ((i + 1) * m) as real;
    assert nm > 0.0;
    LessByFactor(x, y, z, nm);
  }

  lemma LessByFactor(x: real, y: real, z: real, c: real)
    requires c > 0.0 && x * c <= y * c < z * c
    ensures x <= y < z
  {
    assert x == (x * c) / c && y == (y * c) / c && z == (z * c) / c;
  }

  /** Of n elements, the float draws the one whose part it falls in. */
  lemma IndexMeaning(k: Word, n: nat)
    requires n > 0
    ensures Hits(k, IndexOf(k, n), n)
  {
    var i, p := IndexOf(k, n), k * n;
    assert i * Mulberry.MODULUS <= p < (i + 1) * Mulberry.MODULUS by {
      assert p == Mulberry.MODULUS * (p / Mulberry.MODULUS) + p % Mulberry.MODULUS;
    }
    ScaledDown(i, k, n, Mulberry.MODULUS);
  }

  /** No two parts meet, so the part a float falls in is the only one. */
  lemma HitsOnce(k: Word, i: nat, j: nat, n: nat)
    requires n > 0 && Hits(k, i, n) && Hits(k, j, n)
    ensures i == j
  {
    var u := k as real / 4294967296.0;
    assert i as real <= u * n as real < (i + 1) as real by { Unscale(i, u, n); }
    assert j as real <= u * n as real < (j + 1) as real by { Unscale(j, u, n); }
  }

  lemma Unscale(i: nat, u: real, n: nat)
    requires n > 0 && i as real / n as real <= u < (i + 1) as real / n as real
    ensures i as real <= u * n as real < (i + 1) as real
  {
    var c := n as real;
    assert (i as real / c) * c == i as real;
    assert ((i + 1) as real / c) * c == (i + 1) as real;
    assert (i as real / c) * c <= u * c < ((i + 1) as real / c) * c;
  }

  lemma IndexGrows(j: Word, k: Word, n: nat)
    requires n > 0 && j <= k
    ensures IndexOf(j, n) <= IndexOf(k, n)
  {
    assert j * n <= k * n;
  }

  /** The first word that draws position i. */
  function FirstWord(i: nat, n: nat): nat
    requires i < n
  {
    (i * Mulberry.MODULUS + n - 1) / n
  }

  /** Up to 2^32 elements, every position is drawn by some word. */
  lemma EveryIndexIsDrawn(i: nat, n: nat)
    requires i < n <= Mulberry.MODULUS
    ensures FirstWord(i, n) < Mulberry.MODULUS
    ensures IndexOf(FirstWord(i, n), n) == i
  {
    var m, k := Mulberry.MODULUS, FirstWord(i, n);
    var t := i * m + n - 1;
    assert t == n * k + t % n;
    assert i * m <= k * n <= t;
    assert (i + 1) * m == i * m + m;
    assert k * n < (i + 1) * m <= n * m by { Scaled(i + 1, n, m); }
    CancelLess(k, m, n);
    QuotientIs(k * n, i, m);
  }

  lemma Scaled(x: int, y: int, c: int)
    requires c >= 0 && x <= y
    ensures x * c <= y * c
  {
  }

  lemma CancelLess(x: int, y: int, c: int)
    requires c > 0 && x * c < y * c
    ensures x < y
  {
    if y <= x { Scaled(y, x, c); }
  }

  lemma QuotientIs(p: int, i: int, m: int)
    requires m > 0 && i * m <= p < (i + 1) * m
    ensures p / m == i
  {
    var q := p / m;
    assert q * m <= p < (q + 1) * m;
    CancelLess(q, i + 1, m);
    CancelLess(i, q + 1, m);
  }

  // ---- the trace of an offer ----

  /** Each tier lists, in canonical order, the cards of that tier among those left. */
  ghost predicate Lists(rem: Remaining, left: multiset<CardId>) {
    forall tier :: IsTierOf(rem.At(tier), tier, left)
  }

  ghost predicate IsTierOf(list: seq<CardId>, tier: Tier, left: multiset<CardId>) {
    && Sorting.SortedBy(list, CanonicalOrder())
    && forall c :: multiset(list)[c] == if TierOf(c) == tier then left[c] else 0
  }

  function CardsOf(steps: seq<SamplingStep>): seq<CardId> {
    if steps == [] then []
    else (if steps[0].CardStep? then [steps[0].drawn] else []) + CardsOf(steps[1..])
  }

  lemma {:induction false} CardsOfConcat(s: seq<SamplingStep>, t: seq<SamplingStep>)
    ensures CardsOf(s + t) == CardsOf(s) + CardsOf(t)
  {
    if s == [] {
      assert s + t == t;
    } else {
      assert (s + t)[0] == s[0] && (s + t)[1..] == s[1..] + t;
      CardsOfConcat(s[1..], t);
      var head := if s[0].CardStep? then [s[0].drawn] else [];
      assert head + (CardsOf(s[1..]) + CardsOf(t)) == (head + CardsOf(s[1..])) + CardsOf(t);
    }
  }

  /** A tier pick records tiers alone; the last one is the tier picked, as its float selects it. */
  lemma {:induction false} TierSteps(a: Word, rem: Remaining, retry: bool)
    requires rem.Total() > 0
    ensures var p := PickTier(a, rem, retry);
            && p.steps != [] && CardsOf(p.steps) == []
            && (forall j :: 0 <= j < |p.steps| ==> p.steps[j].TierStep? && p.steps[j].tier == SelectTier(p.steps[j].float))
            && p.steps[|p.steps| - 1].tier == p.tier
    decreases CallsLeft(a, rem)
  {
    hide Mulberry.Mix, SelectTier, CallsLeft;
    PickTierStep(a, rem, retry);
    var next := Mulberry.Advance(a);
    var tier := SelectTier(Mulberry.Mix(next));
    if rem.At(tier) == [] {
      MissComesNearer(a, rem);
      TierSteps(next, rem, true);
    }
  }

  /** A tier step is marked as a retry exactly if it missed or follows a miss. */
  ghost predicate Flagged(steps: seq<SamplingStep>) {
    forall j :: 0 <= j < |steps| ==> FlaggedAt(steps, j)
  }

  predicate FlaggedAt(steps: seq<SamplingStep>, j: nat)
    requires j < |steps|
  {
    steps[j].TierStep? ==> (steps[j].retry <==> Misses(steps, j) || (j > 0 && steps[j - 1].TierStep?))
  }

  /** A tier step without a card after it. */
  predicate Misses(steps: seq<SamplingStep>, j: nat) {
    j + 1 < |steps| && steps[j].TierStep? && steps[j + 1].TierStep?
  }

  lemma {:induction false} TierFlags(a: Word, rem: Remaining, retry: bool)
    requires rem.Total() > 0
    ensures var p := PickTier(a, rem, retry);
            forall j :: 0 <= j < |p.steps| ==> p.steps[j].TierStep? && (p.steps[j].retry <==> retry || |p.steps| > 1)
    decreases CallsLeft(a, rem)
  {
    hide Mulberry.Mix, SelectTier, CallsLeft;
    PickTierStep(a, rem, retry);
    var next := Mulberry.Advance(a);
    if rem.At(SelectTier(Mulberry.Mix(next))) == [] {
      MissComesNearer(a, rem);
      TierFlags(next, rem, true);
    }
  }

  lemma OneDrawIsFlagged(tiers: seq<SamplingStep>, card: SamplingStep)
    requires tiers != [] && card.CardStep?
    requires forall j :: 0 <= j < |tiers| ==> tiers[j].TierStep? && (tiers[j].retry <==> |tiers| > 1)
    ensures Flagged(tiers + [card])
  {
    var all := tiers + [card];
    forall j | 0 <= j < |all| && all[j].TierStep? ensures FlaggedAt(all, j) {
      assert all[j] == tiers[j];
      assert j + 1 < |tiers| ==> all[j + 1] == tiers[j + 1];
      assert j > 0 ==> all[j - 1] == tiers[j - 1];
    }
  }

  lemma DrawIsFlagged(a: Word, rem: Remaining)
    requires rem.Total() > 0
    ensures var steps := DrawOne(a, rem).steps; Flagged(steps) && steps != [] && steps[|steps| - 1].CardStep?
  {
    hide Mulberry.Mix, SelectTier, IndexOf, PickTier, Without, Flagged;
    TierSteps(a, rem, false);
    TierFlags(a, rem, false);
    var p := PickTier(a, rem, false);
    OneDrawIsFlagged(p.steps, DrawOne(a, rem).steps[|p.steps|]);
  }

  lemma FlaggedConcat(s: seq<SamplingStep>, t: seq<SamplingStep>)
    requires Flagged(s) && Flagged(t) && s != [] && s[|s| - 1].CardStep?
    ensures Flagged(s + t)
  {
    var all := s + t;
    forall j | 0 <= j < |all| ensures FlaggedAt(all, j) {
      if j < |s| {
        assert FlaggedAt(s, j);
        assert j + 1 < |s| ==> all[j + 1] == s[j + 1];
      } else {
        var k := j - |s|;
        assert FlaggedAt(t, k);
        assert k + 1 < |t| ==> all[j + 1] == t[k + 1];
        assert all[j - 1] == if k > 0 then t[k - 1] else s[|s| - 1];
      }
    }
  }

  lemma OfferSteps(a: Word, rem: Remaining, draws: nat)
    requires draws != 0 && rem.Total() != 0
    ensures var d := DrawOne(a, rem);
            OfferFrom(a, rem, draws).steps == d.steps + OfferFrom(d.a, d.rem, draws - 1).steps
  {
    hide DrawOne;
  }

  lemma EmptyOffer(a: Word, rem: Remaining, draws: nat)
    requires draws == 0 || rem.Total() == 0
    ensures OfferFrom(a, rem, draws).steps == [] && Flagged([])
  {
  }

  /** The retries an offer records are the tiers it drew in vain and the draws after them. */
  lemma {:induction false} RetriesAreFlagged(a: Word, rem: Remaining, draws: nat)
    ensures Flagged(OfferFrom(a, rem, draws).steps)
    decreases draws
  {
    hide DrawOne, Flagged, OfferFrom;
    if draws == 0 || rem.Total() == 0 {
      EmptyOffer(a, rem, draws);
    } else {
      var d := DrawOne(a, rem);
      OfferSteps(a, rem, draws);
      DrawIsFlagged(a, rem);
      RetriesAreFlagged(d.a, d.rem, draws - 1);
      FlaggedConcat(d.steps, OfferFrom(d.a, d.rem, draws - 1).steps);
    }
  }

  lemma {:induction false} SortedSlices(s: seq<CardId>, i: nat)
    requires i < |s| && Sorting.SortedBy(s, CanonicalOrder())
    ensures Sorting.SortedBy(Without(s, i), CanonicalOrder())
  {
    var r := Without(s, i);
    assert r == s[..i] + s[i + 1..];
    forall j | 0 <= j < |r| ensures r[j] == s[if j < i then j else j + 1] {
    }
  }

  lemma DrawnLists(a: Word, rem: Remaining, left: multiset<CardId>)
    requires rem.Total() > 0 && Lists(rem, left)
    ensures var d := DrawOne(a, rem); d.card in left && Lists(d.rem, left - multiset{d.card})
  {
    hide Mulberry.Mix, IndexOf, PickTier, Sorting.SortedBy, Without;
    var p := PickTier(a, rem, false);
    var list := rem.At(p.tier);
    var i := IndexOf(Mulberry.Mix(Mulberry.Advance(p.a)), |list|);
    var d := DrawOne(a, rem);
    assert IsTierOf(list, p.tier, left);
    assert list[i] in multiset(list);
    SortedSlices(list, i);
    forall tier ensures IsTierOf(d.rem.At(tier), tier, left - multiset{d.card}) {
      assert IsTierOf(rem.At(tier), tier, left);
      assert d.rem.At(tier) == if tier == p.tier then Without(list, i) else rem.At(tier);
    }
  }

  /** What a card step of a trace says. */
  ghost predicate Explains(tierLeft: seq<CardId>, left: multiset<CardId>, steps: seq<SamplingStep>, j: nat)
    requires j < |steps| && steps[j].CardStep?
  {
    var step := steps[j];
    && IsTierOf(tierLeft, TierOf(step.drawn), left)
    && step.cardIndex < |tierLeft| && step.drawn == tierLeft[step.cardIndex]
    && Hits(step.float, step.cardIndex, |tierLeft|)
    && j > 0 && steps[j - 1].TierStep? && SelectTier(steps[j - 1].float) == TierOf(step.drawn)
  }

  lemma FirstCardStep(a: Word, rem: Remaining, left: multiset<CardId>)
    requires rem.Total() > 0 && Lists(rem, left)
    ensures var d, n := DrawOne(a, rem), |PickTier(a, rem, false).steps|;
            && |d.steps| == n + 1 && CardsOf(d.steps) == [d.card] && CardsOf(d.steps[..n]) == []
            && (forall j :: 0 <= j < n ==> d.steps[j].TierStep?)
            && d.steps[n].CardStep? && d.steps[n].drawn == d.card
            && Explains(rem.At(TierOf(d.card)), left, d.steps, n)
  {
    hide Mulberry.Mix, SelectTier, IndexOf, PickTier, Hits, Sorting.SortedBy;
    var p := PickTier(a, rem, false);
    var list := rem.At(p.tier);
    var k := Mulberry.Mix(Mulberry.Advance(p.a));
    TierSteps(a, rem, false);
    IndexMeaning(k, |list|);
    CardsOfConcat(p.steps, [CardStep(k, IndexOf(k, |list|), list[IndexOf(k, |list|)])]);
    assert IsTierOf(list, p.tier, left);
    assert list[IndexOf(k, |list|)] in multiset(list);
    assert DrawOne(a, rem).steps[..|p.steps|] == p.steps;
  }

  /** The cards of an offer are the ones its trace draws. */
  lemma {:induction false} TraceHoldsOffer(a: Word, rem: Remaining, left: multiset<CardId>, draws: nat)
    requires Lists(rem, left)
    ensures var o := OfferFrom(a, rem, draws); CardsOf(o.steps) == o.cards
    decreases draws
  {
    hide DrawOne, Lists, Explains;
    if draws != 0 && rem.Total() != 0 {
      var d := DrawOne(a, rem);
      FirstCardStep(a, rem, left);
      DrawnLists(a, rem, left);
      TraceHoldsOffer(d.a, d.rem, left - multiset{d.card}, draws - 1);
      CardsOfConcat(d.steps, OfferFrom(d.a, d.rem, draws - 1).steps);
    }
  }

  lemma ExplainsInside(tierLeft: seq<CardId>, left: multiset<CardId>, s: seq<SamplingStep>, t: seq<SamplingStep>, j: nat)
    requires j < |t| && t[j].CardStep? && Explains(tierLeft, left, t, j)
    ensures Explains(tierLeft, left, t + s, j) && Explains(tierLeft, left, s + t, |s| + j)
  {
    hide IsTierOf, Hits, SelectTier, TierOf;
    assert (s + t)[|s| + j] == t[j];
    assert j > 0 ==> (s + t)[|s| + j - 1] == t[j - 1];
  }

  lemma LeftAfter(left: multiset<CardId>, c: CardId, first: seq<SamplingStep>, s: seq<SamplingStep>)
    requires CardsOf(first) == [c]
    ensures left - multiset{c} - multiset(CardsOf(s)) == left - multiset(CardsOf(first + s))
  {
    CardsOfConcat(first, s);
    var later := CardsOf(s);
    assert multiset([c] + later) == multiset{c} + multiset(later);
  }

  /** The tier list that explains step j of a trace drawn from `left`. */
  ghost predicate ExplainedBy(tierLeft: seq<CardId>, left: multiset<CardId>, steps: seq<SamplingStep>, j: nat) {
    j < |steps| && steps[j].CardStep? && Explains(tierLeft, left - multiset(CardsOf(steps[..j])), steps, j)
  }

  lemma FirstExplained(tierLeft: seq<CardId>, left: multiset<CardId>, first: seq<SamplingStep>, rest: seq<SamplingStep>, n: nat)
    requires n < |first| && first[n].CardStep? && CardsOf(first[..n]) == [] && Explains(tierLeft, left, first, n)
    ensures ExplainedBy(tierLeft, left, first + rest, n)
  {
    ExplainsInside(tierLeft, left, rest, first, n);
    hide Explains, CardsOf;
    assert (first + rest)[..n] == first[..n];
    assert left - multiset{} == left;
  }

  lemma LaterExplained(tierLeft: seq<CardId>, left: multiset<CardId>, c: CardId, first: seq<SamplingStep>, rest: seq<SamplingStep>, k: nat)
    requires CardsOf(first) == [c] && ExplainedBy(tierLeft, left - multiset{c}, rest, k)
    ensures ExplainedBy(tierLeft, left, first + rest, |first| + k)
  {
    hide Explains, CardsOf;
    LeftAfter(left, c, first, rest[..k]);
    assert (first + rest)[..|first| + k] == first + rest[..k];
    ExplainsInside(tierLeft, left - multiset{c} - multiset(CardsOf(rest[..k])), first, rest, k);
  }

  lemma {:induction false} CardStepExplained(a: Word, rem: Remaining, left: multiset<CardId>, draws: nat, j: nat)
    returns (tierLeft: seq<CardId>)
    requires Lists(rem, left)
    requires var steps := OfferFrom(a, rem, draws).steps; j < |steps| && steps[j].CardStep?
    ensures ExplainedBy(tierLeft, left, OfferFrom(a, rem, draws).steps, j)
    decreases draws
  {
    hide DrawOne, Lists, PickTier, CardsOf, Explains, ExplainedBy;
    var d := DrawOne(a, rem);
    var rest := OfferFrom(d.a, d.rem, draws - 1);
    assert OfferFrom(a, rem, draws).steps == d.steps + rest.steps;
    FirstCardStep(a, rem, left);
    DrawnLists(a, rem, left);
    var n := |d.steps| - 1;
    if j <= n {
      tierLeft := rem.At(TierOf(d.card));
      FirstExplained(tierLeft, left, d.steps, rest.steps, n);
    } else {
      tierLeft := CardStepExplained(d.a, d.rem, left - multiset{d.card}, draws - 1, j - |d.steps|);
      LaterExplained(tierLeft, left, d.card, d.steps, rest.steps, j - |d.steps|);
    }
  }

  lemma PoolLists(pool: seq<CardId>)
    ensures Lists(Partition(pool), multiset(pool))
  {
    CanonicalOrderIsTotal();
    forall tier ensures IsTierOf(Partition(pool).At(tier), tier, multiset(pool)) {
      Sorting.SortSorts(InTier(pool, tier), CanonicalOrder());
      forall c ensures multiset(Partition(pool).At(tier))[c] == if TierOf(c) == tier then multiset(pool)[c] else 0 {
        TierCountsFromPool(pool, tier, c);
      }
    }
  }

  /** Over the trace of any offer: a card float k / 2^32 that recorded index i among the n cards left of
      the tier just drawn satisfies i/n <= k/2^32 < (i+1)/n, and the card is the i-th of those n in
      canonical order, the cards left being the pool without the ones drawn before. */
  lemma CardStepMeaning(seed: Word, pool: seq<CardId>, j: nat) returns (tierLeft: seq<CardId>)
    requires var steps := SampleOffer(seed, pool).steps; j < |steps| && steps[j].CardStep?
    ensures var o := SampleOffer(seed, pool);
            var step := o.steps[j];
            var left := multiset(pool) - multiset(CardsOf(o.steps[..j]));
            && CardsOf(o.steps) == o.cards
            && Sorting.SortedBy(tierLeft, CanonicalOrder())
            && (forall c :: multiset(tierLeft)[c] == if TierOf(c) == TierOf(step.drawn) then left[c] else 0)
            && step.cardIndex < |tierLeft| && step.drawn == tierLeft[step.cardIndex]
            && step.cardIndex as real / |tierLeft| as real <= step.float as real / 4294967296.0
                 < (step.cardIndex + 1) as real / |tierLeft| as real
            && j > 0 && o.steps[j - 1].TierStep? && SelectTier(o.steps[j - 1].float) == TierOf(step.drawn)
  {
    hide OfferFrom, Partition, Lists, SelectTier;
    PoolLists(pool);
    TraceHoldsOffer(seed, Partition(pool), multiset(pool), SAMPLE_OFFER_COUNT);
    tierLeft := CardStepExplained(seed, Partition(pool), multiset(pool), SAMPLE_OFFER_COUNT, j);
  }

  lemma PoolsAreSorted()
    ensures Sorting.SortedBy(ClassPool(Attack), CanonicalOrder())
    ensures Sorting.SortedBy(ClassPool(Defense), CanonicalOrder())
  {
    assert forall i :: 0 <= i < 8 ==> ClassPool(Attack)[i] == CB(i + 1);
    assert forall i :: 0 <= i < 10 ==> ClassPool(Defense)[i] == TN(i + 1);
  }

  lemma BothPoolsAreSorted(attack: seq<CardId>, defense: seq<CardId>)
    requires Sorting.SortedBy(attack, CanonicalOrder()) && Sorting.SortedBy(defense, CanonicalOrder())
    requires (forall c :: c in attack ==> c.CB?) && (forall c :: c in defense ==> c.TN?)
    ensures Sorting.SortedBy(attack + defense, CanonicalOrder())
  {
    var all := attack + defense;
    forall i, j | 0 <= i < j < |all| ensures CanonicalOrder()(all[i], all[j]) {
      assert i < |attack| <= j ==> attack[i] in attack && defense[j - |attack|] in defense;
    }
  }

  lemma SortedIsSorted(pool: seq<CardId>, other: seq<CardId>)
    requires Sorting.SortedBy(pool, CanonicalOrder()) && multiset(pool) == multiset(other)
    ensures Sorting.Sort(other, CanonicalOrder()) == pool
  {
    hide CanonicalOrder;
    CanonicalOrderIsTotal();
    Sorting.SortSorts(other, CanonicalOrder());
    Sorting.SortedUnique(Sorting.Sort(other, CanonicalOrder()), pool, CanonicalOrder());
  }

  /** The catalogue is listed in canonical order: by number, not by digits, and attack before defence. */
  lemma CatalogueIsInOrder(c: ClassId)
    ensures Sorting.Sort(ClassPool(c), CanonicalOrder()) == ClassPool(c)
    ensures Sorting.Sort(ClassPool(Defense) + ClassPool(Attack), CanonicalOrder()) == ClassPool(Attack) + ClassPool(Defense)
  {
    hide ClassPool, Sorting.Sort, Sorting.SortedBy, CanonicalOrder;
    PoolsAreSorted();
    BothPoolsAreSorted(ClassPool(Attack), ClassPool(Defense));
    SortedIsSorted(ClassPool(c), ClassPool(c));
    SortedIsSorted(ClassPool(Attack) + ClassPool(Defense), ClassPool(Defense) + ClassPool(Attack));
  }

  // ---- draws without replacement ----

  lemma WithoutKeepsOrder<T(!new)>(s: seq<T>, i: nat, le: (T, T) -> bool)
    requires i < |s| && Sorting.SortedBy(s, le)
    ensures Sorting.SortedBy(Without(s, i), le)
  {
    var r := Without(s, i);
    assert r == s[..i] + s[i + 1..];
    forall j | 0 <= j < |r| ensures r[j] == s[if j < i then j else j + 1] {
    }
  }

  lemma {:induction false} LeftKeepsOrder<T(!new)>(items: seq<T>, count: nat, rolls: Mulberry.Rolls, le: (T, T) -> bool)
    requires count <= |items| && Sorting.SortedBy(items, le)
    ensures Sorting.SortedBy(Draws.DrawFrom(items, count, rolls).left, le)
  {
    hide IndexOf, Sorting.SortedBy, Without;
    if count != 0 {
      LeftKeepsOrder(items, count - 1, rolls, le);
      var left := Draws.DrawFrom(items, count - 1, rolls).left;
      WithoutKeepsOrder(left, IndexOf(rolls(count - 1), |left|), le);
    }
  }

  lemma DrawStep<T>(items: seq<T>, n: nat, rolls: Mulberry.Rolls)
    requires n < |items|
    ensures var d := Draws.DrawFrom(items, n, rolls);
            Draws.DrawFrom(items, n + 1, rolls).picked == d.picked + [d.left[IndexOf(rolls(n), |d.left|)]]
  {
    hide IndexOf, Without;
  }

  lemma PrefixStays<T>(s: seq<T>, x: T, m: nat)
    requires m <= |s|
    ensures (s + [x])[..m] == s[..m]
  {
  }

  lemma {:induction false} PicksGrow<T>(items: seq<T>, m: nat, n: nat, rolls: Mulberry.Rolls)
    requires m <= n <= |items|
    ensures Draws.DrawFrom(items, n, rolls).picked[..m] == Draws.DrawFrom(items, m, rolls).picked
  {
    hide IndexOf, Without, Draws.DrawFrom;
    if m < n {
      PicksGrow(items, m, n - 1, rolls);
      DrawStep(items, n - 1, rolls);
      var d := Draws.DrawFrom(items, n - 1, rolls);
      PrefixStays(d.picked, d.left[IndexOf(rolls(n - 1), |d.left|)], m);
    }
  }

  /** The n-th pick from an ordered list: the one its float hits among those not picked before, which
      are still in order. */
  ghost predicate Picks<T(!new)>(items: seq<T>, picked: seq<T>, n: nat, k: Word, left: seq<T>, i: nat, le: (T, T) -> bool)
    requires n < |picked|
  {
    && Sorting.SortedBy(left, le) && multiset(left) == multiset(items) - multiset(picked[..n])
    && i < |left| && picked[n] == left[i] && Hits(k, i, |left|)
  }

  /** Position n of a list whose first n + 1 elements end in x. */
  lemma NextPick<T>(picked: seq<T>, first: seq<T>, x: T)
    requires |first| < |picked| && picked[..|first| + 1] == first + [x]
    ensures picked[|first|] == x && picked[..|first|] == first
  {
    assert picked[|first|] == picked[..|first| + 1][|first|];
    assert picked[..|first|] == picked[..|first| + 1][..|first|];
  }

  lemma Remainder<T>(left: multiset<T>, first: multiset<T>, items: multiset<T>)
    requires first + left == items
    ensures left == items - first
  {
  }

  lemma DrawMeaning<T(!new)>(items: seq<T>, count: nat, rolls: Mulberry.Rolls, n: nat, le: (T, T) -> bool)
    returns (left: seq<T>, i: nat)
    requires n < count <= |items| && Sorting.SortedBy(items, le)
    ensures Picks(items, Draws.DrawFrom(items, count, rolls).picked, n, rolls(n), left, i, le)
  {
    hide Sorting.SortedBy, Hits, Without, IndexOf, Draws.DrawFrom;
    var d := Draws.DrawFrom(items, n, rolls);
    left, i := d.left, IndexOf(rolls(n), |d.left|);
    LeftKeepsOrder(items, n, rolls, le);
    IndexMeaning(rolls(n), |left|);
    DrawStep(items, n, rolls);
    PicksGrow(items, n + 1, count, rolls);
    NextPick(Draws.DrawFrom(items, count, rolls).picked, d.picked, left[i]);
    Remainder(multiset(left), multiset(d.picked), multiset(items));
  }

  function Ascending(): (nat, nat) -> bool {
    (a: nat, b: nat) => a <= b
  }

  lemma {:induction false} WrongIndexesAscend(options: seq<string>, correct: string)
    ensures Sorting.SortedBy(Draws.WrongIndexes(options, correct), Ascending())
  {
    if options != [] {
      WrongIndexesAscend(options[..|options| - 1], correct);
    }
  }

  /** The n-th disabled option is the wrong position the n-th float hits, among those still enabled, in
      ascending order. */
  lemma OptionDrawMeaning(count: nat, durationMs: int, options: seq<string>, correct: string, rolls: Mulberry.Rolls, n: nat)
    returns (left: seq<nat>, i: nat)
    requires n < Min(count, |Draws.WrongIndexes(options, correct)|)
    ensures var e := Draws.OptionDisabled(count, durationMs, options, correct, rolls);
            && n < |e.indexes|
            && e == OptionDisable(e.indexes, count, |Draws.WrongIndexes(options, correct)|, durationMs)
            && Picks(Draws.WrongIndexes(options, correct), e.indexes, n, rolls(n), left, i, Ascending())
  {
    var wrong := Draws.WrongIndexes(options, correct);
    WrongIndexesAscend(options, correct);
    left, i := DrawMeaning(wrong, Min(count, |wrong|), rolls, n, Ascending());
  }

  /** The n-th destroyed card is the one the n-th float hits among the cards still held, in canonical
      order. */
  lemma HandDrawMeaning(count: nat, hand: seq<CardId>, rolls: Mulberry.Rolls, n: nat) returns (left: seq<CardId>, i: nat)
    requires n < Min(count, |hand|)
    ensures var e := Draws.HandDestroyed(count, hand, rolls);
            && n < |e.destroyed|
            && e == HandDestroy(count, |hand|, e.destroyed)
            && Picks(hand, e.destroyed, n, rolls(n), left, i, CanonicalOrder())
  {
    hide Sorting.Sort;
    var sorted := Sorting.Sort(hand, CanonicalOrder());
    CanonicalOrderIsTotal();
    Sorting.SortSorts(hand, CanonicalOrder());
    left, i := DrawMeaning(sorted, Min(count, |hand|), rolls, n, CanonicalOrder());
  }

  /** The n-th player an area card reaches is the one the n-th float hits among the eligible players not
      reached yet, in order of their ids; any other card reaches its target, or its player without
      one, if eligible. */
  lemma TargetMeaning(
    card: CardId, playedBy: string, target: Option<string>,
    order: seq<string>, players: map<string, PlayerInfo>, rolls: Mulberry.Rolls, n: nat)
    returns (left: seq<string>, i: nat)
    requires Cards.InCatalog(card)
    ensures var r := Draws.ExpandTargets(card, playedBy, target, order, players, rolls);
            && (Cards.IsAoeCard(card) && n < |r| ==>
                  Picks(Draws.Keep(order, players, playedBy), r, n, rolls(n), left, i, ClassEngine.IdOrder()))
            && (!Cards.IsAoeCard(card) ==>
                  var id := if target.Some? then target.value else playedBy;
                  r == if id in players && players[id].status == Active then [id] else [])
  {
    hide Sorting.Sort;
    var kept := Draws.Keep(order, players, playedBy);
    var count := Min(Cards.TargetCount(card), |kept|);
    if Cards.IsAoeCard(card) && n < count {
      var sorted := Sorting.Sort(kept, ClassEngine.IdOrder());
      ClassEngine.IdOrderIsTotal();
      Sorting.SortSorts(kept, ClassEngine.IdOrder());
      left, i := DrawMeaning(sorted, count, rolls, n, ClassEngine.IdOrder());
    } else {
      left, i := [], 0;
    }
  }

  /** The elements at i and j change places and no other moves. */
  ghost predicate Exchanged<T>(before: seq<T>, after: seq<T>, i: nat, j: nat) {
    && i < |before| == |after| && j < |before|
    && after[i] == before[j] && after[j] == before[i]
    && forall k :: 0 <= k < |before| && k != i && k != j ==> after[k] == before[k]
  }

  lemma SwapExchanges<T>(s: seq<T>, i: nat, j: nat)
    requires i < |s| && j < |s|
    ensures Exchanged(s, Draws.Swap(s, i, j), i, j)
  {
  }

  lemma ShuffleExchanges<T>(bank: seq<T>, rolls: Mulberry.Rolls, n: nat)
    requires n < |bank|
    ensures var i := IndexOf(rolls(n), |bank| - n);
            Exchanged(Draws.Shuffled(bank, n, rolls), Draws.Shuffled(bank, n + 1, rolls), n, n + i)
  {
    hide IndexOf, Draws.Shuffled, Draws.Swap, Exchanged;
    Draws.ShuffleStep(bank, n, rolls);
    SwapExchanges(Draws.Shuffled(bank, n, rolls), n, n + IndexOf(rolls(n), |bank| - n));
  }

  lemma NothingShuffled<T>(bank: seq<T>, rolls: Mulberry.Rolls)
    ensures Draws.Shuffled(bank, 0, rolls) == bank
  {
  }

  lemma QuestionIsFixed<T>(bank: seq<T>, count: nat, rolls: Mulberry.Rolls, n: nat)
    requires n < count <= |bank|
    ensures Draws.Shuffled(bank, count, rolls)[n] == Draws.Shuffled(bank, n + 1, rolls)[n]
  {
    hide Draws.Shuffled;
    Draws.PositionIsFixed(bank, n, n + 1, count, rolls);
  }

  /** The n-th question of a day is the one its float hits among the positions n.. of the bank as
      shuffled so far; the question that stood at position n takes its place. */
  lemma QuestionMeaning<T>(bank: seq<T>, count: nat, rolls: Mulberry.Rolls, n: nat) returns (i: nat)
    requires n < count <= |bank|
    ensures var before, after := Draws.Shuffled(bank, n, rolls), Draws.Shuffled(bank, n + 1, rolls);
            Exchanged(before, after, n, n + i) && Draws.Shuffled(bank, count, rolls)[n] == after[n]
    ensures Hits(rolls(n), i, |bank| - n)
    ensures Draws.Shuffled(bank, 0, rolls) == bank
  {
    assert Draws.Shuffled(bank, 0, rolls) == bank by { NothingShuffled(bank, rolls); }
    hide Draws.Shuffled, Hits, IndexOf, Exchanged;
    i := IndexOf(rolls(n), |bank| - n);
    IndexMeaning(rolls(n), |bank| - n);
    ShuffleExchanges(bank, rolls, n);
    QuestionIsFixed(bank, count, rolls, n);
  }

  // ---- ranking by roll ----

  /** Each id with its own roll. */
  function Rolled(ids: seq<string>, rolls: Mulberry.Rolls): seq<ClassEngine.Drawn> {
    seq(|ids|, i requires 0 <= i < |ids| => ClassEngine.Drawn(ids[i], rolls(i)))
  }

  lemma {:induction false} DrawRollsAre(ids: seq<string>, rolls: Mulberry.Rolls)
    ensures ClassEngine.DrawRolls(ids, rolls) == Rolled(ids, rolls)
  {
    if ids != [] {
      DrawRollsAre(ids[..|ids| - 1], rolls);
      assert Rolled(ids, rolls) == Rolled(ids[..|ids| - 1], rolls) + [ClassEngine.Drawn(ids[|ids| - 1], rolls(|ids| - 1))];
    }
  }

  function ByIdOf(): (ClassEngine.Drawn, ClassEngine.Drawn) -> bool {
    (a: ClassEngine.Drawn, b: ClassEngine.Drawn) => Text.AtMost(a.playerId, b.playerId)
  }

  lemma RollOrderIsTotal()
    ensures Sorting.TotalPreorder(ClassEngine.RollOrder())
  {
  }

  /** The players in order of id each draw a roll, the rolls rank them with ties going to the smaller id,
      and the ranks attack and defend in turn. */
  lemma ClassMeaning(ids: seq<string>, rolls: Mulberry.Rolls) returns (sorted: seq<string>, ranked: seq<ClassEngine.Drawn>)
    ensures Sorting.SortedBy(sorted, ClassEngine.IdOrder()) && multiset(sorted) == multiset(ids)
    ensures multiset(ranked) == multiset(Rolled(sorted, rolls)) && |ranked| == |ids|
    ensures forall i, j :: 0 <= i < j < |ranked| ==>
              ranked[i].roll < ranked[j].roll
              || (ranked[i].roll == ranked[j].roll && Text.AtMost(ranked[i].playerId, ranked[j].playerId))
    ensures var a := ClassEngine.Assign(ids, rolls);
            |a| == |ids| && forall i :: 0 <= i < |a| ==>
              a[i] == Assignment(ranked[i].playerId, if i % 2 == 0 then Attack else Defense)
  {
    hide Text.AtMost, Sorting.Sort;
    sorted, ranked := Sorting.Sort(ids, ClassEngine.IdOrder()), ClassEngine.Ranked(ids, rolls);
    ClassEngine.IdOrderIsTotal();
    Sorting.SortSorts(ids, ClassEngine.IdOrder());
    DrawRollsAre(sorted, rolls);
    RollOrderIsTotal();
    var drawn := Rolled(sorted, rolls);
    assert Sorting.SortedBy(drawn, ByIdOf()) by {
      forall i, j | 0 <= i < j < |drawn| ensures ByIdOf()(drawn[i], drawn[j]) {
        assert ClassEngine.IdOrder()(sorted[i], sorted[j]);
      }
    }
    Sorting.SortIsStable(drawn, ClassEngine.RollOrder(), ByIdOf());
  }

  /** The candidates are the topics with the lowest rolls, lowest first. */
  lemma CandidatesByRoll(pool: seq<string>, count: nat, rolls: Mulberry.Rolls) returns (ranked: seq<ClassEngine.Drawn>)
    requires count < |pool|
    ensures multiset(ranked) == multiset(Rolled(pool, rolls)) && |ranked| == |pool|
    ensures forall i, j :: 0 <= i < j < |ranked| ==> ranked[i].roll <= ranked[j].roll
    ensures var topics := TopicVoting.SelectCandidates(pool, count, rolls);
            |topics| == count && forall i :: 0 <= i < count ==> topics[i] == ranked[i].playerId
  {
    hide Sorting.Sort;
    DrawRollsAre(pool, rolls);
    RollOrderIsTotal();
    ranked := Sorting.Sort(ClassEngine.DrawRolls(pool, rolls), ClassEngine.RollOrder());
    Sorting.SortSorts(Rolled(pool, rolls), ClassEngine.RollOrder());
  }

  /** Where equal vote counts are decided: the topics in order of name each get a roll. */
  lemma {:induction false} ScoreMeaning(sorted: seq<string>, rolls: Mulberry.Rolls, i: nat)
    requires Distinct(sorted) && i < |sorted|
    ensures TopicVoting.Score(TopicVoting.Scores(sorted, rolls), sorted[i]) == rolls(i)
  {
    if i < |sorted| - 1 {
      ScoreMeaning(sorted[..|sorted| - 1], rolls, i);
    }
  }
}
