/** The milestone card offer (packages/game-core/src/card-engine.ts): three draws without replacement,
    each a tier by weight and a card within the tier, retrying on the same stream while the tier
    drawn is exhausted. */
module CardEngine {
  import opened MatchTypes
  import opened Cards
  import opened Basics
  import Mulberry
  import Sorting

  type Word = Mulberry.Word

  const SAMPLE_OFFER_COUNT := 3

  /** Index drawn from a list of n by the float k / 2^32. */
  function IndexOf(k: Word, n: nat): (i: nat)
    requires n > 0
    ensures i < n
  {
    k * n / Mulberry.MODULUS
  }

  function SelectTier(k: Word): Tier {
    var u := k as real / 4294967296.0;
    if u < 0.6 then Common else if u < 0.6 + 0.3 then Rare else Epic
  }

  /** The weights cut the 2^32 draws at two exact integers. */
  lemma TierCuts(k: Word)
    ensures SelectTier(k) == Common <==> k <= 0x99999999
    ensures SelectTier(k) == Rare <==> 0x99999999 < k <= 0xE6666666
    ensures SelectTier(k) == Epic <==> 0xE6666666 < k
  {
  }

  /** A generator state whose draw falls in the tier. */
  function StateFor(tier: Tier): Word {
    match tier
    case Common => 0
    case Rare => 0x8000_0000
    case Epic => 0x2000_0000
  }

  lemma EveryTierIsHit(tier: Tier)
    ensures SelectTier(Mulberry.Mix(StateFor(tier))) == tier
  {
    hide Mulberry.Mix;
    Mulberry.MixSamples();
    TierCuts(Mulberry.Mix(StateFor(tier)));
  }

  // ---- remaining cards ----

  /** The cards still to be drawn, per tier, each list in canonical order. */
  datatype Remaining = Remaining(common: seq<CardId>, rare: seq<CardId>, epic: seq<CardId>) {
    function At(tier: Tier): seq<CardId> {
      match tier
      case Common => common
      case Rare => rare
      case Epic => epic
    }

    function With(tier: Tier, list: seq<CardId>): Remaining {
      match tier
      case Common => this.(common := list)
      case Rare => this.(rare := list)
      case Epic => this.(epic := list)
    }

    function Total(): nat {
      |common| + |rare| + |epic|
    }

    function All(): multiset<CardId> {
      multiset(common) + multiset(rare) + multiset(epic)
    }
  }

  function InTier(pool: seq<CardId>, tier: Tier): seq<CardId> {
    if pool == [] then []
    else (if TierOf(pool[0]) == tier then [pool[0]] else []) + InTier(pool[1..], tier)
  }

  function Partition(pool: seq<CardId>): Remaining {
    Remaining(
      Sorting.Sort(InTier(pool, Common), CanonicalOrder()),
      Sorting.Sort(InTier(pool, Rare), CanonicalOrder()),
      Sorting.Sort(InTier(pool, Epic), CanonicalOrder()))
  }

  lemma {:induction false} TiersPartitionPool(pool: seq<CardId>)
    ensures multiset(InTier(pool, Common)) + multiset(InTier(pool, Rare)) + multiset(InTier(pool, Epic)) == multiset(pool)
    ensures |InTier(pool, Common)| + |InTier(pool, Rare)| + |InTier(pool, Epic)| == |pool|
  {
    if pool != [] {
      TiersPartitionPool(pool[1..]);
      assert pool == [pool[0]] + pool[1..];
    }
  }

  lemma PartitionKeepsPool(pool: seq<CardId>)
    ensures Partition(pool).All() == multiset(pool)
    ensures Partition(pool).Total() == |pool|
  {
    TiersPartitionPool(pool);
  }

  // ---- the retry loop ----

  datatype SamplingStep =
    | TierStep(float: Word, tier: Tier, retry: bool)
    | CardStep(float: Word, cardIndex: nat, drawn: CardId)

  datatype TierPick = TierPick(steps: seq<SamplingStep>, tier: Tier, a: Word)

  function FirstNonEmpty(rem: Remaining): Tier {
    if rem.common != [] then Common else if rem.rare != [] then Rare else Epic
  }

  /** Calls left until the generator is in a state whose draw is sure to hit a non-empty tier. */
  function CallsLeft(a: Word, rem: Remaining): Word {
    Mulberry.Distance(Mulberry.Advance(a), StateFor(FirstNonEmpty(rem)))
  }

  lemma MissComesNearer(a: Word, rem: Remaining)
    requires rem.Total() > 0
    requires rem.At(SelectTier(Mulberry.Mix(Mulberry.Advance(a)))) == []
    ensures CallsLeft(Mulberry.Advance(a), rem) < CallsLeft(a, rem)
  {
    hide Mulberry.Mix;
    hide SelectTier;
    hide Mulberry.Distance;
    var target := StateFor(FirstNonEmpty(rem));
    EveryTierIsHit(FirstNonEmpty(rem));
    assert Mulberry.Advance(a) != target;
    Mulberry.DistanceDrops(Mulberry.Advance(a), target);
  }

  function PickTier(a: Word, rem: Remaining, retry: bool): (p: TierPick)
    requires rem.Total() > 0
    ensures rem.At(p.tier) != []
    decreases CallsLeft(a, rem)
  {
    hide Mulberry.Mix;
    hide SelectTier;
    var next := Mulberry.Advance(a);
    var k := Mulberry.Mix(next);
    var tier := SelectTier(k);
    if rem.At(tier) != [] then TierPick([TierStep(k, tier, retry)], tier, next)
    else
      MissComesNearer(a, rem);
      var p := PickTier(next, rem, true);
      p.(steps := [TierStep(k, tier, true)] + p.steps)
  }

  // ---- the offer ----

  datatype Offer = Offer(cards: seq<CardId>, steps: seq<SamplingStep>, a: Word)

  function Without<T>(s: seq<T>, i: nat): (r: seq<T>)
    requires i < |s|
    ensures |r| == |s| - 1
    ensures multiset(r) == multiset(s) - multiset{s[i]}
  {
    assert s == s[..i] + [s[i]] + s[i + 1..];
    s[..i] + s[i + 1..]
  }

  datatype OneDraw = OneDraw(card: CardId, steps: seq<SamplingStep>, rem: Remaining, a: Word)

  function DrawOne(a: Word, rem: Remaining): OneDraw
    requires rem.Total() > 0
  {
    hide Mulberry.Mix;
    hide SelectTier;
    var p := PickTier(a, rem, false);
    var list := rem.At(p.tier);
    var next := Mulberry.Advance(p.a);
    var k := Mulberry.Mix(next);
    var i := IndexOf(k, |list|);
    OneDraw(list[i], p.steps + [CardStep(k, i, list[i])], rem.With(p.tier, Without(list, i)), next)
  }

  /** Draw up to `draws` cards, starting from generator state `a`. */
  function OfferFrom(a: Word, rem: Remaining, draws: nat): Offer
    decreases draws
  {
    if draws == 0 || rem.Total() == 0 then Offer([], [], a)
    else
      var d := DrawOne(a, rem);
      var rest := OfferFrom(d.a, d.rem, draws - 1);
      Offer([d.card] + rest.cards, d.steps + rest.steps, rest.a)
  }

  function SampleOffer(seed: Word, pool: seq<CardId>): Offer {
    OfferFrom(seed, Partition(pool), SAMPLE_OFFER_COUNT)
  }

  lemma TakeOut<T>(a: multiset<T>, b: multiset<T>, x: T)
    requires x in a
    ensures a - multiset{x} + b == a + b - multiset{x}
    ensures b + (a - multiset{x}) == b + a - multiset{x}
    ensures x in a + b
  {
  }

  lemma PutBack<T>(s: seq<T>, x: T, all: multiset<T>)
    requires x in all && multiset(s) <= all - multiset{x}
    ensures multiset([x] + s) <= all
  {
  }

  lemma TierCardLeaves(rem: Remaining, tier: Tier, i: nat)
    requires i < |rem.At(tier)|
    ensures var left := rem.With(tier, Without(rem.At(tier), i));
            left.All() == rem.All() - multiset{rem.At(tier)[i]} && left.Total() == rem.Total() - 1
    ensures rem.At(tier)[i] in rem.All()
  {
    var x := rem.At(tier)[i];
    var c, r, e := multiset(rem.common), multiset(rem.rare), multiset(rem.epic);
    match tier
    case Common =>
      TakeOut(c, r, x);
      TakeOut(c + r, e, x);
    case Rare =>
      TakeOut(r, c, x);
      TakeOut(c + r, e, x);
    case Epic =>
      TakeOut(e, c + r, x);
  }

  /** A draw moves one card out of the remaining ones. */
  lemma DrawnCardLeaves(a: Word, rem: Remaining)
    requires rem.Total() > 0
    ensures var d := DrawOne(a, rem);
            d.rem.All() == rem.All() - multiset{d.card} && d.rem.Total() == rem.Total() - 1 && d.card in rem.All()
  {
    hide Mulberry.Mix;
    hide SelectTier;
    hide IndexOf;
    var p := PickTier(a, rem, false);
    TierCardLeaves(rem, p.tier, IndexOf(Mulberry.Mix(Mulberry.Advance(p.a)), |rem.At(p.tier)|));
  }

  lemma {:induction false} OfferTakesFromRemaining(a: Word, rem: Remaining, draws: nat)
    ensures multiset(OfferFrom(a, rem, draws).cards) <= rem.All()
    decreases draws
  {
    hide DrawOne;
    hide Remaining.All;
    if draws != 0 && rem.Total() != 0 {
      var d := DrawOne(a, rem);
      DrawnCardLeaves(a, rem);
      OfferTakesFromRemaining(d.a, d.rem, draws - 1);
      PutBack(OfferFrom(d.a, d.rem, draws - 1).cards, d.card, rem.All());
    }
  }

  lemma {:induction false} OfferSize(a: Word, rem: Remaining, draws: nat)
    ensures |OfferFrom(a, rem, draws).cards| == Min(draws, rem.Total())
    decreases draws
  {
    hide DrawOne;
    hide Remaining.All;
    if draws != 0 && rem.Total() != 0 {
      var d := DrawOne(a, rem);
      DrawnCardLeaves(a, rem);
      OfferSize(d.a, d.rem, draws - 1);
    }
  }

  /** For every seed and pool the offer is min(3, |pool|) cards of the pool, each taken no more often
      than the pool holds it; so from a duplicate-free pool they are distinct. */
  lemma OfferDrawsWithoutReplacement(seed: Word, pool: seq<CardId>)
    ensures var cards := SampleOffer(seed, pool).cards;
            && multiset(cards) <= multiset(pool)
            && |cards| == Min(3, |pool|)
            && (Distinct(pool) ==> Distinct(cards))
  {
    hide Partition;
    hide OfferFrom;
    PartitionKeepsPool(pool);
    OfferTakesFromRemaining(seed, Partition(pool), SAMPLE_OFFER_COUNT);
    OfferSize(seed, Partition(pool), SAMPLE_OFFER_COUNT);
    var cards := SampleOffer(seed, pool).cards;
    if Distinct(pool) {
      SubsetOfDistinct(cards, pool);
    }
  }

  lemma Twice<T>(s: seq<T>, i: nat, j: nat)
    requires i < j < |s| && s[i] == s[j]
    ensures multiset(s)[s[i]] >= 2
  {
    assert s == s[..j] + [s[j]] + s[j + 1..];
    assert s[i] in multiset(s[..j]);
  }

  lemma {:induction false} DistinctOnce<T>(s: seq<T>, x: T)
    requires Distinct(s)
    ensures multiset(s)[x] <= 1
  {
    if s != [] {
      assert s == [s[0]] + s[1..];
      DistinctOnce(s[1..], x);
      if x == s[0] {
        assert x !in s[1..];
      }
    }
  }

  lemma SubsetOfDistinct<T>(s: seq<T>, pool: seq<T>)
    requires multiset(s) <= multiset(pool)
    requires Distinct(pool)
    ensures Distinct(s)
  {
    forall i, j | 0 <= i < j < |s| ensures s[i] != s[j] {
      if s[i] == s[j] {
        Twice(s, i, j);
        DistinctOnce(pool, s[i]);
      }
    }
  }

  lemma CanonicalOrderIsTotal()
    ensures Sorting.TotalPreorder(CanonicalOrder()) && Sorting.Antisymmetric(CanonicalOrder())
  {
  }

  lemma {:induction false} TierCountsFromPool(pool: seq<CardId>, tier: Tier, c: CardId)
    ensures multiset(InTier(pool, tier))[c] == if TierOf(c) == tier then multiset(pool)[c] else 0
  {
    if pool != [] {
      TierCountsFromPool(pool[1..], tier, c);
      assert pool == [pool[0]] + pool[1..];
    }
  }

  /** Because every tier is put in canonical order first, the order of the pool does not matter. */
  lemma OfferIgnoresPoolOrder(seed: Word, pool: seq<CardId>, other: seq<CardId>)
    requires multiset(pool) == multiset(other)
    ensures SampleOffer(seed, pool) == SampleOffer(seed, other)
  {
    CanonicalOrderIsTotal();
    forall tier ensures multiset(InTier(pool, tier)) == multiset(InTier(other, tier)) {
      forall c ensures multiset(InTier(pool, tier))[c] == multiset(InTier(other, tier))[c] {
        TierCountsFromPool(pool, tier, c);
        TierCountsFromPool(other, tier, c);
      }
    }
    forall tier {
      Sorting.SortForgetsOrder(InTier(pool, tier), InTier(other, tier), CanonicalOrder());
    }
  }

  // ---- the trace ----

  function Floats(steps: seq<SamplingStep>): (r: seq<Word>)
    ensures |r| == |steps|
  {
    seq(|steps|, i requires 0 <= i < |steps| => steps[i].float)
  }

  /** Rebuild the cards from recorded floats alone, without a generator. */
  function Replay(rem: Remaining, draws: nat, floats: seq<Word>): seq<CardId>
    decreases |floats|
  {
    hide SelectTier;
    if draws == 0 || rem.Total() == 0 || floats == [] then []
    else
      var tier := SelectTier(floats[0]);
      var list := rem.At(tier);
      if list == [] then Replay(rem, draws, floats[1..])
      else if |floats| == 1 then []
      else
        var i := IndexOf(floats[1], |list|);
        [list[i]] + Replay(rem.With(tier, Without(list, i)), draws - 1, floats[2..])
  }

  lemma ReplayHit(rem: Remaining, draws: nat, u: Word, k: Word, rest: seq<Word>)
    requires draws > 0 && rem.At(SelectTier(u)) != []
    ensures var tier := SelectTier(u);
            var i := IndexOf(k, |rem.At(tier)|);
            Replay(rem, draws, [u, k] + rest)
              == [rem.At(tier)[i]] + Replay(rem.With(tier, Without(rem.At(tier), i)), draws - 1, rest)
  {
    hide SelectTier;
    assert ([u, k] + rest)[2..] == rest;
  }

  lemma ReplayMiss(rem: Remaining, draws: nat, u: Word, rest: seq<Word>)
    requires draws > 0 && rem.Total() > 0 && rem.At(SelectTier(u)) == []
    ensures Replay(rem, draws, [u] + rest) == Replay(rem, draws, rest)
  {
    hide SelectTier;
    assert ([u] + rest)[1..] == rest;
  }

  /** What is left of a replay once the floats of one draw have been read. */
  function AfterDraw(rem: Remaining, draws: nat, tier: Tier, k: Word, rest: seq<Word>): seq<CardId>
    requires draws > 0 && rem.At(tier) != []
  {
    var i := IndexOf(k, |rem.At(tier)|);
    [rem.At(tier)[i]] + Replay(rem.With(tier, Without(rem.At(tier), i)), draws - 1, rest)
  }

  lemma {:induction false} ReplayTier(a: Word, rem: Remaining, retry: bool, draws: nat, k: Word, rest: seq<Word>)
    requires rem.Total() > 0 && draws > 0
    ensures var p := PickTier(a, rem, retry);
            Replay(rem, draws, Floats(p.steps) + ([k] + rest)) == AfterDraw(rem, draws, p.tier, k, rest)
    decreases CallsLeft(a, rem)
  {
    hide Mulberry.Mix;
    hide SelectTier;
    hide Replay;
    var next := Mulberry.Advance(a);
    var u := Mulberry.Mix(next);
    var p := PickTier(a, rem, retry);
    if rem.At(SelectTier(u)) == [] {
      MissComesNearer(a, rem);
      var q := PickTier(next, rem, true);
      ReplayTier(next, rem, true, draws, k, rest);
      ReplayMiss(rem, draws, u, Floats(q.steps) + ([k] + rest));
      assert Floats(p.steps) + ([k] + rest) == [u] + (Floats(q.steps) + ([k] + rest));
    } else {
      ReplayHit(rem, draws, u, k, rest);
      assert Floats(p.steps) + ([k] + rest) == [u, k] + rest;
    }
  }

  lemma ReplayOneDraw(a: Word, rem: Remaining, draws: nat, rest: seq<Word>)
    requires rem.Total() > 0 && draws > 0
    ensures var d := DrawOne(a, rem);
            Replay(rem, draws, Floats(d.steps) + rest) == [d.card] + Replay(d.rem, draws - 1, rest)
  {
    hide Mulberry.Mix;
    hide SelectTier;
    hide IndexOf;
    hide Replay;
    var p := PickTier(a, rem, false);
    var k := Mulberry.Mix(Mulberry.Advance(p.a));
    ReplayTier(a, rem, false, draws, k, rest);
    assert Floats(DrawOne(a, rem).steps) + rest == Floats(p.steps) + ([k] + rest);
  }

  lemma ReplayStops(rem: Remaining, draws: nat)
    ensures Replay(rem, draws, []) == []
  {
  }

  /** The float trace alone reproduces the offer. */
  lemma {:induction false} TraceReproducesOffer(a: Word, rem: Remaining, draws: nat)
    ensures var o := OfferFrom(a, rem, draws);
            Replay(rem, draws, Floats(o.steps)) == o.cards
    decreases draws
  {
    hide DrawOne;
    hide Replay;
    if draws != 0 && rem.Total() != 0 {
      var d := DrawOne(a, rem);
      var rest := OfferFrom(d.a, d.rem, draws - 1);
      TraceReproducesOffer(d.a, d.rem, draws - 1);
      ReplayOneDraw(a, rem, draws, Floats(rest.steps));
      assert Floats(OfferFrom(a, rem, draws).steps) == Floats(d.steps) + Floats(rest.steps);
    } else {
      ReplayStops(rem, draws);
      assert Floats(OfferFrom(a, rem, draws).steps) == [];
    }
  }

  // ---- the loops ----

  lemma PickTierStep(a: Word, rem: Remaining, retry: bool)
    requires rem.Total() > 0
    ensures var next := Mulberry.Advance(a);
            var k := Mulberry.Mix(next);
            var tier := SelectTier(k);
            PickTier(a, rem, retry) ==
              if rem.At(tier) != [] then TierPick([TierStep(k, tier, retry)], tier, next)
              else var p := PickTier(next, rem, true); p.(steps := [TierStep(k, tier, true)] + p.steps)
  {
    hide Mulberry.Mix;
    hide SelectTier;
  }

  method PickTierLoop(rem: Remaining, rng: Mulberry.Generator) returns (steps: seq<SamplingStep>, tier: Tier)
    requires rng.Valid() && rem.Total() > 0
    modifies rng
    ensures rng.Valid() && rng.calls == old(rng.calls) + |steps|
    ensures PickTier(old(rng.a), rem, false) == TierPick(steps, tier, rng.a)
  {
    hide Mulberry.Mix;
    hide SelectTier;
    hide PickTier;
    hide CallsLeft;
    ghost var all := PickTier(rng.a, rem, false);
    var retry := false;
    steps := [];
    while true
      invariant rng.Valid() && rng.calls == old(rng.calls) + |steps|
      invariant var p := PickTier(rng.a, rem, retry); all == p.(steps := steps + p.steps)
      decreases CallsLeft(rng.a, rem)
    {
      ghost var a := rng.a;
      ghost var before := steps;
      PickTierStep(a, rem, retry);
      var u := rng.Next();
      tier := SelectTier(u);
      if rem.At(tier) != [] {
        steps := steps + [TierStep(u, tier, retry)];
        return;
      }
      MissComesNearer(a, rem);
      steps := steps + [TierStep(u, tier, true)];
      retry := true;
      assert before + ([TierStep(u, tier, true)] + PickTier(rng.a, rem, true).steps) == steps + PickTier(rng.a, rem, true).steps;
    }
  }

  method DrawOneLoop(rem: Remaining, rng: Mulberry.Generator)
    returns (card: CardId, steps: seq<SamplingStep>, left: Remaining)
    requires rng.Valid() && rem.Total() > 0
    modifies rng
    ensures rng.Valid() && rng.calls == old(rng.calls) + |steps|
    ensures DrawOne(old(rng.a), rem) == OneDraw(card, steps, left, rng.a)
  {
    hide Mulberry.Mix;
    hide SelectTier;
    hide IndexOf;
    hide PickTier;
    var tier;
    steps, tier := PickTierLoop(rem, rng);
    assert PickTier(old(rng.a), rem, false).tier == tier;
    var list := rem.At(tier);
    var u := rng.Next();
    var i := IndexOf(u, |list|);
    card := list[i];
    steps := steps + [CardStep(u, i, card)];
    left := rem.With(tier, Without(list, i));
  }

  /** `sampleOffer` on a fresh generator; the trace records every call made to it. */
  method SampleOfferLoop(pool: seq<CardId>, rng: Mulberry.Generator)
    returns (cards: seq<CardId>, steps: seq<SamplingStep>)
    requires rng.Valid() && rng.calls == 0
    modifies rng
    ensures rng.Valid() && rng.calls == |steps|
    ensures SampleOffer(rng.seed, pool) == Offer(cards, steps, rng.a)
  {
    hide DrawOne, Partition, Mulberry.Mix, Mulberry.Advance;
    var rem := Partition(pool);
    ghost var all := OfferFrom(rng.a, rem, SAMPLE_OFFER_COUNT);
    cards, steps := [], [];
    for draw := 0 to SAMPLE_OFFER_COUNT
      invariant rng.Valid() && rng.calls == |steps|
      invariant var o := OfferFrom(rng.a, rem, SAMPLE_OFFER_COUNT - draw);
                all == Offer(cards + o.cards, steps + o.steps, o.a)
    {
      if rem.Total() == 0 { break; }
      ghost var a := rng.a;
      var card, more, left := DrawOneLoop(rem, rng);
      ghost var rest := OfferFrom(rng.a, left, SAMPLE_OFFER_COUNT - draw - 1);
      assert cards + ([card] + rest.cards) == cards + [card] + rest.cards;
      assert steps + (more + rest.steps) == steps + more + rest.steps;
      cards, steps, rem := cards + [card], steps + more, left;
    }
  }
}
