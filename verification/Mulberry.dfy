/** mulberry32 (packages/game-core/src/prng.ts): a counter that walks the 32-bit words in steps of a
    fixed odd constant, and a mixing function applied to the counter after each step.  A draw is
    kept as the integer k of the float k / 2^32. */
module Mulberry {
  const MODULUS: int := 0x1_0000_0000
  const STEP: int := 0x6d2b79f5
  // Multiplicative inverse of STEP modulo 2^32; it exists because STEP is odd.
  const STEP_INVERSE: int := 0xdc58aa5d

  type Word = x: int | 0 <= x < MODULUS

  function Advance(a: Word): Word {
    (a + STEP) % MODULUS
  }

  function MixBits(w: bv32): bv32 {
    var t := (w ^ (w >> 15)) * (w | 1);
    var u := t ^ (t + (t ^ (t >> 7)) * (t | 61));
    u ^ (u >> 14)
  }

  function Mix(a: Word): Word {
    MixBits(a as bv32) as int
  }

  /** Three states whose draws lie in [0, 0.6), [0.6, 0.9) and [0.9, 1). */
  lemma MixSamples()
    ensures Mix(0) == 0x0
    ensures Mix(0x8000_0000) == 0xbf3d86fd
    ensures Mix(0x2000_0000) == 0xff6c233f
  {
    assert MixBits(0) == 0x0;
    assert MixBits(0x8000_0000) == 0xbf3d86fd;
    assert MixBits(0x2000_0000) == 0xff6c233f;
  }

  /** The state after n calls. */
  function StateAt(seed: Word, n: nat): Word {
    (seed + n * STEP) % MODULUS
  }

  /** The n-th draw (counting from 0) of a generator seeded with `seed`. */
  function Draw(seed: Word, n: nat): Word {
    Mix(StateAt(seed, n + 1))
  }

  /** The sequence of draws of a generator, as a function of the call number. */
  type Rolls = nat -> Word

  function RollsOf(seed: Word): Rolls {
    (n: nat) => Draw(seed, n)
  }

  lemma StateAtStep(seed: Word, n: nat)
    ensures StateAt(seed, n + 1) == Advance(StateAt(seed, n))
  {
    ModAdd(seed + n * STEP, STEP);
  }

  lemma ModAdd(x: int, y: int)
    ensures (x % MODULUS + y) % MODULUS == (x + y) % MODULUS
  {
  }

  /** How many calls separate state `a` from state `target`. */
  function Distance(a: Word, target: Word): Word {
    ((target - a) * STEP_INVERSE) % MODULUS
  }

  lemma CongruentDraw(x: int, y: int, q: int)
    requires x == y + q * MODULUS
    ensures x % MODULUS == y % MODULUS
  {
  }

  /** Each call brings every other state exactly one call nearer: the measure of the retry loop. */
  lemma DistanceDrops(a: Word, target: Word)
    requires a != target
    ensures 0 < Distance(a, target)
    ensures Distance(Advance(a), target) == Distance(a, target) - 1
  {
    DistancePositive(a, target);
    var k := AdvanceScaled(a, target);
    ShiftedDistance((target - a) * STEP_INVERSE, k);
  }

  lemma DistancePositive(a: Word, target: Word)
    requires a != target
    ensures 0 < Distance(a, target)
  {
    DistanceReaches(a, target);
  }

  lemma AdvanceScaled(a: Word, target: Word) returns (k: int)
    ensures (target - Advance(a)) * STEP_INVERSE == (target - a) * STEP_INVERSE - 1 + k * MODULUS
  {
    var q := (a + STEP) / MODULUS;
    assert Advance(a) == a + STEP - q * MODULUS;
    k := q * STEP_INVERSE - (STEP * STEP_INVERSE - 1) / MODULUS;
  }

  lemma ShiftedDistance(x: int, q: int)
    requires 0 < x % MODULUS
    ensures (x - 1 + q * MODULUS) % MODULUS == x % MODULUS - 1
  {
  }

  /** Full period: from any seed, every word of the 32-bit space is the state after some call. */
  lemma DistanceReaches(seed: Word, target: Word)
    ensures StateAt(seed, Distance(seed, target)) == target
  {
    var d := (target - seed) * STEP_INVERSE;
    var q := d / MODULUS;
    assert Distance(seed, target) == d - q * MODULUS;
    var c := (STEP * STEP_INVERSE - 1) / MODULUS;
    ScaledBack(target - seed, q, c);
    CongruentDraw(seed + Distance(seed, target) * STEP, target, (target - seed) * c - q * STEP);
  }

  lemma ScaledBack(t: int, q: int, c: int)
    requires STEP * STEP_INVERSE == 1 + c * MODULUS
    ensures (t * STEP_INVERSE - q * MODULUS) * STEP == t + (t * c - q * STEP) * MODULUS
  {
    assert t * STEP_INVERSE * STEP == t * (1 + c * MODULUS);
  }

  /** The period is exactly 2^32: two calls see the same state iff they are a multiple of 2^32 apart. */
  lemma ExactPeriod(seed: Word, m: nat, n: nat)
    requires m <= n
    ensures StateAt(seed, m) == StateAt(seed, n) <==> (n - m) % MODULUS == 0
  {
    if (n - m) % MODULUS == 0 {
      CongruentDraw(seed + n * STEP, seed + m * STEP, (n - m) / MODULUS * STEP);
    }
    if StateAt(seed, m) == StateAt(seed, n) {
      var q := (seed + n * STEP) / MODULUS - (seed + m * STEP) / MODULUS;
      var c := (STEP * STEP_INVERSE - 1) / MODULUS;
      assert (n - m) * (1 + c * MODULUS) == q * STEP_INVERSE * MODULUS;
      CongruentDraw(n - m, 0, q * STEP_INVERSE - (n - m) * c);
    }
  }

  /** The closure returned by `mulberry32(seed)`. */
  class Generator {
    ghost const rolls: Rolls
    const seed: Word
    var calls: nat
    var a: Word

    constructor (seed: Word)
      ensures this.seed == seed && rolls == RollsOf(seed)
      ensures Valid() && calls == 0
    {
      this.seed := seed;
      rolls := RollsOf(seed);
      calls := 0;
      a := seed;
    }

    ghost predicate Valid() reads this {
      a == StateAt(seed, calls) && rolls == RollsOf(seed)
    }

    method Step()
      requires Valid()
      modifies this
      ensures Valid() && calls == old(calls) + 1 && a == Advance(old(a))
    {
      StateAtStep(seed, calls);
      a := Advance(a);
      calls := calls + 1;
    }

    method Next() returns (k: Word)
      requires Valid()
      modifies this
      ensures Valid() && calls == old(calls) + 1
      ensures a == Advance(old(a)) && k == Mix(a) && k == rolls(old(calls))
    {
      Step();
      hide Mix;
      k := Mix(a);
    }
  }
}
