/** From strings to generator seeds (packages/game-core/src/prng.ts), for any reading of strings as
    UTF-16 code units. */
module Prng {
  import Utf8
  import MatchSpec
  import Mulberry
  import Sha256

  type Units = seq<Utf8.Unit>

  function FnvStep(hash: bv32, u: Utf8.Unit): bv32 {
    (hash ^ u as bv32) * 0x01000193
  }

  /** FNV-1a over code units. */
  function Fnv(s: Units): bv32 {
    if s == [] then 0x811c9dc5
    else FnvStep(Fnv(s[..|s| - 1]), s[|s| - 1])
  }

  method HashStringToSeed(s: Units) returns (seed: bv32)
    ensures seed == Fnv(s)
  {
    hide FnvStep;
    seed := 0x811c9dc5;
    for i := 0 to |s|
      invariant seed == Fnv(s[..i])
    {
      assert s[..i + 1][..i] == s[..i];
      seed := FnvStep(seed, s[i]);
    }
    assert s[..|s|] == s;
  }

  lemma FnvNext(s: Units, hash: bv32, u: Utf8.Unit, next: bv32)
    requires Fnv(s) == hash && FnvStep(hash, u) == next
    ensures Fnv(s + [u]) == next
  {
    assert (s + [u])[..|s|] == s;
    hide FnvStep;
  }

  /** The published test values of FNV-1a for "", "a", "b" and "foobar". */
  lemma FnvTestValues()
    ensures Fnv([]) == 0x811c9dc5
    ensures Fnv([0x61]) == 0xe40c292c
    ensures Fnv([0x62]) == 0xe70c2de5
    ensures Fnv([0x66, 0x6f, 0x6f, 0x62, 0x61, 0x72]) == 0xbf9cf968
  {
    hide FnvStep;
    FnvStepValues();
    var none: Units := [];
    FnvNext(none, 0x811c9dc5, 0x61, 0xe40c292c);
    FnvNext(none, 0x811c9dc5, 0x62, 0xe70c2de5);
    assert none + [0x61] == [0x61] && none + [0x62] == [0x62];
    FnvNext(none, 0x811c9dc5, 0x66, 0xe30c2799);
    var f := none + [0x66];
    FnvNext(f, 0xe30c2799, 0x6f, 0x6222e842);
    var fo := f + [0x6f];
    FnvNext(fo, 0x6222e842, 0x6f, 0xa9f37ed7);
    var foo := fo + [0x6f];
    FnvNext(foo, 0xa9f37ed7, 0x62, 0x3f5076ef);
    var foob := foo + [0x62];
    FnvNext(foob, 0x3f5076ef, 0x61, 0x39aaa18a);
    var fooba := foob + [0x61];
    FnvNext(fooba, 0x39aaa18a, 0x72, 0xbf9cf968);
    assert fooba + [0x72] == [0x66, 0x6f, 0x6f, 0x62, 0x61, 0x72];
  }

  lemma FnvStepValues()
    ensures FnvStep(0x811c9dc5, 0x61) == 0xe40c292c
    ensures FnvStep(0x811c9dc5, 0x62) == 0xe70c2de5
    ensures FnvStep(0x811c9dc5, 0x66) == 0xe30c2799
    ensures FnvStep(0xe30c2799, 0x6f) == 0x6222e842
    ensures FnvStep(0x6222e842, 0x6f) == 0xa9f37ed7
    ensures FnvStep(0xa9f37ed7, 0x62) == 0x3f5076ef
    ensures FnvStep(0x3f5076ef, 0x61) == 0x39aaa18a
    ensures FnvStep(0x39aaa18a, 0x72) == 0xbf9cf968
  {
  }

  /** The first four digest bytes, least significant first. */
  function SeedFromString(s: Units): bv32 {
    Sha256.SeedOfDigest(Sha256.Sha256(Utf8.Encode(s)))
  }

  method ComputeSeed(s: Units) returns (seed: bv32)
    ensures seed == SeedFromString(s)
  {
    hide Utf8.Encode;
    hide Sha256.Sha256;
    hide Sha256.SeedOfDigest;
    var bytes := Utf8.Utf8Encode(s);
    var digest := Sha256.Sha256Bytes(bytes);
    seed := Sha256.SeedOfDigest(digest);
  }

  /** Distinct well-formed strings are hashed from distinct padded messages, so seeds derived under
      different labels can only meet in a collision of the hash function itself. */
  lemma DistinctStringsHashDistinctMessages(s: Units, t: Units)
    requires Utf8.WellFormed(s) && Utf8.WellFormed(t) && s != t
    ensures Sha256.Pad(Utf8.Encode(s)) != Sha256.Pad(Utf8.Encode(t))
  {
    hide Sha256.Pad;
    hide Sha256.Unpad;
    hide Utf8.Encode;
    if Sha256.Pad(Utf8.Encode(s)) == Sha256.Pad(Utf8.Encode(t)) {
      Sha256.PaddingIsInvertible(Utf8.Encode(s));
      Sha256.PaddingIsInvertible(Utf8.Encode(t));
      Utf8.EncodeIsInjective(s, t);
    }
  }

  /** The generators the game runs on. */
  function GameSource(units: string -> Units): MatchSpec.Source {
    MatchSpec.Source(
      (parent: string, l: string) => SeedFromString(units(parent + "|" + l)) as int,
      (parent: string, l: string) => Mulberry.RollsOf(SeedFromString(units(parent + "|" + l)) as int),
      (s: string) => Fnv(units(s)) as int,
      (s: string) => Mulberry.RollsOf(Fnv(units(s)) as int))
  }

  lemma GameSourceCoherent(units: string -> Units)
    ensures GameSource(units).Coherent()
  {
    hide Fnv;
    hide SeedFromString;
    hide Mulberry.RollsOf;
  }
}
