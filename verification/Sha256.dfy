/** SHA-256 (packages/game-core/src/prng.ts) against the definition in FIPS 180-4. */
module Sha256 {
  type Byte = bv8
  type Word = bv32

  // ---- FIPS 180-4, sections 3.2 and 4.1.2 ----

  function Rotr(x: Word, n: bv32): Word
    requires n <= 32
  {
    (x >> n) | (x << (32 - n))
  }

  function Ch(x: Word, y: Word, z: Word): Word {
    (x & y) ^ (!x & z)
  }

  function Maj(x: Word, y: Word, z: Word): Word {
    (x & y) ^ (x & z) ^ (y & z)
  }

  function BigSigma0(x: Word): Word {
    Rotr(x, 2) ^ Rotr(x, 13) ^ Rotr(x, 22)
  }

  function BigSigma1(x: Word): Word {
    Rotr(x, 6) ^ Rotr(x, 11) ^ Rotr(x, 25)
  }

  function SmallSigma0(x: Word): Word {
    Rotr(x, 7) ^ Rotr(x, 18) ^ (x >> 3)
  }

  function SmallSigma1(x: Word): Word {
    Rotr(x, 17) ^ Rotr(x, 19) ^ (x >> 10)
  }

  /** Addition modulo 2^32: `(x + y) >>> 0`. */
  function Plus(x: Word, y: Word): Word {
    x + y
  }

  function Sum4(a: Word, b: Word, c: Word, d: Word): Word {
    a + b + c + d
  }

  // ---- constants: sections 4.2.2 and 5.3.3 ----

  /** The entries of SHA256_K. */
  function KTable(t: nat): int {
    match t
    case 0 => 0x428a2f98
    case 1 => 0x71374491
    case 2 => 0xb5c0fbcf
    case 3 => 0xe9b5dba5
    case 4 => 0x3956c25b
    case 5 => 0x59f111f1
    case 6 => 0x923f82a4
    case 7 => 0xab1c5ed5
    case 8 => 0xd807aa98
    case 9 => 0x12835b01
    case 10 => 0x243185be
    case 11 => 0x550c7dc3
    case 12 => 0x72be5d74
    case 13 => 0x80deb1fe
    case 14 => 0x9bdc06a7
    case 15 => 0xc19bf174
    case 16 => 0xe49b69c1
    case 17 => 0xefbe4786
    case 18 => 0x0fc19dc6
    case 19 => 0x240ca1cc
    case 20 => 0x2de92c6f
    case 21 => 0x4a7484aa
    case 22 => 0x5cb0a9dc
    case 23 => 0x76f988da
    case 24 => 0x983e5152
    case 25 => 0xa831c66d
    case 26 => 0xb00327c8
    case 27 => 0xbf597fc7
    case 28 => 0xc6e00bf3
    case 29 => 0xd5a79147
    case 30 => 0x06ca6351
    case 31 => 0x14292967
    case 32 => 0x27b70a85
    case 33 => 0x2e1b2138
    case 34 => 0x4d2c6dfc
    case 35 => 0x53380d13
    case 36 => 0x650a7354
    case 37 => 0x766a0abb
    case 38 => 0x81c2c92e
    case 39 => 0x92722c85
    case 40 => 0xa2bfe8a1
    case 41 => 0xa81a664b
    case 42 => 0xc24b8b70
    case 43 => 0xc76c51a3
    case 44 => 0xd192e819
    case 45 => 0xd6990624
    case 46 => 0xf40e3585
    case 47 => 0x106aa070
    case 48 => 0x19a4c116
    case 49 => 0x1e376c08
    case 50 => 0x2748774c
    case 51 => 0x34b0bcb5
    case 52 => 0x391c0cb3
    case 53 => 0x4ed8aa4a
    case 54 => 0x5b9cca4f
    case 55 => 0x682e6ff3
    case 56 => 0x748f82ee
    case 57 => 0x78a5636f
    case 58 => 0x84c87814
    case 59 => 0x8cc70208
    case 60 => 0x90befffa
    case 61 => 0xa4506ceb
    case 62 => 0xbef9a3f7
    case _ => 0xc67178f2
  }

  /** The words the hash starts from. */
  function HTable(t: nat): int {
    match t
    case 0 => 0x6a09e667
    case 1 => 0xbb67ae85
    case 2 => 0x3c6ef372
    case 3 => 0xa54ff53a
    case 4 => 0x510e527f
    case 5 => 0x9b05688c
    case 6 => 0x1f83d9ab
    case _ => 0x5be0cd19
  }

  const WORD := 0x1_0000_0000

  /** k is the first 32 bits of the fractional part of the cube root of p, whose integer part is whole. */
  predicate IsCubeRootFraction(p: int, whole: int, k: int) {
    && 0 <= k < WORD && whole * whole * whole <= p < (whole + 1) * (whole + 1) * (whole + 1)
    && var n := whole * WORD + k;
       n * n * n <= p * WORD * WORD * WORD < (n + 1) * (n + 1) * (n + 1)
  }

  predicate IsSquareRootFraction(p: int, whole: int, h: int) {
    && 0 <= h < WORD && whole * whole <= p < (whole + 1) * (whole + 1)
    && var n := whole * WORD + h;
       n * n <= p * WORD * WORD < (n + 1) * (n + 1)
  }

  // The round constants are the ones section 4.2.2 defines: cube roots of the first 64 primes.

  lemma RoundConstants0To15()
    ensures IsCubeRootFraction(2, 1, KTable(0))
    ensures IsCubeRootFraction(3, 1, KTable(1))
    ensures IsCubeRootFraction(5, 1, KTable(2))
    ensures IsCubeRootFraction(7, 1, KTable(3))
    ensures IsCubeRootFraction(11, 2, KTable(4))
    ensures IsCubeRootFraction(13, 2, KTable(5))
    ensures IsCubeRootFraction(17, 2, KTable(6))
    ensures IsCubeRootFraction(19, 2, KTable(7))
    ensures IsCubeRootFraction(23, 2, KTable(8))
    ensures IsCubeRootFraction(29, 3, KTable(9))
    ensures IsCubeRootFraction(31, 3, KTable(10))
    ensures IsCubeRootFraction(37, 3, KTable(11))
    ensures IsCubeRootFraction(41, 3, KTable(12))
    ensures IsCubeRootFraction(43, 3, KTable(13))
    ensures IsCubeRootFraction(47, 3, KTable(14))
    ensures IsCubeRootFraction(53, 3, KTable(15))
  {
  }

  lemma RoundConstants16To31()
    ensures IsCubeRootFraction(59, 3, KTable(16))
    ensures IsCubeRootFraction(61, 3, KTable(17))
    ensures IsCubeRootFraction(67, 4, KTable(18))
    ensures IsCubeRootFraction(71, 4, KTable(19))
    ensures IsCubeRootFraction(73, 4, KTable(20))
    ensures IsCubeRootFraction(79, 4, KTable(21))
    ensures IsCubeRootFraction(83, 4, KTable(22))
    ensures IsCubeRootFraction(89, 4, KTable(23))
    ensures IsCubeRootFraction(97, 4, KTable(24))
    ensures IsCubeRootFraction(101, 4, KTable(25))
    ensures IsCubeRootFraction(103, 4, KTable(26))
    ensures IsCubeRootFraction(107, 4, KTable(27))
    ensures IsCubeRootFraction(109, 4, KTable(28))
    ensures IsCubeRootFraction(113, 4, KTable(29))
    ensures IsCubeRootFraction(127, 5, KTable(30))
    ensures IsCubeRootFraction(131, 5, KTable(31))
  {
  }

  lemma RoundConstants32To47()
    ensures IsCubeRootFraction(137, 5, KTable(32))
    ensures IsCubeRootFraction(139, 5, KTable(33))
    ensures IsCubeRootFraction(149, 5, KTable(34))
    ensures IsCubeRootFraction(151, 5, KTable(35))
    ensures IsCubeRootFraction(157, 5, KTable(36))
    ensures IsCubeRootFraction(163, 5, KTable(37))
    ensures IsCubeRootFraction(167, 5, KTable(38))
    ensures IsCubeRootFraction(173, 5, KTable(39))
    ensures IsCubeRootFraction(179, 5, KTable(40))
    ensures IsCubeRootFraction(181, 5, KTable(41))
    ensures IsCubeRootFraction(191, 5, KTable(42))
    ensures IsCubeRootFraction(193, 5, KTable(43))
    ensures IsCubeRootFraction(197, 5, KTable(44))
    ensures IsCubeRootFraction(199, 5, KTable(45))
    ensures IsCubeRootFraction(211, 5, KTable(46))
    ensures IsCubeRootFraction(223, 6, KTable(47))
  {
  }

  lemma RoundConstants48To63()
    ensures IsCubeRootFraction(227, 6, KTable(48))
    ensures IsCubeRootFraction(229, 6, KTable(49))
    ensures IsCubeRootFraction(233, 6, KTable(50))
    ensures IsCubeRootFraction(239, 6, KTable(51))
    ensures IsCubeRootFraction(241, 6, KTable(52))
    ensures IsCubeRootFraction(251, 6, KTable(53))
    ensures IsCubeRootFraction(257, 6, KTable(54))
    ensures IsCubeRootFraction(263, 6, KTable(55))
    ensures IsCubeRootFraction(269, 6, KTable(56))
    ensures IsCubeRootFraction(271, 6, KTable(57))
    ensures IsCubeRootFraction(277, 6, KTable(58))
    ensures IsCubeRootFraction(281, 6, KTable(59))
    ensures IsCubeRootFraction(283, 6, KTable(60))
    ensures IsCubeRootFraction(293, 6, KTable(61))
    ensures IsCubeRootFraction(307, 6, KTable(62))
    ensures IsCubeRootFraction(311, 6, KTable(63))
  {
  }

  // The initial hash value is the one section 5.3.3 defines: square roots of the first 8 primes.

  lemma InitialHashConstants()
    ensures IsSquareRootFraction(2, 1, HTable(0))
    ensures IsSquareRootFraction(3, 1, HTable(1))
    ensures IsSquareRootFraction(5, 2, HTable(2))
    ensures IsSquareRootFraction(7, 2, HTable(3))
    ensures IsSquareRootFraction(11, 3, HTable(4))
    ensures IsSquareRootFraction(13, 3, HTable(5))
    ensures IsSquareRootFraction(17, 4, HTable(6))
    ensures IsSquareRootFraction(19, 4, HTable(7))
  {
  }

  function K(t: nat): Word {
    var k := KTable(t);
    if 0 <= k < WORD then k as bv32 else 0
  }

  function H0(t: nat): Word {
    var h := HTable(t);
    if 0 <= h < WORD then h as bv32 else 0
  }

  // ---- padding: section 5.1.1, in bytes ----

  /** The least number of zero bytes that leaves room for the length in the last block. */
  function ZeroBytes(length: nat): (k: nat)
    ensures k < 64 && (length + 1 + k) % 64 == 56
  {
    (119 - length % 64) % 64
  }

  /** The bit length modulo 2^64. */
  function BitLength(length: nat): bv64 {
    (8 * length % 0x1_0000_0000_0000_0000) as bv64
  }

  function LengthField(bits: bv64): (r: seq<Byte>)
    ensures |r| == 8
  {
    [((bits >> 56) & 0xff) as bv8, ((bits >> 48) & 0xff) as bv8, ((bits >> 40) & 0xff) as bv8, ((bits >> 32) & 0xff) as bv8,
     ((bits >> 24) & 0xff) as bv8, ((bits >> 16) & 0xff) as bv8, ((bits >> 8) & 0xff) as bv8, (bits & 0xff) as bv8]
  }

  function Zeros(n: nat): (r: seq<Byte>)
    ensures |r| == n
    ensures forall i :: 0 <= i < n ==> r[i] == 0
  {
    seq(n, i => 0)
  }

  function Pad(m: seq<Byte>): (r: seq<Byte>)
    ensures |r| == |m| + 9 + ZeroBytes(|m|)
  {
    m + [0x80] + Zeros(ZeroBytes(|m|)) + LengthField(BitLength(|m|))
  }

  lemma ZeroBytesLeast(length: nat, zeros: nat)
    requires (length + 9 + zeros) % 64 == 0
    ensures ZeroBytes(length) <= zeros
  {
    var k := ZeroBytes(length);
    var q := (length + 9 + zeros) / 64 - (length + 9 + k) / 64;
    assert zeros - k == 64 * q;
  }

  /** A padded message fills whole blocks, and no fewer zero bytes would do. */
  lemma PaddingIsMinimal(m: seq<Byte>, zeros: nat)
    ensures |Pad(m)| % 64 == 0
    ensures (|m| + 9 + zeros) % 64 == 0 ==> |Pad(m)| <= |m| + 9 + zeros
  {
    hide Pad;
    var k := ZeroBytes(|m|);
    assert (|m| + 1 + k) % 64 == 56;
    if (|m| + 9 + zeros) % 64 == 0 {
      ZeroBytesLeast(|m|, zeros);
    }
  }

  function StripZeros(s: seq<Byte>): seq<Byte> {
    if s != [] && s[|s| - 1] == 0 then StripZeros(s[..|s| - 1]) else s
  }

  /** Drop the length, the zeros and the marker. */
  function Unpad(s: seq<Byte>): seq<Byte> {
    if |s| < 8 then []
    else
      var t := StripZeros(s[..|s| - 8]);
      if t == [] then [] else t[..|t| - 1]
  }

  lemma {:induction false} StripsZeros(m: seq<Byte>, n: nat)
    ensures StripZeros(m + [0x80] + Zeros(n)) == m + [0x80]
  {
    var s := m + [0x80] + Zeros(n);
    if n > 0 {
      StripsZeros(m, n - 1);
      assert s[..|s| - 1] == m + [0x80] + Zeros(n - 1);
    } else {
      assert s == m + [0x80];
    }
  }

  /** The message is recoverable from its padding, so padding never confuses two messages. */
  lemma PaddingIsInvertible(m: seq<Byte>)
    ensures Unpad(Pad(m)) == m
  {
    hide LengthField;
    StripsZeros(m, ZeroBytes(|m|));
    assert Pad(m)[..|Pad(m)| - 8] == m + [0x80] + Zeros(ZeroBytes(|m|));
  }

  /** The 64-bit number in the last eight bytes. */
  function ReadLength(s: seq<Byte>): bv64
    requires |s| >= 8
  {
    var n := |s| - 8;
    (s[n] as bv64 << 56) | (s[n + 1] as bv64 << 48) | (s[n + 2] as bv64 << 40) | (s[n + 3] as bv64 << 32)
    | (s[n + 4] as bv64 << 24) | (s[n + 5] as bv64 << 16) | (s[n + 6] as bv64 << 8) | s[n + 7] as bv64
  }

  lemma BytesOfWord64(x: bv64)
    ensures x == (((x >> 56) & 0xff) << 56) | (((x >> 48) & 0xff) << 48) | (((x >> 40) & 0xff) << 40)
                 | (((x >> 32) & 0xff) << 32) | (((x >> 24) & 0xff) << 24) | (((x >> 16) & 0xff) << 16)
                 | (((x >> 8) & 0xff) << 8) | (x & 0xff)
  {
  }

  lemma LengthFieldReadsBack(bits: bv64)
    ensures ReadLength(LengthField(bits)) == bits
  {
    BytesOfWord64(bits);
  }

  /** The padding ends with the bit length of the message. */
  lemma PaddingRecordsLength(m: seq<Byte>)
    ensures ReadLength(Pad(m)) == BitLength(|m|)
  {
    hide LengthField;
    hide BitLength;
    var bits := BitLength(|m|);
    var s := Pad(m);
    LengthFieldReadsBack(bits);
    assert s[|s| - 8..] == LengthField(bits);
    TailDecides(s, LengthField(bits));
  }

  lemma TailDecides(s: seq<Byte>, tail: seq<Byte>)
    requires |s| >= 8 && s[|s| - 8..] == tail
    ensures ReadLength(s) == ReadLength(tail)
  {
    assert forall k :: 0 <= k < 8 ==> s[|s| - 8 + k] == tail[k];
  }

  // ---- parsing and the message schedule: sections 5.2.1 and 6.2.2, step 1 ----

  function WordAt(buf: seq<Byte>, j: nat): Word
    requires j + 4 <= |buf|
  {
    (buf[j] as bv32 << 24) | (buf[j + 1] as bv32 << 16) | (buf[j + 2] as bv32 << 8) | buf[j + 3] as bv32
  }

  function Schedule(buf: seq<Byte>, block: nat, t: nat): Word
    requires block + 64 <= |buf|
  {
    if t < 16 then WordAt(buf, block + 4 * t)
    else
      Sum4(SmallSigma1(Schedule(buf, block, t - 2)), Schedule(buf, block, t - 7),
           SmallSigma0(Schedule(buf, block, t - 15)), Schedule(buf, block, t - 16))
  }

  // ---- compression: section 6.2.2, steps 2 to 4 ----

  datatype Hash = Hash(a: Word, b: Word, c: Word, d: Word, e: Word, f: Word, g: Word, h: Word)

  const INITIAL := Hash(H0(0), H0(1), H0(2), H0(3), H0(4), H0(5), H0(6), H0(7))

  function Round(v: Hash, k: Word, w: Word): Hash {
    var t1 := Plus(Plus(Plus(Plus(v.h, BigSigma1(v.e)), Ch(v.e, v.f, v.g)), k), w);
    var t2 := Plus(BigSigma0(v.a), Maj(v.a, v.b, v.c));
    Hash(Plus(t1, t2), v.a, v.b, v.c, Plus(v.d, t1), v.e, v.f, v.g)
  }

  function Rounds(v: Hash, buf: seq<Byte>, block: nat, t: nat): Hash
    requires block + 64 <= |buf|
  {
    if t == 0 then v else Round(Rounds(v, buf, block, t - 1), K(t - 1), Schedule(buf, block, t - 1))
  }

  function AddHash(x: Hash, y: Hash): Hash {
    Hash(Plus(x.a, y.a), Plus(x.b, y.b), Plus(x.c, y.c), Plus(x.d, y.d),
         Plus(x.e, y.e), Plus(x.f, y.f), Plus(x.g, y.g), Plus(x.h, y.h))
  }

  /** The hash value after the first n blocks. */
  function HashBlocks(buf: seq<Byte>, n: nat): Hash
    requires 64 * n <= |buf|
  {
    if n == 0 then INITIAL
    else
      var before := HashBlocks(buf, n - 1);
      AddHash(before, Rounds(before, buf, 64 * (n - 1), 64))
  }

  function WordBytes(w: Word): (r: seq<Byte>)
    ensures |r| == 4
  {
    [((w >> 24) & 0xff) as bv8, ((w >> 16) & 0xff) as bv8, ((w >> 8) & 0xff) as bv8, (w & 0xff) as bv8]
  }

  function Digest(h: Hash): (r: seq<Byte>)
    ensures |r| == 32
  {
    WordBytes(h.a) + WordBytes(h.b) + WordBytes(h.c) + WordBytes(h.d)
    + WordBytes(h.e) + WordBytes(h.f) + WordBytes(h.g) + WordBytes(h.h)
  }

  /** SHA-256 of a message. */
  function Sha256(m: seq<Byte>): (r: seq<Byte>)
    ensures |r| == 32
  {
    var p := Pad(m);
    Digest(HashBlocks(p, |p| / 64))
  }

  /** The digest's bytes are its words, most significant byte first. */
  lemma WordBytesRoundTrip(w: Word)
    ensures WordAt(WordBytes(w), 0) == w
  {
  }

  // ---- the implementation ----

  lemma PadLength(len: nat)
    ensures (64 - (len + 9) % 64) % 64 == ZeroBytes(len)
  {
  }

  method PadMessage(bytes: seq<Byte>) returns (buf: array<Byte>)
    ensures fresh(buf) && buf[..] == Pad(bytes)
  {
    hide LengthField;
    hide BitLength;
    var len := |bytes|;
    var padLen := (64 - (len + 9) % 64) % 64;
    PadLength(len);
    var total := len + 9 + padLen;
    buf := new Byte[total](i => 0);
    for i := 0 to len
      invariant buf[..i] == bytes[..i]
      invariant forall k :: i <= k < total ==> buf[k] == 0
    {
      buf[i] := bytes[i];
    }
    buf[len] := 0x80;
    var field := LengthField(BitLength(len));
    for i := 0 to 8
      invariant buf[..len] == bytes && buf[len] == 0x80
      invariant forall k :: len < k < total - 8 ==> buf[k] == 0
      invariant forall k :: 0 <= k < i ==> buf[total - 8 + k] == field[k]
    {
      buf[total - 8 + i] := field[i];
    }
    assert buf[len + 1..total - 8] == Zeros(padLen);
    assert buf[total - 8..] == field;
    assert buf[..] == buf[..len] + [buf[len]] + buf[len + 1..total - 8] + buf[total - 8..];
  }

  /** The implementation adds the four terms of the schedule in the reverse order. */
  lemma SumReversed(a: Word, b: Word, c: Word, d: Word)
    ensures Sum4(a, b, c, d) == Sum4(d, c, b, a)
  {
  }

  lemma ScheduleIs(s: seq<Byte>, block: nat, t: nat)
    requires block + 64 <= |s|
    ensures t < 16 ==> Schedule(s, block, t) == WordAt(s, block + t * 4)
    ensures t >= 16 ==>
              Schedule(s, block, t) ==
                Sum4(Schedule(s, block, t - 16), SmallSigma0(Schedule(s, block, t - 15)),
                     Schedule(s, block, t - 7), SmallSigma1(Schedule(s, block, t - 2)))
  {
    hide Sum4;
    hide SmallSigma0;
    hide SmallSigma1;
    hide WordAt;
    if t >= 16 {
      SumReversed(Schedule(s, block, t - 16), SmallSigma0(Schedule(s, block, t - 15)),
                  Schedule(s, block, t - 7), SmallSigma1(Schedule(s, block, t - 2)));
    }
  }

  method ExpandBlock(buf: seq<Byte>, block: nat, w: array<Word>)
    requires block + 64 <= |buf| && w.Length == 64
    modifies w
    ensures forall t :: 0 <= t < 64 ==> w[t] == Schedule(buf, block, t)
  {
    hide SmallSigma0;
    hide SmallSigma1;
    hide WordAt;
    hide Schedule;
    hide Sum4;
    for i := 0 to 16
      invariant forall t :: 0 <= t < i ==> w[t] == Schedule(buf, block, t)
    {
      ScheduleIs(buf, block, i);
      w[i] := WordAt(buf, block + i * 4);
    }
    for i := 16 to 64
      invariant forall t :: 0 <= t < i ==> w[t] == Schedule(buf, block, t)
    {
      ScheduleIs(buf, block, i);
      var s0 := SmallSigma0(w[i - 15]);
      var s1 := SmallSigma1(w[i - 2]);
      w[i] := Sum4(w[i - 16], s0, w[i - 7], s1);
    }
  }

  /** The sixty-four rounds on one expanded block. */
  method Compress(buf: seq<Byte>, block: nat, w: array<Word>, start: Hash) returns (v: Hash)
    requires block + 64 <= |buf| && w.Length == 64
    requires forall t :: 0 <= t < 64 ==> w[t] == Schedule(buf, block, t)
    ensures v == Rounds(start, buf, block, 64)
  {
    hide Schedule;
    hide BigSigma0;
    hide BigSigma1;
    hide Ch;
    hide Maj;
    hide K;
    hide Plus;
    var a, b, c, d := start.a, start.b, start.c, start.d;
    var e, f, g, h := start.e, start.f, start.g, start.h;
    for i := 0 to 64
      invariant Hash(a, b, c, d, e, f, g, h) == Rounds(start, buf, block, i)
    {
      var s1 := BigSigma1(e);
      var ch := Ch(e, f, g);
      var t1 := Plus(Plus(Plus(Plus(h, s1), ch), K(i)), w[i]);
      var s0 := BigSigma0(a);
      var maj := Maj(a, b, c);
      var t2 := Plus(s0, maj);
      h := g;
      g := f;
      f := e;
      e := Plus(d, t1);
      d := c;
      c := b;
      b := a;
      a := Plus(t1, t2);
    }
    v := Hash(a, b, c, d, e, f, g, h);
  }

  /** The implementation computes the SHA-256 of every byte string. */
  method Sha256Bytes(bytes: seq<Byte>) returns (out: seq<Byte>)
    ensures out == Sha256(bytes)
  {
    hide Schedule;
    hide Rounds;
    hide AddHash;
    hide Digest;
    hide Pad;
    var padded := PadMessage(bytes);
    var buf := padded[..];
    PaddingIsMinimal(bytes, 0);
    var hash := INITIAL;
    var w := new Word[64];
    var n := |buf| / 64;
    for i := 0 to n
      invariant hash == HashBlocks(buf, i)
    {
      ExpandBlock(buf, 64 * i, w);
      var v := Compress(buf, 64 * i, w, hash);
      hash := AddHash(hash, v);
    }
    out := Digest(hash);
  }

  /** `seedFromString` after encoding: the first four digest bytes, least significant first. */
  function SeedOfDigest(digest: seq<Byte>): bv32
    requires |digest| == 32
  {
    digest[0] as bv32 | (digest[1] as bv32 << 8) | (digest[2] as bv32 << 16) | (digest[3] as bv32 << 24)
  }

  lemma SeedIsLittleEndian(digest: seq<Byte>)
    requires |digest| == 32
    ensures var seed := SeedOfDigest(digest);
            && seed & 0xff == digest[0] as bv32 && (seed >> 8) & 0xff == digest[1] as bv32
            && (seed >> 16) & 0xff == digest[2] as bv32 && seed >> 24 == digest[3] as bv32
  {
  }
}
