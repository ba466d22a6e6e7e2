/** Encoding JavaScript strings, sequences of UTF-16 code units, as UTF-8
    (packages/game-core/src/prng.ts), against RFC 3629 and RFC 2781. */
module Utf8 {
  import opened Wrappers

  type Unit = bv16
  type Byte = bv8
  type Point = bv32

  // ---- code points ----

  predicate High(u: Unit) {
    0xd800 <= u < 0xdc00
  }

  predicate Low(u: Unit) {
    0xdc00 <= u < 0xe000
  }

  /** Unicode scalar values: what UTF-8 can carry (section 3 of RFC 3629). */
  predicate Scalar(c: Point) {
    c < 0x110000 && !(0xd800 <= c < 0xe000)
  }

  const REPLACEMENT: Point := 0xfffd

  /** Section 2.2 of RFC 2781. */
  function FromPair(high: Unit, low: Unit): Point {
    0x10000 + (((high & 0x3ff) as bv32 << 10) | (low & 0x3ff) as bv32)
  }

  predicate PairAt(s: seq<Unit>) {
    |s| >= 2 && High(s[0]) && Low(s[1])
  }

  /** The code points of a string, each lone surrogate read as U+FFFD. */
  function CodePoints(s: seq<Unit>): seq<Point> {
    if s == [] then []
    else if PairAt(s) then [FromPair(s[0], s[1])] + CodePoints(s[2..])
    else if High(s[0]) || Low(s[0]) then [REPLACEMENT] + CodePoints(s[1..])
    else [s[0] as bv32] + CodePoints(s[1..])
  }

  predicate AllScalar(ps: seq<Point>) {
    forall i :: 0 <= i < |ps| ==> Scalar(ps[i])
  }

  lemma PairIsScalar(high: Unit, low: Unit)
    requires High(high) && Low(low)
    ensures Scalar(FromPair(high, low)) && FromPair(high, low) >= 0x10000
  {
  }

  lemma UnitIsScalar(u: Unit)
    requires !High(u) && !Low(u)
    ensures Scalar(u as bv32) && u as bv32 < 0x10000
  {
  }

  lemma {:induction false} CodePointsScalar(s: seq<Unit>)
    ensures AllScalar(CodePoints(s))
  {
    hide Scalar;
    assert Scalar(REPLACEMENT) by { ReplacementIsScalar(); }
    if s != [] {
      if PairAt(s) {
        PairIsScalar(s[0], s[1]);
        CodePointsScalar(s[2..]);
      } else {
        CodePointsScalar(s[1..]);
        if !High(s[0]) && !Low(s[0]) {
          UnitIsScalar(s[0]);
        }
      }
    }
  }

  lemma ReplacementIsScalar()
    ensures Scalar(REPLACEMENT)
  {
  }

  // ---- octets of one scalar value: section 3 of RFC 3629 ----

  function Lead2(c: Point): Byte requires c < 0x800 { (0xc0 | (c >> 6)) as bv8 }

  function Lead3(c: Point): Byte requires c < 0x10000 { (0xe0 | (c >> 12)) as bv8 }

  function Lead4(c: Point): Byte requires c < 0x110000 { (0xf0 | (c >> 18)) as bv8 }

  function Tail0(c: Point): Byte { (0x80 | (c & 0x3f)) as bv8 }

  function Tail6(c: Point): Byte { (0x80 | ((c >> 6) & 0x3f)) as bv8 }

  function Tail12(c: Point): Byte { (0x80 | ((c >> 12) & 0x3f)) as bv8 }

  predicate IsLead1(b: Byte) { b < 0x80 }

  predicate IsLead2(b: Byte) { b & 0xe0 == 0xc0 }

  predicate IsLead3(b: Byte) { b & 0xf0 == 0xe0 }

  predicate IsLead4(b: Byte) { b & 0xf8 == 0xf0 }

  predicate IsTail(b: Byte) { b & 0xc0 == 0x80 }

  function Point2(b: Byte, t: Byte): Point {
    ((b & 0x1f) as bv32 << 6) | (t & 0x3f) as bv32
  }

  function Point3(b: Byte, t: Byte, u: Byte): Point {
    ((b & 0x0f) as bv32 << 12) | ((t & 0x3f) as bv32 << 6) | (u & 0x3f) as bv32
  }

  function Point4(b: Byte, t: Byte, u: Byte, v: Byte): Point {
    ((b & 0x07) as bv32 << 18) | ((t & 0x3f) as bv32 << 12) | ((u & 0x3f) as bv32 << 6) | (v & 0x3f) as bv32
  }

  lemma LeadsDisjoint(b: Byte)
    ensures IsLead1(b) ==> !IsLead2(b) && !IsLead3(b) && !IsLead4(b)
    ensures IsLead2(b) ==> !IsLead3(b) && !IsLead4(b)
    ensures IsLead3(b) ==> !IsLead4(b)
  {
  }

  lemma One(c: Point)
    requires c < 0x80
    ensures IsLead1(c as bv8) && (c as bv8) as bv32 == c
  {
  }

  lemma OneBack(b: Byte)
    requires IsLead1(b)
    ensures (b as bv32) < 0x80 && Scalar(b as bv32) && (b as bv32) as bv8 == b
  {
  }

  lemma Two(c: Point)
    requires 0x80 <= c < 0x800
    ensures IsLead2(Lead2(c)) && IsTail(Tail0(c)) && Point2(Lead2(c), Tail0(c)) == c
  {
  }

  lemma TwoBack(b: Byte, t: Byte)
    requires IsLead2(b) && IsTail(t) && Point2(b, t) >= 0x80
    ensures var c := Point2(b, t); c < 0x800 && Scalar(c) && Lead2(c) == b && Tail0(c) == t
  {
  }

  lemma Three(c: Point)
    requires 0x800 <= c < 0x10000
    ensures IsLead3(Lead3(c)) && IsTail(Tail6(c)) && IsTail(Tail0(c)) && Point3(Lead3(c), Tail6(c), Tail0(c)) == c
  {
  }

  lemma ThreeBack(b: Byte, t: Byte, u: Byte)
    requires IsLead3(b) && IsTail(t) && IsTail(u) && Point3(b, t, u) >= 0x800
    ensures var c := Point3(b, t, u); c < 0x10000 && Lead3(c) == b && Tail6(c) == t && Tail0(c) == u
  {
  }

  lemma Four(c: Point)
    requires 0x10000 <= c < 0x110000
    ensures IsLead4(Lead4(c)) && IsTail(Tail12(c)) && IsTail(Tail6(c)) && IsTail(Tail0(c))
    ensures Point4(Lead4(c), Tail12(c), Tail6(c), Tail0(c)) == c
  {
  }

  lemma FourBack(b: Byte, t: Byte, u: Byte, v: Byte)
    requires IsLead4(b) && IsTail(t) && IsTail(u) && IsTail(v) && 0x10000 <= Point4(b, t, u, v) < 0x110000
    ensures var c := Point4(b, t, u, v); Lead4(c) == b && Tail12(c) == t && Tail6(c) == u && Tail0(c) == v
  {
  }

  // ---- UTF-8 ----

  function EncodePoint(c: Point): (r: seq<Byte>)
    requires c < 0x110000
    ensures 1 <= |r| <= 4
  {
    if c < 0x80 then [c as bv8]
    else if c < 0x800 then [Lead2(c), Tail0(c)]
    else if c < 0x10000 then [Lead3(c), Tail6(c), Tail0(c)]
    else [Lead4(c), Tail12(c), Tail6(c), Tail0(c)]
  }

  function EncodeAll(ps: seq<Point>): seq<Byte>
    requires AllScalar(ps)
  {
    if ps == [] then [] else EncodePoint(ps[0]) + EncodeAll(ps[1..])
  }

  datatype Decoded = Decoded(point: Point, size: nat)

  /** One scalar value off the front of an octet string, refusing stray and missing tails, overlong
      forms, surrogates and values beyond U+10FFFF. */
  function DecodePoint(b: seq<Byte>): (r: Option<Decoded>)
    ensures r.Some? ==> 1 <= r.value.size <= |b|
  {
    hide *;
    if b == [] then None
    else if IsLead1(b[0]) then Some(Decoded(b[0] as bv32, 1))
    else if IsLead2(b[0]) && |b| >= 2 && IsTail(b[1]) then
      var c := Point2(b[0], b[1]);
      if c >= 0x80 then Some(Decoded(c, 2)) else None
    else if IsLead3(b[0]) && |b| >= 3 && IsTail(b[1]) && IsTail(b[2]) then
      var c := Point3(b[0], b[1], b[2]);
      if c >= 0x800 && Scalar(c) then Some(Decoded(c, 3)) else None
    else if IsLead4(b[0]) && |b| >= 4 && IsTail(b[1]) && IsTail(b[2]) && IsTail(b[3]) then
      var c := Point4(b[0], b[1], b[2], b[3]);
      if c >= 0x10000 && Scalar(c) then Some(Decoded(c, 4)) else None
    else None
  }

  /** The strict decoder; an octet string is well-formed UTF-8 iff it returns Some. */
  function Decode(b: seq<Byte>): Option<seq<Point>>
    decreases |b|
  {
    if b == [] then Some([])
    else
      var d := DecodePoint(b);
      if d.None? then None
      else
        var rest := Decode(b[d.value.size..]);
        if rest.None? then None else Some([d.value.point] + rest.value)
  }

  lemma ScalarBound(c: Point)
    requires Scalar(c)
    ensures c < 0x110000
  {
  }

  lemma DecodeOfEncodePoint(c: Point, rest: seq<Byte>)
    requires Scalar(c)
    ensures c < 0x110000
    ensures DecodePoint(EncodePoint(c) + rest) == Some(Decoded(c, |EncodePoint(c)|))
  {
    hide Scalar;
    hide IsLead1;
    hide IsLead2;
    hide IsLead3;
    hide IsLead4;
    hide IsTail;
    hide Lead2;
    hide Lead3;
    hide Lead4;
    hide Tail0;
    hide Tail6;
    hide Tail12;
    hide Point2;
    hide Point3;
    hide Point4;
    ScalarBound(c);
    if c < 0x80 {
      One(c);
    } else if c < 0x800 {
      Two(c);
      LeadsDisjoint(Lead2(c));
    } else if c < 0x10000 {
      Three(c);
      LeadsDisjoint(Lead3(c));
    } else {
      Four(c);
      LeadsDisjoint(Lead4(c));
    }
  }

  lemma EncodeOfShortPoint(b: seq<Byte>)
    requires DecodePoint(b).Some? && DecodePoint(b).value.size <= 2
    ensures Scalar(DecodePoint(b).value.point) && DecodePoint(b).value.point < 0x110000
    ensures EncodePoint(DecodePoint(b).value.point) == b[..DecodePoint(b).value.size]
  {
    hide Scalar;
    hide IsLead1;
    hide IsLead2;
    hide IsLead3;
    hide IsLead4;
    hide IsTail;
    hide Lead2;
    hide Lead3;
    hide Lead4;
    hide Tail0;
    hide Tail6;
    hide Tail12;
    hide Point2;
    hide Point3;
    hide Point4;
    if IsLead1(b[0]) {
      OneBack(b[0]);
      assert b[..1] == [b[0]];
    } else {
      TwoBack(b[0], b[1]);
      assert b[..2] == [b[0], b[1]];
    }
  }

  lemma EncodeOfLongPoint(b: seq<Byte>)
    requires DecodePoint(b).Some? && DecodePoint(b).value.size > 2
    ensures Scalar(DecodePoint(b).value.point) && DecodePoint(b).value.point < 0x110000
    ensures EncodePoint(DecodePoint(b).value.point) == b[..DecodePoint(b).value.size]
  {
    hide Scalar;
    hide IsLead1;
    hide IsLead2;
    hide IsLead3;
    hide IsLead4;
    hide IsTail;
    hide Lead2;
    hide Lead3;
    hide Lead4;
    hide Tail0;
    hide Tail6;
    hide Tail12;
    hide Point2;
    hide Point3;
    hide Point4;
    var d := DecodePoint(b).value;
    ScalarBound(d.point);
    if d.size == 3 {
      ThreeBack(b[0], b[1], b[2]);
      assert b[..3] == [b[0], b[1], b[2]];
    } else {
      FourBack(b[0], b[1], b[2], b[3]);
      assert b[..4] == [b[0], b[1], b[2], b[3]];
    }
  }

  lemma EncodeOfDecodePoint(b: seq<Byte>)
    requires DecodePoint(b).Some?
    ensures Scalar(DecodePoint(b).value.point) && DecodePoint(b).value.point < 0x110000
    ensures EncodePoint(DecodePoint(b).value.point) == b[..DecodePoint(b).value.size]
  {
    hide DecodePoint;
    hide EncodePoint;
    hide Scalar;
    if DecodePoint(b).value.size <= 2 {
      EncodeOfShortPoint(b);
    } else {
      EncodeOfLongPoint(b);
    }
  }

  // ---- theorems ----

  /** Decoding what was encoded gives the scalar values back. */
  lemma {:induction false} DecodeEncodes(ps: seq<Point>)
    requires AllScalar(ps)
    ensures Decode(EncodeAll(ps)) == Some(ps)
  {
    hide DecodePoint;
    hide EncodePoint;
    hide Scalar;
    if ps != [] {
      ScalarBound(ps[0]);
      var b := EncodePoint(ps[0]);
      var rest := EncodeAll(ps[1..]);
      DecodeOfEncodePoint(ps[0], rest);
      DecodeEncodes(ps[1..]);
      assert (b + rest)[|b|..] == rest;
      assert ps == [ps[0]] + ps[1..];
    }
  }

  /** The decoder accepts nothing but encodings: well-formed UTF-8 has one reading and one spelling. */
  lemma {:induction false} EncodeDecodes(b: seq<Byte>)
    requires Decode(b).Some?
    ensures AllScalar(Decode(b).value) && EncodeAll(Decode(b).value) == b
    decreases |b|
  {
    hide DecodePoint;
    hide EncodePoint;
    hide Scalar;
    if b != [] {
      var d := DecodePoint(b).value;
      EncodeOfDecodePoint(b);
      EncodeDecodes(b[d.size..]);
      assert b == b[..d.size] + b[d.size..];
    }
  }

  function Encode(s: seq<Unit>): seq<Byte> {
    CodePointsScalar(s);
    EncodeAll(CodePoints(s))
  }

  /** Every string encodes to well-formed UTF-8 whose content is the string's code points, each lone
      surrogate replaced by U+FFFD; so two strings encode alike iff their code points agree. */
  lemma EncodeMeansCodePoints(s: seq<Unit>, t: seq<Unit>)
    ensures Decode(Encode(s)) == Some(CodePoints(s))
    ensures Encode(s) == Encode(t) <==> CodePoints(s) == CodePoints(t)
  {
    hide CodePoints;
    hide Decode;
    hide EncodeAll;
    CodePointsScalar(s);
    CodePointsScalar(t);
    DecodeEncodes(CodePoints(s));
    DecodeEncodes(CodePoints(t));
  }

  // ---- well-formed strings ----

  predicate WellFormed(s: seq<Unit>) {
    s == [] || (if PairAt(s) then WellFormed(s[2..]) else !High(s[0]) && !Low(s[0]) && WellFormed(s[1..]))
  }

  /** Section 2.1 of RFC 2781. */
  function UnitsOf(c: Point): (r: seq<Unit>)
    ensures r != []
  {
    if c < 0x10000 then [(c & 0xffff) as bv16]
    else [HighOf(c), LowOf(c)]
  }

  function HighOf(c: Point): Unit {
    (0xd800 | (((c - 0x10000) >> 10) & 0x3ff)) as bv16
  }

  function LowOf(c: Point): Unit {
    (0xdc00 | ((c - 0x10000) & 0x3ff)) as bv16
  }

  function ToUnits(ps: seq<Point>): seq<Unit> {
    if ps == [] then [] else UnitsOf(ps[0]) + ToUnits(ps[1..])
  }

  lemma PairBack(high: Unit, low: Unit)
    requires High(high) && Low(low)
    ensures var c := FromPair(high, low); c >= 0x10000 && HighOf(c) == high && LowOf(c) == low
  {
  }

  lemma UnitsOfPair(high: Unit, low: Unit)
    requires High(high) && Low(low)
    ensures UnitsOf(FromPair(high, low)) == [high, low]
  {
    hide FromPair;
    hide HighOf;
    hide LowOf;
    PairBack(high, low);
  }

  lemma UnitsOfUnit(u: Unit)
    ensures UnitsOf(u as bv32) == [u]
    ensures High(u) || Low(u) ==> UnitsOf(REPLACEMENT)[0] != u
  {
  }

  lemma {:induction false} WellFormedReturns(s: seq<Unit>)
    requires WellFormed(s)
    ensures ToUnits(CodePoints(s)) == s
  {
    hide UnitsOf;
    hide FromPair;
    hide High;
    hide Low;
    if s != [] {
      if PairAt(s) {
        UnitsOfPair(s[0], s[1]);
        WellFormedReturns(s[2..]);
        assert s == [s[0], s[1]] + s[2..];
      } else {
        UnitsOfUnit(s[0]);
        WellFormedReturns(s[1..]);
        assert s == [s[0]] + s[1..];
      }
    }
  }

  lemma FirstUnits(c: Point, ps: seq<Point>)
    ensures ToUnits([c] + ps) == UnitsOf(c) + ToUnits(ps)
  {
    hide UnitsOf;
    assert ([c] + ps)[1..] == ps;
  }

  lemma {:induction false} LoneSurrogateChanges(s: seq<Unit>)
    requires !WellFormed(s)
    ensures ToUnits(CodePoints(s)) != s
  {
    hide UnitsOf;
    hide FromPair;
    hide High;
    hide Low;
    hide ToUnits;
    if PairAt(s) {
      UnitsOfPair(s[0], s[1]);
      LoneSurrogateChanges(s[2..]);
      var rest := ToUnits(CodePoints(s[2..]));
      FirstUnits(FromPair(s[0], s[1]), CodePoints(s[2..]));
      assert ([s[0], s[1]] + rest)[2..] == rest;
    } else if High(s[0]) || Low(s[0]) {
      UnitsOfUnit(s[0]);
      FirstUnits(REPLACEMENT, CodePoints(s[1..]));
    } else {
      UnitsOfUnit(s[0]);
      LoneSurrogateChanges(s[1..]);
      var rest := ToUnits(CodePoints(s[1..]));
      FirstUnits(s[0] as bv32, CodePoints(s[1..]));
      assert ([s[0]] + rest)[1..] == rest;
    }
  }

  /** A string is its code points written as UTF-16 again, exactly when it has no lone surrogate. */
  lemma UnitsRoundTrip(s: seq<Unit>)
    ensures ToUnits(CodePoints(s)) == s <==> WellFormed(s)
  {
    if WellFormed(s) {
      WellFormedReturns(s);
    } else {
      LoneSurrogateChanges(s);
    }
  }

  /** On strings without lone surrogates the encoding is injective. */
  lemma EncodeIsInjective(s: seq<Unit>, t: seq<Unit>)
    requires WellFormed(s) && WellFormed(t) && Encode(s) == Encode(t)
    ensures s == t
  {
    hide CodePoints;
    hide ToUnits;
    hide Encode;
    EncodeMeansCodePoints(s, t);
    UnitsRoundTrip(s);
    UnitsRoundTrip(t);
  }

  // ---- the loop ----

  lemma {:induction false} EncodeAllAppends(ps: seq<Point>, c: Point)
    requires AllScalar(ps) && Scalar(c)
    ensures c < 0x110000 && AllScalar(ps + [c]) && EncodeAll(ps + [c]) == EncodeAll(ps) + EncodePoint(c)
  {
    hide EncodePoint;
    hide Scalar;
    ScalarBound(c);
    if ps == [] {
      assert ps + [c] == [c];
    } else {
      EncodeAllAppends(ps[1..], c);
      assert (ps + [c])[1..] == ps[1..] + [c];
    }
  }

  lemma CodePointsAppend(s: seq<Unit>, i: nat)
    requires i < |s|
    ensures CodePoints(s[i..]) ==
              if PairAt(s[i..]) then [FromPair(s[i], s[i + 1])] + CodePoints(s[i + 2..])
              else if High(s[i]) || Low(s[i]) then [REPLACEMENT] + CodePoints(s[i + 1..])
              else [s[i] as bv32] + CodePoints(s[i + 1..])
  {
    hide High;
    hide Low;
    hide FromPair;
    var t := s[i..];
    assert t[1..] == s[i + 1..];
    if |t| >= 2 {
      assert t[2..] == s[i + 2..];
    }
  }

  /** One turn of the loop: the code point at i and where the next one starts. */
  method NextPoint(s: seq<Unit>, i: nat) returns (point: Point, next: nat)
    requires i < |s|
    ensures Scalar(point) && i < next <= |s|
    ensures CodePoints(s[i..]) == [point] + CodePoints(s[next..])
  {
    hide Scalar;
    hide CodePoints;
    hide High;
    hide Low;
    hide FromPair;
    var c := s[i];
    CodePointsAppend(s, i);
    next := i + 1;
    if High(c) {
      if i + 1 < |s| && Low(s[i + 1]) {
        point := FromPair(c, s[i + 1]);
        PairIsScalar(c, s[i + 1]);
        next := i + 2;
      } else {
        point := REPLACEMENT;
        ReplacementIsScalar();
      }
    } else if Low(c) {
      point := REPLACEMENT;
      ReplacementIsScalar();
    } else {
      point := c as bv32;
      UnitIsScalar(c);
    }
  }

  /** `utf8Encode` */
  method Utf8Encode(s: seq<Unit>) returns (out: seq<Byte>)
    ensures out == Encode(s)
  {
    hide EncodePoint;
    hide EncodeAll;
    hide Scalar;
    hide CodePoints;
    out := [];
    ghost var done: seq<Point> := [];
    var i := 0;
    assert s[0..] == s;
    NothingEncoded();
    while i < |s|
      invariant i <= |s|
      invariant AllScalar(done) && out == EncodeAll(done)
      invariant CodePoints(s) == done + CodePoints(s[i..])
    {
      var point, next := NextPoint(s, i);
      EncodeAllAppends(done, point);
      out := out + EncodePoint(point);
      assert done + ([point] + CodePoints(s[next..])) == done + [point] + CodePoints(s[next..]);
      done := done + [point];
      i := next;
    }
    assert s[i..] == [];
    assert done == CodePoints(s);
  }

  lemma NothingEncoded()
    ensures EncodeAll([]) == [] && CodePoints([]) == []
  {
  }
}
