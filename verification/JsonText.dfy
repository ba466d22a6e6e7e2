/** The text JSON.stringify writes, as UTF-16 code units, and how it is read back. */
module JsonText {
  import Decimal
  import Lexicographic

  type Unit = n: int | 0 <= n < 0x10000

  type Units = seq<Unit>

  const QUOTE: Unit := 0x22
  const BACKSLASH: Unit := 0x5C
  const COMMA: Unit := 0x2C
  const COLON: Unit := 0x3A
  const MINUS: Unit := 0x2D
  const OPEN_BRACKET: Unit := 0x5B
  const CLOSE_BRACKET: Unit := 0x5D
  const OPEN_BRACE: Unit := 0x7B
  const CLOSE_BRACE: Unit := 0x7D
  const NULL_TEXT: Units := [0x6E, 0x75, 0x6C, 0x6C]
  const TRUE_TEXT: Units := [0x74, 0x72, 0x75, 0x65]
  const FALSE_TEXT: Units := [0x66, 0x61, 0x6C, 0x73, 0x65]

  // Order.

  function Rank(): Unit -> int {
    c => c
  }

  /** `a < b` on strings. */
  predicate Less(a: Units, b: Units) {
    Lexicographic.Less(a, b, Rank())
  }

  predicate AtMost(a: Units, b: Units) {
    a == b || Less(a, b)
  }

  lemma LessTrichotomy(a: Units, b: Units)
    ensures !(Less(a, b) && Less(b, a))
    ensures a != b ==> Less(a, b) || Less(b, a)
    ensures a == b ==> !Less(a, b)
  {
    Lexicographic.Trichotomy(a, b, Rank());
  }

  lemma LessTransitive(a: Units, b: Units, c: Units)
    requires Less(a, b) && Less(b, c)
    ensures Less(a, c)
  {
    Lexicographic.Transitive(a, b, c, Rank());
  }

  // Writing.

  /** Decimal digits of n. */
  function OfNat(n: nat): (s: Units)
    ensures s != [] && Digits(s)
  {
    var d := Decimal.Digits(n);
    var s := seq(|d|, i requires 0 <= i < |d| => assert d[i] in d; DigitUnit(d[i]));
    assert forall i :: 0 <= i < |s| ==> s[i] == 0x30 + d[i] && d[i] in d;
    s
  }

  function DigitUnit(d: nat): Unit
    requires d < 10
  {
    0x30 + d
  }

  function OfInt(n: int): Units {
    if n < 0 then [MINUS] + OfNat(-n) else OfNat(n)
  }

  function HexDigit(d: nat): Unit
    requires d < 16
  {
    if d < 10 then 0x30 + d else 0x61 + d - 10
  }

  predicate IsHigh(c: Unit) {
    0xD800 <= c < 0xDC00
  }

  predicate IsLow(c: Unit) {
    0xDC00 <= c < 0xE000
  }

  predicate StartsPair(s: Units) {
    |s| >= 2 && IsHigh(s[0]) && IsLow(s[1])
  }

  /** `JSON.stringify` of one unit inside a string, where it is not half of a pair. */
  function Escape(c: Unit): (e: Units)
    ensures e != []
  {
    if c == QUOTE || c == BACKSLASH then [BACKSLASH, c]
    else if c == 8 then [BACKSLASH, 0x62]
    else if c == 9 then [BACKSLASH, 0x74]
    else if c == 10 then [BACKSLASH, 0x6E]
    else if c == 12 then [BACKSLASH, 0x66]
    else if c == 13 then [BACKSLASH, 0x72]
    else if c < 32 || IsHigh(c) || IsLow(c) then
      [BACKSLASH, 0x75, HexDigit(c / 0x1000), HexDigit(c / 0x100 % 16), HexDigit(c / 0x10 % 16), HexDigit(c % 16)]
    else [c]
  }

  /** Surrogate pairs are copied, everything else is escaped unit by unit. */
  function Token(s: Units): (e: Units)
    requires s != []
    ensures e != []
  {
    if StartsPair(s) then s[..2] else Escape(s[0])
  }

  function Width(s: Units): (n: nat)
    requires s != []
    ensures 0 < n <= |s|
  {
    if StartsPair(s) then 2 else 1
  }

  function Escapes(s: Units): Units {
    if s == [] then [] else Token(s) + Escapes(s[Width(s)..])
  }

  function Quote(s: Units): Units {
    [QUOTE] + Escapes(s) + [QUOTE]
  }

  /** `parts.join(",")` */
  function Join(parts: seq<Units>): Units {
    if parts == [] then []
    else if |parts| == 1 then parts[0]
    else parts[0] + [COMMA] + Join(parts[1..])
  }

  // Reading a text back: a text followed by a separator or a bracket parses in one way only.

  predicate Ends(x: Units) {
    x == [] || x[0] == COMMA || x[0] == CLOSE_BRACKET || x[0] == CLOSE_BRACE
  }

  /** Two texts that agree up to what may follow them are the same text. */
  ghost predicate Readable(p: Units, q: Units) {
    forall x, y :: Ends(x) && Ends(y) && p + x == q + y ==> p == q
  }

  lemma EscapeReads(c: Unit, d: Unit, x: Units, y: Units)
    requires Escape(c) + x == Escape(d) + y
    ensures c == d && x == y
  {
    var e, f := Escape(c), Escape(d);
    assert (e + x)[0] == e[0] && (f + y)[0] == f[0];
    if |e| > 1 {
      assert (e + x)[1] == e[1] && (f + y)[1] == f[1];
      if |e| == 6 {
        assert forall k :: 2 <= k < 6 ==> (e + x)[k] == e[k] && (f + y)[k] == f[k];
        HexReads(c, d);
      }
    }
    assert x == (e + x)[|e|..] && y == (f + y)[|f|..];
  }

  lemma HexDigitReads(c: nat, d: nat)
    requires c < 16 && d < 16 && HexDigit(c) == HexDigit(d)
    ensures c == d
  {
  }

  lemma HexDigitsOf(c: Unit)
    ensures c == (c / 0x1000 * 16 + c / 0x100 % 16) * 0x100 + (c / 0x10 % 16) * 16 + c % 16
  {
    var b := c / 0x100;
    assert c / 0x1000 == b / 16;
    assert b == b / 16 * 16 + b % 16;
    assert c / 0x10 == b * 16 + c / 0x10 % 16;
  }

  lemma HexReads(c: Unit, d: Unit)
    requires HexDigit(c / 0x1000) == HexDigit(d / 0x1000) && HexDigit(c / 0x100 % 16) == HexDigit(d / 0x100 % 16)
    requires HexDigit(c / 0x10 % 16) == HexDigit(d / 0x10 % 16) && HexDigit(c % 16) == HexDigit(d % 16)
    ensures c == d
  {
    HexDigitsOf(c);
    HexDigitsOf(d);
    HexDigitReads(c / 0x1000, d / 0x1000);
    HexDigitReads(c / 0x100 % 16, d / 0x100 % 16);
    HexDigitReads(c / 0x10 % 16, d / 0x10 % 16);
    HexDigitReads(c % 16, d % 16);
    hide HexDigit;
  }

  /** A copied pair starts with a surrogate, and no escape does. */
  lemma TokenReads(s: Units, t: Units, x: Units, y: Units)
    requires s != [] && t != [] && Token(s) + x == Token(t) + y
    ensures s[..Width(s)] == t[..Width(t)] && x == y
  {
    var e, f := Token(s), Token(t);
    assert (e + x)[0] == e[0] && (f + y)[0] == f[0];
    assert StartsPair(s) <==> IsHigh(e[0]);
    assert StartsPair(t) <==> IsHigh(f[0]);
    if StartsPair(s) {
      assert e == (e + x)[..2] && f == (f + y)[..2];
      assert x == (e + x)[2..] && y == (f + y)[2..];
    } else {
      EscapeReads(s[0], t[0], x, y);
      assert s[..1] == [s[0]] && t[..1] == [t[0]];
    }
  }

  lemma Assoc(a: Units, b: Units, c: Units)
    ensures (a + b) + c == a + (b + c)
    ensures a != [] ==> ((a + b) + c)[0] == a[0]
  {
  }

  lemma QuoteEndsString(s: Units, x: Units)
    ensures (Escapes(s) + [QUOTE] + x)[0] == QUOTE <==> s == []
    ensures s == [] ==> (Escapes(s) + [QUOTE] + x)[1..] == x
    ensures s != [] ==> Escapes(s) + [QUOTE] + x == Token(s) + (Escapes(s[Width(s)..]) + [QUOTE] + x)
  {
    if s != [] {
      var e, rest := Token(s), Escapes(s[Width(s)..]);
      assert e != [] && e[0] != QUOTE;
      hide Token, Width, Escapes;
      Assoc(rest, [QUOTE], x);
      Assoc(e, rest, [QUOTE] + x);
      Assoc(e + rest, [QUOTE], x);
    }
  }

  lemma {:induction false} EscapesRead(s: Units, t: Units, x: Units, y: Units)
    requires Escapes(s) + [QUOTE] + x == Escapes(t) + [QUOTE] + y
    ensures s == t && x == y
  {
    hide Token, Width;
    QuoteEndsString(s, x);
    QuoteEndsString(t, y);
    if s != [] {
      var m, n := Width(s), Width(t);
      TokenReads(s, t, Escapes(s[m..]) + [QUOTE] + x, Escapes(t[n..]) + [QUOTE] + y);
      EscapesRead(s[m..], t[n..], x, y);
      assert s == s[..m] + s[m..] && t == t[..n] + t[n..];
    }
  }

  lemma QuoteReads(s: Units, t: Units, x: Units, y: Units)
    requires Quote(s) + x == Quote(t) + y
    ensures s == t && x == y
  {
    assert (Quote(s) + x)[1..] == Escapes(s) + [QUOTE] + x;
    assert (Quote(t) + y)[1..] == Escapes(t) + [QUOTE] + y;
    EscapesRead(s, t, x, y);
  }

  predicate IsDigit(c: Unit) {
    0x30 <= c <= 0x39
  }

  predicate Closes(c: Unit) {
    c == CLOSE_BRACKET || c == CLOSE_BRACE
  }

  predicate Digits(s: Units) {
    forall c :: c in s ==> IsDigit(c)
  }

  predicate StartsWithDigit(s: Units) {
    s != [] && IsDigit(s[0])
  }

  lemma DigitsHead(p: Units, x: Units)
    requires Digits(p) && Ends(x)
    ensures StartsWithDigit(p + x) <==> p != []
    ensures p != [] ==> (p + x)[0] == p[0] && (p + x)[1..] == p[1..] + x
  {
    if p != [] {
      assert p[0] in p;
      assert (p + x)[0] == p[0];
    } else {
      assert p + x == x;
    }
  }

  lemma {:induction false} DigitsRead(p: Units, q: Units, x: Units, y: Units)
    requires Digits(p) && Digits(q) && Ends(x) && Ends(y) && p + x == q + y
    ensures p == q
  {
    DigitsHead(p, x);
    DigitsHead(q, y);
    if p != [] {
      assert forall c :: c in p[1..] ==> c in p;
      assert forall c :: c in q[1..] ==> c in q;
      DigitsRead(p[1..], q[1..], x, y);
      assert p == [p[0]] + p[1..] && q == [q[0]] + q[1..];
    }
  }

  lemma NatReads(m: nat, n: nat)
    requires OfNat(m) == OfNat(n)
    ensures m == n
  {
    var d, e := Decimal.Digits(m), Decimal.Digits(n);
    assert |d| == |OfNat(m)| == |e|;
    assert forall i :: 0 <= i < |d| ==> 0x30 + d[i] == OfNat(m)[i] == OfNat(n)[i] == 0x30 + e[i];
    assert d == e;
    Decimal.DigitsUnique(m, n);
  }

  lemma IntHead(n: int, x: Units)
    ensures var p := OfInt(n) + x;
            if n < 0 then p[0] == MINUS && p[1..] == OfNat(-n) + x else IsDigit(p[0])
  {
    hide OfNat;
    if n >= 0 {
      assert OfNat(n)[0] in OfNat(n);
    } else {
      assert OfInt(n) == [MINUS] + OfNat(-n);
    }
  }

  lemma IntReads(m: int, n: int, x: Units, y: Units)
    requires Ends(x) && Ends(y) && OfInt(m) + x == OfInt(n) + y
    ensures m == n
  {
    hide OfNat;
    IntHead(m, x);
    IntHead(n, y);
    var m', n' := if m < 0 then -m else m, if n < 0 then -n else n;
    DigitsRead(OfNat(m'), OfNat(n'), x, y);
    NatReads(m', n');
  }

  /** What follows the first part of a list. */
  function AfterFirst(ps: seq<Units>, x: Units): Units
    requires ps != []
  {
    if |ps| == 1 then x else [COMMA] + (Join(ps[1..]) + x)
  }

  lemma JoinHead(ps: seq<Units>, x: Units)
    requires forall i :: 0 <= i < |ps| ==> ps[i] != [] && !Ends(ps[i])
    requires x != [] && Closes(x[0])
    ensures Join(ps) + x != [] && (Ends(Join(ps) + x) <==> ps == [])
    ensures ps != [] ==> Join(ps) + x == ps[0] + AfterFirst(ps, x) && Ends(AfterFirst(ps, x))
  {
    if |ps| > 1 {
      var rest := Join(ps[1..]);
      assert Join(ps) == ps[0] + [COMMA] + rest;
      hide Join;
      Assoc(ps[0], [COMMA], rest);
      Assoc(ps[0], [COMMA] + rest, x);
      Assoc([COMMA], rest, x);
    } else if |ps| == 1 {
      assert Join(ps) == ps[0];
    } else {
      assert Join(ps) + x == x;
    }
  }

  lemma {:induction false} JoinReads(ps: seq<Units>, qs: seq<Units>, x: Units, y: Units)
    requires forall i :: 0 <= i < |ps| ==> ps[i] != [] && !Ends(ps[i])
    requires forall i :: 0 <= i < |qs| ==> qs[i] != [] && !Ends(qs[i])
    requires forall i, j :: 0 <= i < |ps| && 0 <= j < |qs| ==> Readable(ps[i], qs[j])
    requires x != [] && y != [] && Closes(x[0]) && Closes(y[0])
    requires Join(ps) + x == Join(qs) + y
    ensures ps == qs
  {
    JoinHead(ps, x);
    JoinHead(qs, y);
    if ps != [] {
      var x', y' := AfterFirst(ps, x), AfterFirst(qs, y);
      assert Readable(ps[0], qs[0]);
      assert x' == (ps[0] + x')[|ps[0]|..] && y' == (qs[0] + y')[|qs[0]|..];
      if |ps| > 1 && |qs| > 1 {
        assert x'[1..] == Join(ps[1..]) + x && y'[1..] == Join(qs[1..]) + y;
        JoinReads(ps[1..], qs[1..], x, y);
      }
      assert ps == [ps[0]] + ps[1..] && qs == [qs[0]] + qs[1..];
    }
  }

  lemma BracketReads(open: Unit, p: Units, q: Units, close: Unit, x: Units, y: Units)
    requires ([open] + p + [close]) + x == ([open] + q + [close]) + y
    ensures p + ([close] + x) == q + ([close] + y)
  {
    Assoc([open], p, [close]);
    Assoc([open], q, [close]);
    Assoc([open], p + [close], x);
    Assoc([open], q + [close], y);
    Assoc(p, [close], x);
    Assoc(q, [close], y);
    assert ([open] + (p + ([close] + x)))[1..] == p + ([close] + x);
    assert ([open] + (q + ([close] + y)))[1..] == q + ([close] + y);
  }
}
