/** Canonical text of a plain value (packages/shared/src/cards.sampling-vector-helpers.ts)
    and the structural comparison of stored payloads (apps/api/prisma/seed-daily.ts). */
module CanonicalJson {
  import opened Wrappers
  import opened JsonText
  import Sorting

  const MAX_SAFE_INTEGER := 9007199254740991

  type Integer = n: int | -MAX_SAFE_INTEGER <= n <= MAX_SAFE_INTEGER

  /** A JavaScript value; Refused stands for what the serializer throws on outright:
      a function, a symbol, an array hole, a class instance, a reference to an ancestor. */
  datatype Value =
    | Undefined
    | Refused
    | Null
    | Bool(b: bool)
    | Number(n: Integer)
    | String(s: Units)
    | Array(items: seq<Value>)
    | Object(fields: seq<Field>)

  datatype Field = Field(key: Units, value: Value)

  /** An object has each key once. */
  ghost predicate Proper(v: Value) {
    match v
    case Array(items) => forall i :: 0 <= i < |items| ==> Proper(items[i])
    case Object(fields) =>
      && DistinctKeys(fields)
      && forall i :: 0 <= i < |fields| ==> Proper(fields[i].value)
    case _ => true
  }

  ghost predicate DistinctKeys(fields: seq<Field>) {
    forall i, j :: 0 <= i < j < |fields| ==> fields[i].key != fields[j].key
  }

  /** `value[k]` */
  function Lookup(fields: seq<Field>, k: Units): (v: Value)
    ensures v == Undefined || exists i :: 0 <= i < |fields| && fields[i].key == k && fields[i].value == v
  {
    if fields == [] then Undefined
    else if fields[0].key == k then fields[0].value
    else
      var v := Lookup(fields[1..], k);
      assert forall i :: 0 <= i < |fields[1..]| ==> fields[1..][i] == fields[i + 1];
      v
  }

  /** `Object.keys(value).filter((k) => value[k] !== undefined)` */
  function DefinedKeys(fields: seq<Field>): (ks: seq<Units>)
    ensures forall k :: k in ks ==> exists i :: 0 <= i < |fields| && fields[i].key == k && fields[i].value != Undefined
  {
    if fields == [] then []
    else
      var rest := DefinedKeys(fields[1..]);
      assert forall i :: 0 <= i < |fields[1..]| ==> fields[1..][i] == fields[i + 1];
      if fields[0].value == Undefined then rest else [fields[0].key] + rest
  }

  function ByCodeUnit(): (Units, Units) -> bool {
    (a: Units, b: Units) => AtMost(a, b)
  }

  function SortedKeys(fields: seq<Field>): (ks: seq<Units>)
    ensures multiset(ks) == multiset(DefinedKeys(fields))
    ensures forall k :: k in ks <==> k in DefinedKeys(fields)
  {
    var ks := Sorting.Sort(DefinedKeys(fields), ByCodeUnit());
    assert forall k :: k in ks <==> k in multiset(ks);
    assert forall k :: k in DefinedKeys(fields) <==> k in multiset(DefinedKeys(fields));
    ks
  }

  lemma {:induction false} LookupAt(fields: seq<Field>, i: nat)
    requires i < |fields| && DistinctKeys(fields)
    ensures Lookup(fields, fields[i].key) == fields[i].value
  {
    if i != 0 {
      assert fields[0].key != fields[i].key;
      LookupAt(fields[1..], i - 1);
    }
  }

  lemma FirstKeyIsNew(fields: seq<Field>)
    requires DistinctKeys(fields) && fields != []
    ensures DistinctKeys(fields[1..])
    ensures fields[0].key !in DefinedKeys(fields[1..])
  {
    forall i | 0 <= i < |fields[1..]| ensures fields[1..][i].key != fields[0].key {
      assert fields[1..][i] == fields[i + 1];
    }
  }

  lemma {:induction false} DefinedIff(fields: seq<Field>, k: Units)
    requires DistinctKeys(fields)
    ensures k in DefinedKeys(fields) <==> Lookup(fields, k) != Undefined
  {
    if fields != [] {
      FirstKeyIsNew(fields);
      DefinedIff(fields[1..], k);
    }
  }

  lemma {:induction false} DefinedDistinct(fields: seq<Field>, k: Units)
    requires DistinctKeys(fields)
    ensures multiset(DefinedKeys(fields))[k] == if k in DefinedKeys(fields) then 1 else 0
  {
    if fields != [] {
      FirstKeyIsNew(fields);
      var rest := DefinedKeys(fields[1..]);
      DefinedDistinct(fields[1..], k);
      if fields[0].value != Undefined {
        assert multiset([fields[0].key] + rest) == multiset{fields[0].key} + multiset(rest);
      }
    }
  }

  // Serialization.

  /** No undefined or refused value where a text is needed; an undefined-valued key is skipped. */
  predicate Serializable(v: Value) {
    match v
    case Undefined => false
    case Refused => false
    case Array(items) => forall i :: 0 <= i < |items| ==> Serializable(items[i])
    case Object(fields) =>
      forall i :: 0 <= i < |fields| ==> fields[i].value == Undefined || Serializable(fields[i].value)
    case _ => true
  }

  /** What the serializer accepts. */
  ghost predicate Writable(v: Value) {
    Proper(v) && Serializable(v)
  }

  ghost predicate AllWritable(fields: seq<Field>, ks: seq<Units>) {
    forall k :: k in ks ==> Lookup(fields, k) != Undefined && Writable(Lookup(fields, k))
  }

  lemma DefinedWritable(fields: seq<Field>)
    requires Writable(Object(fields))
    ensures AllWritable(fields, SortedKeys(fields))
  {
    forall k | k in SortedKeys(fields) ensures Lookup(fields, k) != Undefined && Writable(Lookup(fields, k)) {
      DefinedIff(fields, k);
    }
  }

  function CanonicalText(v: Value): (t: Units)
    requires Writable(v)
    decreases v
  {
    match v
    case Null => NULL_TEXT
    case Bool(b) => if b then TRUE_TEXT else FALSE_TEXT
    case Number(n) => OfInt(n)
    case String(s) => Quote(s)
    case Array(items) => [OPEN_BRACKET] + Join(ItemTexts(items)) + [CLOSE_BRACKET]
    case Object(fields) =>
      DefinedWritable(fields);
      [OPEN_BRACE] + Join(FieldTexts(fields, SortedKeys(fields))) + [CLOSE_BRACE]
  }

  function ItemTexts(items: seq<Value>): (ts: seq<Units>)
    requires forall i :: 0 <= i < |items| ==> Writable(items[i])
    ensures |ts| == |items|
    ensures forall i :: 0 <= i < |items| ==> ts[i] == CanonicalText(items[i])
    decreases items
  {
    seq(|items|, i requires 0 <= i < |items| => CanonicalText(items[i]))
  }

  function FieldText(k: Units, text: Units): Units {
    Quote(k) + [COLON] + text
  }

  function FieldTexts(fields: seq<Field>, ks: seq<Units>): (ts: seq<Units>)
    requires AllWritable(fields, ks)
    ensures |ts| == |ks|
    ensures forall i :: 0 <= i < |ks| ==> ts[i] == FieldText(ks[i], CanonicalText(Lookup(fields, ks[i])))
    decreases fields
  {
    seq(|ks|, i requires 0 <= i < |ks| => FieldText(ks[i], CanonicalText(Lookup(fields, ks[i]))))
  }


  // The canonical form.

  /** Equal up to the order of keys, ignoring keys whose value is undefined. */
  ghost predicate SameValue(a: Value, b: Value)
    decreases a
  {
    match (a, b)
    case (Array(x), Array(y)) => |x| == |y| && forall i :: 0 <= i < |x| ==> SameValue(x[i], y[i])
    case (Object(f), Object(g)) =>
      && (forall k :: k in DefinedKeys(f) <==> k in DefinedKeys(g))
      && forall k :: k in DefinedKeys(f) && Lookup(f, k) != Undefined ==> SameValue(Lookup(f, k), Lookup(g, k))
    case _ => a == b
  }

  lemma TextHead(v: Value)
    requires Writable(v)
    ensures var t := CanonicalText(v);
            && t != [] && !Ends(t)
            && (t[0] == OPEN_BRACKET <==> v.Array?)
            && (t[0] == OPEN_BRACE <==> v.Object?)
            && (t[0] == QUOTE <==> v.String?)
            && (t[0] == NULL_TEXT[0] <==> v.Null?)
            && ((t[0] == TRUE_TEXT[0] || t[0] == FALSE_TEXT[0]) <==> v.Bool?)
  {
    if v.Number? {
      IntHead(v.n, []);
      assert OfInt(v.n) + [] == OfInt(v.n);
    }
  }

  lemma FieldHead(k: Units, t: Units)
    ensures FieldText(k, t) != [] && !Ends(FieldText(k, t))
  {
  }

  lemma FieldReads(k: Units, l: Units, t: Units, u: Units, x: Units, y: Units)
    requires FieldText(k, t) + x == FieldText(l, u) + y
    ensures k == l && t + x == u + y
  {
    hide Quote;
    Assoc(Quote(k), [COLON], t);
    Assoc(Quote(l), [COLON], u);
    Assoc(Quote(k), [COLON] + t, x);
    Assoc(Quote(l), [COLON] + u, y);
    QuoteReads(k, l, ([COLON] + t) + x, ([COLON] + u) + y);
    Assoc([COLON], t, x);
    Assoc([COLON], u, y);
    assert ([COLON] + (t + x))[1..] == t + x && ([COLON] + (u + y))[1..] == u + y;
  }

  lemma TextIsReadable(a: Value, b: Value)
    requires Writable(a) && Writable(b)
    ensures Readable(CanonicalText(a), CanonicalText(b))
    ensures CanonicalText(a) == CanonicalText(b) ==> SameValue(a, b)
    decreases a, 1
  {
    var p, q := CanonicalText(a), CanonicalText(b);
    TextHead(a);
    TextHead(b);
    forall x, y | Ends(x) && Ends(y) && p + x == q + y ensures p == q && SameValue(a, b) {
      assert p[0] == (p + x)[0] && q[0] == (q + y)[0];
      ReadsOneWay(a, b, x, y);
    }
    if p == q {
      assert Ends([]) && p + [] == q + [];
    }
  }

  lemma {:induction false} ReadsOneWay(a: Value, b: Value, x: Units, y: Units)
    requires Writable(a) && Writable(b) && Ends(x) && Ends(y)
    requires CanonicalText(a) + x == CanonicalText(b) + y
    requires a.Array? <==> b.Array?
    requires a.Object? <==> b.Object?
    requires a.String? <==> b.String?
    requires a.Null? <==> b.Null?
    requires a.Bool? <==> b.Bool?
    ensures CanonicalText(a) == CanonicalText(b) && SameValue(a, b)
    decreases a, 0
  {
    match a
    case Number(m) => IntReads(m, b.n, x, y);
    case String(s) => QuoteReads(s, b.s, x, y);
    case Bool(c) => BoolReads(c, b.b, x, y);
    case Array(items) => ArrayReads(items, b.items, x, y);
    case Object(fields) => ObjectReads(fields, b.fields, x, y);
    case _ =>
  }

  lemma BoolReads(c: bool, d: bool, x: Units, y: Units)
    requires CanonicalText(Bool(c)) + x == CanonicalText(Bool(d)) + y
    ensures c == d
  {
    assert (CanonicalText(Bool(c)) + x)[0] == CanonicalText(Bool(c))[0];
    assert (CanonicalText(Bool(d)) + y)[0] == CanonicalText(Bool(d))[0];
  }

  lemma {:induction false} ArrayReads(f: seq<Value>, g: seq<Value>, x: Units, y: Units)
    requires Writable(Array(f)) && Writable(Array(g)) && Ends(x) && Ends(y)
    requires CanonicalText(Array(f)) + x == CanonicalText(Array(g)) + y
    ensures CanonicalText(Array(f)) == CanonicalText(Array(g)) && SameValue(Array(f), Array(g))
    decreases f
  {
    var ps, qs := ItemTexts(f), ItemTexts(g);
    forall i | 0 <= i < |f| ensures ps[i] != [] && !Ends(ps[i]) { TextHead(f[i]); }
    forall i | 0 <= i < |g| ensures qs[i] != [] && !Ends(qs[i]) { TextHead(g[i]); }
    forall i, j | 0 <= i < |f| && 0 <= j < |g| ensures Readable(ps[i], qs[j]) && (ps[i] == qs[j] ==> SameValue(f[i], g[j])) {
      TextIsReadable(f[i], g[j]);
    }
    assert CanonicalText(Array(f)) == [OPEN_BRACKET] + Join(ps) + [CLOSE_BRACKET] && CanonicalText(Array(g)) == [OPEN_BRACKET] + Join(qs) + [CLOSE_BRACKET];
    hide CanonicalText, Readable;
    BracketReads(OPEN_BRACKET, Join(ps), Join(qs), CLOSE_BRACKET, x, y);
    JoinReads(ps, qs, [CLOSE_BRACKET] + x, [CLOSE_BRACKET] + y);
    assert forall i :: 0 <= i < |f| ==> ps[i] == qs[i];
  }

  lemma FieldIsReadable(f: seq<Field>, k: Units, g: seq<Field>, l: Units)
    requires Writable(Object(f)) && Writable(Object(g))
    requires Lookup(f, k) != Undefined && Lookup(g, l) != Undefined
    requires Writable(Lookup(f, k)) && Writable(Lookup(g, l))
    ensures var p, q := FieldText(k, CanonicalText(Lookup(f, k))), FieldText(l, CanonicalText(Lookup(g, l)));
            Readable(p, q) && (p == q ==> k == l && SameValue(Lookup(f, k), Lookup(g, l)))
    decreases f, 0
  {
    var a, b := Lookup(f, k), Lookup(g, l);
    var t, u := CanonicalText(a), CanonicalText(b);
    TextIsReadable(a, b);
    hide CanonicalText, FieldText;
    forall x, y | Ends(x) && Ends(y) && FieldText(k, t) + x == FieldText(l, u) + y
      ensures FieldText(k, t) == FieldText(l, u)
    {
      FieldReads(k, l, t, u, x, y);
    }
    if FieldText(k, t) == FieldText(l, u) {
      FieldReads(k, l, t, u, [], []);
      assert t + [] == t && u + [] == u;
    }
  }

  lemma FieldsReadable(f: seq<Field>, ks: seq<Units>, g: seq<Field>, ls: seq<Units>)
    requires Writable(Object(f)) && Writable(Object(g)) && AllWritable(f, ks) && AllWritable(g, ls)
    ensures var ps, qs := FieldTexts(f, ks), FieldTexts(g, ls);
            && (forall i :: 0 <= i < |ps| ==> ps[i] != [] && !Ends(ps[i]))
            && (forall i :: 0 <= i < |qs| ==> qs[i] != [] && !Ends(qs[i]))
            && (forall i, j :: 0 <= i < |ps| && 0 <= j < |qs| ==> Readable(ps[i], qs[j]))
            && (ps == qs ==> ks == ls && forall k :: k in ks ==> SameValue(Lookup(f, k), Lookup(g, k)))
    decreases f, 1
  {
    var ps, qs := FieldTexts(f, ks), FieldTexts(g, ls);
    hide CanonicalText, Readable, FieldText, Ends, SameValue, Writable, Lookup;
    forall i | 0 <= i < |ks| ensures ps[i] != [] && !Ends(ps[i]) {
      FieldHead(ks[i], CanonicalText(Lookup(f, ks[i])));
    }
    forall i | 0 <= i < |ls| ensures qs[i] != [] && !Ends(qs[i]) {
      FieldHead(ls[i], CanonicalText(Lookup(g, ls[i])));
    }
    forall i, j | 0 <= i < |ks| && 0 <= j < |ls|
      ensures Readable(ps[i], qs[j])
      ensures ps[i] == qs[j] ==> ks[i] == ls[j] && SameValue(Lookup(f, ks[i]), Lookup(g, ls[j]))
    {
      FieldIsReadable(f, ks[i], g, ls[j]);
    }
    if ps == qs {
      assert |ks| == |ls| && forall i :: 0 <= i < |ks| ==> ps[i] == qs[i] && ks[i] == ls[i];
    }
  }

  lemma ObjectText(f: seq<Field>)
    requires Writable(Object(f))
    ensures AllWritable(f, SortedKeys(f))
    ensures CanonicalText(Object(f)) == [OPEN_BRACE] + Join(FieldTexts(f, SortedKeys(f))) + [CLOSE_BRACE]
  {
    DefinedWritable(f);
  }

  lemma SameObjects(f: seq<Field>, g: seq<Field>)
    requires SortedKeys(f) == SortedKeys(g)
    requires forall k :: k in SortedKeys(f) ==> SameValue(Lookup(f, k), Lookup(g, k))
    ensures SameValue(Object(f), Object(g))
  {
    hide SortedKeys;
    assert forall k :: k in DefinedKeys(f) ==> k in SortedKeys(f);
  }

  lemma {:induction false} ObjectReads(f: seq<Field>, g: seq<Field>, x: Units, y: Units)
    requires Writable(Object(f)) && Writable(Object(g)) && Ends(x) && Ends(y)
    requires CanonicalText(Object(f)) + x == CanonicalText(Object(g)) + y
    ensures CanonicalText(Object(f)) == CanonicalText(Object(g)) && SameValue(Object(f), Object(g))
    decreases f, 2
  {
    hide *;
    ObjectText(f);
    ObjectText(g);
    var ps, qs := FieldTexts(f, SortedKeys(f)), FieldTexts(g, SortedKeys(g));
    FieldsReadable(f, SortedKeys(f), g, SortedKeys(g));
    BracketReads(OPEN_BRACE, Join(ps), Join(qs), CLOSE_BRACE, x, y);
    JoinReads(ps, qs, [CLOSE_BRACE] + x, [CLOSE_BRACE] + y);
    SameObjects(f, g);
  }

  lemma KeysFixTheirOrder(f: seq<Field>, g: seq<Field>)
    requires DistinctKeys(f) && DistinctKeys(g)
    requires forall k :: k in DefinedKeys(f) <==> k in DefinedKeys(g)
    ensures SortedKeys(f) == SortedKeys(g)
  {
    forall k ensures multiset(DefinedKeys(f))[k] == multiset(DefinedKeys(g))[k] {
      DefinedDistinct(f, k);
      DefinedDistinct(g, k);
    }
    assert multiset(DefinedKeys(f)) == multiset(DefinedKeys(g));
    CodeUnitOrderIsTotal();
    Sorting.SortForgetsOrder(DefinedKeys(f), DefinedKeys(g), ByCodeUnit());
  }

  lemma CodeUnitOrderIsTotal()
    ensures Sorting.TotalPreorder(ByCodeUnit()) && Sorting.Antisymmetric(ByCodeUnit())
  {
    forall a, b
      ensures AtMost(a, b) || AtMost(b, a)
      ensures AtMost(a, b) && AtMost(b, a) ==> a == b
    {
      LessTrichotomy(a, b);
    }
    forall a, b, c | AtMost(a, b) && AtMost(b, c) ensures AtMost(a, c) {
      if Less(a, b) && Less(b, c) { LessTransitive(a, b, c); }
    }
  }

  lemma {:induction false} SameValuesWriteTheSame(a: Value, b: Value)
    requires Writable(a) && Writable(b) && SameValue(a, b)
    ensures CanonicalText(a) == CanonicalText(b)
    decreases a
  {
    match a
    case Array(items) =>
      var ps, qs := ItemTexts(items), ItemTexts(b.items);
      forall i | 0 <= i < |items| ensures ps[i] == qs[i] { SameValuesWriteTheSame(items[i], b.items[i]); }
      assert ps == qs;
    case Object(f) =>
      DefinedWritable(f);
      DefinedWritable(b.fields);
      KeysFixTheirOrder(f, b.fields);
      var ks := SortedKeys(f);
      var ps, qs := FieldTexts(f, ks), FieldTexts(b.fields, ks);
      forall i | 0 <= i < |ks| ensures ps[i] == qs[i] {
        SameValuesWriteTheSame(Lookup(f, ks[i]), Lookup(b.fields, ks[i]));
      }
      assert ps == qs;
    case _ =>
  }

  /** The text is a canonical form: two values are written alike exactly when they are equal
      up to the order of their keys. */
  lemma CanonicalForm(a: Value, b: Value)
    requires Writable(a) && Writable(b)
    ensures CanonicalText(a) == CanonicalText(b) <==> SameValue(a, b)
  {
    TextIsReadable(a, b);
    if SameValue(a, b) { SameValuesWriteTheSame(a, b); }
  }

  lemma SerializableByKeys(f: seq<Field>)
    requires DistinctKeys(f)
    ensures Serializable(Object(f)) <==> forall k :: k in SortedKeys(f) ==> Serializable(Lookup(f, k))
  {
    forall i | 0 <= i < |f| && f[i].value != Undefined
      ensures f[i].key in SortedKeys(f) && Lookup(f, f[i].key) == f[i].value
    {
      LookupAt(f, i);
      DefinedIff(f, f[i].key);
    }
    forall k | k in SortedKeys(f) ensures Lookup(f, k) != Undefined {
      DefinedIff(f, k);
    }
  }

  lemma ProperByKeys(f: seq<Field>)
    requires Proper(Object(f))
    ensures DistinctKeys(f)
    ensures forall k :: k in SortedKeys(f) ==> Lookup(f, k) != Undefined && Proper(Lookup(f, k)) && Lookup(f, k) < Object(f)
  {
    forall k | k in SortedKeys(f) ensures Lookup(f, k) != Undefined && Proper(Lookup(f, k)) && Lookup(f, k) < Object(f) {
      DefinedIff(f, k);
    }
  }

  /** `canonicalSerialize`: None where it throws. */
  method CanonicalSerialize(v: Value) returns (r: Option<Units>)
    requires Proper(v)
    ensures r == if Serializable(v) then Some(CanonicalText(v)) else None
    decreases v
  {
    match v {
      case Undefined => r := None;
      case Refused => r := None;
      case Null => r := Some(NULL_TEXT);
      case Bool(b) => r := Some(if b then TRUE_TEXT else FALSE_TEXT);
      case Number(n) => r := Some(OfInt(n));
      case String(s) => r := Some(Quote(s));
      case Array(items) => r := SerializeItems(items);
      case Object(fields) => r := SerializeFields(fields);
    }
  }

  method SerializeItems(items: seq<Value>) returns (r: Option<Units>)
    requires Proper(Array(items))
    ensures r == if Serializable(Array(items)) then Some(CanonicalText(Array(items))) else None
    decreases items
  {
    var parts: seq<Units> := [];
    for i := 0 to |items|
      invariant |parts| == i
      invariant forall j :: 0 <= j < i ==> Writable(items[j]) && parts[j] == CanonicalText(items[j])
    {
      var s := CanonicalSerialize(items[i]);
      if s.None? { return None; }
      parts := parts + [s.value];
    }
    assert parts == ItemTexts(items);
    r := Some([OPEN_BRACKET] + Join(parts) + [CLOSE_BRACKET]);
  }

  method SerializeFields(fields: seq<Field>) returns (r: Option<Units>)
    requires Proper(Object(fields))
    ensures r == if Serializable(Object(fields)) then Some(CanonicalText(Object(fields))) else None
    decreases fields
  {
    hide SortedKeys, DefinedKeys, Lookup, FieldText, CanonicalText, Proper, Serializable, Join;
    ProperByKeys(fields);
    SerializableByKeys(fields);
    var keys := SortedKeys(fields);
    var parts: seq<Units> := [];
    for i := 0 to |keys|
      invariant |parts| == i
      invariant forall j :: 0 <= j < i ==> Writable(Lookup(fields, keys[j]))
      invariant forall j :: 0 <= j < i ==> parts[j] == FieldText(keys[j], CanonicalText(Lookup(fields, keys[j])))
    {
      assert keys[i] in keys;
      var s := CanonicalSerialize(Lookup(fields, keys[i]));
      if s.None? { return None; }
      parts := parts + [FieldText(keys[i], s.value)];
    }
    assert forall k :: k in keys ==> Serializable(Lookup(fields, k));
    ObjectText(fields);
    assert parts == FieldTexts(fields, keys);
    r := Some([OPEN_BRACE] + Join(parts) + [CLOSE_BRACE]);
  }

  // The stored-payload comparison.

  /** What a JSON column can hold. */
  ghost predicate Json(v: Value) {
    match v
    case Undefined => false
    case Refused => false
    case Array(items) => forall i :: 0 <= i < |items| ==> Json(items[i])
    case Object(fields) =>
      && DistinctKeys(fields)
      && forall i :: 0 <= i < |fields| ==> Json(fields[i].value)
    case _ => true
  }

  /** `isSamePayload`; `===` on two trees is only taken to hold of equal primitives. */
  predicate IsSamePayload(stored: Value, next: Value)
    decreases stored
  {
    if !stored.Array? && !stored.Object? && stored == next then true
    else if stored.Array? || next.Array? then
      && stored.Array? && next.Array?
      && |stored.items| == |next.items|
      && forall i :: 0 <= i < |stored.items| ==> IsSamePayload(stored.items[i], next.items[i])
    else
      && stored.Object? && next.Object?
      && |stored.fields| == |next.fields|
      && forall i :: 0 <= i < |stored.fields| ==>
           IsSamePayload(stored.fields[i].value, Lookup(next.fields, stored.fields[i].key))
  }

  lemma {:induction false} JsonIsWritable(v: Value)
    requires Json(v)
    ensures Writable(v)
  {
    match v
    case Array(items) => forall i | 0 <= i < |items| ensures Writable(items[i]) { JsonIsWritable(items[i]); }
    case Object(fields) =>
      forall i | 0 <= i < |fields| ensures Writable(fields[i].value) { JsonIsWritable(fields[i].value); }
    case _ =>
  }

  function KeySet(fields: seq<Field>): set<Units> {
    set i | 0 <= i < |fields| :: fields[i].key
  }

  lemma {:induction false} KeySetSize(fields: seq<Field>)
    requires DistinctKeys(fields)
    ensures |KeySet(fields)| == |fields|
  {
    if fields != [] {
      var n := |fields| - 1;
      KeySetSize(fields[..n]);
      assert KeySet(fields) == KeySet(fields[..n]) + {fields[n].key};
    }
  }

  lemma JsonDistinct(f: seq<Field>)
    requires Json(Object(f))
    ensures DistinctKeys(f)
  {
  }

  lemma EqualKeys(f: seq<Field>, g: seq<Field>)
    requires DistinctKeys(f) && DistinctKeys(g) && |f| == |g| && KeySet(f) <= KeySet(g)
    ensures KeySet(f) == KeySet(g)
  {
    KeySetSize(f);
    KeySetSize(g);
    assert |KeySet(g) - KeySet(f)| == 0;
  }

  lemma JsonKeys(f: seq<Field>, k: Units)
    requires Json(Object(f))
    ensures k in KeySet(f) <==> k in DefinedKeys(f)
    ensures k in KeySet(f) <==> Lookup(f, k) != Undefined
    ensures k in KeySet(f) ==> Json(Lookup(f, k)) && Lookup(f, k) < Object(f)
  {
    DefinedIff(f, k);
    if k in KeySet(f) {
      var i :| 0 <= i < |f| && f[i].key == k;
      LookupAt(f, i);
    }
  }

  lemma {:induction false} SamePayloadIsSameValue(a: Value, b: Value)
    requires Json(a) && Json(b)
    ensures IsSamePayload(a, b) <==> SameValue(a, b)
    decreases a
  {
    if a.Array? && b.Array? {
      forall i | 0 <= i < |a.items| && i < |b.items|
        ensures IsSamePayload(a.items[i], b.items[i]) <==> SameValue(a.items[i], b.items[i])
      {
        SamePayloadIsSameValue(a.items[i], b.items[i]);
      }
    } else if a.Object? && b.Object? {
      SameFieldwise(a.fields, b.fields);
    }
  }

  lemma FieldwisePayload(f: seq<Field>, g: seq<Field>)
    requires Json(Object(f)) && Json(Object(g))
    ensures IsSamePayload(Object(f), Object(g))
            <==> |f| == |g| && forall i :: 0 <= i < |f| ==>
                                  f[i].key in KeySet(g) && SameValue(f[i].value, Lookup(g, f[i].key))
    decreases f, 0
  {
    forall i | 0 <= i < |f|
      ensures IsSamePayload(f[i].value, Lookup(g, f[i].key))
              <==> f[i].key in KeySet(g) && SameValue(f[i].value, Lookup(g, f[i].key))
    {
      JsonKeys(g, f[i].key);
      if f[i].key in KeySet(g) { SamePayloadIsSameValue(f[i].value, Lookup(g, f[i].key)); }
    }
  }

  lemma KeywiseSame(f: seq<Field>, g: seq<Field>)
    requires Json(Object(f)) && Json(Object(g))
    ensures SameValue(Object(f), Object(g))
            <==> KeySet(f) == KeySet(g) && forall k :: k in KeySet(f) ==> SameValue(Lookup(f, k), Lookup(g, k))
  {
    forall k ensures k in KeySet(f) <==> k in DefinedKeys(f)
             ensures k in KeySet(g) <==> k in DefinedKeys(g)
             ensures k in KeySet(f) ==> Lookup(f, k) != Undefined
    {
      JsonKeys(f, k);
      JsonKeys(g, k);
    }
    hide KeySet, DefinedKeys, Lookup, Json;
  }

  lemma {:induction false} SameFieldwise(f: seq<Field>, g: seq<Field>)
    requires Json(Object(f)) && Json(Object(g))
    ensures IsSamePayload(Object(f), Object(g)) <==> SameValue(Object(f), Object(g))
    decreases f, 1
  {
    JsonDistinct(f);
    JsonDistinct(g);
    FieldwisePayload(f, g);
    KeywiseSame(f, g);
    KeySetSize(f);
    KeySetSize(g);
    forall i | 0 <= i < |f| ensures Lookup(f, f[i].key) == f[i].value && f[i].key in KeySet(f) {
      LookupAt(f, i);
    }
    hide IsSamePayload, SameValue, Lookup, Json;
    if |f| == |g| && forall i :: 0 <= i < |f| ==> f[i].key in KeySet(g) {
      assert KeySet(f) <= KeySet(g);
      EqualKeys(f, g);
    }
  }

  /** On JSON values the payload comparison decides equality of canonical texts. */
  lemma SamePayloadIffSameText(a: Value, b: Value)
    requires Json(a) && Json(b)
    ensures Writable(a) && Writable(b)
    ensures IsSamePayload(a, b) <==> CanonicalText(a) == CanonicalText(b)
  {
    JsonIsWritable(a);
    JsonIsWritable(b);
    CanonicalForm(a, b);
    SamePayloadIsSameValue(a, b);
  }

  const A: Units := [0x61]
  const B: Units := [0x62]

  lemma UndefinedKeyIsNoKey()
    ensures var a, b := Object([Field(A, Undefined)]), Object([Field(B, Null)]);
            Writable(a) && Writable(b) && IsSamePayload(a, b) && !SameValue(a, b)
  {
    var a, b := [Field(A, Undefined)], [Field(B, Null)];
    assert Lookup(b, A) == Undefined;
    assert DefinedKeys(a) == [];
    assert B in DefinedKeys(b);
  }

  lemma UndefinedKeyCounts()
    ensures var a, b := Object([Field(A, Undefined)]), Object([]);
            Writable(a) && Writable(b) && !IsSamePayload(a, b) && SameValue(a, b)
  {
    assert DefinedKeys([Field(A, Undefined)]) == [];
  }

  /** Undefined-valued keys, which no JSON column holds, separate the two equalities both ways. */
  lemma UndefinedKeysSeparateThem()
    ensures var a, b := Object([Field(A, Undefined)]), Object([Field(B, Null)]);
            Writable(a) && Writable(b) && IsSamePayload(a, b) && CanonicalText(a) != CanonicalText(b)
    ensures var a, b := Object([Field(A, Undefined)]), Object([]);
            Writable(a) && Writable(b) && !IsSamePayload(a, b) && CanonicalText(a) == CanonicalText(b)
  {
    hide Writable, IsSamePayload, SameValue, CanonicalText;
    UndefinedKeyIsNoKey();
    UndefinedKeyCounts();
    CanonicalForm(Object([Field(A, Undefined)]), Object([Field(B, Null)]));
    CanonicalForm(Object([Field(A, Undefined)]), Object([]));
  }

  // Where the two equalities part.

  /** The value without its undefined-valued keys, at every depth. */
  function Strip(v: Value): Value
    decreases v
  {
    match v
    case Array(items) => Array(seq(|items|, i requires 0 <= i < |items| => Strip(items[i])))
    case Object(fields) => Object(StripFields(fields))
    case _ => v
  }

  function StripFields(fields: seq<Field>): (r: seq<Field>)
    ensures |r| <= |fields|
    decreases fields
  {
    if fields == [] then []
    else
      var head := if fields[0].value == Undefined then [] else [Field(fields[0].key, Strip(fields[0].value))];
      head + StripFields(fields[1..])
  }

  lemma {:induction false} StripFieldsAre(fields: seq<Field>, j: nat)
    requires j < |StripFields(fields)|
    ensures exists i :: 0 <= i < |fields| && fields[i].value != Undefined
                        && StripFields(fields)[j] == Field(fields[i].key, Strip(fields[i].value))
    decreases fields
  {
    var rest := StripFields(fields[1..]);
    var n := if fields[0].value == Undefined then 0 else 1;
    if j >= n {
      StripFieldsAre(fields[1..], j - n);
      var i :| 0 <= i < |fields[1..]| && fields[1..][i].value != Undefined
               && rest[j - n] == Field(fields[1..][i].key, Strip(fields[1..][i].value));
      assert fields[i + 1] == fields[1..][i];
    }
  }

  lemma {:induction false} StripKeepsKeys(fields: seq<Field>, k: Units)
    requires DistinctKeys(fields)
    ensures DistinctKeys(StripFields(fields))
    ensures DefinedKeys(StripFields(fields)) == DefinedKeys(fields)
    ensures Lookup(fields, k) != Undefined ==> Lookup(StripFields(fields), k) == Strip(Lookup(fields, k))
    decreases fields
  {
    if fields != [] {
      FirstKeyIsNew(fields);
      StripKeepsKeys(fields[1..], k);
      var rest := StripFields(fields[1..]);
      if fields[0].value != Undefined {
        var head := Field(fields[0].key, Strip(fields[0].value));
        assert StripFields(fields) == [head] + rest;
        assert StripFields(fields)[1..] == rest;
        forall j | 0 <= j < |rest| ensures rest[j].key != head.key {
          StripFieldsAre(fields[1..], j);
        }
      } else {
        assert StripFields(fields) == rest;
      }
    }
  }

  lemma {:induction false} StripIsJson(v: Value)
    requires Writable(v)
    ensures Json(Strip(v)) && SameValue(Strip(v), v)
    decreases v
  {
    match v
    case Array(items) =>
      forall i | 0 <= i < |items| ensures Json(Strip(items[i])) && SameValue(Strip(items[i]), items[i]) {
        StripIsJson(items[i]);
      }
    case Object(fields) =>
      StripFieldsAreJson(fields);
      StripFieldsAreSame(fields);
    case _ =>
  }

  lemma {:induction false} StripFieldsAreJson(fields: seq<Field>)
    requires Writable(Object(fields))
    ensures Json(Object(StripFields(fields)))
    decreases fields
  {
    StripKeepsKeys(fields, []);
    forall j | 0 <= j < |StripFields(fields)| ensures Json(StripFields(fields)[j].value) {
      StripFieldsAre(fields, j);
      var i :| 0 <= i < |fields| && fields[i].value != Undefined
               && StripFields(fields)[j] == Field(fields[i].key, Strip(fields[i].value));
      StripIsJson(fields[i].value);
    }
  }

  lemma {:induction false} StripFieldsAreSame(fields: seq<Field>)
    requires Writable(Object(fields))
    ensures SameValue(Object(StripFields(fields)), Object(fields))
    decreases fields
  {
    var stripped := StripFields(fields);
    StripKeepsKeys(fields, []);
    forall k | k in DefinedKeys(stripped) && Lookup(stripped, k) != Undefined
      ensures SameValue(Lookup(stripped, k), Lookup(fields, k))
    {
      StripKeepsKeys(fields, k);
      DefinedIff(fields, k);
      DefinedWritable(fields);
      StripIsJson(Lookup(fields, k));
    }
  }

  lemma {:induction false} StripShortens(fields: seq<Field>, i: nat)
    requires |StripFields(fields)| == |fields| && i < |fields|
    ensures fields[i].value != Undefined && StripFields(fields)[i] == Field(fields[i].key, Strip(fields[i].value))
    decreases fields
  {
    var rest := StripFields(fields[1..]);
    assert |rest| <= |fields| - 1;
    if i > 0 { StripShortens(fields[1..], i - 1); }
  }

  /** A value that compares equal to itself without its undefined-valued keys has none. */
  lemma {:induction false} StrippedDiffers(v: Value)
    requires Writable(v) && IsSamePayload(Strip(v), v)
    ensures Json(v)
    decreases v
  {
    match v
    case Array(items) =>
      forall i | 0 <= i < |items| ensures Json(items[i]) {
        assert Strip(v).items[i] == Strip(items[i]);
        StrippedDiffers(items[i]);
      }
    case Object(fields) =>
      forall i | 0 <= i < |fields| ensures Json(fields[i].value) {
        StripShortens(fields, i);
        LookupAt(fields, i);
        StrippedDiffers(fields[i].value);
      }
    case _ =>
  }

  /** A fresh value is compared rightly with every stored one exactly when it is JSON itself: when it
      has no undefined-valued key at any depth. */
  lemma ComparedRightlyIffJson(next: Value)
    requires Writable(next)
    ensures (forall stored :: Json(stored) ==>
               Writable(stored) && (IsSamePayload(stored, next) <==> CanonicalText(stored) == CanonicalText(next)))
            <==> Json(next)
  {
    hide IsSamePayload, CanonicalText, SameValue, Writable;
    if Json(next) {
      forall stored | Json(stored)
        ensures Writable(stored) && (IsSamePayload(stored, next) <==> CanonicalText(stored) == CanonicalText(next))
      {
        SamePayloadIffSameText(stored, next);
      }
    } else {
      StripIsJson(next);
      JsonIsWritable(Strip(next));
      CanonicalForm(Strip(next), next);
      if IsSamePayload(Strip(next), next) { StrippedDiffers(next); }
    }
  }
}
