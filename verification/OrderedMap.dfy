/** JavaScript's Map with string keys: lookups by key, iteration in order of first insertion. */
module OrderedMap {
  import opened Wrappers

  datatype RawMap<V> = RawMap(keys: seq<string>, m: map<string, V>) {
    ghost predicate Valid() {
      && (forall i, j :: 0 <= i < j < |keys| ==> keys[i] != keys[j])
      && (forall k :: k in keys <==> k in m)
    }
  }

  type OMap<V> = o: RawMap<V> | o.Valid() witness RawMap([], map[])

  function Empty<V>(): OMap<V> {
    RawMap([], map[])
  }

  /** `map.set(k, v)`: a known key keeps its place, a new one goes last. */
  function Put<V>(o: OMap<V>, k: string, v: V): (r: OMap<V>)
    ensures r.m == o.m[k := v]
    ensures r.keys == if k in o.m then o.keys else o.keys + [k]
  {
    if k in o.m then RawMap(o.keys, o.m[k := v]) else RawMap(o.keys + [k], o.m[k := v])
  }

  lemma PutTwice<V>(o: OMap<V>, k: string, v: V, w: V)
    ensures Put(Put(o, k, v), k, w) == Put(o, k, w)
  {
  }

  function Get<V>(o: OMap<V>, k: string): Option<V> {
    if k in o.m then Some(o.m[k]) else None
  }

  /** `Array.from(map.entries())` */
  function Entries<V>(o: OMap<V>): (es: seq<(string, V)>)
    ensures |es| == |o.keys|
    ensures forall i :: 0 <= i < |es| ==> es[i] == (o.keys[i], o.m[o.keys[i]])
  {
    seq(|o.keys|, i requires 0 <= i < |o.keys| => (o.keys[i], o.m[o.keys[i]]))
  }

  /** `new Map(entries)`: a repeated key keeps its first place and its last value. */
  function FromEntries<V>(es: seq<(string, V)>): OMap<V> {
    if es == [] then Empty()
    else Put(FromEntries(es[..|es| - 1]), es[|es| - 1].0, es[|es| - 1].1)
  }

  /** The map restricted to its first n keys. */
  ghost function Prefix<V>(o: OMap<V>, n: nat): OMap<V>
    requires n <= |o.keys|
  {
    RawMap(o.keys[..n], map k | k in o.m && k in o.keys[..n] :: o.m[k])
  }

  lemma PrefixStep<V>(o: OMap<V>, n: nat)
    requires n < |o.keys|
    ensures Prefix(o, n + 1) == Put(Prefix(o, n), o.keys[n], o.m[o.keys[n]])
  {
    var p, k := Prefix(o, n), o.keys[n];
    assert k !in p.keys;
    assert o.keys[..n + 1] == o.keys[..n] + [k];
    assert Prefix(o, n + 1).m == p.m[k := o.m[k]];
  }

  lemma {:induction false} PrefixFromEntries<V>(o: OMap<V>, n: nat)
    requires n <= |o.keys|
    ensures FromEntries(Entries(o)[..n]) == Prefix(o, n)
  {
    if n != 0 {
      var es := Entries(o)[..n];
      assert es[..n - 1] == Entries(o)[..n - 1];
      PrefixFromEntries(o, n - 1);
      PrefixStep(o, n - 1);
    }
  }

  /** Writing a map out as entries and reading it back is the identity, order included. */
  lemma EntriesRoundTrip<V>(o: OMap<V>)
    ensures FromEntries(Entries(o)) == o
  {
    PrefixFromEntries(o, |o.keys|);
    assert Entries(o)[..|o.keys|] == Entries(o);
    assert o.keys[..|o.keys|] == o.keys;
    assert Prefix(o, |o.keys|).m == o.m;
  }
}
