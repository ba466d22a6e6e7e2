/** `Array.prototype.sort`: the stable sort by a comparator. */
module Sorting {
  ghost predicate TotalPreorder<T(!new)>(le: (T, T) -> bool) {
    && (forall a, b :: le(a, b) || le(b, a))
    && (forall a, b, c :: le(a, b) && le(b, c) ==> le(a, c))
  }

  ghost predicate Antisymmetric<T(!new)>(le: (T, T) -> bool) {
    forall a, b :: le(a, b) && le(b, a) ==> a == b
  }

  ghost predicate SortedBy<T>(s: seq<T>, le: (T, T) -> bool) {
    forall i, j :: 0 <= i < j < |s| ==> le(s[i], s[j])
  }

  function Insert<T>(x: T, s: seq<T>, le: (T, T) -> bool): (r: seq<T>)
    ensures multiset(r) == multiset(s) + multiset{x}
    ensures |r| == |s| + 1
  {
    if s == [] then [x]
    else if le(x, s[0]) then [x] + s
    else
      assert s == [s[0]] + s[1..];
      [s[0]] + Insert(x, s[1..], le)
  }

  /** Equal elements keep their order: an element goes before those that came after it. */
  function Sort<T>(s: seq<T>, le: (T, T) -> bool): (r: seq<T>)
    ensures multiset(r) == multiset(s)
    ensures |r| == |s|
  {
    if s == [] then []
    else
      assert s == [s[0]] + s[1..];
      Insert(s[0], Sort(s[1..], le), le)
  }

  lemma {:induction false} InsertSorted<T(!new)>(x: T, s: seq<T>, le: (T, T) -> bool)
    requires TotalPreorder(le) && SortedBy(s, le)
    ensures SortedBy(Insert(x, s, le), le)
  {
    if s != [] {
      if !le(x, s[0]) {
        var t := Insert(x, s[1..], le);
        InsertSorted(x, s[1..], le);
        forall j | 0 <= j < |t| ensures le(s[0], t[j]) {
          assert t[j] in multiset(t);
          assert t[j] == x || t[j] in s[1..];
        }
      } else {
        forall j | 0 <= j < |s| ensures le(x, s[j]) {
          assert j == 0 || le(s[0], s[j]);
        }
      }
    }
  }

  lemma {:induction false} SortSorts<T(!new)>(s: seq<T>, le: (T, T) -> bool)
    requires TotalPreorder(le)
    ensures SortedBy(Sort(s, le), le)
  {
    if s != [] {
      SortSorts(s[1..], le);
      InsertSorted(s[0], Sort(s[1..], le), le);
    }
  }

  lemma HeadIsLeast<T(!new)>(s: seq<T>, le: (T, T) -> bool, x: T)
    requires TotalPreorder(le) && x in s
    ensures Sort(s, le) != [] && le(Sort(s, le)[0], x)
  {
    SortSorts(s, le);
    var t := Sort(s, le);
    assert x in multiset(t);
    var j :| 0 <= j < |t| && t[j] == x;
    assert le(x, x);
  }

  lemma LeastFirst<T(!new)>(s: seq<T>, t: seq<T>, le: (T, T) -> bool)
    requires SortedBy(s, le) && multiset(s) == multiset(t) && s != [] && t != []
    ensures s[0] == t[0] || le(s[0], t[0])
  {
    assert t[0] in multiset(s);
    var j :| 0 <= j < |s| && s[j] == t[0];
    assert j == 0 || le(s[0], s[j]);
  }

  lemma DropFirst<T>(s: seq<T>)
    requires s != []
    ensures multiset(s[1..]) == multiset(s) - multiset{s[0]}
  {
    assert s == [s[0]] + s[1..];
  }

  /** Two sorted arrangements of the same elements are the same list. */
  lemma {:induction false} SortedUnique<T(!new)>(s: seq<T>, t: seq<T>, le: (T, T) -> bool)
    requires Antisymmetric(le) && SortedBy(s, le) && SortedBy(t, le) && multiset(s) == multiset(t)
    ensures s == t
  {
    assert |s| == |multiset(s)| == |multiset(t)| == |t|;
    if s != [] {
      LeastFirst(s, t, le);
      LeastFirst(t, s, le);
      DropFirst(s);
      DropFirst(t);
      SortedUnique(s[1..], t[1..], le);
      assert s == [s[0]] + s[1..] && t == [t[0]] + t[1..];
    }
  }

  /** Sorting by an order that ties nothing forgets the order of the input. */
  lemma SortForgetsOrder<T(!new)>(s: seq<T>, t: seq<T>, le: (T, T) -> bool)
    requires TotalPreorder(le) && Antisymmetric(le) && multiset(s) == multiset(t)
    ensures Sort(s, le) == Sort(t, le)
  {
    SortSorts(s, le);
    SortSorts(t, le);
    SortedUnique(Sort(s, le), Sort(t, le), le);
  }

  /** The order by le, and by tie where le ties. */
  ghost predicate SortedThen<T>(s: seq<T>, le: (T, T) -> bool, tie: (T, T) -> bool) {
    forall i, j :: 0 <= i < j < |s| ==> le(s[i], s[j]) && (le(s[j], s[i]) ==> tie(s[i], s[j]))
  }

  lemma HeadThen<T(!new)>(h: T, t: seq<T>, le: (T, T) -> bool, tie: (T, T) -> bool)
    requires SortedThen(t, le, tie) && forall y :: y in t ==> le(h, y) && (le(y, h) ==> tie(h, y))
    ensures SortedThen([h] + t, le, tie)
  {
  }

  lemma {:induction false} InsertIsStable<T(!new)>(x: T, s: seq<T>, le: (T, T) -> bool, tie: (T, T) -> bool)
    requires TotalPreorder(le) && SortedThen(s, le, tie) && forall y :: y in s ==> tie(x, y)
    ensures SortedThen(Insert(x, s, le), le, tie)
  {
    if s == [] {
    } else if le(x, s[0]) {
      forall y | y in s ensures le(x, y) {
        assert y == s[0] || le(s[0], y);
      }
      HeadThen(x, s, le, tie);
    } else {
      var t := Insert(x, s[1..], le);
      InsertIsStable(x, s[1..], le, tie);
      forall y | y in t ensures le(s[0], y) && (le(y, s[0]) ==> tie(s[0], y)) {
        assert y in multiset(t);
        assert y == x || y in s[1..];
      }
      hide SortedThen;
      HeadThen(s[0], t, le, tie);
    }
  }

  /** Elements that the order ties stay in the order they came in. */
  lemma {:induction false} SortIsStable<T(!new)>(s: seq<T>, le: (T, T) -> bool, tie: (T, T) -> bool)
    requires TotalPreorder(le) && SortedBy(s, tie)
    ensures SortedThen(Sort(s, le), le, tie)
  {
    if s != [] {
      SortIsStable(s[1..], le, tie);
      var t := Sort(s[1..], le);
      forall y | y in t ensures tie(s[0], y) {
        assert y in multiset(t);
        assert y in multiset(s[1..]);
      }
      InsertIsStable(s[0], t, le, tie);
    }
  }
}
