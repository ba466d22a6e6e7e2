/** The order of strings, `a < b`, whatever their characters are: rank gives a character's place. */
module Lexicographic {
  ghost predicate Ranks<T(!new)>(rank: T -> int) {
    forall x, y :: rank(x) == rank(y) ==> x == y
  }

  predicate Less<T(==)>(a: seq<T>, b: seq<T>, rank: T -> int) {
    b != [] && (a == [] || rank(a[0]) < rank(b[0]) || (rank(a[0]) == rank(b[0]) && Less(a[1..], b[1..], rank)))
  }

  lemma {:induction false} Trichotomy<T(!new)>(a: seq<T>, b: seq<T>, rank: T -> int)
    requires Ranks(rank)
    ensures !(Less(a, b, rank) && Less(b, a, rank))
    ensures a != b ==> Less(a, b, rank) || Less(b, a, rank)
    ensures a == b ==> !Less(a, b, rank)
  {
    if a != [] && b != [] && rank(a[0]) == rank(b[0]) {
      Trichotomy(a[1..], b[1..], rank);
      assert a == [a[0]] + a[1..] && b == [b[0]] + b[1..];
    }
  }

  lemma {:induction false} Transitive<T(!new)>(a: seq<T>, b: seq<T>, c: seq<T>, rank: T -> int)
    requires Less(a, b, rank) && Less(b, c, rank)
    ensures Less(a, c, rank)
  {
    if a != [] && rank(a[0]) == rank(b[0]) == rank(c[0]) {
      Transitive(a[1..], b[1..], c[1..], rank);
    }
  }

  /** a is a proper prefix of b, or they agree up to position i where a has the smaller character. */
  ghost predicate FirstDiffers<T(!new)>(a: seq<T>, b: seq<T>, rank: T -> int, i: nat) {
    i <= |a| && i < |b| && a[..i] == b[..i] && (i == |a| || rank(a[i]) < rank(b[i]))
  }

  /** The order is decided at the first position where the two differ. */
  lemma {:induction false} LessMeaning<T(!new)>(a: seq<T>, b: seq<T>, rank: T -> int)
    requires Ranks(rank)
    ensures Less(a, b, rank) <==> exists i: nat :: FirstDiffers(a, b, rank, i)
  {
    if a != [] && b != [] && rank(a[0]) == rank(b[0]) {
      LessMeaning(a[1..], b[1..], rank);
      if Less(a, b, rank) {
        var i: nat :| FirstDiffers(a[1..], b[1..], rank, i);
        assert a[..i + 1] == [a[0]] + a[1..][..i] && b[..i + 1] == [b[0]] + b[1..][..i];
        assert FirstDiffers(a, b, rank, i + 1);
      }
      if i: nat :| FirstDiffers(a, b, rank, i) {
        assert i > 0;
        assert a[1..][..i - 1] == a[..i][1..] && b[1..][..i - 1] == b[..i][1..];
        assert FirstDiffers(a[1..], b[1..], rank, i - 1);
      }
    } else if Less(a, b, rank) {
      assert FirstDiffers(a, b, rank, 0);
    } else if i: nat :| FirstDiffers(a, b, rank, i) {
      if i > 0 { SameHead(a, b, i); }
    }
  }

  lemma SameHead<T>(a: seq<T>, b: seq<T>, i: nat)
    requires 0 < i <= |a| && i <= |b| && a[..i] == b[..i]
    ensures a[0] == b[0]
  {
    assert a[0] == a[..i][0] == b[..i][0];
  }
}
