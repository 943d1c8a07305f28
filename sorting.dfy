/**
 * What `sort.Slice` and `sort.Strings` promise: the slice ends up as a permutation
 * of its old contents in which no element sorts before an earlier one. `sort.Slice`
 * is not stable, so the order among elements with equal keys is left open.
 */
module Sorting {
  import opened ByteOrder

  /** No later element's key sorts before an earlier one's. */
  predicate SortedBy<T>(s: seq<T>, key: T -> Key)
  {
    forall i, j :: 0 <= i < j < |s| ==> !KeyLess(key(s[j]), key(s[i]))
  }

  /** Elements with equal keys are equal, so no tie can be broken two ways. */
  predicate KeyInjective<T(==)>(s: seq<T>, key: T -> Key)
  {
    forall x, y :: x in s && y in s && key(x) == key(y) ==> x == y
  }

  lemma InjectiveUnderPermutation<T>(a: seq<T>, b: seq<T>, key: T -> Key)
    requires multiset(a) == multiset(b)
    requires KeyInjective(a, key)
    ensures KeyInjective(b, key)
  {
    forall x | x in b ensures x in a {
      assert x in multiset(b);
    }
  }

  /** `x` placed before the first element of `s` that does not sort before it. */
  function Insert<T>(x: T, s: seq<T>, key: T -> Key): seq<T>
  {
    if s == [] || !KeyLess(key(s[0]), key(x)) then [x] + s
    else [s[0]] + Insert(x, s[1..], key)
  }

  /** A reference sort (insertion sort), used to name "the" sorted order where it is unique. */
  function SortBy<T(==)>(s: seq<T>, key: T -> Key): (r: seq<T>)
    ensures SortedBy(r, key)
    ensures multiset(r) == multiset(s)
  {
    if s == [] then []
    else
      var rest := SortBy(s[1..], key);
      InsertSorted(s[0], rest, key);
      assert s == [s[0]] + s[1..];
      Insert(s[0], rest, key)
  }

  lemma {:induction false} InsertSorted<T>(x: T, s: seq<T>, key: T -> Key)
    requires SortedBy(s, key)
    ensures SortedBy(Insert(x, s, key), key)
    ensures multiset(Insert(x, s, key)) == multiset(s) + multiset{x}
  {
    if s == [] || !KeyLess(key(s[0]), key(x)) {
      InsertFront(x, s, key);
    } else {
      InsertSorted(x, s[1..], key);
      InsertBehindHead(x, s, key);
    }
  }

  /** `x` goes in front when the head does not sort before it. */
  lemma InsertFront<T>(x: T, s: seq<T>, key: T -> Key)
    requires SortedBy(s, key)
    requires s == [] || !KeyLess(key(s[0]), key(x))
    ensures SortedBy([x] + s, key)
  {
    var r := [x] + s;
    forall i, j | 0 <= i < j < |r|
      ensures !KeyLess(key(r[j]), key(r[i]))
    {
      if i == 0 && j > 1 {
        KeyNotLessTransitive(key(x), key(s[0]), key(s[j - 1]));
      }
    }
  }

  /** Behind a head that sorts before `x`, a sorted insertion into the tail keeps the whole sorted. */
  lemma InsertBehindHead<T>(x: T, s: seq<T>, key: T -> Key)
    requires SortedBy(s, key) && s != [] && KeyLess(key(s[0]), key(x))
    requires SortedBy(Insert(x, s[1..], key), key)
    requires multiset(Insert(x, s[1..], key)) == multiset(s[1..]) + multiset{x}
    ensures SortedBy(Insert(x, s, key), key)
    ensures multiset(Insert(x, s, key)) == multiset(s) + multiset{x}
  {
    var t := Insert(x, s[1..], key);
    assert Insert(x, s, key) == [s[0]] + t;
    TailNotBeforeHead(x, s, t, key);
    ConsSorted(s[0], t, key);
    assert s == [s[0]] + s[1..];
  }

  /** Nothing in the tail with `x` inserted sorts before the head. */
  lemma TailNotBeforeHead<T>(x: T, s: seq<T>, t: seq<T>, key: T -> Key)
    requires SortedBy(s, key) && s != [] && KeyLess(key(s[0]), key(x))
    requires multiset(t) == multiset(s[1..]) + multiset{x}
    ensures forall j :: 0 <= j < |t| ==> !KeyLess(key(t[j]), key(s[0]))
  {
    forall j | 0 <= j < |t|
      ensures !KeyLess(key(t[j]), key(s[0]))
    {
      assert t[j] in multiset(t);
      if t[j] == x {
        KeyLessAsymmetric(key(s[0]), key(x));
      } else {
        assert t[j] in multiset(s[1..]);
        var k :| 0 <= k < |s[1..]| && s[1..][k] == t[j];
        assert s[k + 1] == t[j];
      }
    }
  }

  /** A head that sorts no later than anything in a sorted tail gives a sorted sequence. */
  lemma ConsSorted<T>(h: T, t: seq<T>, key: T -> Key)
    requires SortedBy(t, key)
    requires forall j :: 0 <= j < |t| ==> !KeyLess(key(t[j]), key(h))
    ensures SortedBy([h] + t, key)
  {
    var r := [h] + t;
    forall i, j | 0 <= i < j < |r|
      ensures !KeyLess(key(r[j]), key(r[i]))
    {
      if i == 0 {
        assert r[j] == t[j - 1];
      } else {
        assert r[i] == t[i - 1] && r[j] == t[j - 1];
      }
    }
  }

  /** The first element of a sorted sequence sorts no later than any of its elements. */
  lemma SortedHeadIsLeast<T>(s: seq<T>, x: T, key: T -> Key)
    requires SortedBy(s, key)
    requires x in multiset(s)
    ensures |s| > 0 && !KeyLess(key(x), key(s[0]))
  {
    var k :| 0 <= k < |s| && s[k] == x;
    if k == 0 {
      KeyLessIrreflexive(key(x));
    }
  }

  lemma TailsArePermutations<T>(a: seq<T>, b: seq<T>)
    requires |a| > 0 && |b| > 0 && a[0] == b[0]
    requires multiset(a) == multiset(b)
    ensures multiset(a[1..]) == multiset(b[1..])
  {
    assert a == [a[0]] + a[1..] && b == [b[0]] + b[1..];
    assert multiset(a[1..]) == multiset(a) - multiset{a[0]};
    assert multiset(b[1..]) == multiset(b) - multiset{b[0]};
  }

  /** Under an injective key the sorted order is unique: any two sorted
      permutations of the same elements are equal. */
  lemma {:induction false} SortedPermutationsEqual<T>(a: seq<T>, b: seq<T>, key: T -> Key)
    requires SortedBy(a, key) && SortedBy(b, key)
    requires multiset(a) == multiset(b)
    requires KeyInjective(a, key)
    ensures a == b
  {
    assert |a| == |multiset(a)| == |multiset(b)| == |b|;
    if |a| > 0 {
      assert a[0] in multiset(b) && b[0] in multiset(a);
      SortedHeadIsLeast(b, a[0], key);
      SortedHeadIsLeast(a, b[0], key);
      KeyLessTotal(key(a[0]), key(b[0]));
      assert a[0] in a && b[0] in a;
      TailsArePermutations(a, b);
      assert forall x :: x in a[1..] ==> x in a;
      SortedPermutationsEqual(a[1..], b[1..], key);
      assert a == [a[0]] + a[1..] && b == [b[0]] + b[1..];
    }
  }

  /** `sort.Slice(a, less)`, with `less` the strict order of `key`: sorts the
      caller's backing array in place. */
  method SortSlice<T(==)>(a: array<T>, key: T -> Key)
    modifies a
    ensures SortedBy(a[..], key)
    ensures multiset(a[..]) == multiset(old(a[..]))
  {
    var sorted := SortBy(a[..], key);
    assert |sorted| == |multiset(sorted)| == a.Length;
    forall i | 0 <= i < a.Length {
      a[i] := sorted[i];
    }
    assert a[..] == sorted;
  }
}
