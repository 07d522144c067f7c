// The C library's qsort. C11 section 7.22.5.2 asks for a comparator that orders the elements
// consistently and leaves the order of equal elements open, so the contract says "some ordered
// permutation" and no caller may rely on more.
module Sorting {

  ghost predicate Ordered<T>(s: seq<T>, key: T -> int) {
    forall i, j | 0 <= i < j < |s| :: key(s[i]) <= key(s[j])
  }

  ghost predicate Distinct<T>(s: seq<T>) {
    forall i, j | 0 <= i < j < |s| :: s[i] != s[j]
  }

  ghost predicate SortedBy<T>(s: seq<T>, compare: (T, T) -> int) {
    forall i, j | 0 <= i < j < |s| :: compare(s[i], s[j]) <= 0
  }

  // compare orders the elements of s: with opposite signs either way round, and transitively.
  ghost predicate Consistent<T>(s: seq<T>, compare: (T, T) -> int) {
    && (forall x, y | x in s && y in s :: compare(x, y) < 0 <==> compare(y, x) > 0)
    && (forall x, y, z | x in s && y in s && z in s ::
          compare(x, y) <= 0 && compare(y, z) <= 0 ==> compare(x, z) <= 0)
  }

  lemma ConsistentPart<T>(s: seq<T>, part: seq<T>, compare: (T, T) -> int)
    requires Consistent(s, compare) && forall x | x in part :: x in s
    ensures Consistent(part, compare)
  {
  }

  lemma SortedCons<T>(x: T, s: seq<T>, compare: (T, T) -> int)
    requires SortedBy(s, compare) && forall y | y in s :: compare(x, y) <= 0
    ensures SortedBy([x] + s, compare)
  {
  }

  function Insert<T>(x: T, s: seq<T>, compare: (T, T) -> int): (r: seq<T>)
    requires SortedBy(s, compare) && Consistent([x] + s, compare)
    ensures SortedBy(r, compare) && multiset(r) == multiset{x} + multiset(s)
    decreases |s|
  {
    if s == [] then [x]
    else
      assert s == [s[0]] + s[1..];
      if compare(x, s[0]) <= 0 then
        HeadLeast(x, s, compare);
        SortedCons(x, s, compare);
        [x] + s
      else
        ConsistentPart([x] + s, [x] + s[1..], compare);
        var rest := Insert(x, s[1..], compare);
        InsertedAfter(x, s, rest, compare);
        SortedCons(s[0], rest, compare);
        [s[0]] + rest
  }

  lemma HeadLeast<T>(x: T, s: seq<T>, compare: (T, T) -> int)
    requires SortedBy(s, compare) && Consistent([x] + s, compare) && s != [] && compare(x, s[0]) <= 0
    ensures forall y | y in s :: compare(x, y) <= 0
  {
    assert s[0] in [x] + s && x in [x] + s;
    forall y | y in s ensures compare(x, y) <= 0 {
      assert y in [x] + s;
    }
  }

  lemma InsertedAfter<T>(x: T, s: seq<T>, rest: seq<T>, compare: (T, T) -> int)
    requires SortedBy(s, compare) && Consistent([x] + s, compare) && s != [] && compare(x, s[0]) > 0
    requires multiset(rest) == multiset{x} + multiset(s[1..])
    ensures forall y | y in rest :: compare(s[0], y) <= 0
  {
    assert s[0] in [x] + s && x in [x] + s;
    forall y | y in rest ensures compare(s[0], y) <= 0 {
      assert y in multiset(rest);
      if y != x {
        assert y in multiset(s[1..]);
      }
    }
  }

  function Sort<T>(s: seq<T>, compare: (T, T) -> int): (r: seq<T>)
    requires Consistent(s, compare)
    ensures SortedBy(r, compare) && multiset(r) == multiset(s)
    decreases |s|
  {
    if s == [] then []
    else
      assert s == [s[0]] + s[1..];
      ConsistentPart(s, s[1..], compare);
      var rest := Sort(s[1..], compare);
      ConsistentAgain(s, rest, compare);
      Insert(s[0], rest, compare)
  }

  lemma ConsistentAgain<T>(s: seq<T>, rest: seq<T>, compare: (T, T) -> int)
    requires Consistent(s, compare) && s != [] && multiset(rest) == multiset(s[1..])
    ensures Consistent([s[0]] + rest, compare)
  {
    assert s == [s[0]] + s[1..];
    SameElements(s, [s[0]] + rest);
    ConsistentPart(s, [s[0]] + rest, compare);
  }

  lemma SameElements<T>(s: seq<T>, p: seq<T>)
    requires multiset(s) == multiset(p)
    ensures forall x :: x in p <==> x in s
  {
    forall x ensures x in p <==> x in s {
      assert x in p <==> x in multiset(p);
      assert x in s <==> x in multiset(s);
    }
  }

  method QsortBy<T>(a: array<T>, compare: (T, T) -> int)
    requires Consistent(a[..], compare)
    modifies a
    ensures SortedBy(a[..], compare)
    ensures multiset(a[..]) == multiset(old(a[..]))
  {
    var sorted := Sort(a[..], compare);
    assert |sorted| == a.Length by {
      assert |multiset(sorted)| == |multiset(a[..])|;
    }
    forall i | 0 <= i < a.Length {
      a[i] := sorted[i];
    }
    assert a[..] == sorted;
  }

  // qsort with a comparator that orders by one integer of each element.
  method Qsort<T>(a: array<T>, key: T -> int)
    modifies a
    ensures Ordered(a[..], key)
    ensures multiset(a[..]) == multiset(old(a[..]))
  {
    QsortBy(a, (x, y) => key(x) - key(y));
  }

  lemma {:induction false} CountAtMostOne<T>(s: seq<T>, x: T)
    requires Distinct(s)
    ensures multiset(s)[x] <= 1
  {
    if s == [] {
    } else {
      CountAtMostOne(s[1..], x);
      assert s == [s[0]] + s[1..];
      if x == s[0] {
        assert x !in s[1..];
      }
    }
  }

  // A permutation of a duplicate-free sequence has no duplicates.
  lemma PermutationDistinct<T>(s: seq<T>, p: seq<T>)
    requires Distinct(s) && multiset(p) == multiset(s)
    ensures Distinct(p) && |p| == |s|
  {
    assert |multiset(p)| == |multiset(s)|;
    forall i, j | 0 <= i < j < |p| ensures p[i] != p[j] {
      CountAtMostOne(s, p[i]);
      assert p == p[..j] + p[j..];
      assert p[i] in multiset(p[..j]) && p[j] in multiset(p[j..]) by {
        assert p[..j][i] == p[i] && p[j..][0] == p[j];
      }
    }
  }

  function Map<T, U>(s: seq<T>, f: T -> U): (r: seq<U>)
    ensures |r| == |s| && forall i | 0 <= i < |s| :: r[i] == f(s[i])
  {
    seq(|s|, i requires 0 <= i < |s| => f(s[i]))
  }

  function Without<T>(s: seq<T>, k: nat): (r: seq<T>)
    requires k < |s|
    ensures |r| == |s| - 1
    ensures forall i | 0 <= i < |r| :: r[i] == s[if i < k then i else i + 1]
  {
    seq(|s| - 1, i requires 0 <= i < |s| - 1 => s[if i < k then i else i + 1])
  }

  lemma WithoutMultiset<T>(s: seq<T>, k: nat)
    requires k < |s|
    ensures multiset(s) == multiset(Without(s, k)) + multiset{s[k]}
  {
    assert Without(s, k) == s[..k] + s[k + 1..];
    assert s == s[..k] + ([s[k]] + s[k + 1..]);
  }

  lemma MapWithout<T, U>(s: seq<T>, k: nat, f: T -> U)
    requires k < |s|
    ensures multiset(Map(s, f)) == multiset(Map(Without(s, k), f)) + multiset{f(s[k])}
  {
    assert Map(Without(s, k), f) == Without(Map(s, f), k);
    WithoutMultiset(Map(s, f), k);
  }

  // Permuting the records permutes what is read off them.
  lemma {:induction false} MapPermutation<T, U>(s: seq<T>, p: seq<T>, f: T -> U)
    requires multiset(s) == multiset(p)
    ensures multiset(Map(s, f)) == multiset(Map(p, f))
    decreases |s|
  {
    if s == [] {
      assert p == [] by { assert |p| == |multiset(p)|; }
    } else {
      var k := IndexIn(s[0], p);
      WithoutMultiset(s, 0);
      WithoutMultiset(p, k);
      assert multiset(Without(s, 0)) == multiset(s) - multiset{s[0]};
      assert multiset(Without(p, k)) == multiset(p) - multiset{s[0]};
      MapPermutation(Without(s, 0), Without(p, k), f);
      MapWithout(s, 0, f);
      MapWithout(p, k, f);
    }
  }

  lemma IndexIn<T>(x: T, p: seq<T>) returns (k: nat)
    requires x in multiset(p)
    ensures k < |p| && p[k] == x
  {
    k :| 0 <= k < |p| && p[k] == x;
  }
}
