// Sums over the program counters of all threads: the counting arguments and the termination
// measures of the protocols.
module Tally {

  function Bit(b: bool): nat {
    if b then 1 else 0
  }

  function Sum<T>(s: seq<T>, weight: T -> nat): nat {
    if s == [] then 0 else weight(s[0]) + Sum(s[1..], weight)
  }

  // One thread moves from s[i] to x.
  lemma {:induction false} SumUpdate<T>(s: seq<T>, i: nat, x: T, weight: T -> nat)
    requires i < |s|
    ensures Sum(s[i := x], weight) + weight(s[i]) == Sum(s, weight) + weight(x)
  {
    if i > 0 {
      SumUpdate(s[1..], i - 1, x, weight);
      assert s[i := x][1..] == s[1..][i - 1 := x];
    } else {
      assert s[i := x][1..] == s[1..];
    }
  }

  lemma {:induction false} SumBound<T>(s: seq<T>, weight: T -> nat, bound: nat)
    requires forall i | 0 <= i < |s| :: weight(s[i]) <= bound
    ensures Sum(s, weight) <= bound * |s|
  {
    if s == [] {
    } else {
      SumBound(s[1..], weight, bound);
    }
  }

  // Several threads move at once, none of them away from the goal.
  lemma {:induction false} SumMonotone<T>(s: seq<T>, r: seq<T>, weight: T -> nat)
    requires |s| == |r| && forall i | 0 <= i < |s| :: weight(r[i]) <= weight(s[i])
    ensures Sum(r, weight) <= Sum(s, weight)
    ensures (exists i :: 0 <= i < |s| && weight(r[i]) < weight(s[i])) ==> Sum(r, weight) < Sum(s, weight)
  {
    if s == [] {
    } else {
      SumMonotone(s[1..], r[1..], weight);
      if i :| 0 <= i < |s| && weight(r[i]) < weight(s[i]) {
        assert i > 0 ==> weight(r[1..][i - 1]) < weight(s[1..][i - 1]);
      }
    }
  }

  lemma {:induction false} SumAtMost<T>(s: seq<T>, low: T -> nat, high: T -> nat)
    requires forall i | 0 <= i < |s| :: low(s[i]) <= high(s[i])
    ensures Sum(s, low) <= Sum(s, high)
  {
    if s == [] {
    } else {
      SumAtMost(s[1..], low, high);
    }
  }

  lemma {:induction false} SumIncludes<T>(s: seq<T>, i: nat, weight: T -> nat)
    requires i < |s|
    ensures weight(s[i]) <= Sum(s, weight)
  {
    if i == 0 {
    } else {
      SumIncludes(s[1..], i - 1, weight);
    }
  }

  lemma {:induction false} SumZero<T>(s: seq<T>, weight: T -> nat)
    requires forall i | 0 <= i < |s| :: weight(s[i]) == 0
    ensures Sum(s, weight) == 0
  {
    if s == [] {
    } else {
      SumZero(s[1..], weight);
    }
  }

  lemma {:induction false} SumSplits<T>(s: seq<T>, a: T -> nat, b: T -> nat, whole: T -> nat)
    requires forall i | 0 <= i < |s| :: whole(s[i]) == a(s[i]) + b(s[i])
    ensures Sum(s, whole) == Sum(s, a) + Sum(s, b)
  {
    if s == [] {
    } else {
      SumSplits(s[1..], a, b, whole);
    }
  }
}
