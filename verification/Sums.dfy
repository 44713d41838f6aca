/** Finite sums over sequences: the tallies the invariants are written with. */
module Sums {

  /** The sum of f over the elements of s. */
  function Sum<T>(s: seq<T>, f: T -> int): int {
    if s == [] then 0 else Sum(s[..|s|-1], f) + f(s[|s|-1])
  }

  /** Replacing one element changes the sum by the difference of the two weights. */
  lemma {:induction false} SumUpdate<T>(s: seq<T>, i: nat, x: T, f: T -> int)
    requires i < |s|
    ensures Sum(s[i := x], f) == Sum(s, f) - f(s[i]) + f(x)
  {
    var u := s[i := x];
    if i == |s| - 1 {
      assert u[..|u|-1] == s[..|s|-1];
    } else {
      assert u[..|u|-1] == s[..|s|-1][i := x];
      SumUpdate(s[..|s|-1], i, x, f);
    }
  }

  /** A sum of 0/1 weights lies between 0 and the length; the two extremes are attained
      only when every weight is 0, or every weight is 1. */
  lemma {:induction false} SumOfBits<T>(s: seq<T>, f: T -> int)
    requires forall i :: 0 <= i < |s| ==> f(s[i]) == 0 || f(s[i]) == 1
    ensures 0 <= Sum(s, f) <= |s|
    ensures Sum(s, f) == 0 <==> forall i :: 0 <= i < |s| ==> f(s[i]) == 0
    ensures Sum(s, f) == |s| <==> forall i :: 0 <= i < |s| ==> f(s[i]) == 1
  {
    if s != [] {
      var r := s[..|s|-1];
      SumOfBits(r, f);
      assert forall i :: 0 <= i < |r| ==> r[i] == s[i];
      if Sum(s, f) == 0 {
        forall i | 0 <= i < |s| ensures f(s[i]) == 0 {
          if i < |r| { assert f(r[i]) == 0; }
        }
      }
      if Sum(s, f) == |s| {
        forall i | 0 <= i < |s| ensures f(s[i]) == 1 {
          if i < |r| { assert f(r[i]) == 1; }
        }
      }
      if forall i :: 0 <= i < |s| ==> f(s[i]) == 0 {
        assert forall i :: 0 <= i < |r| ==> f(r[i]) == 0;
      }
      if forall i :: 0 <= i < |s| ==> f(s[i]) == 1 {
        assert forall i :: 0 <= i < |r| ==> f(r[i]) == 1;
      }
    }
  }

  /** A sum of non-negative weights is non-negative. */
  lemma {:induction false} SumNonNegative<T>(s: seq<T>, f: T -> int)
    requires forall i :: 0 <= i < |s| ==> 0 <= f(s[i])
    ensures 0 <= Sum(s, f)
  {
    if s != [] {
      SumNonNegative(s[..|s|-1], f);
    }
  }

  /** A sum whose weights are all zero is zero. */
  lemma {:induction false} SumZero<T>(s: seq<T>, f: T -> int)
    requires forall i :: 0 <= i < |s| ==> f(s[i]) == 0
    ensures Sum(s, f) == 0
  {
    if s != [] {
      SumZero(s[..|s|-1], f);
    }
  }

  /** The last element of a slice is summed last. */
  lemma SumSlice<T>(s: seq<T>, lo: nat, hi: nat, f: T -> int)
    requires lo < hi <= |s|
    ensures Sum(s[lo..hi], f) == Sum(s[lo..hi - 1], f) + f(s[hi - 1])
  {
    var a, b := s[lo..hi], s[lo..hi - 1];
    assert |a| == hi - lo && |b| == hi - lo - 1;
    forall i | 0 <= i < |b| ensures a[i] == b[i] {}
    assert a == b + [s[hi - 1]];
    assert a[..|a| - 1] == b;
  }
}
