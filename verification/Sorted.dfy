/** Binary search over a sorted sequence, and the slices it delimits. */
module Sorted {

  /** The elements that satisfy the test come first. */
  ghost predicate IsCut<T>(s: seq<T>, below: T -> bool, k: int) {
    0 <= k <= |s| && forall i | 0 <= i < |s| :: below(s[i]) <==> i < k
  }

  /** The bisection of the source's libraries: the number of leading elements that satisfy the test. */
  method Bisect<T>(s: seq<T>, below: T -> bool) returns (k: nat)
    requires forall i, j | 0 <= i < j < |s| :: below(s[j]) ==> below(s[i])
    ensures IsCut(s, below, k)
  {
    var lo, hi := 0, |s|;
    while lo < hi
      invariant 0 <= lo <= hi <= |s|
      invariant forall i | 0 <= i < lo :: below(s[i])
      invariant forall i | hi <= i < |s| :: !below(s[i])
    {
      var mid := (lo + hi) / 2;
      if below(s[mid]) {
        lo := mid + 1;
      } else {
        hi := mid;
      }
    }
    return lo;
  }

  function Filter<T(!new)>(s: seq<T>, p: T -> bool): (r: seq<T>)
    ensures |r| <= |s|
    ensures forall x :: x in r <==> x in s && p(x)
  {
    if s == [] then [] else (if p(s[0]) then [s[0]] else []) + Filter(s[1..], p)
  }

  lemma {:induction false} FilterAppend<T(!new)>(s: seq<T>, t: seq<T>, p: T -> bool)
    ensures Filter(s + t, p) == Filter(s, p) + Filter(t, p)
  {
    if s == [] {
      assert s + t == t;
    } else {
      assert (s + t)[1..] == s[1..] + t;
      FilterAppend(s[1..], t, p);
    }
  }

  lemma SliceOfTail<T>(s: seq<T>, a: int, b: int)
    requires 0 <= a <= b <= |s| && b > 0
    ensures s[a..b] == if a > 0 then s[1..][a - 1..b - 1] else [s[0]] + s[1..][0..b - 1]
  {
    if a > 0 {
      assert s[a..b] == s[1..][a - 1..b - 1];
    } else {
      assert s[0..b] == [s[0]] + s[1..][0..b - 1];
    }
  }

  /** A test that holds exactly between two positions selects the slice between them. */
  lemma {:induction false} FilterIsSlice<T(!new)>(s: seq<T>, p: T -> bool, a: int, b: int)
    requires 0 <= a <= |s| && 0 <= b <= |s|
    requires forall i | 0 <= i < |s| :: p(s[i]) <==> a <= i < b
    ensures Filter(s, p) == if a <= b then s[a..b] else []
  {
    if s != [] {
      var rest := s[1..];
      assert forall i | 0 <= i < |rest| :: rest[i] == s[i + 1];
      FilterIsSlice(rest, p, if a > 0 then a - 1 else 0, if b > 0 then b - 1 else 0);
      if a <= b && b > 0 {
        SliceOfTail(s, a, b);
      }
    }
  }

  function Reversed<T>(s: seq<T>): (r: seq<T>)
    ensures |r| == |s| && forall i | 0 <= i < |s| :: r[i] == s[|s| - 1 - i]
  {
    if s == [] then [] else Reversed(s[1..]) + [s[0]]
  }
}
