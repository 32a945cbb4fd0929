/**
 The dynamic program behind the LCS command: the length table, the direction
 table and the traceback, proved against the definition of a longest common
 subsequence.
 */
module Lcs {

  import opened Bytes

  /** x can be obtained from a by deleting elements. */
  ghost predicate IsSubsequence(x: seq<Byte>, a: seq<Byte>)
    decreases |a|
  {
    if x == [] then true
    else if a == [] then false
    else
      || (x[|x| - 1] == a[|a| - 1] && IsSubsequence(x[..|x| - 1], a[..|a| - 1]))
      || IsSubsequence(x, a[..|a| - 1])
  }

  ghost predicate IsCommon(x: seq<Byte>, a: seq<Byte>, b: seq<Byte>) {
    IsSubsequence(x, a) && IsSubsequence(x, b)
  }

  ghost predicate IsLongestCommon(x: seq<Byte>, a: seq<Byte>, b: seq<Byte>) {
    && IsCommon(x, a, b)
    && forall y :: IsCommon(y, a, b) ==> |y| <= |x|
  }

  /** The recurrence that the tables are filled by, for the prefixes of length i and j. */
  ghost function Best(a: seq<Byte>, b: seq<Byte>, i: nat, j: nat): nat
    requires i <= |a| && j <= |b|
    decreases i + j
  {
    if i == 0 || j == 0 then 0
    else if a[i - 1] == b[j - 1] then Best(a, b, i - 1, j - 1) + 1
    else if Best(a, b, i, j - 1) >= Best(a, b, i - 1, j) then Best(a, b, i, j - 1)
    else Best(a, b, i - 1, j)
  }

  lemma {:induction false} SubsequenceDropLast(x: seq<Byte>, a: seq<Byte>)
    requires x != [] && IsSubsequence(x, a)
    ensures IsSubsequence(x[..|x| - 1], a[..|a| - 1])
    decreases |a|
  {
    var a' := a[..|a| - 1];
    if !(x[|x| - 1] == a[|a| - 1] && IsSubsequence(x[..|x| - 1], a')) {
      SubsequenceDropLast(x, a');
    }
  }

  /** No common subsequence of two prefixes is longer than the recurrence says. */
  lemma {:induction false} CommonIsBounded(x: seq<Byte>, a: seq<Byte>, b: seq<Byte>, i: nat, j: nat)
    requires i <= |a| && j <= |b|
    requires IsCommon(x, a[..i], b[..j])
    ensures |x| <= Best(a, b, i, j)
    decreases i + j
  {
    if x != [] {
      assert a[..i][..i - 1] == a[..i - 1] && b[..j][..j - 1] == b[..j - 1];
      if a[i - 1] == b[j - 1] {
        SubsequenceDropLast(x, a[..i]);
        SubsequenceDropLast(x, b[..j]);
        CommonIsBounded(x[..|x| - 1], a, b, i - 1, j - 1);
      } else if x[|x| - 1] == a[i - 1] {
        CommonIsBounded(x, a, b, i, j - 1);
      } else {
        CommonIsBounded(x, a, b, i - 1, j);
      }
    }
  }

  lemma {:induction false} SubsequenceCons(x: seq<Byte>, a: seq<Byte>, e: Byte)
    requires IsSubsequence(x, a)
    ensures IsSubsequence([e] + x, [e] + a)
    ensures IsSubsequence(x, [e] + a)
    decreases |a|
  {
    if a == [] {
      assert ([e] + a)[..|[e] + a| - 1] == [];
      assert ([e] + x)[..|[e] + x| - 1] == [];
    } else {
      var a' := a[..|a| - 1];
      assert ([e] + a)[..|[e] + a| - 1] == [e] + a';
      if x != [] && x[|x| - 1] == a[|a| - 1] && IsSubsequence(x[..|x| - 1], a') {
        SubsequenceCons(x[..|x| - 1], a', e);
        assert ([e] + x)[..|[e] + x| - 1] == [e] + x[..|x| - 1];
      } else {
        SubsequenceCons(x, a', e);
      }
    }
  }

  lemma {:induction false} SkipPrefix(x: seq<Byte>, a: seq<Byte>, k: nat)
    requires k <= |a| && IsSubsequence(x, a[k..])
    ensures IsSubsequence(x, a)
    decreases k
  {
    if k == 0 {
      assert a[0..] == a;
    } else {
      assert a[k - 1..] == [a[k - 1]] + a[k..];
      SubsequenceCons(x, a[k..], a[k - 1]);
      SkipPrefix(x, a, k - 1);
    }
  }

  /** The direction stored in a cell leads to a cell the traceback may move to. */
  ghost predicate GoodDirection(s1: seq<Byte>, s2: seq<Byte>, i: nat, j: nat, d: int)
    requires 1 <= i <= |s1| && 1 <= j <= |s2|
  {
    if s1[i - 1] == s2[j - 1] then d == 0
    else if d == 2 then Best(s1, s2, i, j) == Best(s1, s2, i - 1, j)
    else d == 1 && Best(s1, s2, i, j) == Best(s1, s2, i, j - 1)
  }

  /** The cells of the rows above r, and those of row r left of column c, are right. */
  ghost predicate Filled(s1: seq<Byte>, s2: seq<Byte>, opt: array2<int>, pi: array2<int>, r: nat, c: nat)
    reads opt, pi
  {
    && opt.Length0 == pi.Length0 == |s1| + 1
    && opt.Length1 == pi.Length1 == |s2| + 1
    && (forall i, j {:trigger opt[i, j]} | 0 <= i <= |s1| && 0 <= j <= |s2| && (i == 0 || j == 0 || i < r || (i == r && j < c)) ::
          opt[i, j] == Best(s1, s2, i, j))
    && (forall i, j {:trigger pi[i, j]} | 1 <= i <= |s1| && 1 <= j <= |s2| && (i < r || (i == r && j < c)) ::
          GoodDirection(s1, s2, i, j, pi[i, j]))
  }

  method LongestCommonSubsequence(s1: seq<Byte>, s2: seq<Byte>) returns (length: int, result: seq<Byte>)
    ensures length == |result|
    ensures IsLongestCommon(result, s1, s2)
  {
    var l1, l2 := |s1|, |s2|;
    var opt := new int[l1 + 1, l2 + 1]((_, _) => 0);
    var pi := new int[l1 + 1, l2 + 1]((_, _) => 0);
    FillTables(s1, s2, opt, pi);
    length := opt[l1, l2];
    result := TraceBack(s1, s2, opt, pi);
    assert s1[..l1] == s1 && s2[..l2] == s2;
    forall y | IsCommon(y, s1, s2) ensures |y| <= |result| {
      CommonIsBounded(y, s1, s2, l1, l2);
    }
  }

  method FillTables(s1: seq<Byte>, s2: seq<Byte>, opt: array2<int>, pi: array2<int>)
    requires opt != pi && Filled(s1, s2, opt, pi, 1, 1)
    modifies opt, pi
    ensures Filled(s1, s2, opt, pi, |s1| + 1, 1)
  {
    for r := 1 to |s1| + 1
      invariant Filled(s1, s2, opt, pi, r, 1)
    {
      for c := 1 to |s2| + 1
        invariant Filled(s1, s2, opt, pi, r, c)
      {
        if s1[r - 1] == s2[c - 1] {
          opt[r, c] := opt[r - 1, c - 1] + 1;
          pi[r, c] := 0;
        } else if opt[r, c - 1] >= opt[r - 1, c] {
          opt[r, c] := opt[r, c - 1];
          pi[r, c] := 1;
        } else {
          opt[r, c] := opt[r - 1, c];
          pi[r, c] := 2;
        }
      }
    }
  }

  method TraceBack(s1: seq<Byte>, s2: seq<Byte>, opt: array2<int>, pi: array2<int>) returns (result: seq<Byte>)
    requires Filled(s1, s2, opt, pi, |s1| + 1, 1)
    ensures IsCommon(result, s1, s2)
    ensures |result| == Best(s1, s2, |s1|, |s2|)
  {
    var r, c := |s1|, |s2|;
    result := [];
    while r > 0 && c > 0
      invariant 0 <= r <= |s1| && 0 <= c <= |s2|
      invariant IsCommon(result, s1[r..], s2[c..])
      invariant Best(s1, s2, r, c) + |result| == Best(s1, s2, |s1|, |s2|)
    {
      assert GoodDirection(s1, s2, r, c, pi[r, c]);
      assert s1[r - 1..] == [s1[r - 1]] + s1[r..];
      assert s2[c - 1..] == [s2[c - 1]] + s2[c..];
      SubsequenceCons(result, s1[r..], s1[r - 1]);
      SubsequenceCons(result, s2[c..], s2[c - 1]);
      if pi[r, c] == 0 {
        result := [s1[r - 1]] + result;
        r, c := r - 1, c - 1;
      } else if pi[r, c] == 2 {
        r := r - 1;
      } else {
        c := c - 1;
      }
    }
    SkipPrefix(result, s1, r);
    SkipPrefix(result, s2, c);
  }
}
