/** Python slices, where a negative position counts from the end. */
module Slices {
  import opened Arithmetic

  /** s[:k]. */
  function Take<T>(s: seq<T>, k: int): seq<T> {
    if k >= 0 then s[..Min(k, |s|)] else if |s| + k >= 0 then s[..|s| + k] else []
  }

  /** s[k:]. */
  function Drop<T>(s: seq<T>, k: int): (r: seq<T>)
    ensures |r| <= |s|
  {
    if k >= 0 then s[Min(k, |s|)..] else if |s| + k >= 0 then s[|s| + k..] else s
  }

  /** The two slices at one position are the sequence; the first has as many elements as asked for, or leaves as many out. */
  lemma SlicesMeet<T>(s: seq<T>, k: int)
    ensures Take(s, k) + Drop(s, k) == s
    ensures |Take(s, k)| == if k < 0 then Max(|s| + k, 0) else Min(k, |s|)
  {
  }
}
