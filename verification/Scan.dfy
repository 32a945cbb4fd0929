/**
 The SCAN family's stateless cursor: a bit-reversed index into the sorted keys,
 and what a full iteration returns while keys come and go.
 */
module Scan {
  import opened Arithmetic
  import opened Bytes
  import opened Options
  import opened Sorted

  // ---------- bit reversal ----------

  /** The low n bits of x in the opposite order. */
  function BitsReversed(x: int, n: nat): (r: int)
    ensures 0 <= r < Pow2(n)
    decreases n
  {
    if n == 0 then 0 else (x % 2) * Pow2(n - 1) + BitsReversed(x / 2, n - 1)
  }

  lemma HalfOfDouble(q: int, m: int)
    requires m > 0
    ensures (q * (2 * m)) / m == 2 * q
  {
    assert q * (2 * m) == (2 * q) * m;
    EuclidUnique(2 * q, 0, m);
  }

  /** result |= 1 << k, where every bit up to k is clear in result. */
  method SetBit(result: int, k: nat, ghost q: int) returns (r: int)
    requires result == q * Pow2(k + 1)
    ensures r == result + Pow2(k)
  {
    r := if (result / Pow2(k)) % 2 == 1 then result else result + Pow2(k);
    HalfOfDouble(q, Pow2(k));
  }

  lemma LoopStep(x: int, i: nat, k: nat, q: int)
    ensures x / Pow2(i + 1) == (x / Pow2(i)) / 2
    ensures q * Pow2(k + 1) == (2 * q) * Pow2(k)
    ensures q * Pow2(k + 1) + Pow2(k) == (2 * q + 1) * Pow2(k)
    ensures BitsReversed(x / Pow2(i), k + 1) == (x / Pow2(i)) % 2 * Pow2(k) + BitsReversed(x / Pow2(i + 1), k)
  {
    HalfQuotient(x, Pow2(i));
  }

  method BinReverse(x: int, bitsCount: nat) returns (result: int)
    ensures result == BitsReversed(x, bitsCount)
  {
    result := 0;
    ghost var q := 0;
    for i := 0 to bitsCount
      invariant result == q * Pow2(bitsCount - i)
      invariant result + BitsReversed(x / Pow2(i), bitsCount - i) == BitsReversed(x, bitsCount)
    {
      result, q := ReverseBit(x, i, result, bitsCount - 1 - i, q);
    }
  }

  /** One round of the loop: bit i is noted as bit k. */
  method ReverseBit(x: int, i: nat, result: int, k: nat, ghost q: int) returns (next: int, ghost q': int)
    requires result == q * Pow2(k + 1)
    ensures next == q' * Pow2(k)
    ensures next + BitsReversed(x / Pow2(i + 1), k) == result + BitsReversed(x / Pow2(i), k + 1)
  {
    LoopStep(x, i, k, q);
    if (x / Pow2(i)) % 2 == 1 {
      next := SetBit(result, k, q);
      q' := 2 * q + 1;
    } else {
      next := result;
      q' := 2 * q;
    }
  }

  lemma HalfThenQuotient(x: int, m: int)
    requires m > 0
    ensures (x / 2) / m == x / (2 * m)
  {
    var q, r := x / (2 * m), x % (2 * m);
    assert x == 2 * (q * m) + r;
    assert x / 2 == q * m + r / 2;
    EuclidUnique(q, r / 2, m);
  }

  /** Read with one bit more, a cursor stands for twice the number, and one more if its next bit is set. */
  lemma {:induction false} OneMoreBitReversed(x: int, n: nat)
    ensures BitsReversed(x, n + 1) == 2 * BitsReversed(x, n) + (x / Pow2(n)) % 2
    decreases n
  {
    if n == 0 {
      assert BitsReversed(x, 1) == (x % 2) * Pow2(0) + BitsReversed(x / 2, 0);
    } else {
      OneMoreBitReversed(x / 2, n - 1);
      HalfThenQuotient(x, Pow2(n - 1));
      assert (x % 2) * Pow2(n) == 2 * ((x % 2) * Pow2(n - 1)) by {
        assert x % 2 == 0 || x % 2 == 1;
      }
    }
  }

  lemma {:induction false} HighBitsDoNotCount(x: int, q: int, n: nat)
    ensures BitsReversed(x + q * Pow2(n), n) == BitsReversed(x, n)
    decreases n
  {
    if n > 0 {
      var t := q * Pow2(n - 1);
      assert q * Pow2(n) == 2 * t;
      assert (x + 2 * t) % 2 == x % 2 && (x + 2 * t) / 2 == x / 2 + t;
      HighBitsDoNotCount(x / 2, q, n - 1);
    }
  }

  lemma HighBitReversed(x: int, b: int, n: nat)
    requires 0 <= x < Pow2(n) && 0 <= b <= 1
    ensures BitsReversed(x + b * Pow2(n), n + 1) == 2 * BitsReversed(x, n) + b
  {
    OneMoreBitReversed(x + b * Pow2(n), n);
    HighBitsDoNotCount(x, b, n);
    EuclidUnique(b, x, Pow2(n));
  }

  /** Reversing n-bit numbers twice gives them back. */
  lemma {:induction false} ReversalIsInvolution(x: int, n: nat)
    requires 0 <= x < Pow2(n)
    ensures BitsReversed(BitsReversed(x, n), n) == x
  {
    if n > 0 {
      ReversalIsInvolution(x / 2, n - 1);
      HighBitReversed(BitsReversed(x / 2, n - 1), x % 2, n - 1);
    }
  }

  /** int.bit_length(). */
  function BitLength(x: int): nat
    decreases x < 0, if x < 0 then -x else x
  {
    if x < 0 then BitLength(-x) else if x == 0 then 0 else 1 + BitLength(x / 2)
  }

  lemma {:induction false} BitLengthIsEnough(x: nat)
    ensures x < Pow2(BitLength(x))
  {
    if x > 0 {
      BitLengthIsEnough(x / 2);
    }
  }

  /** The length is the least that will do. */
  lemma {:induction false} BitLengthIsLeast(x: nat, n: nat)
    ensures x < Pow2(n) <==> BitLength(x) <= n
    decreases n
  {
    if x == 0 {
    } else if n == 0 {
      assert Pow2(0) == 1;
    } else {
      BitLengthIsLeast(x / 2, n - 1);
      assert Pow2(n) == 2 * Pow2(n - 1);
    }
  }

  // ---------- one call ----------

  function CursorBits(count: nat): nat {
    BitLength(count - 1)
  }

  lemma {:induction false} BitLengthStep(x: nat)
    ensures BitLength(x) <= BitLength(x + 1) <= BitLength(x) + 1
  {
    if x > 0 && x % 2 == 1 {
      BitLengthStep(x / 2);
      assert (x + 1) / 2 == x / 2 + 1;
    }
  }

  /** One key more makes the cursors of a non-empty collection one bit wider, or leaves them as they are. */
  lemma WidthStep(count: nat)
    requires count >= 1
    ensures CursorBits(count + 1) == CursorBits(count) || CursorBits(count + 1) == CursorBits(count) + 1
  {
    BitLengthStep(count - 1);
  }

  predicate IsSorted(data: seq<Bytes>) {
    forall i, j | 0 <= i < j < |data| :: Less(data[i], data[j])
  }

  datatype Reply = Reply(cursor: int, page: seq<Bytes>)

  /**
   SCAN over the sorted keys; keep stands for MATCH and TYPE, which drop keys
   from a page after it is cut. None is the syntax error for a COUNT that is
   not positive.
   */
  method ScanOnce(data: seq<Bytes>, cursor: int, count: Option<int>, keep: Bytes -> bool) returns (r: Option<Reply>)
    ensures r.None? <==> count.Some? && count.value <= 0
    ensures r.Some? ==>
      var page := Page(data, cursor, if count.None? then 10 else count.value);
      r.value == Reply(page.cursor, Filter(page.page, keep))
  {
    if count.Some? && count.value <= 0 {
      return None;
    }
    var n := if count.None? then 10 else count.value;
    var bits := CursorBits(|data|);
    var start := BinReverse(cursor, bits);
    if start >= |data| {
      return Some(Reply(0, []));
    }
    var resultCursor := start + n;
    var page := data[start..Min(resultCursor, |data|)];
    var kept := KeepMatching(page, keep);
    if resultCursor >= |data| {
      resultCursor := 0;
    }
    var next := BinReverse(resultCursor, bits);
    return Some(Reply(next, kept));
  }

  lemma FilterNext(page: seq<Bytes>, i: nat, keep: Bytes -> bool)
    requires i < |page|
    ensures Filter(page[..i + 1], keep) == Filter(page[..i], keep) + if keep(page[i]) then [page[i]] else []
  {
    assert page[..i + 1] == page[..i] + [page[i]];
    FilterAppend(page[..i], [page[i]], keep);
  }

  method KeepMatching(page: seq<Bytes>, keep: Bytes -> bool) returns (kept: seq<Bytes>)
    ensures kept == Filter(page, keep)
  {
    kept := [];
    for i := 0 to |page|
      invariant kept == Filter(page[..i], keep)
    {
      FilterNext(page, i, keep);
      if keep(page[i]) {
        kept := kept + [page[i]];
      }
    }
    assert page[..|page|] == page;
  }

  /** The index a cursor stands for. */
  function IndexOf(data: seq<Bytes>, cursor: int): nat {
    BitsReversed(cursor, CursorBits(|data|))
  }

  function Page(data: seq<Bytes>, cursor: int, count: int): Reply
    requires count >= 1
  {
    var start := IndexOf(data, cursor);
    if start >= |data| then Reply(0, [])
    else
      var next := start + count;
      Reply(BitsReversed(if next >= |data| then 0 else next, CursorBits(|data|)), data[start..Min(next, |data|)])
  }

  lemma ZeroReversed(n: nat)
    ensures BitsReversed(0, n) == 0
  {
  }

  /** The returned cursor stands for the index after the page, and is 0 only after the last page. */
  lemma NextCursor(data: seq<Bytes>, cursor: int, count: int)
    requires count >= 1
    ensures
      var start, next := IndexOf(data, cursor), Page(data, cursor, count).cursor;
      && (next == 0 <==> start + count >= |data|)
      && (next != 0 ==> IndexOf(data, next) == start + count)
  {
    var next := IndexOf(data, cursor) + count;
    if next < |data| {
      CursorOfIndex(data, next);
    } else {
      ZeroReversed(CursorBits(|data|));
    }
  }

  /** An index below the number of keys is written as a cursor that stands for it. */
  lemma CursorOfIndex(data: seq<Bytes>, n: nat)
    requires 0 < n < |data|
    ensures var cursor := BitsReversed(n, CursorBits(|data|)); cursor != 0 && IndexOf(data, cursor) == n
  {
    var bits := CursorBits(|data|);
    ZeroReversed(bits);
    BitLengthIsEnough(|data| - 1);
    BitLengthIsMonotone(n, |data| - 1);
    ReversalIsInvolution(n, bits);
  }

  lemma BitLengthIsMonotone(x: nat, y: nat)
    requires x <= y
    ensures x < Pow2(BitLength(y))
  {
    BitLengthIsEnough(y);
  }

  // ---------- an iteration over fixed keys ----------

  /** The pages from a cursor until the cursor 0 comes back; call number k asks for counts(k) keys. */
  function Pages(data: seq<Bytes>, cursor: int, counts: nat -> int, k: nat): seq<Bytes>
    requires forall i :: counts(i) >= 1
    decreases |data| - Min(IndexOf(data, cursor), |data|)
  {
    var r := Page(data, cursor, counts(k));
    NextCursor(data, cursor, counts(k));
    if r.cursor == 0 then r.page else r.page + Pages(data, r.cursor, counts, k + 1)
  }

  /** What the rest of an iteration returns is exactly the keys from the cursor's index on. */
  lemma {:induction false} PagesAreTheRest(data: seq<Bytes>, cursor: int, counts: nat -> int, k: nat)
    requires forall i :: counts(i) >= 1
    ensures Pages(data, cursor, counts, k) == data[Min(IndexOf(data, cursor), |data|)..]
    decreases |data| - Min(IndexOf(data, cursor), |data|)
  {
    var start := IndexOf(data, cursor);
    var r := Page(data, cursor, counts(k));
    NextCursor(data, cursor, counts(k));
    if r.cursor != 0 {
      PagesAreTheRest(data, r.cursor, counts, k + 1);
      assert data[start..] == data[start..start + counts(k)] + data[start + counts(k)..];
    }
  }

  /** Over fixed keys, a full iteration returns the sorted keys, each once, whatever the counts. */
  lemma FullIterationReturnsAll(data: seq<Bytes>, counts: nat -> int)
    requires forall i :: counts(i) >= 1
    ensures Pages(data, 0, counts, 0) == data
  {
    PagesAreTheRest(data, 0, counts, 0);
    ZeroReversed(CursorBits(|data|));
  }

  /** The pages of a filtered iteration, as the client gets them. */
  function FilteredPages(data: seq<Bytes>, cursor: int, counts: nat -> int, k: nat, keep: Bytes -> bool): seq<Bytes>
    requires forall i :: counts(i) >= 1
    decreases |data| - Min(IndexOf(data, cursor), |data|)
  {
    var r := Page(data, cursor, counts(k));
    NextCursor(data, cursor, counts(k));
    Filter(r.page, keep) + if r.cursor == 0 then [] else FilteredPages(data, r.cursor, counts, k + 1, keep)
  }

  /** A page, and the keys that are left after it. */
  lemma PageAndRest(data: seq<Bytes>, cursor: int, count: int) returns (page: seq<Bytes>, left: seq<Bytes>)
    requires count >= 1
    ensures
      var start, r := IndexOf(data, cursor), Page(data, cursor, count);
      && page == r.page && data[Min(start, |data|)..] == page + left
      && left == if r.cursor == 0 then [] else data[Min(IndexOf(data, r.cursor), |data|)..]
  {
    NextCursor(data, cursor, count);
    var r := Page(data, cursor, count);
    page := r.page;
    left := if r.cursor == 0 then [] else data[Min(IndexOf(data, r.cursor), |data|)..];
  }

  lemma {:induction false} FilteredPagesAreTheRest(
      data: seq<Bytes>, cursor: int, counts: nat -> int, k: nat, keep: Bytes -> bool)
    requires forall i :: counts(i) >= 1
    ensures FilteredPages(data, cursor, counts, k, keep) == Filter(data[Min(IndexOf(data, cursor), |data|)..], keep)
    decreases |data| - Min(IndexOf(data, cursor), |data|)
  {
    var page, left := PageAndRest(data, cursor, counts(k));
    NextCursor(data, cursor, counts(k));
    FilterAppend(page, left, keep);
    if Page(data, cursor, counts(k)).cursor != 0 {
      FilteredPagesAreTheRest(data, Page(data, cursor, counts(k)).cursor, counts, k + 1, keep);
    }
  }

  /** With MATCH or TYPE, a full iteration over fixed keys returns exactly the keys that pass, in order. */
  lemma FilteredIterationReturnsMatches(data: seq<Bytes>, counts: nat -> int, keep: Bytes -> bool)
    requires forall i :: counts(i) >= 1
    ensures FilteredPages(data, 0, counts, 0, keep) == Filter(data, keep)
  {
    FilteredPagesAreTheRest(data, 0, counts, 0, keep);
    ZeroReversed(CursorBits(|data|));
  }

  // ---------- an iteration while keys come and go ----------

  datatype Event = Call(count: int) | Insert(key: Bytes) | Delete(key: Bytes)

  /** The keys, the client's cursor, what it has been given, the keys present throughout, and whether it is done. */
  datatype Iteration = Iteration(data: seq<Bytes>, cursor: int, returned: set<Bytes>, lasting: set<Bytes>, done: bool)

  function Begin(data: seq<Bytes>): Iteration {
    Iteration(data, 0, {}, set k | k in data, false)
  }

  /** How many keys sort before the given one. */
  function Rank(data: seq<Bytes>, key: Bytes): (r: nat)
    ensures r <= |data|
    ensures forall i | 0 <= i < r :: Less(data[i], key)
    ensures r < |data| ==> !Less(data[r], key)
  {
    if data == [] || !Less(data[0], key) then 0 else 1 + Rank(data[1..], key)
  }

  function Inserted(data: seq<Bytes>, key: Bytes): seq<Bytes> {
    var r := Rank(data, key);
    data[..r] + [key] + data[r..]
  }

  function Removed(data: seq<Bytes>, r: nat): seq<Bytes>
    requires r < |data|
  {
    data[..r] + data[r + 1..]
  }

  predicate Possible(s: Iteration, e: Event) {
    match e
    case Call(count) => count >= 1 && !s.done
    case Insert(key) => key !in s.data
    case Delete(key) => key in s.data
  }

  predicate KeepsWidth(data: seq<Bytes>, e: Event) {
    match e
    case Call(_) => true
    case Insert(_) => CursorBits(|data| + 1) == CursorBits(|data|)
    case Delete(_) => |data| > 0 && CursorBits(|data| - 1) == CursorBits(|data|)
  }

  /** The bit of the cursor that counts only when cursors become one bit wider. */
  function NextBit(data: seq<Bytes>, cursor: int): int {
    (cursor / Pow2(CursorBits(|data|))) % 2
  }

  /** Inserting before the r-th key leaves the keys still to be visited in reach. */
  predicate InsertionIsHarmless(data: seq<Bytes>, r: nat, cursor: int) {
    var start := IndexOf(data, cursor);
    || start >= |data| || CursorBits(|data| + 1) == CursorBits(|data|)
    || start + NextBit(data, cursor) <= if r <= start then 1 else 0
  }

  /** So does deleting the r-th key. */
  predicate DeletionIsHarmless(data: seq<Bytes>, r: nat, cursor: int) {
    var start := IndexOf(data, cursor);
    start >= |data| || r >= start || CursorBits(|data| - 1) < CursorBits(|data|)
  }

  predicate Harmless(s: Iteration, e: Event) {
    match e
    case Call(_) => true
    case Insert(key) => InsertionIsHarmless(s.data, Rank(s.data, key), s.cursor)
    case Delete(key) => DeletionIsHarmless(s.data, Rank(s.data, key), s.cursor)
  }

  function Advance(s: Iteration, e: Event): Iteration
    requires IsSorted(s.data) && Possible(s, e)
  {
    match e
    case Call(count) =>
      var r := Page(s.data, s.cursor, count);
      s.(cursor := r.cursor, returned := s.returned + (set k | k in r.page), done := r.cursor == 0)
    case Insert(key) => s.(data := Inserted(s.data, key))
    case Delete(key) =>
      RankOfMember(s.data, key);
      s.(data := Removed(s.data, Rank(s.data, key)), lasting := s.lasting - {key})
  }

  lemma SortedAt(data: seq<Bytes>, i: nat, j: nat)
    requires IsSorted(data) && i <= j < |data|
    ensures i == j || Less(data[i], data[j])
  {
  }

  lemma RankOfMember(data: seq<Bytes>, key: Bytes)
    requires IsSorted(data) && key in data
    ensures Rank(data, key) < |data| && data[Rank(data, key)] == key
  {
    var i :| 0 <= i < |data| && data[i] == key;
    var r := Rank(data, key);
    LessIsIrreflexive(key);
    SortedAt(data, r, i);
  }

  lemma InsertedIsSorted(data: seq<Bytes>, key: Bytes)
    requires IsSorted(data) && key !in data
    ensures IsSorted(Inserted(data, key))
  {
    var r, d := Rank(data, key), Inserted(data, key);
    forall i, j | 0 <= i < j < |d| ensures Less(d[i], d[j]) {
      if r < |data| {
        LessIsTotal(data[r], key);
      }
      if i < r && j > r {
        assert Less(data[i], data[j - 1]);
      } else if i == r {
        if j - 1 > r {
          assert Less(data[r], data[j - 1]);
          LessIsTransitive(key, data[r], data[j - 1]);
        }
      }
    }
  }

  /** Every lasting key that sorts before the cursor's index has been returned. */
  ghost predicate Covered(s: Iteration) {
    && IsSorted(s.data)
    && (forall k | k in s.lasting :: k in s.data)
    && (if s.done then s.lasting <= s.returned else PrefixReturned(s.data, IndexOf(s.data, s.cursor), s.lasting, s.returned))
  }

  /** The lasting ones of the first n keys have been returned. */
  ghost predicate PrefixReturned(data: seq<Bytes>, n: nat, lasting: set<Bytes>, returned: set<Bytes>) {
    forall i | 0 <= i < Min(n, |data|) :: data[i] in lasting ==> data[i] in returned
  }

  lemma CallCovers(s: Iteration, count: int)
    requires Covered(s) && Possible(s, Call(count))
    ensures Covered(Advance(s, Call(count)))
  {
    var start := IndexOf(s.data, s.cursor);
    var r, t := Page(s.data, s.cursor, count), Advance(s, Call(count));
    NextCursor(s.data, s.cursor, count);
    forall i | 0 <= i < Min(start + count, |s.data|) && s.data[i] in s.lasting ensures s.data[i] in t.returned {
      if i >= start {
        assert r.page[i - start] == s.data[i];
      }
    }
  }

  /** Where the cursor stands after an insertion: as before, or at twice the index. */
  lemma IndexAfterInsertion(data: seq<Bytes>, key: Bytes, cursor: int)
    requires data != []
    ensures
      var start, later := IndexOf(data, cursor), IndexOf(Inserted(data, key), cursor);
      later == if CursorBits(|data| + 1) == CursorBits(|data|) then start else 2 * start + NextBit(data, cursor)
  {
    WidthStep(|data|);
    OneMoreBitReversed(cursor, CursorBits(|data|));
  }

  /** Where it stands after a deletion: as before, or at half the index. */
  lemma IndexAfterDeletion(data: seq<Bytes>, r: nat, cursor: int)
    requires r < |data| && |data| >= 2
    ensures
      var start, later := IndexOf(data, cursor), IndexOf(Removed(data, r), cursor);
      later == if CursorBits(|data| - 1) == CursorBits(|data|) then start else start / 2
    ensures CursorBits(|data| - 1) <= CursorBits(|data|)
  {
    WidthStep(|data| - 1);
    OneMoreBitReversed(cursor, CursorBits(|data| - 1));
  }

  lemma InsertCovers(s: Iteration, key: Bytes)
    requires Covered(s) && Possible(s, Insert(key)) && Harmless(s, Insert(key))
    ensures Covered(Advance(s, Insert(key)))
  {
    var r, t := Rank(s.data, key), Advance(s, Insert(key));
    InsertedIsSorted(s.data, key);
    forall k | k in s.lasting ensures k in t.data {
      var i :| 0 <= i < |s.data| && s.data[i] == k;
      assert t.data[if i < r then i else i + 1] == k;
    }
    if !s.done && s.data != [] {
      IndexAfterInsertion(s.data, key, s.cursor);
      PrefixAfterInsertion(s.data, key, IndexOf(s.data, s.cursor), IndexOf(t.data, t.cursor), s.lasting, s.returned);
    }
  }

  lemma PrefixAfterInsertion(
      data: seq<Bytes>, key: Bytes, start: nat, later: nat, lasting: set<Bytes>, returned: set<Bytes>)
    requires key !in lasting && PrefixReturned(data, start, lasting, returned)
    requires start >= |data| || later <= if start < Rank(data, key) then start else start + 1
    ensures PrefixReturned(Inserted(data, key), later, lasting, returned)
  {
    var r, more := Rank(data, key), Inserted(data, key);
    forall i | 0 <= i < Min(later, |more|) && more[i] in lasting ensures more[i] in returned {
      assert more[i] == if i < r then data[i] else if i == r then key else data[i - 1];
    }
  }

  lemma DeleteCovers(s: Iteration, key: Bytes)
    requires Covered(s) && Possible(s, Delete(key)) && Harmless(s, Delete(key))
    ensures Covered(Advance(s, Delete(key)))
  {
    var r, t := Rank(s.data, key), Advance(s, Delete(key));
    RankOfMember(s.data, key);
    RemovedIsSorted(s.data, r);
    forall k | k in t.lasting ensures k in t.data {
      OthersStay(s.data, r, k);
    }
    if !s.done && |s.data| >= 2 {
      HarmlessDeletion(s.data, r, s.cursor);
      PrefixAfterDeletion(s.data, r, IndexOf(s.data, s.cursor), IndexOf(t.data, t.cursor), s.lasting, s.returned);
    }
  }

  lemma PrefixAfterDeletion(data: seq<Bytes>, r: nat, start: nat, later: nat, lasting: set<Bytes>, returned: set<Bytes>)
    requires r < |data| && PrefixReturned(data, start, lasting, returned)
    requires later <= start && (r < start < |data| ==> later < start)
    ensures PrefixReturned(Removed(data, r), later, lasting - {data[r]}, returned)
  {
    forall i | 0 <= i < Min(later, |data| - 1) && Removed(data, r)[i] in lasting ensures Removed(data, r)[i] in returned {
      assert Removed(data, r)[i] == data[if i < r then i else i + 1];
    }
  }

  /** A harmless deletion passes nothing that was not passed before. */
  lemma HarmlessDeletion(data: seq<Bytes>, r: nat, cursor: int)
    requires r < |data| && |data| >= 2 && DeletionIsHarmless(data, r, cursor)
    ensures
      var start, later := IndexOf(data, cursor), IndexOf(Removed(data, r), cursor);
      later <= start && (r < start < |data| ==> later < start)
  {
    IndexAfterDeletion(data, r, cursor);
  }

  lemma OthersStay(data: seq<Bytes>, r: nat, key: Bytes)
    requires r < |data| && key in data && key != data[r]
    ensures key in Removed(data, r)
  {
    var i :| 0 <= i < |data| && data[i] == key;
    assert Removed(data, r)[if i < r then i else i - 1] == key;
  }

  /** Whether each event of a run is possible when its turn comes. */
  ghost predicate AllPossible(s: Iteration, es: seq<Event>)
    requires IsSorted(s.data)
    decreases |es|
  {
    es != [] ==>
      && Possible(s, es[0])
      && (KeepsSorted(s, es[0]); AllPossible(Advance(s, es[0]), es[1..]))
  }

  lemma KeepsSorted(s: Iteration, e: Event)
    requires IsSorted(s.data) && Possible(s, e)
    ensures IsSorted(Advance(s, e).data)
  {
    match e
    case Call(_) =>
    case Insert(key) => InsertedIsSorted(s.data, key);
    case Delete(key) => RankOfMember(s.data, key);
  }

  ghost function Run(s: Iteration, es: seq<Event>): Iteration
    requires IsSorted(s.data) && AllPossible(s, es)
    decreases |es|
  {
    if es == [] then s
    else
      KeepsSorted(s, es[0]);
      Run(Advance(s, es[0]), es[1..])
  }

  ghost predicate AllHarmless(s: Iteration, es: seq<Event>)
    requires IsSorted(s.data) && AllPossible(s, es)
    decreases |es|
  {
    es != [] ==>
      && Harmless(s, es[0])
      && (KeepsSorted(s, es[0]); AllHarmless(Advance(s, es[0]), es[1..]))
  }

  ghost predicate AllKeepWidth(s: Iteration, es: seq<Event>)
    requires IsSorted(s.data) && AllPossible(s, es)
    decreases |es|
  {
    es != [] ==>
      && KeepsWidth(s.data, es[0])
      && (KeepsSorted(s, es[0]); AllKeepWidth(Advance(s, es[0]), es[1..]))
  }

  lemma {:induction false} RunCovers(s: Iteration, es: seq<Event>)
    requires Covered(s) && AllPossible(s, es) && AllHarmless(s, es)
    ensures Covered(Run(s, es))
    decreases |es|
  {
    if es != [] {
      match es[0] {
        case Call(count) => CallCovers(s, count);
        case Insert(key) => InsertCovers(s, key);
        case Delete(key) => DeleteCovers(s, key);
      }
      RunCovers(Advance(s, es[0]), es[1..]);
    }
  }

  /**
   The SCAN guarantee: as long as every insertion and deletion is harmless, a
   finished iteration has returned every key that was there throughout.
   */
  lemma FinishedIterationIsComplete(data: seq<Bytes>, es: seq<Event>)
    requires IsSorted(data) && AllPossible(Begin(data), es) && AllHarmless(Begin(data), es) && Run(Begin(data), es).done
    ensures Run(Begin(data), es).lasting <= Run(Begin(data), es).returned
  {
    ZeroReversed(CursorBits(|data|));
    RunCovers(Begin(data), es);
  }

  function Calls(es: seq<Event>): nat {
    if es == [] then 0 else Calls(es[1..]) + if es[0].Call? then 1 else 0
  }

  /** How many cursors, from the present one on, an iteration may still call with. */
  ghost function Room(s: Iteration): int {
    if s.done then 0 else Pow2(CursorBits(|s.data|)) - IndexOf(s.data, s.cursor)
  }

  lemma StepUsesRoom(s: Iteration, e: Event)
    requires IsSorted(s.data) && Possible(s, e) && KeepsWidth(s.data, e)
    ensures Room(Advance(s, e)) + (if e.Call? then 1 else 0) <= Room(s)
  {
    match e
    case Call(count) => NextCursor(s.data, s.cursor, count);
    case Insert(key) =>
    case Delete(key) => RankOfMember(s.data, key);
  }

  /** An iteration over cursors of constant width ends: there are never more calls than there are cursors. */
  lemma {:induction false} IterationEnds(s: Iteration, es: seq<Event>)
    requires IsSorted(s.data) && AllPossible(s, es) && AllKeepWidth(s, es)
    ensures Calls(es) <= if s.done then 0 else Pow2(CursorBits(|s.data|)) - IndexOf(s.data, s.cursor)
    decreases |es|
  {
    if es != [] {
      KeepsSorted(s, es[0]);
      StepUsesRoom(s, es[0]);
      IterationEnds(Advance(s, es[0]), es[1..]);
    } else {
      CursorHasRoom(s);
    }
  }

  lemma CursorHasRoom(s: Iteration)
    ensures Room(s) >= 0
  {
  }

  // ---------- runs that lose a key ----------

  lemma ShortWidths()
    ensures CursorBits(3) == 2 && CursorBits(4) == 2 && CursorBits(5) == 3
  {
    assert BitLength(1) == 1 + BitLength(0);
    assert BitLength(2) == 1 + BitLength(1) && BitLength(3) == 1 + BitLength(1) && BitLength(4) == 1 + BitLength(2);
  }

  lemma ShortReversals()
    ensures BitsReversed(0, 2) == 0 && BitsReversed(1, 2) == 2 && BitsReversed(2, 2) == 1
    ensures BitsReversed(0, 3) == 0 && BitsReversed(1, 3) == 4
  {
    assert Pow2(0) == 1 && Pow2(1) == 2 && Pow2(2) == 4;
    assert BitsReversed(0, 1) == 0 && BitsReversed(1, 1) == 1 && BitsReversed(0, 2) == 0;
  }

  lemma RunFirst(s: Iteration, e: Event, rest: seq<Event>)
    requires IsSorted(s.data) && Possible(s, e) && IsSorted(Advance(s, e).data) && AllPossible(Advance(s, e), rest)
    ensures AllPossible(s, [e] + rest) && Run(s, [e] + rest) == Run(Advance(s, e), rest)
  {
    assert ([e] + rest)[1..] == rest;
  }

  lemma RunOfOne(s: Iteration, e: Event)
    requires IsSorted(s.data) && Possible(s, e)
    ensures IsSorted(Advance(s, e).data) && AllPossible(s, [e]) && Run(s, [e]) == Advance(s, e)
  {
    KeepsSorted(s, e);
    assert AllPossible(Advance(s, e), []);
    RunFirst(s, e, []);
    assert [e] + [] == [e];
  }

  lemma RunOfTwo(s: Iteration, a: Event, b: Event)
    requires IsSorted(s.data) && Possible(s, a) && IsSorted(Advance(s, a).data) && Possible(Advance(s, a), b)
    ensures AllPossible(s, [a, b]) && Run(s, [a, b]) == Advance(Advance(s, a), b)
  {
    RunOfOne(Advance(s, a), b);
    RunFirst(s, a, [b]);
    assert [a] + [b] == [a, b];
  }

  lemma RunOfThree(s: Iteration, a: Event, b: Event, c: Event)
    requires IsSorted(s.data) && Possible(s, a)
    requires var s1 := Advance(s, a); IsSorted(s1.data) && Possible(s1, b)
    requires var s2 := Advance(Advance(s, a), b); IsSorted(s2.data) && Possible(s2, c)
    ensures AllPossible(s, [a, b, c]) && Run(s, [a, b, c]) == Advance(Advance(Advance(s, a), b), c)
  {
    RunOfTwo(Advance(s, a), b, c);
    RunFirst(s, a, [b, c]);
    assert [a] + [b, c] == [a, b, c];
  }

  /** The first call on four keys. */
  lemma FirstCall(data: seq<Bytes>, count: int)
    requires |data| == 4 && IsSorted(data) && 1 <= count <= 2
    ensures Advance(Begin(data), Call(count)) ==
            Iteration(data, if count == 1 then 2 else 1, set k | k in data[..count], set k | k in data, false)
  {
    ShortWidths();
    ShortReversals();
    assert Page(data, 0, count) == Reply(if count == 1 then 2 else 1, data[..count]);
  }

  /** A call that reaches the end. */
  lemma LastCall(s: Iteration, count: int, start: nat)
    requires !s.done && count >= 1 && IndexOf(s.data, s.cursor) == start < |s.data| <= start + count && IsSorted(s.data)
    ensures Advance(s, Call(count)).done && Advance(s, Call(count)).lasting == s.lasting
    ensures forall k | k in Advance(s, Call(count)).returned :: k in s.returned || k in s.data[start..]
  {
    ZeroReversed(CursorBits(|s.data|));
  }

  /** Four keys and one more: after two of them were returned, the insertion of a fifth hides the other two. */
  lemma InsertionLosesKeys(data: seq<Bytes>, key: Bytes, count: int)
    requires |data| == 4 && IsSorted(data) && (forall i | 0 <= i < 4 :: Less(data[i], key)) && count >= 1
    ensures
      var es := [Call(2), Insert(key), Call(count)];
      AllPossible(Begin(data), es) &&
      var s := Run(Begin(data), es);
      s.done && data[2] in s.lasting && data[2] !in s.returned && data[3] in s.lasting && data[3] !in s.returned
  {
    LessIsIrreflexive(key);
    ShortWidths();
    ShortReversals();
    FirstCall(data, 2);
    RankAtEnd(data, key);
    InsertedIsSorted(data, key);
    var s1 := Advance(Begin(data), Call(2));
    var s2 := Advance(s1, Insert(key));
    LastCall(s2, count, 4);
    forall i | 2 <= i < 4 ensures data[i] !in s1.returned && data[i] !in s2.data[4..] {
      LessIsIrreflexive(data[i]);
      assert Less(data[0], data[i]) && Less(data[1], data[i]) && Less(data[i], key);
    }
    RunOfThree(Begin(data), Call(2), Insert(key), Call(count));
  }

  lemma RankAtEnd(data: seq<Bytes>, key: Bytes)
    requires forall i | 0 <= i < |data| :: Less(data[i], key)
    ensures Rank(data, key) == |data| && Inserted(data, key) == data + [key]
  {
  }

  /** Four keys, of which one was returned: its deletion hides the next one. */
  lemma DeletionLosesKey(data: seq<Bytes>, count: int)
    requires |data| == 4 && IsSorted(data) && count >= 2
    ensures
      var es := [Call(1), Delete(data[0]), Call(count)];
      AllPossible(Begin(data), es) &&
      var s := Run(Begin(data), es);
      s.done && data[1] in s.lasting && data[1] !in s.returned
  {
    ShortWidths();
    ShortReversals();
    FirstCall(data, 1);
    RankOfFirst(data);
    RemovedIsSorted(data, 0);
    var s1 := Advance(Begin(data), Call(1));
    var s2 := Advance(s1, Delete(data[0]));
    assert s2.data == data[1..];
    LastCall(s2, count, 1);
    LessIsIrreflexive(data[1]);
    assert Less(data[0], data[1]) && Less(data[1], data[2]) && Less(data[1], data[3]);
    assert data[1] !in s1.returned && data[1] !in s2.data[1..];
    RunOfThree(Begin(data), Call(1), Delete(data[0]), Call(count));
  }

  lemma RankOfFirst(data: seq<Bytes>)
    requires data != []
    ensures Rank(data, data[0]) == 0
  {
    LessIsIrreflexive(data[0]);
  }

  // ---------- what one insertion or deletion does to the rest of an iteration ----------

  /** Every key from the cursor's index on, but the excepted one, is among the pages. */
  ghost predicate InReach(data: seq<Bytes>, except: int, pages: seq<Bytes>, start: nat) {
    forall i | start <= i < |data| && i != except :: data[i] in pages
  }

  /**
   Inserting a key leaves the keys still to be visited within reach if and only
   if cursors do not become wider, or the cursor stands so low that doubling its
   index passes nothing.
   */
  lemma InsertionKeepsReachIff(data: seq<Bytes>, key: Bytes, cursor: int, counts: nat -> int, k: nat)
    requires IsSorted(data) && key !in data && forall i :: counts(i) >= 1
    ensures InReach(data, -1, Pages(Inserted(data, key), cursor, counts, k), IndexOf(data, cursor))
            <==> InsertionIsHarmless(data, Rank(data, key), cursor)
  {
    var start, more := IndexOf(data, cursor), Inserted(data, key);
    if start < |data| {
      IndexAfterInsertion(data, key, cursor);
      InsertedIsSorted(data, key);
      PagesAreTheRest(more, cursor, counts, k);
      InsertionReach(data, key, Pages(more, cursor, counts, k), start, IndexOf(more, cursor));
    }
  }

  /** The first key still to be visited decides. */
  lemma InsertionReach(data: seq<Bytes>, key: Bytes, pages: seq<Bytes>, start: nat, later: nat)
    requires IsSorted(Inserted(data, key)) && start < |data|
    requires pages == Inserted(data, key)[Min(later, |data| + 1)..]
    ensures InReach(data, -1, pages, start) <==> later <= if start < Rank(data, key) then start else start + 1
  {
    forall i | start <= i < |data| ensures data[i] in pages <==> later <= if i < Rank(data, key) then i else i + 1 {
      ReachedAfterInsertion(data, key, later, i);
    }
    assert InReach(data, -1, pages, start) ==> data[start] in pages;
  }

  lemma ReachedAfterInsertion(data: seq<Bytes>, key: Bytes, later: nat, i: nat)
    requires IsSorted(Inserted(data, key)) && i < |data|
    ensures data[i] in Inserted(data, key)[Min(later, |data| + 1)..] <==>
            later <= if i < Rank(data, key) then i else i + 1
  {
    var j := if i < Rank(data, key) then i else i + 1;
    assert Inserted(data, key)[j] == data[i];
    SuffixReaches(Inserted(data, key), later, j);
  }

  /**
   Deleting a key leaves the others still to be visited within reach if and
   only if the cursor has not passed it, or cursors become narrower.
   */
  lemma DeletionKeepsReachIff(data: seq<Bytes>, r: nat, cursor: int, counts: nat -> int, k: nat)
    requires IsSorted(data) && r < |data| && forall i :: counts(i) >= 1
    ensures InReach(data, r, Pages(Removed(data, r), cursor, counts, k), IndexOf(data, cursor))
            <==> DeletionIsHarmless(data, r, cursor)
  {
    var start, rest := IndexOf(data, cursor), Removed(data, r);
    if start < |data| && |data| >= 2 {
      IndexAfterDeletion(data, r, cursor);
      RemovedIsSorted(data, r);
      PagesAreTheRest(rest, cursor, counts, k);
      DeletionReach(data, r, Pages(rest, cursor, counts, k), start, IndexOf(rest, cursor));
    }
  }

  lemma DeletionReach(data: seq<Bytes>, r: nat, pages: seq<Bytes>, start: nat, later: nat)
    requires r < |data| && start < |data| && IsSorted(Removed(data, r))
    requires later <= start && pages == Removed(data, r)[Min(later, |data| - 1)..]
    ensures InReach(data, r, pages, start) <==> r >= start || later < start
  {
    var rest := Removed(data, r);
    forall i | start <= i < |data| && i != r ensures data[i] in pages <==> later <= if i < r then i else i - 1 {
      var j := if i < r then i else i - 1;
      assert rest[j] == data[i];
      SuffixReaches(rest, later, j);
    }
    assert r < start && InReach(data, r, pages, start) ==> data[start] in pages;
  }

  /** Among the keys from an index on is exactly each one at that index or later. */
  lemma SuffixReaches(data: seq<Bytes>, start: nat, i: nat)
    requires IsSorted(data) && i < |data|
    ensures data[i] in data[Min(start, |data|)..] <==> start <= i
  {
    var rest := data[Min(start, |data|)..];
    if start <= i {
      assert rest[i - start] == data[i];
    } else {
      LessIsIrreflexive(data[i]);
      forall j | 0 <= j < |rest| ensures rest[j] != data[i] {
        assert Less(data[i], data[start + j]);
      }
    }
  }

  lemma RemovedIsSorted(data: seq<Bytes>, r: nat)
    requires IsSorted(data) && r < |data|
    ensures IsSorted(Removed(data, r))
  {
  }
}
