/**
 The sparse array type with its insertion cursor, used as a ring buffer by
 ARRING, and the bounded log that a ring of fixed size is.
 */
module Ring {
  import opened Arithmetic
  import opened Bytes
  import opened Options
  import opened Sorted

  /** The slots, the insertion cursor, and the indices in the order of their last insertion. */
  datatype State = State(data: map<int, Bytes>, cursor: int, order: seq<int>)

  const EMPTY := State(map[], 0, [])

  // ---------- specification of the operations ----------

  function Without(order: seq<int>, index: int): (r: seq<int>)
    ensures forall x :: x in r <==> x in order && x != index
  {
    if order == [] then []
    else (if order[0] == index then [] else [order[0]]) + Without(order[1..], index)
  }

  function Below(order: seq<int>, size: int): (r: seq<int>)
    ensures forall x :: x in r <==> x in order && x < size
  {
    if order == [] then []
    else (if order[0] >= size then [] else [order[0]]) + Below(order[1..], size)
  }

  function RingPut(s: State, size: int, v: Bytes): State
    requires size > 0
  {
    var i := s.cursor % size;
    State(s.data[i := v], s.cursor + 1, Without(s.order, i) + [i])
  }

  function RingPutAll(s: State, size: int, vals: seq<Bytes>): State
    requires size > 0
  {
    if vals == [] then s else RingPut(RingPutAll(s, size, vals[..|vals| - 1]), size, vals[|vals| - 1])
  }

  function Truncated(s: State, size: int): State {
    s.(data := map k | k in s.data && k < size :: s.data[k], order := Below(s.order, size))
  }

  /** ARRING: slots beyond the size are dropped first. */
  function ArringSpec(s: State, size: int, vals: seq<Bytes>): State
    requires size > 0
  {
    RingPutAll(if exists k :: k in s.data && k >= size then Truncated(s, size) else s, size, vals)
  }

  /** The indices that record an insertion are slots in use. */
  predicate Valid(s: State) {
    forall t | 0 <= t < |s.order| :: s.order[t] in s.data
  }

  lemma PutKeepsValid(s: State, size: int, v: Bytes)
    requires Valid(s) && size > 0
    ensures Valid(RingPut(s, size, v))
  {
    var t := RingPut(s, size, v);
    forall u | 0 <= u < |t.order| ensures t.order[u] in t.data {
      var x := t.order[u];
      assert x in Without(s.order, s.cursor % size) || x == s.cursor % size;
      if x in s.order {
        var w :| 0 <= w < |s.order| && s.order[w] == x;
      }
    }
  }

  /** The slice the source takes: all but the last count when count is not positive. */
  function Recent(existing: seq<int>, count: int): seq<int> {
    if count >= |existing| then existing
    else if count > 0 then existing[|existing| - count..]
    else if -count <= |existing| then existing[-count..]
    else []
  }

  function ValuesAt(s: State, indices: seq<int>): seq<Bytes>
    requires forall t | 0 <= t < |indices| :: indices[t] in s.data
  {
    seq(|indices|, t requires 0 <= t < |indices| => s.data[indices[t]])
  }

  // ---------- what the operations do ----------

  /** Both drop indices from the order and keep the others as they come. */
  lemma {:induction false} OrderIsFiltered(order: seq<int>, index: int, size: int)
    ensures Without(order, index) == Filter(order, (x: int) => x != index)
    ensures Below(order, size) == Filter(order, (x: int) => x < size)
  {
    if order != [] {
      OrderIsFiltered(order[1..], index, size);
    }
  }

  /** Dropping the slots from the size on leaves the others, and the cursor, as they were. */
  lemma TruncatedResult(s: State, size: int, k: int)
    ensures
      var t := Truncated(s, size);
      && t.cursor == s.cursor && t.order == Filter(s.order, (x: int) => x < size)
      && (k in t.data <==> k in s.data && k < size) && (k in t.data ==> t.data[k] == s.data[k])
  {
    OrderIsFiltered(s.order, 0, size);
  }

  /** The slot that the j-th value comes to. */
  function SlotOf(cursor: int, size: int, j: int): int
    requires size > 0
  {
    (cursor + j) % size
  }

  /** The j-th value is the last one that is put into slot i. */
  ghost predicate IsLastInto(cursor: int, size: int, vals: seq<Bytes>, i: int, j: int)
    requires size > 0
  {
    0 <= j < |vals| && SlotOf(cursor, size, j) == i && forall k | j < k < |vals| :: SlotOf(cursor, size, k) != i
  }

  /** A slot holds the last of the values that came round to it, or what it held. */
  ghost predicate HasPut(before: map<int, Bytes>, after: map<int, Bytes>, cursor: int, size: int, vals: seq<Bytes>, i: int)
    requires size > 0
  {
    && (forall j | IsLastInto(cursor, size, vals, i, j) :: i in after && after[i] == vals[j])
    && ((forall j | 0 <= j < |vals| :: SlotOf(cursor, size, j) != i) ==>
          (i in after <==> i in before) && (i in after ==> after[i] == before[i]))
  }

  lemma PutOneMore(before: map<int, Bytes>, after: map<int, Bytes>, cursor: int, size: int, vals: seq<Bytes>, v: Bytes, i: int)
    requires size > 0 && HasPut(before, after, cursor, size, vals, i)
    ensures HasPut(before, after[SlotOf(cursor, size, |vals|) := v], cursor, size, vals + [v], i)
  {
    var more := vals + [v];
    if SlotOf(cursor, size, |vals|) != i {
      forall j | IsLastInto(cursor, size, more, i, j) ensures IsLastInto(cursor, size, vals, i, j) {
      }
    }
  }

  lemma {:induction false} PutAllResult(s: State, size: int, vals: seq<Bytes>, i: int)
    requires size > 0
    ensures
      var t := RingPutAll(s, size, vals);
      t.cursor == s.cursor + |vals| && HasPut(s.data, t.data, s.cursor, size, vals, i)
  {
    if vals != [] {
      var init, last := vals[..|vals| - 1], vals[|vals| - 1];
      PutAllResult(s, size, init, i);
      PutOneMore(s.data, RingPutAll(s, size, init).data, s.cursor, size, init, last, i);
      assert vals == init + [last];
    }
  }

  /**
   ARRING on any array: a slot holds the last of the values that came round to
   it, or what it held; a slot beyond the size goes.
   */
  lemma ArringResult(s: State, size: int, vals: seq<Bytes>, i: int)
    requires size > 0
    ensures
      var t := ArringSpec(s, size, vals);
      t.cursor == s.cursor + |vals| && HasPut(map k | k in s.data && k < size :: s.data[k], t.data, s.cursor, size, vals, i)
  {
    var kept := map k | k in s.data && k < size :: s.data[k];
    if exists k :: k in s.data && k >= size {
      PutAllResult(Truncated(s, size), size, vals, i);
    } else {
      PutAllResult(s, size, vals, i);
      assert kept == s.data;
    }
  }

  // ---------- the array object ----------

  class Array {
    var data: map<int, Bytes>
    var cursor: int
    var order: seq<int>

    constructor ()
      ensures Abs() == EMPTY
    {
      data, cursor, order := map[], 0, [];
    }

    function Abs(): State
      reads this
    {
      State(data, cursor, order)
    }

    method Set(index: int, value: Bytes) returns (isNew: bool)
      modifies this
      ensures Abs() == old(Abs()).(data := old(data)[index := value])
      ensures isNew == (index !in old(data))
    {
      isNew := index !in data;
      data := data[index := value];
    }

    method Delete(index: int) returns (deleted: bool)
      modifies this
      ensures deleted == (index in old(data))
      ensures Abs() == if deleted then old(Abs()).(data := old(data) - {index}, order := Without(old(order), index))
                       else old(Abs())
    {
      if index in data {
        data := data - {index};
        order := Without(order, index);
        return true;
      }
      return false;
    }

    method TruncateAt(size: int)
      requires Valid(Abs())
      modifies this
      ensures Abs() == Truncated(old(Abs()), size) && Valid(Abs())
    {
      var keys := set k | k in data && k >= size;
      ghost var all := keys;
      while keys != {}
        invariant keys <= all
        invariant data == old(data) - (all - keys) && cursor == old(cursor)
        invariant Below(order, size) == Below(old(order), size)
        invariant forall x | x in order :: x in data
        decreases keys
      {
        var k :| k in keys;
        BelowWithout(order, size, k);
        assert all - (keys - {k}) == (all - keys) + {k};
        var _ := Delete(k);
        keys := keys - {k};
      }
      BelowOfSmall(order, size);
    }

    method RecordInsert(index: int)
      modifies this
      ensures Abs() == old(Abs()).(order := Without(old(order), index) + [index])
    {
      order := Without(order, index);
      order := order + [index];
    }

    /** ARRING; the answer is None when the size is refused, else the last slot written. */
    method Arring(size: int, vals: seq<Bytes>) returns (last: Option<int>)
      requires Valid(Abs()) && vals != []
      modifies this
      ensures last.None? <==> size <= 0
      ensures Valid(Abs())
      ensures last.None? ==> Abs() == old(Abs())
      ensures last.Some? ==>
                && Abs() == ArringSpec(old(Abs()), size, vals)
                && last.value == (cursor - 1) % size
    {
      if size <= 0 {
        return None;
      }
      var beyond := set k | k in data && k >= size;
      if beyond != {} {
        TruncateAt(size);
      } else {
        assert forall k :: k in data && k >= size ==> k in beyond;
      }
      ghost var start := Abs();
      var lastIdx := cursor % size;
      for i := 0 to |vals|
        invariant Abs() == RingPutAll(start, size, vals[..i]) && Valid(Abs())
        invariant i > 0 ==> lastIdx == (cursor - 1) % size
      {
        PutKeepsValid(Abs(), size, vals[i]);
        var idx := cursor % size;
        var _ := Set(idx, vals[i]);
        RecordInsert(idx);
        lastIdx := idx;
        cursor := cursor + 1;
        assert vals[..i + 1][..i] == vals[..i];
      }
      assert vals[..|vals|] == vals;
      return Some(lastIdx);
    }

    method LastItems(count: int) returns (items: seq<Bytes>)
      requires Valid(Abs())
      ensures items == ValuesAt(Abs(), Recent(order, count))
    {
      var existing: seq<int> := [];
      for t := 0 to |order|
        invariant existing == order[..t]
      {
        if order[t] in data {
          existing := existing + [order[t]];
        }
      }
      assert existing == order;
      var recent := Recent(existing, count);
      items := [];
      for t := 0 to |recent|
        invariant |items| == t && forall u | 0 <= u < t :: recent[u] in data && items[u] == data[recent[u]]
      {
        items := items + [data[recent[t]]];
      }
    }
  }

  lemma {:induction false} BelowWithout(order: seq<int>, size: int, k: int)
    requires k >= size
    ensures Below(Without(order, k), size) == Below(order, size)
  {
    if order != [] {
      BelowWithout(order[1..], size, k);
      var rest := Without(order[1..], k);
      if order[0] == k {
        assert Without(order, k) == rest && Below(order, size) == Below(order[1..], size);
      } else {
        assert Without(order, k) == [order[0]] + rest;
        assert Without(order, k)[1..] == rest;
      }
    }
  }

  lemma {:induction false} BelowOfSmall(order: seq<int>, size: int)
    requires forall x | x in order :: x < size
    ensures Below(order, size) == order
  {
    if order != [] {
      assert order[0] in order && forall x | x in order[1..] :: x in order;
      BelowOfSmall(order[1..], size);
    }
  }

  // ---------- a ring of fixed size is a bounded log ----------

  /** Each of the last values of the log is in the slot its number leads to, and no other slot is in use. */
  ghost predicate HoldsLog(data: map<int, Bytes>, size: int, log: seq<Bytes>)
    requires size > 0
  {
    var m := |log|;
    var w := Min(m, size);
    && (forall i :: i in data <==> 0 <= i < w)
    && (forall j | m - w <= j < m :: j % size in data && data[j % size] == log[j])
  }

  /** The slots of the last w of m insertions, in order. */
  ghost predicate IsOrder(order: seq<int>, size: int, m: int, w: int)
    requires size > 0
  {
    |order| == w && forall t | 0 <= t < w :: order[t] == (m - w + t) % size
  }

  /** After the values of log, in this order, were put into a new array: the state it must be in. */
  ghost predicate IsRing(s: State, size: int, log: seq<Bytes>)
    requires size > 0
  {
    s.cursor == |log| && HoldsLog(s.data, size, log) && IsOrder(s.order, size, |log|, Min(|log|, size))
  }

  lemma CloseIndicesDiffer(j: int, k: int, size: int)
    requires size > 0 && 0 < k - j < size
    ensures j % size != k % size
  {
    if j % size == k % size {
      assert k - j == (k / size - j / size) * size;
      SmallMultiple(k / size - j / size, size);
    }
  }

  lemma SameSlot(j: int, size: int)
    requires size > 0
    ensures (j + size) % size == j % size && (0 <= j < size ==> j % size == j)
  {
    var q, r := j / size, j % size;
    assert j + size == (q + 1) * size + r;
    var q', r' := (j + size) / size, (j + size) % size;
    assert (q + 1 - q') * size == r' - r;
    SmallMultiple(q + 1 - q', size);
    if 0 <= j < size {
      assert q * size == j - r;
      SmallMultiple(q, size);
    }
  }

  lemma {:induction false} WithoutAbsent(order: seq<int>, x: int)
    requires x !in order
    ensures Without(order, x) == order
  {
    if order != [] {
      WithoutAbsent(order[1..], x);
    }
  }

  lemma PutBeforeWrap(s: State, size: int, log: seq<Bytes>, v: Bytes)
    requires size > 0 && IsRing(s, size, log) && |log| < size
    ensures IsRing(RingPut(s, size, v), size, log + [v])
  {
    var m := |log|;
    SameSlot(m, size);
    forall t | 0 <= t < m ensures s.order[t] == t && t % size == t {
      SameSlot(t, size);
    }
    WithoutAbsent(s.order, m);
  }

  lemma OrderAfterWrap(order: seq<int>, size: int, m: int)
    requires size > 0 && m >= size && IsOrder(order, size, m, size)
    ensures IsOrder(Without(order, m % size) + [m % size], size, m + 1, size)
  {
    var i := m % size;
    SameSlot(m - size, size);
    assert order[0] == i;
    forall t | 1 <= t < size ensures order[t] != i {
      CloseIndicesDiffer(m - size + t, m, size);
    }
    assert order == [i] + order[1..] && i !in order[1..];
    WithoutAbsent(order[1..], i);
    assert Without(order, i) == order[1..];
  }

  lemma DataAfterWrap(data: map<int, Bytes>, size: int, log: seq<Bytes>, v: Bytes)
    requires size > 0 && |log| >= size && HoldsLog(data, size, log)
    ensures HoldsLog(data[|log| % size := v], size, log + [v])
  {
    var m, i := |log|, |log| % size;
    assert 0 <= i < size;
    forall j | m + 1 - size <= j < m
      ensures j % size in data && data[i := v][j % size] == (log + [v])[j]
    {
      CloseIndicesDiffer(j, m, size);
    }
  }

  lemma PutAfterWrap(s: State, size: int, log: seq<Bytes>, v: Bytes)
    requires size > 0 && IsRing(s, size, log) && |log| >= size
    ensures IsRing(RingPut(s, size, v), size, log + [v])
  {
    OrderAfterWrap(s.order, size, |log|);
    DataAfterWrap(s.data, size, log, v);
  }

  lemma {:induction false} PutAllKeepsRing(s: State, size: int, log: seq<Bytes>, vals: seq<Bytes>)
    requires size > 0 && IsRing(s, size, log)
    ensures IsRing(RingPutAll(s, size, vals), size, log + vals)
  {
    if vals == [] {
      assert log + vals == log;
    } else {
      var init, v := vals[..|vals| - 1], vals[|vals| - 1];
      PutAllKeepsRing(s, size, log, init);
      assert log + vals == (log + init) + [v];
      if |log + init| < size {
        PutBeforeWrap(RingPutAll(s, size, init), size, log + init, v);
      } else {
        PutAfterWrap(RingPutAll(s, size, init), size, log + init, v);
      }
    }
  }

  /** Several ARRING calls of one size on a new array. */
  function ArringRun(size: int, calls: seq<seq<Bytes>>): State
    requires size > 0
  {
    if calls == [] then EMPTY else ArringSpec(ArringRun(size, calls[..|calls| - 1]), size, calls[|calls| - 1])
  }

  function Flattened(calls: seq<seq<Bytes>>): seq<Bytes> {
    if calls == [] then [] else Flattened(calls[..|calls| - 1]) + calls[|calls| - 1]
  }

  /** However the values are spread over calls, the array is the ring of their log. */
  lemma {:induction false} RunIsRing(size: int, calls: seq<seq<Bytes>>)
    requires size > 0
    ensures IsRing(ArringRun(size, calls), size, Flattened(calls))
  {
    if calls != [] {
      var init := calls[..|calls| - 1];
      RunIsRing(size, init);
      PutAllKeepsRing(ArringRun(size, init), size, Flattened(init), calls[|calls| - 1]);
    }
  }

  /** A slot holds the latest value whose insertion number is the slot's modulo the size. */
  lemma SlotHoldsLatest(s: State, size: int, log: seq<Bytes>, j: nat)
    requires size > 0 && IsRing(s, size, log) && j < |log|
    requires forall k | j < k < |log| :: k % size != j % size
    ensures j % size in s.data && s.data[j % size] == log[j]
  {
    if j + size < |log| {
      SameSlot(j, size);
      assert false;
    }
  }

  /** ARLASTITEMS on a ring: the values of the slots are the last ones of the log, oldest first. */
  lemma LastItemsAreLastOfLog(s: State, size: int, log: seq<Bytes>, count: int)
    requires size > 0 && IsRing(s, size, log) && count >= 1
    ensures Valid(s)
    ensures forall t | 0 <= t < |Recent(s.order, count)| :: Recent(s.order, count)[t] in s.data
    ensures ValuesAt(s, Recent(s.order, count)) == log[|log| - Min(count, Min(|log|, size))..]
  {
  }

  /** The slice is the end of the list: as long as the count says, or shorter by as much as it is below zero. */
  lemma RecentIsEnd(existing: seq<int>, count: int)
    ensures
      var n := if count > 0 then Min(count, |existing|) else Max(0, |existing| + count);
      Recent(existing, count) == existing[|existing| - n..]
  {
  }

  /** The latest insertions a count asks for: none if it is not positive, at most all. */
  function Wanted(existing: seq<int>, count: int): seq<int> {
    existing[|existing| - Max(0, Min(count, |existing|))..]
  }

  /**
   The items are those the count asks for if and only if the count is positive
   or so far below zero that the slice is empty: 0 yields everything, and -1
   everything but the oldest.
   */
  lemma LastItemsCountIff(existing: seq<int>, count: int)
    ensures Recent(existing, count) == Wanted(existing, count) <==> count >= 1 || count <= -|existing|
    ensures |Recent(existing, count)| == Max(0, Min(count, |existing|)) <==> count >= 1 || count <= -|existing|
  {
  }
}
